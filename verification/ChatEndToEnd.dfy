/** The chat stream from the server's steps to the browser's events. */
module ChatEndToEnd {
  import opened Text
  import opened ChatFrames
  import opened ChatProducer
  import R = ChatReader
  import Json
  import Utf8

  lemma SentPrintable(thread: string, steps: seq<Step>)
    requires WellEncoded(PastOf(NOTHING, steps))
    ensures forall e | e in Run(Initial(thread), steps).sent :: Printable(e)
  {
    hide Run;
    hide Expected;
    hide Invariant;
    hide Printable;
    Reached(thread, steps);
    var s, past := Run(Initial(thread), steps), PastOf(NOTHING, steps);
    SentIsPrefix(s, past);
    StreamPrintable(thread, past, s.append);
    forall e | e in s.sent ensures Printable(e) {
      assert e in Expected(thread, past, s.append);
    }
  }

  /** Whatever the server has sent, in any state of any run, and however its bytes are cut into chunks, the browser
      recovers exactly those events and keeps nothing back. */
  lemma SentReachesReader(thread: string, steps: seq<Step>, chunks: seq<R.Chunk>)
    requires WellEncoded(PastOf(NOTHING, steps))
    requires R.Bytes(chunks) == Utf8.Encode(Frames(Run(Initial(thread), steps).sent))
    ensures R.ReadSoFar(chunks, [], "", Run(Initial(thread), steps).sent)
  {
    hide Run;
    hide R.ReadSoFar;
    hide Frames;
    SentPrintable(thread, steps);
    R.EndToEnd(Run(Initial(thread), steps).sent, chunks);
  }

  /** A browser that has received only part of the bytes has a prefix of the events sent, and has not failed. */
  lemma PartOfSentReachesReader(thread: string, steps: seq<Step>, chunks: seq<R.Chunk>)
    requires WellEncoded(PastOf(NOTHING, steps))
    requires R.Bytes(chunks) <= Utf8.Encode(Frames(Run(Initial(thread), steps).sent))
    ensures var read := ReadText(R.TextOf(chunks));
            read.ok && read.events <= Run(Initial(thread), steps).sent
  {
    hide Run;
    hide Frames;
    SentPrintable(thread, steps);
    R.PartWay(Run(Initial(thread), steps).sent, chunks);
  }

  /** Once an answer event is sent, the browser has received exactly one; it carries the encoded answer of the worker,
      which is the one in storage, and the conversation; and the delta texts are that answer's content and one blank
      line. */
  lemma AnswerReachesReader(thread: string, steps: seq<Step>, chunks: seq<R.Chunk>) returns (answer: Answer)
    requires exists e :: e in Run(Initial(thread), steps).sent && e.name == "answer"
    requires WellEncoded(PastOf(NOTHING, steps))
    requires R.Bytes(chunks) == Utf8.Encode(Frames(Run(Initial(thread), steps).sent))
    ensures PastOf(NOTHING, steps).result == Some(Answered(answer))
    ensures var s := Run(Initial(thread), steps);
            && s.stored == Some(answer) && AnswerEvent(thread, answer) in s.sent
            && R.ReadSoFar(chunks, [], "", s.sent)
            && DeltaTexts(s.sent) == answer.content + "\n\n"
            && (forall i, j | 0 <= i < |s.sent| && 0 <= j < |s.sent|
                              && s.sent[i].name == "answer" && s.sent[j].name == "answer" :: i == j)
            && (forall e | e in s.sent && e.name == "answer" ::
                  && Json.Field(e.data, "response") == Some(answer.encoded)
                  && Json.Field(e.data, "conversation_id") == Some(Json.Str(thread)))
  {
    hide Run;
    hide R.ReadSoFar;
    hide Frames;
    hide Body;
    hide Invariant;
    hide DeltaTexts;
    hide WellEncoded;
    var s, past := Run(Initial(thread), steps), PastOf(NOTHING, steps);
    var e :| e in s.sent && e.name == "answer";
    SentReachesReader(thread, steps, chunks);
    DeltasOnlyWhenStored(thread, steps, e);
    answer := s.stored.value;
    Reached(thread, steps);
    AnswerSent(s, past, e, answer);
    AnsweredDeltaTexts(thread, past.reports, answer);
    SentInOrder(thread, steps);
    forall i, j | 0 <= i < |s.sent| && 0 <= j < |s.sent| && s.sent[i].name == s.sent[j].name == "answer"
      ensures i == j
    {
      SameRank(s.sent, i, j);
    }
    forall other | other in s.sent && other.name == "answer"
      ensures Json.Field(other.data, "response") == Some(answer.encoded)
      ensures Json.Field(other.data, "conversation_id") == Some(Json.Str(thread))
    {
      DeltasOnlyWhenStored(thread, steps, other);
      AnswerPayload(thread, answer, other);
    }
  }

  lemma AnswerPayload(thread: string, answer: Answer, e: Event)
    requires e in Body(thread, answer) && e.name == "answer"
    ensures Json.Field(e.data, "response") == Some(answer.encoded)
    ensures Json.Field(e.data, "conversation_id") == Some(Json.Str(thread))
  {
    DeltaRanks(Paragraphs(answer.content));
    DeltasAre(answer.content);
    hide Deltas;
    assert Rank(e) == 3;
    assert e == AnswerEvent(thread, answer);
    Json.FieldOfTwo("response", answer.encoded, "conversation_id", Json.Str(thread), "response");
    Json.FieldOfTwo("response", answer.encoded, "conversation_id", Json.Str(thread), "conversation_id");
  }

  // ---- Conversation and progress ---------------------------------------------------------------------

  /** The texts of the progress events. */
  function ProgressTexts(events: seq<Event>): seq<string> {
    if events == [] then []
    else (if events[0].name == "progress" then [TextField(events[0], "text")] else []) + ProgressTexts(events[1..])
  }

  lemma {:induction false} ProgressTextsConcat(a: seq<Event>, b: seq<Event>)
    ensures ProgressTexts(a + b) == ProgressTexts(a) + ProgressTexts(b)
  {
    if a == [] {
      assert a + b == b;
    } else {
      assert (a + b)[1..] == a[1..] + b;
      ProgressTextsConcat(a[1..], b);
    }
  }

  lemma {:induction false} ReportTexts(reports: seq<string>)
    ensures ProgressTexts(ProgressEvents(reports)) == reports
  {
    if reports != [] {
      Json.FieldOfOne("text", Json.Str(reports[0]), "text");
      assert ProgressEvents(reports)[1..] == ProgressEvents(reports[1..]);
      ReportTexts(reports[1..]);
    }
  }

  lemma {:induction false} NoProgressTexts(events: seq<Event>)
    requires forall e | e in events :: e.name != "progress"
    ensures ProgressTexts(events) == []
  {
    if events != [] {
      assert events[0] in events;
      NoProgressTexts(events[1..]);
    }
  }

  lemma StreamTexts(thread: string, past: Past, append: Append)
    ensures ProgressTexts(Expected(thread, past, append)) == past.reports
  {
    hide ProgressTexts;
    hide BodyOf;
    var head, progress := [Conversation(thread)], ProgressEvents(past.reports);
    var rest := if past.result.None? then [] else BodyOf(thread, past.result.value, append) + [DONE];
    if past.result.Some? {
      BodyInOrder(thread, past.result.value, append);
      forall e | e in rest ensures e.name != "progress" {
        assert Rank(e) >= 2;
      }
    }
    ReportTexts(past.reports);
    NoProgressTexts(head);
    NoProgressTexts(rest);
    ProgressTextsConcat(head + progress, rest);
    ProgressTextsConcat(head, progress);
    assert [] + past.reports + [] == past.reports;
  }

  /** In any state the progress texts sent are the worker's first reports, in order, and all of them once done is sent;
      and the stream opens with the conversation's id, which no other event announces. */
  lemma ReportsReachReader(thread: string, steps: seq<Step>)
    ensures var s, past := Run(Initial(thread), steps), PastOf(NOTHING, steps);
            && ProgressTexts(s.sent) <= past.reports
            && (!NoDone(s.sent) ==> ProgressTexts(s.sent) == past.reports)
            && (s.sent != [] ==> s.sent[0].name == "conversation"
                                 && Json.Field(s.sent[0].data, "id") == Some(Json.Str(thread)))
            && forall i | 0 < i < |s.sent| :: s.sent[i].name != "conversation"
  {
    hide Run;
    hide Expected;
    hide Invariant;
    hide ProgressTexts;
    hide InOrder;
    Reached(thread, steps);
    var s, past := Run(Initial(thread), steps), PastOf(NOTHING, steps);
    SentIsPrefix(s, past);
    var stream := Expected(thread, past, s.append);
    StreamTexts(thread, past, s.append);
    assert stream == s.sent + stream[|s.sent|..];
    ProgressTextsConcat(s.sent, stream[|s.sent|..]);
    if !NoDone(s.sent) {
      CompletedShape(s, past);
    }
    SentInOrder(thread, steps);
    Json.FieldOfOne("id", Json.Str(thread), "id");
    if s.sent != [] {
      OneConversation(s.sent);
    }
  }

  lemma OneConversation(events: seq<Event>)
    requires InOrder(events) && events != [] && events[0].name == "conversation"
    ensures forall i | 0 < i < |events| :: events[i].name != "conversation"
  {
    assert Rank(events[0]) == 0;
  }

  // ---- How a stream ends -----------------------------------------------------------------------------

  /** Whatever was sent ends with an event named "done", holding no member, exactly when the task has ended and nothing
      is queued. */
  lemma DoneIff(thread: string, steps: seq<Step>)
    requires Run(Initial(thread), steps).sent != []
    ensures var s := Run(Initial(thread), steps);
            var last := s.sent[|s.sent| - 1];
            && (s.task.Ended? && s.queue == [] <==> last.name == "done")
            && (last.name == "done" ==> last.data == Json.Object([]))
  {
    hide Run;
    hide Invariant;
    hide Expected;
    Reached(thread, steps);
    var s, past := Run(Initial(thread), steps), PastOf(NOTHING, steps);
    var last := s.sent[|s.sent| - 1];
    SentIsPrefix(s, past);
    if s.task.Ended? {
      EndedStream(s, past);
    }
    if last.name == "done" {
      DonePut(s, past);
      StreamInOrder(thread, past, s.append);
      assert Expected(thread, past, s.append)[|s.sent| - 1] == last;
    }
  }

  lemma EndedStream(s: State, past: Past)
    requires Invariant(s, past) && s.task.Ended? && s.sent != []
    ensures s.sent + s.queue == Expected(s.thread, past, s.append)
    ensures var all := Expected(s.thread, past, s.append); all != [] && all[|all| - 1] == DONE
  {
    hide BodyOf;
    assert past.reports[..|past.reports|] == past.reports;
  }

  /** An error event says that the answer could not be finished or saved, and is only sent when the worker raised or the
      answer was not stored. */
  lemma ErrorSent(thread: string, steps: seq<Step>, e: Event)
    requires e in Run(Initial(thread), steps).sent && e.name == "error"
    ensures Json.Field(e.data, "message") == Some(Json.Str("I couldn't finish or save this answer. Please retry."))
    ensures var s, past := Run(Initial(thread), steps), PastOf(NOTHING, steps);
            past.result == Some(Raised(true)) || (s.append.Refused? && s.append.handled)
  {
    hide Run;
    hide Invariant;
    hide Expected;
    Reached(thread, steps);
    var s, past := Run(Initial(thread), steps), PastOf(NOTHING, steps);
    SentIsPrefix(s, past);
    assert e in Expected(thread, past, s.append);
    ErrorInStream(thread, past, s.append, e);
    Json.FieldOfOne("message", Json.Str("I couldn't finish or save this answer. Please retry."), "message");
  }

  lemma ErrorInStream(thread: string, past: Past, append: Append, e: Event)
    requires e in Expected(thread, past, append) && e.name == "error"
    ensures e == FAILURE
    ensures past.result == Some(Raised(true)) || (append.Refused? && append.handled)
  {
    hide Deltas;
    if past.result.Some? && past.result.value.Answered? && append.Kept? {
      DeltaRanks(Paragraphs(past.result.value.answer.content));
      DeltasAre(past.result.value.answer.content);
    }
  }

  /** The answer event comes after everything but done. */
  lemma AnswerSent(s: State, past: Past, e: Event, answer: Answer)
    requires Invariant(s, past) && e in s.sent && e.name == "answer" && past.result == Some(Answered(answer))
    ensures var all := [Conversation(s.thread)] + ProgressEvents(past.reports) + Body(s.thread, answer);
            AnswerEvent(s.thread, answer) in s.sent && (s.sent == all || s.sent == all + [DONE])
  {
    hide Invariant;
    hide Expected;
    SentIsPrefix(s, past);
    var stream := Expected(s.thread, past, s.append);
    var i :| 0 <= i < |s.sent| && s.sent[i] == e;
    OnlyAnswer(s.thread, past, s.append, answer, i);
    KeptStream(s.thread, past, s.append, answer);
    var all := [Conversation(s.thread)] + ProgressEvents(past.reports) + Body(s.thread, answer);
    hide Body;
    assert s.sent == stream[..|s.sent|];
    assert stream == all + [DONE];
    assert all[i] == AnswerEvent(s.thread, answer);
  }

  lemma KeptStream(thread: string, past: Past, append: Append, answer: Answer)
    requires past.result == Some(Answered(answer)) && append.Kept?
    ensures var all := [Conversation(thread)] + ProgressEvents(past.reports) + Body(thread, answer);
            && Expected(thread, past, append) == all + [DONE]
            && all[|all| - 1] == AnswerEvent(thread, answer)
  {
    hide Deltas;
  }

  lemma OnlyAnswer(thread: string, past: Past, append: Append, answer: Answer, i: nat)
    requires i < |Expected(thread, past, append)| && Expected(thread, past, append)[i].name == "answer"
    requires past.result == Some(Answered(answer))
    ensures append.Kept? && i == |Expected(thread, past, append)| - 2
  {
    hide Deltas;
    hide InOrder;
    hide Rank;
    var stream := Expected(thread, past, append);
    StreamInOrder(thread, past, append);
    assert append.Kept?;
    var last := |stream| - 2;
    assert stream[last] == AnswerEvent(thread, answer);
    SameRank(stream, i, last);
  }

  lemma SameRank(events: seq<Event>, i: nat, j: nat)
    requires InOrder(events) && i < |events| && j < |events| && events[i].name == events[j].name == "answer"
    ensures i == j
  {
    assert Rank(events[i]) == Rank(events[j]) == 3;
  }
}
