/** What the assistant's drawer makes of the events of a chat stream. */
module ChatView {
  import opened Text
  import opened ChatFrames
  import opened ChatProducer
  import Json

  /** The conversation, the last progress message, the text of the answer so far, the responses received, and whether
      an error event ended the stream. */
  datatype View = View(conversation: Option<string>, progress: string, partial: string, replies: seq<Json.Value>,
                       failed: bool)

  const THINKING := View(None, "Thinking\U{2026}", "", [], false)

  /** The drawer's callback. An error event throws, after which nothing is received. */
  function Receive(v: View, e: Event): View {
    if v.failed then v
    else if e.name == "conversation" then v.(conversation := Some(TextField(e, "id")))
    else if e.name == "progress" then v.(progress := TextField(e, "text"))
    else if e.name == "delta" then v.(partial := v.partial + TextField(e, "text"))
    else if e.name == "error" then v.(failed := true)
    else if e.name == "answer" then
      var response := Json.Field(e.data, "response");
      v.(replies := v.replies + [if response.Some? then response.value else Json.Null], partial := "")
    else v
  }

  function ReceiveAll(v: View, events: seq<Event>): View
    decreases |events|
  {
    if events == [] then v else ReceiveAll(Receive(v, events[0]), events[1..])
  }

  lemma {:induction false} ReceiveConcat(v: View, a: seq<Event>, b: seq<Event>)
    ensures ReceiveAll(v, a + b) == ReceiveAll(ReceiveAll(v, a), b)
    decreases |a|
  {
    hide Receive;
    if a == [] {
      assert a + b == b;
    } else {
      assert (a + b)[1..] == a[1..] + b;
      ReceiveConcat(Receive(v, a[0]), a[1..], b);
    }
  }

  lemma ReceiveOne(v: View, e: Event)
    ensures ReceiveAll(v, [e]) == Receive(v, e)
  {
    assert [e][1..] == [];
  }

  /** The last message reported, or the one shown before. */
  function LastReport(reports: seq<string>, before: string): string {
    if reports == [] then before else reports[|reports| - 1]
  }

  lemma {:induction false} ReceiveProgress(v: View, reports: seq<string>)
    requires !v.failed
    ensures ReceiveAll(v, ProgressEvents(reports)) == v.(progress := LastReport(reports, v.progress))
    decreases |reports|
  {
    if reports != [] {
      Json.FieldOfOne("text", Json.Str(reports[0]), "text");
      var next := Receive(v, Progress(reports[0]));
      assert next == v.(progress := reports[0]);
      ReceiveProgress(next, reports[1..]);
      assert ProgressEvents(reports)[1..] == ProgressEvents(reports[1..]);
    }
  }

  lemma {:induction false} ReceiveDeltas(v: View, events: seq<Event>)
    requires !v.failed && forall e | e in events :: e.name == "delta"
    ensures ReceiveAll(v, events) == v.(partial := v.partial + DeltaTexts(events))
    decreases |events|
  {
    if events == [] {
      assert v.partial + "" == v.partial;
    } else {
      assert events[0] in events;
      ReceiveDeltas(Receive(v, events[0]), events[1..]);
      Reassociate(v.partial, DeltaText(events[0]), DeltaTexts(events[1..]));
    }
  }

  lemma {:induction false} DeltaNames(paragraphs: seq<string>)
    ensures forall e | e in DeltaEvents(paragraphs) :: e.name == "delta"
  {
    if paragraphs != [] {
      DeltaNames(paragraphs[1..]);
    }
  }

  lemma ReceiveBody(v: View, thread: string, answer: Answer)
    requires !v.failed
    ensures ReceiveAll(v, Body(thread, answer)) == v.(replies := v.replies + [answer.encoded], partial := "")
  {
    hide DeltaEvents;
    hide ReceiveAll;
    var deltas := Deltas(answer.content);
    DeltaNames(Paragraphs(answer.content));
    ReceiveDeltas(v, deltas);
    ReceiveConcat(v, deltas, [AnswerEvent(thread, answer)]);
    var more := ReceiveAll(v, deltas);
    ReceiveOne(more, AnswerEvent(thread, answer));
    Json.FieldOfTwo("response", answer.encoded, "conversation_id", Json.Str(thread), "response");
  }

  lemma ReceiveOpening(thread: string, reports: seq<string>)
    ensures ReceiveAll(THINKING, [Conversation(thread)] + ProgressEvents(reports))
         == View(Some(thread), LastReport(reports, THINKING.progress), "", [], false)
  {
    hide ReceiveAll;
    hide ProgressEvents;
    ReceiveConcat(THINKING, [Conversation(thread)], ProgressEvents(reports));
    ReceiveOne(THINKING, Conversation(thread));
    Json.FieldOfOne("id", Json.Str(thread), "id");
    ReceiveProgress(Receive(THINKING, Conversation(thread)), reports);
  }

  lemma ReceiveFailure(v: View, handled: bool)
    requires !v.failed
    ensures ReceiveAll(v, Handled(handled)) == v.(failed := handled)
  {
    if handled {
      ReceiveOne(v, FAILURE);
    }
  }

  /** What the drawer shows once a turn is over: the conversation and the last progress message, and either the response
      the worker encoded, which is the stored one, with no partial text beside it; or an error; or, for an exception the
      server does not handle, neither. */
  lemma DrawerShows(thread: string, steps: seq<Step>)
    requires !NoDone(Run(Initial(thread), steps).sent)
    ensures var s, past := Run(Initial(thread), steps), PastOf(NOTHING, steps);
            var started := View(Some(thread), LastReport(past.reports, THINKING.progress), "", [], false);
            && past.result.Some?
            && ReceiveAll(THINKING, s.sent)
               == (match past.result.value
                   case Raised(handled) => started.(failed := handled)
                   case Answered(answer) =>
                     if s.append.Kept? then started.(replies := [answer.encoded])
                     else started.(failed := s.append.Refused? && s.append.handled))
            && (past.result.value.Answered? && s.append.Kept? ==> s.stored == Some(past.result.value.answer))
  {
    hide Run;
    hide ReceiveAll;
    hide Body;
    hide Handled;
    CompletedRun(thread, steps);
    var s, past := Run(Initial(thread), steps), PastOf(NOTHING, steps);
    var opening := [Conversation(thread)] + ProgressEvents(past.reports);
    ReceiveOpening(thread, past.reports);
    var started := ReceiveAll(THINKING, opening);
    var body := BodyOf(thread, past.result.value, s.append);
    assert s.sent == opening + body + [DONE];
    ReceiveConcat(THINKING, opening + body, [DONE]);
    ReceiveConcat(THINKING, opening, body);
    ReceiveOne(ReceiveAll(started, body), DONE);
    match past.result.value
    case Raised(handled) => ReceiveFailure(started, handled);
    case Answered(answer) =>
      if s.append.Kept? {
        ReceiveBody(started, thread, answer);
        assert [] + [answer.encoded] == [answer.encoded];
      } else {
        ReceiveFailure(started, s.append.handled);
      }
  }
}
