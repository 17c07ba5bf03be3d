/** The server's side of a chat stream: a worker reports through the event loop, a task stores and queues, a
    generator sends. */
module ChatProducer {
  import opened Text
  import opened ChatFrames
  import Json

  /** The answer as text and as JSON. */
  datatype Answer = Answer(content: string, encoded: Json.Value)

  // ---- Events ------------------------------------------------------------------------------------

  function TextEvent(name: string, text: string): Event {
    Event(name, Json.Object([Json.Member("text", Json.Str(text))]))
  }

  function Progress(text: string): Event { TextEvent("progress", text) }

  function Conversation(thread: string): Event {
    Event("conversation", Json.Object([Json.Member("id", Json.Str(thread))]))
  }

  function AnswerEvent(thread: string, a: Answer): Event {
    Event("answer", Json.Object([Json.Member("response", a.encoded), Json.Member("conversation_id", Json.Str(thread))]))
  }

  const FAILURE := Event("error", Json.Object([
    Json.Member("message", Json.Str("I couldn't finish or save this answer. Please retry."))]))

  const DONE := Event("done", Json.Object([]))

  /** Python's `split` on a blank line. */
  function Paragraphs(content: string): seq<string> { Blocks(content).0 + [Blocks(content).1] }

  function DeltaEvents(paragraphs: seq<string>): seq<Event> {
    if paragraphs == [] then [] else [TextEvent("delta", paragraphs[0] + "\n\n")] + DeltaEvents(paragraphs[1..])
  }

  function Deltas(content: string): seq<Event> { DeltaEvents(Paragraphs(content)) }

  /** The text an event carries under a key. */
  function TextField(e: Event, key: string): string {
    var v := Json.Field(e.data, key);
    if v.Some? && v.value.Str? then v.value.s else ""
  }

  /** The text a delta event carries. */
  function DeltaText(e: Event): string { if e.name == "delta" then TextField(e, "text") else "" }

  function DeltaTexts(events: seq<Event>): string {
    if events == [] then "" else DeltaText(events[0]) + DeltaTexts(events[1..])
  }

  lemma {:induction false} DeltaTextsConcat(a: seq<Event>, b: seq<Event>)
    ensures DeltaTexts(a + b) == DeltaTexts(a) + DeltaTexts(b)
  {
    if a == [] {
      assert a + b == b;
    } else {
      assert (a + b)[1..] == a[1..] + b;
      DeltaTextsConcat(a[1..], b);
    }
  }

  lemma ParagraphsFirst(content: string)
    ensures var i := Boundary(content);
            Paragraphs(content) == if i == |content| then [content] else [content[..i]] + Paragraphs(content[i + 2..])
  {
    hide Boundary;
    hide Blocks;
    hide HasSeparator;
    BlocksFirst(content);
    var i := Boundary(content);
    if i == |content| {
      Reassociate([], [], [content]);
    } else {
      var later := Blocks(content[i + 2..]);
      Reassociate([content[..i]], later.0, [later.1]);
    }
  }

  lemma DeltaTextsFirst(paragraph: string, rest: seq<string>)
    ensures DeltaTexts(DeltaEvents([paragraph] + rest)) == paragraph + "\n\n" + DeltaTexts(DeltaEvents(rest))
  {
    var head, later := TextEvent("delta", paragraph + "\n\n"), DeltaEvents(rest);
    Json.FieldOfOne("text", Json.Str(paragraph + "\n\n"), "text");
    assert ([paragraph] + rest)[1..] == rest;
    assert ([head] + later)[0] == head && ([head] + later)[1..] == later;
  }

  /** The delta texts are the content and one blank line. */
  lemma {:induction false} ParagraphsRejoin(content: string)
    ensures DeltaTexts(Deltas(content)) == content + "\n\n"
    decreases |content|
  {
    hide Boundary;
    hide Paragraphs;
    hide DeltaEvents;
    hide DeltaTexts;
    ParagraphsFirst(content);
    var i := Boundary(content);
    if i == |content| {
      DeltaTextsFirst(content, []);
      NoDeltas();
      assert [content] + [] == [content] && content + "\n\n" + "" == content + "\n\n";
    } else {
      var rest := content[i + 2..];
      ParagraphsRejoin(rest);
      DeltaTextsFirst(content[..i], Paragraphs(rest));
      assert content == content[..i] + "\n\n" + rest;
      assert content[..i] + "\n\n" + (rest + "\n\n") == content[..i] + "\n\n" + rest + "\n\n";
    }
  }

  lemma NoDeltas()
    ensures DeltaTexts(DeltaEvents([])) == ""
  {
  }

  // ---- State -------------------------------------------------------------------------------------

  /** How the worker ends: with an answer, or with an exception the task handles or not. */
  datatype Result = Answered(answer: Answer) | Raised(handled: bool)

  /** Callbacks the worker thread schedules on the event loop, in order. */
  datatype Callback = PutProgress(text: string) | Complete(result: Result)

  datatype Task =
    | Waiting                       // for the worker
    | Storing(answer: Answer)       // appending the turn
    | Streaming(answer: Answer, rest: seq<Event>)
    | Finishing(body: seq<Event>)   // in the finally clause; `body` is what was put besides progress
    | Ended(body: seq<Event>)

  datatype Generator = NotStarted | Draining | Closed

  /** How appending the turn went: it may raise with or without having kept the turn. */
  datatype Append = Untried | Kept | Refused(handled: bool, kept: bool)

  datatype State = State(
    thread: string, working: bool, ready: seq<Callback>, task: Task, queue: seq<Event>, append: Append,
    stored: Option<Answer>, stopped: bool, generator: Generator, sent: seq<Event>)

  function Initial(thread: string): State {
    State(thread, true, [], Waiting, [], Untried, None, false, NotStarted, [])
  }

  /** One atomic step. Steps that are not enabled leave the state alone. */
  datatype Step =
    | Report(text: string)            // the worker calls `progress`
    | Finish(result: Result)          // the worker returns or raises
    | RunCallback                     // the event loop runs the oldest callback
    | Stored                          // the turn is appended
    | StoreFails(handled: bool, kept: bool)   // the append raises
    | PutNext                         // the task puts its next event
    | PutDone                         // the finally clause of the task
    | Open                            // the generator sends the conversation
    | Send                            // the generator sends the oldest queued event
    | Disconnect                      // the client is gone

  /** Everything an answered turn puts after its progress. */
  function Body(thread: string, answer: Answer): seq<Event> { Deltas(answer.content) + [AnswerEvent(thread, answer)] }

  /** What the exception clause puts. */
  function Handled(handled: bool): seq<Event> { if handled then [FAILURE] else [] }

  function Failing(s: State, handled: bool): State {
    s.(task := Finishing(Handled(handled)), queue := s.queue + Handled(handled))
  }

  function RunCallbackStep(s: State): State {
    if s.ready == [] then s
    else
      var t := s.(ready := s.ready[1..]);
      match s.ready[0]
      case PutProgress(text) => t.(queue := s.queue + [Progress(text)])
      case Complete(Raised(handled)) => Failing(t, handled)
      case Complete(Answered(answer)) => if s.stopped then t.(task := Finishing([])) else t.(task := Storing(answer))
  }

  function SendStep(s: State): State {
    if s.generator != Draining || s.queue == [] then s
    else
      var e := s.queue[0];
      var t := s.(sent := s.sent + [e], queue := s.queue[1..]);
      if e.name == "done" then t.(generator := Closed, stopped := true) else t
  }

  function StoredStep(s: State): State {
    if !s.task.Storing? then s
    else
      var answer := s.task.answer;
      s.(stored := Some(answer), append := Kept, task := Streaming(answer, Body(s.thread, answer)))
  }

  function StoreFailsStep(s: State, handled: bool, kept: bool): State {
    if !s.task.Storing? then s
    else
      Failing(s.(stored := if kept then Some(s.task.answer) else None, append := Refused(handled, kept)), handled)
  }

  function Apply(s: State, step: Step): State {
    match step
    case Report(text) => if s.working then s.(ready := s.ready + [PutProgress(text)]) else s
    case Finish(result) => if s.working then s.(working := false, ready := s.ready + [Complete(result)]) else s
    case RunCallback => RunCallbackStep(s)
    case Stored => StoredStep(s)
    case StoreFails(handled, kept) => StoreFailsStep(s, handled, kept)
    case PutNext =>
      if s.task.Streaming? && s.task.rest != []
      then s.(queue := s.queue + [s.task.rest[0]], task := Streaming(s.task.answer, s.task.rest[1..]))
      else s
    case PutDone =>
      if s.task.Streaming? && s.task.rest == []
      then s.(task := Ended(Body(s.thread, s.task.answer)), queue := s.queue + [DONE])
      else if s.task.Finishing? then s.(task := Ended(s.task.body), queue := s.queue + [DONE])
      else s
    case Open => if s.generator.NotStarted? then s.(generator := Draining, sent := [Conversation(s.thread)]) else s
    case Send => SendStep(s)
    case Disconnect => if s.generator.Draining? then s.(generator := Closed, stopped := true) else s
  }

  function Run(s: State, steps: seq<Step>): State
    decreases |steps|
  {
    if steps == [] then s else Run(Apply(s, steps[0]), steps[1..])
  }

  // ---- What the worker did -------------------------------------------------------------------------

  /** The messages the worker reported and, once it has finished, its result. */
  datatype Past = Past(reports: seq<string>, result: Option<Result>)

  const NOTHING := Past([], None)

  function Heard(past: Past, step: Step): Past {
    if past.result.Some? then past
    else match step
      case Report(text) => past.(reports := past.reports + [text])
      case Finish(result) => past.(result := Some(result))
      case _ => past
  }

  /** The worker's part of a schedule. */
  function PastOf(past: Past, steps: seq<Step>): Past
    decreases |steps|
  {
    if steps == [] then past else PastOf(Heard(past, steps[0]), steps[1..])
  }

  function ProgressEvents(reports: seq<string>): (r: seq<Event>)
    ensures |r| == |reports| && forall i | 0 <= i < |r| :: r[i] == Progress(reports[i])
  {
    if reports == [] then [] else [Progress(reports[0])] + ProgressEvents(reports[1..])
  }

  function Puts(reports: seq<string>): (r: seq<Callback>)
    ensures |r| == |reports| && forall i | 0 <= i < |r| :: r[i] == PutProgress(reports[i])
  {
    if reports == [] then [] else [PutProgress(reports[0])] + Puts(reports[1..])
  }

  /** What the task has to put besides progress, given the worker's result and the append. */
  function BodyOf(thread: string, result: Result, append: Append): seq<Event> {
    match result
    case Raised(handled) => Handled(handled)
    case Answered(answer) =>
      match append
      case Untried => []
      case Kept => Body(thread, answer)
      case Refused(handled, _) => Handled(handled)
  }

  /** The stream of a turn from beginning to end: the conversation, the reported progress and, once the worker has
      finished, the body and done. */
  function Expected(thread: string, past: Past, append: Append): seq<Event> {
    [Conversation(thread)] + ProgressEvents(past.reports)
    + if past.result.None? then [] else BodyOf(thread, past.result.value, append) + [DONE]
  }

  // ---- The invariant -----------------------------------------------------------------------------

  predicate NoDone(events: seq<Event>) { forall i | 0 <= i < |events| :: events[i].name != "done" }

  function Completion(past: Past): seq<Callback> {
    if past.result.None? then [] else [Complete(past.result.value)]
  }

  /** How many reports have reached the queue. */
  function Delivered(s: State, past: Past): nat {
    var scheduled := |past.reports| + |Completion(past)|;
    if s.task.Waiting? && |s.ready| <= scheduled && |Completion(past)| <= |s.ready| then scheduled - |s.ready|
    else |past.reports|
  }

  /** While the task waits, the rest of the reports and then the completion are scheduled; afterwards nothing is. */
  predicate ReadyOrder(s: State, past: Past) {
    && (s.working <==> past.result.None?)
    && (if s.task.Waiting?
        then |Completion(past)| <= |s.ready| <= |past.reports| + |Completion(past)|
             && s.ready == Puts(past.reports[Delivered(s, past)..]) + Completion(past)
        else past.result.Some? && s.ready == [])
  }

  /** A finished task has put what its result and append demand; it skips the append only for a client that had gone. */
  predicate FinalBody(s: State, past: Past, body: seq<Event>) {
    && past.result.Some? && body == BodyOf(s.thread, past.result.value, s.append)
    && (past.result.value.Raised? ==> s.append.Untried?)
    && (past.result.value.Answered? && s.append.Untried? ==> s.generator.Closed? && NoDone(s.sent))
  }

  predicate TaskOrder(s: State, past: Past) {
    match s.task
    case Waiting => s.append.Untried?
    case Storing(answer) => s.append.Untried? && past.result == Some(Answered(answer))
    case Streaming(answer, rest) =>
      && s.append.Kept? && past.result == Some(Answered(answer)) && |rest| <= |Body(s.thread, answer)|
      && rest == Body(s.thread, answer)[|Body(s.thread, answer)| - |rest|..]
    case Finishing(body) => FinalBody(s, past, body)
    case Ended(body) => FinalBody(s, past, body)
  }

  /** What the task has put besides progress. */
  function PutSoFar(s: State): seq<Event> {
    match s.task
    case Waiting | Storing(_) => []
    case Streaming(answer, rest) =>
      var body := Body(s.thread, answer);
      if |rest| <= |body| then body[..|body| - |rest|] else []
    case Finishing(body) => body
    case Ended(body) => body + [DONE]
  }

  function Header(s: State): seq<Event> { if s.generator.NotStarted? then [] else [Conversation(s.thread)] }

  /** What was sent and what is queued is the conversation, the delivered progress and what the task put. */
  predicate Emitted(s: State, past: Past) {
    && Delivered(s, past) <= |past.reports|
    && s.sent + s.queue == Header(s) + ProgressEvents(past.reports[..Delivered(s, past)]) + PutSoFar(s)
  }

  /** The turn in storage is the worker's answer. */
  predicate StoredAnswer(s: State, past: Past) {
    s.stored ==
    if past.result.Some? && past.result.value.Answered? && (s.append.Kept? || (s.append.Refused? && s.append.kept))
                then Some(past.result.value.answer) else None
  }

  predicate GeneratorOrder(s: State) {
    (s.generator.NotStarted? <==> s.sent == []) && (s.stopped <==> s.generator.Closed?)
  }

  predicate Invariant(s: State, past: Past) {
    && ReadyOrder(s, past) && TaskOrder(s, past) && Emitted(s, past) && StoredAnswer(s, past) && GeneratorOrder(s)
  }

  lemma InitialInvariant(thread: string)
    ensures Invariant(Initial(thread), NOTHING)
  {
  }

  lemma QueueGrows(s: State, more: seq<Event>)
    ensures s.sent + (s.queue + more) == s.sent + s.queue + more
  {
  }

  lemma ReportScheduled(s: State, past: Past, text: string)
    requires ReadyOrder(s, past) && s.working
    ensures var t, after := Apply(s, Report(text)), Heard(past, Report(text));
            ReadyOrder(t, after) && s.task.Waiting? && Delivered(t, after) == Delivered(s, past) <= |past.reports|
  {
    var d, reports := Delivered(s, past), past.reports + [text];
    assert Puts(reports[d..]) == Puts(past.reports[d..]) + [PutProgress(text)];
  }

  lemma ReportKeeps(s: State, past: Past, text: string)
    requires Invariant(s, past) && s.working
    ensures Invariant(Apply(s, Report(text)), Heard(past, Report(text)))
  {
    hide ReadyOrder;
    hide Delivered;
    ReportScheduled(s, past, text);
    assert (past.reports + [text])[..Delivered(s, past)] == past.reports[..Delivered(s, past)];
    Working(s, past);
  }

  lemma Working(s: State, past: Past)
    requires ReadyOrder(s, past) && s.working
    ensures past.result.None? && s.task.Waiting?
  {
  }

  lemma FinishKeeps(s: State, past: Past, result: Result)
    requires Invariant(s, past) && s.working
    ensures Invariant(Apply(s, Finish(result)), Heard(past, Finish(result)))
  {
    hide Body;
    hide FinalBody;
    hide ProgressEvents;
    hide Puts;
  }

  /** The oldest callback of a waiting task: a report not yet delivered, or the completion once all are. */
  lemma OldestCallback(s: State, past: Past)
    requires Invariant(s, past) && s.ready != []
    ensures s.task.Waiting?
    ensures var d := Delivered(s, past);
            if s.ready[0].PutProgress?
            then d < |past.reports| && s.ready[0].text == past.reports[d]
                 && s.ready[1..] == Puts(past.reports[d + 1..]) + Completion(past)
            else d == |past.reports| && past.result == Some(s.ready[0].result) && s.ready[1..] == []
  {
    hide Emitted;
    hide TaskOrder;
    var d := Delivered(s, past);
    var left := Puts(past.reports[d..]);
    if d < |past.reports| {
      assert left[1..] == Puts(past.reports[d + 1..]);
      assert (left + Completion(past))[1..] == left[1..] + Completion(past);
    } else {
      assert left == [];
    }
  }

  lemma ProgressDelivered(s: State, past: Past)
    requires Invariant(s, past) && s.ready != [] && s.ready[0].PutProgress?
    ensures var t, d := RunCallbackStep(s), Delivered(s, past);
            && d < |past.reports| && t == s.(ready := s.ready[1..], queue := s.queue + [Progress(past.reports[d])])
            && ReadyOrder(t, past) && Delivered(t, past) == d + 1
  {
    hide Emitted;
    OldestCallback(s, past);
  }

  lemma ProgressKeeps(s: State, past: Past)
    requires Invariant(s, past) && s.ready != [] && s.ready[0].PutProgress?
    ensures Invariant(RunCallbackStep(s), past)
  {
    hide Body;
    hide ReadyOrder;
    hide Delivered;
    hide FinalBody;
    OldestCallback(s, past);
    ProgressDelivered(s, past);
    hide RunCallbackStep;
    var d := Delivered(s, past);
    var e := Progress(past.reports[d]);
    QueueGrows(s, [e]);
    var before, after := ProgressEvents(past.reports[..d]), ProgressEvents(past.reports[..d + 1]);
    assert after == before + [e];
    assert Header(s) + before + [] + [e] == Header(s) + after + [];
  }

  lemma FailingKeeps(s: State, past: Past, t: State, handled: bool)
    requires Invariant(s, past) && s.ready == [] && past.result.Some? && PutSoFar(s) == [] && !s.task.Waiting?
    requires t == Failing(s.(stored := t.stored, append := t.append), handled) && StoredAnswer(t, past)
    requires FinalBody(t, past, Handled(handled))
    ensures Invariant(t, past)
  {
    hide Body;
    hide FinalBody;
    QueueGrows(s, Handled(handled));
    var delivered := Header(s) + ProgressEvents(past.reports[..Delivered(s, past)]);
    assert delivered + [] + Handled(handled) == delivered + Handled(handled);
  }

  lemma CompletionKeeps(s: State, past: Past)
    requires Invariant(s, past) && s.ready != [] && s.ready[0].Complete?
    ensures Invariant(RunCallbackStep(s), past)
  {
    hide Body;
    OldestCallback(s, past);
    var t := RunCallbackStep(s);
    var delivered := Header(s) + ProgressEvents(past.reports[..Delivered(s, past)]);
    QueueGrows(s, PutSoFar(t));
    assert delivered + [] + PutSoFar(t) == delivered + PutSoFar(t);
    if s.ready[0].result.Answered? && s.stopped {
      NothingDoneYet(s, past);
    }
  }

  /** Done is not sent before the task puts it. */
  lemma NothingDoneYet(s: State, past: Past)
    requires Emitted(s, past) && PutSoFar(s) == []
    ensures NoDone(s.sent)
  {
    hide Delivered;
    var all := Header(s) + ProgressEvents(past.reports[..Delivered(s, past)]);
    assert s.sent + s.queue == all + [] == all;
    forall i | 0 <= i < |s.sent| ensures s.sent[i].name != "done" {
      assert s.sent[i] == all[i];
    }
  }

  lemma StoredKeeps(s: State, past: Past)
    requires Invariant(s, past)
    ensures Invariant(StoredStep(s), past)
  {
    hide Body;
    if s.task.Storing? {
      var body := Body(s.thread, s.task.answer);
      assert body[|body| - |body|..] == body && body[..|body| - |body|] == [];
    }
  }

  lemma StoreFailsKeeps(s: State, past: Past, handled: bool, kept: bool)
    requires Invariant(s, past)
    ensures Invariant(StoreFailsStep(s, handled, kept), past)
  {
    hide Body;
    hide Emitted;
    hide Delivered;
    if s.task.Storing? {
      FailingKeeps(s, past, StoreFailsStep(s, handled, kept), handled);
    }
  }

  lemma PutNextKeeps(s: State, past: Past)
    requires Invariant(s, past) && s.task.Streaming? && s.task.rest != []
    ensures Invariant(Apply(s, PutNext), past)
  {
    hide Body;
    var body, n := Body(s.thread, s.task.answer), |s.task.rest|;
    assert s.task.rest[0] == body[|body| - n] && s.task.rest[1..] == body[|body| - (n - 1)..];
    assert body[..|body| - n] + [body[|body| - n]] == body[..|body| - (n - 1)];
    QueueGrows(s, [s.task.rest[0]]);
    var delivered := Header(s) + ProgressEvents(past.reports[..Delivered(s, past)]);
    assert delivered + body[..|body| - n] + [body[|body| - n]] == delivered + body[..|body| - (n - 1)];
  }

  lemma PutDoneKeeps(s: State, past: Past)
    requires Invariant(s, past) && (s.task.Finishing? || (s.task.Streaming? && s.task.rest == []))
    ensures Invariant(Apply(s, PutDone), past)
  {
    hide Body;
    QueueGrows(s, [DONE]);
    if s.task.Streaming? {
      var body := Body(s.thread, s.task.answer);
      assert body[..|body| - 0] == body;
    }
    var delivered := Header(s) + ProgressEvents(past.reports[..Delivered(s, past)]);
    assert delivered + PutSoFar(s) + [DONE] == delivered + (PutSoFar(s) + [DONE]);
  }

  /** What follows the conversation. */
  function After(s: State, past: Past): seq<Event>
    requires Delivered(s, past) <= |past.reports|
  {
    ProgressEvents(past.reports[..Delivered(s, past)]) + PutSoFar(s)
  }

  lemma EmittedAfter(s: State, past: Past)
    requires Delivered(s, past) <= |past.reports|
    ensures Emitted(s, past) <==> s.sent + s.queue == Header(s) + After(s, past)
  {
    hide PutSoFar;
    hide Delivered;
    var progress := ProgressEvents(past.reports[..Delivered(s, past)]);
    assert Header(s) + progress + PutSoFar(s) == Header(s) + (progress + PutSoFar(s));
  }

  /** The generator's steps change neither the worker's schedule nor the task. */
  lemma GeneratorKeeps(s: State, past: Past, t: State)
    requires Invariant(s, past) && GeneratorOrder(t) && !s.generator.Closed?
    requires t == s.(queue := t.queue, stopped := t.stopped, generator := t.generator, sent := t.sent)
    requires t.sent + t.queue == Header(t) + After(s, past)
    ensures Invariant(t, past)
  {
    hide Body;
    hide NoDone;
    hide Emitted;
    assert Delivered(t, past) == Delivered(s, past) <= |past.reports| by {
      DeliveredBound(s, past);
    }
    assert After(t, past) == After(s, past);
    EmittedAfter(t, past);
  }

  lemma DeliveredBound(s: State, past: Past)
    ensures Delivered(s, past) <= |past.reports|
  {
  }

  lemma OpenKeeps(s: State, past: Past)
    requires Invariant(s, past) && s.generator.NotStarted?
    ensures Invariant(Apply(s, Open), past)
  {
    hide ReadyOrder;
    hide TaskOrder;
    hide Emitted;
    hide StoredAnswer;
    hide After;
    hide Delivered;
    DeliveredBound(s, past);
    EmittedAfter(s, past);
    assert s.sent + s.queue == s.queue && [] + After(s, past) == After(s, past);
    GeneratorKeeps(s, past, Apply(s, Open));
  }

  lemma SendKeeps(s: State, past: Past)
    requires Invariant(s, past) && s.generator.Draining? && s.queue != []
    ensures Invariant(SendStep(s), past)
  {
    hide ReadyOrder;
    hide TaskOrder;
    hide Emitted;
    hide StoredAnswer;
    hide After;
    hide Delivered;
    DeliveredBound(s, past);
    EmittedAfter(s, past);
    assert s.sent + [s.queue[0]] + s.queue[1..] == s.sent + s.queue;
    GeneratorKeeps(s, past, SendStep(s));
  }

  lemma DisconnectKeeps(s: State, past: Past)
    requires Invariant(s, past) && s.generator.Draining?
    ensures Invariant(Apply(s, Disconnect), past)
  {
    hide ReadyOrder;
    hide TaskOrder;
    hide Emitted;
    hide StoredAnswer;
    hide After;
    hide Delivered;
    DeliveredBound(s, past);
    EmittedAfter(s, past);
    GeneratorKeeps(s, past, Apply(s, Disconnect));
  }

  lemma StepKeeps(s: State, past: Past, step: Step)
    requires Invariant(s, past)
    ensures Invariant(Apply(s, step), Heard(past, step))
  {
    hide TaskOrder;
    hide Emitted;
    hide StoredAnswer;
    hide StoredStep;
    hide StoreFailsStep;
    match step
    case Report(text) =>
      if s.working {
        ReportKeeps(s, past, text);
      }
    case Finish(result) =>
      if s.working {
        FinishKeeps(s, past, result);
      }
    case RunCallback =>
      if s.ready != [] {
        if s.ready[0].PutProgress? {
          ProgressKeeps(s, past);
        } else {
          CompletionKeeps(s, past);
        }
      }
    case Stored => StoredKeeps(s, past);
    case StoreFails(handled, kept) => StoreFailsKeeps(s, past, handled, kept);
    case PutNext =>
      if s.task.Streaming? && s.task.rest != [] {
        PutNextKeeps(s, past);
      }
    case PutDone =>
      if s.task.Finishing? || (s.task.Streaming? && s.task.rest == []) {
        PutDoneKeeps(s, past);
      }
    case Open =>
      if s.generator.NotStarted? {
        OpenKeeps(s, past);
      }
    case Send =>
      if s.generator.Draining? && s.queue != [] {
        SendKeeps(s, past);
      }
    case Disconnect =>
      if s.generator.Draining? {
        DisconnectKeeps(s, past);
      }
  }

  lemma {:induction false} RunKeeps(s: State, past: Past, steps: seq<Step>)
    requires Invariant(s, past)
    ensures Invariant(Run(s, steps), PastOf(past, steps))
    decreases |steps|
  {
    hide Invariant;
    hide Apply;
    hide Heard;
    if steps != [] {
      StepKeeps(s, past, steps[0]);
      RunKeeps(Apply(s, steps[0]), Heard(past, steps[0]), steps[1..]);
    }
  }

  lemma {:induction false} RunKeepsThread(s: State, steps: seq<Step>)
    ensures Run(s, steps).thread == s.thread
    decreases |steps|
  {
    hide Body;
    hide Handled;
    if steps != [] {
      RunKeepsThread(Apply(s, steps[0]), steps[1..]);
    }
  }

  /** The state a schedule leads to, with what its worker did. */
  lemma Reached(thread: string, steps: seq<Step>)
    ensures var s := Run(Initial(thread), steps); Invariant(s, PastOf(NOTHING, steps)) && s.thread == thread
  {
    hide Invariant;
    InitialInvariant(thread);
    RunKeeps(Initial(thread), NOTHING, steps);
    RunKeepsThread(Initial(thread), steps);
  }

  // ---- The stream as a whole -----------------------------------------------------------------------

  lemma PutIsPrefix(s: State, past: Past)
    requires TaskOrder(s, past) && PutSoFar(s) != []
    ensures past.result.Some? && PutSoFar(s) <= BodyOf(s.thread, past.result.value, s.append) + [DONE]
  {
    hide Body;
    if s.task.Streaming? {
      var body := Body(s.thread, s.task.answer);
      assert PutSoFar(s) <= body <= body + [DONE];
    }
  }

  /** In every reachable state the events sent are a prefix of the turn's stream. */
  lemma SentIsPrefix(s: State, past: Past)
    requires Invariant(s, past)
    ensures s.sent <= Expected(s.thread, past, s.append)
  {
    hide TaskOrder;
    hide PutSoFar;
    hide BodyOf;
    var put := past.reports[..Delivered(s, past)];
    assert ProgressEvents(put) <= ProgressEvents(past.reports);
    if !s.generator.NotStarted? {
      var all := [Conversation(s.thread)] + ProgressEvents(put) + PutSoFar(s);
      assert s.sent <= s.sent + s.queue == all;
      if PutSoFar(s) != [] {
        PutIsPrefix(s, past);
        NothingPutWhileWaiting(s);
        assert put == past.reports;
        assert all <= Expected(s.thread, past, s.append);
      } else {
        assert all == [Conversation(s.thread)] + ProgressEvents(put) <= Expected(s.thread, past, s.append);
      }
    }
  }

  lemma NothingPutWhileWaiting(s: State)
    requires PutSoFar(s) != []
    ensures !s.task.Waiting?
  {
  }

  // ---- Event order -------------------------------------------------------------------------------

  /** The place of an event in a stream. */
  function Rank(e: Event): int {
    if e.name == "conversation" then 0
    else if e.name == "progress" then 1
    else if e.name == "delta" then 2
    else if e.name == "answer" || e.name == "error" then 3
    else 4
  }

  /** Ranks grow, and only progress and deltas repeat: one conversation first, progress before deltas,
      at most one of answer and error, and done last. */
  predicate InOrder(events: seq<Event>) {
    forall i, j | 0 <= i < j < |events| ::
      Rank(events[i]) < Rank(events[j]) || (Rank(events[i]) == Rank(events[j]) && Rank(events[i]) in {1, 2})
  }

  lemma InOrderConcat(a: seq<Event>, b: seq<Event>, bound: int)
    requires InOrder(a) && InOrder(b)
    requires forall e | e in a :: Rank(e) <= bound
    requires forall e | e in b :: bound < Rank(e)
    ensures InOrder(a + b)
  {
    hide Rank;
  }

  lemma {:induction false} DeltaRanks(paragraphs: seq<string>)
    ensures forall e | e in DeltaEvents(paragraphs) :: Rank(e) == 2
  {
    if paragraphs != [] {
      DeltaRanks(paragraphs[1..]);
    }
  }

  lemma BodyInOrder(thread: string, result: Result, append: Append)
    ensures var body := BodyOf(thread, result, append); InOrder(body) && forall e | e in body :: Rank(e) in {2, 3}
  {
    hide Deltas;
    if result.Answered? && append.Kept? {
      DeltaRanks(Paragraphs(result.answer.content));
      DeltasAre(result.answer.content);
      InOrderConcat(Deltas(result.answer.content), [AnswerEvent(thread, result.answer)], 2);
    }
  }

  lemma DeltasAre(content: string)
    ensures Deltas(content) == DeltaEvents(Paragraphs(content))
  {
  }

  lemma OpeningInOrder(thread: string, past: Past)
    ensures var opening := [Conversation(thread)] + ProgressEvents(past.reports);
            InOrder(opening) && forall e | e in opening :: Rank(e) <= 1
  {
    var progress := ProgressEvents(past.reports);
    assert forall e | e in progress :: Rank(e) == 1;
    InOrderConcat([Conversation(thread)], progress, 0);
  }

  lemma StreamInOrder(thread: string, past: Past, append: Append)
    ensures InOrder(Expected(thread, past, append))
    ensures forall i | 0 <= i < |Expected(thread, past, append)| && Expected(thread, past, append)[i].name == "done" ::
              past.result.Some? && i == |Expected(thread, past, append)| - 1
  {
    hide BodyOf;
    OpeningInOrder(thread, past);
    var opening := [Conversation(thread)] + ProgressEvents(past.reports);
    if past.result.Some? {
      var body := BodyOf(thread, past.result.value, append);
      BodyInOrder(thread, past.result.value, append);
      InOrderConcat(body, [DONE], 3);
      InOrderConcat(opening, body + [DONE], 1);
      OnlyLast(opening + (body + [DONE]));
    } else {
      assert opening + [] == opening;
      forall i | 0 <= i < |opening| ensures opening[i].name != "done" {
        assert opening[i] in opening;
      }
    }
  }

  lemma OnlyLast(events: seq<Event>)
    requires InOrder(events) && events != []
    ensures forall i | 0 <= i < |events| && events[i].name == "done" :: i == |events| - 1
  {
    var last := events[|events| - 1];
    assert Rank(last) <= 4;
    forall i | 0 <= i < |events| && events[i].name == "done" ensures i == |events| - 1 {
      assert Rank(events[i]) == 4;
    }
  }

  /** In every reachable state the events sent are in order and begin with the conversation. */
  lemma SentInOrder(thread: string, steps: seq<Step>)
    ensures var s := Run(Initial(thread), steps);
            InOrder(s.sent) && (s.sent != [] ==> s.sent[0] == Conversation(thread))
  {
    hide Run;
    hide Rank;
    hide Invariant;
    Reached(thread, steps);
    var s, past := Run(Initial(thread), steps), PastOf(NOTHING, steps);
    SentIsPrefix(s, past);
    StreamInOrder(thread, past, s.append);
    var all := Expected(thread, past, s.append);
    assert all[0] == Conversation(thread);
    assert forall i | 0 <= i < |s.sent| :: all[i] == s.sent[i];
  }

  /** A delta or an answer is only ever sent for the turn in storage, which is the worker's answer. */
  lemma DeltasOnlyWhenStored(thread: string, steps: seq<Step>, e: Event)
    requires e in Run(Initial(thread), steps).sent && e.name in {"delta", "answer"}
    ensures var s := Run(Initial(thread), steps);
            && s.stored.Some? && PastOf(NOTHING, steps).result == Some(Answered(s.stored.value))
            && e in Body(thread, s.stored.value)
  {
    hide Run;
    hide Body;
    Reached(thread, steps);
    var s, past := Run(Initial(thread), steps), PastOf(NOTHING, steps);
    SentIsPrefix(s, past);
    assert e in Expected(thread, past, s.append);
  }

  /** Every completed stream, exactly: the conversation, every reported progress and done, with between them the deltas
      and the answer of the worker when its turn was stored, or one error (or nothing, for an exception the task does
      not handle) when the worker or the append raised. */
  lemma CompletedRun(thread: string, steps: seq<Step>)
    requires !NoDone(Run(Initial(thread), steps).sent)
    ensures var s, past := Run(Initial(thread), steps), PastOf(NOTHING, steps);
            && past.result.Some?
            && s.sent == [Conversation(thread)] + ProgressEvents(past.reports)
                         + (match past.result.value
                            case Raised(handled) => Handled(handled)
                            case Answered(answer) =>
                              if s.append.Kept? then Body(thread, answer)
                              else if s.append.Refused? then Handled(s.append.handled) else [])
                         + [DONE]
            && (past.result.value.Answered? ==> !s.append.Untried?)
            && (past.result.value.Answered? && s.append.Kept? ==> s.stored == Some(past.result.value.answer))
  {
    hide Run;
    hide Body;
    Reached(thread, steps);
    var s, past := Run(Initial(thread), steps), PastOf(NOTHING, steps);
    CompletedShape(s, past);
    assert [Conversation(thread)] + ProgressEvents(past.reports)
           + (BodyOf(thread, past.result.value, s.append) + [DONE])
        == [Conversation(thread)] + ProgressEvents(past.reports) + BodyOf(thread, past.result.value, s.append) + [DONE];
  }

  lemma CompletedShape(s: State, past: Past)
    requires Invariant(s, past) && !NoDone(s.sent)
    ensures past.result.Some? && s.sent == Expected(s.thread, past, s.append)
    ensures past.result.value.Answered? ==> !s.append.Untried?
  {
    hide Body;
    hide ReadyOrder;
    hide Emitted;
    hide BodyOf;
    SentIsPrefix(s, past);
    StreamInOrder(s.thread, past, s.append);
    var i :| 0 <= i < |s.sent| && s.sent[i].name == "done";
    assert Expected(s.thread, past, s.append)[i] == s.sent[i];
    if s.append.Untried? && past.result.value.Answered? {
      DonePut(s, past);
    }
  }

  /** Done is only sent once a task that has ended has put it. */
  lemma DonePut(s: State, past: Past)
    requires Invariant(s, past) && !NoDone(s.sent)
    ensures s.task.Ended?
  {
    hide Body;
    var i :| 0 <= i < |s.sent| && s.sent[i].name == "done";
    var opening := Header(s) + ProgressEvents(past.reports[..Delivered(s, past)]);
    var all := opening + PutSoFar(s);
    assert s.sent + s.queue == all;
    assert all[i] == s.sent[i];
    assert forall k | 0 <= k < |opening| :: opening[k].name != "done";
    assert PutSoFar(s)[i - |opening|].name == "done";
    if !s.task.Ended? {
      PutHasNoDone(s, past, i - |opening|);
    }
  }

  lemma PutHasNoDone(s: State, past: Past, k: nat)
    requires TaskOrder(s, past) && !s.task.Ended? && k < |PutSoFar(s)|
    ensures PutSoFar(s)[k].name != "done"
  {
    hide BodyOf;
    hide Body;
    match s.task
    case Streaming(answer, rest) =>
      BodyInOrder(s.thread, Answered(answer), Kept);
      BodyKept(s.thread, answer);
      assert PutSoFar(s)[k] in Body(s.thread, answer);
    case Finishing(body) =>
      BodyInOrder(s.thread, past.result.value, s.append);
      assert PutSoFar(s)[k] in body;
    case _ =>
  }

  lemma BodyKept(thread: string, answer: Answer)
    ensures BodyOf(thread, Answered(answer), Kept) == Body(thread, answer)
  {
  }

  // ---- Printing and delta texts ------------------------------------------------------------------

  lemma TextEventPrintable(name: string, text: string)
    requires name != "" && '\n' !in name
    ensures Printable(TextEvent(name, text))
  {
  }

  lemma {:induction false} DeltasPrintable(paragraphs: seq<string>)
    ensures forall e | e in DeltaEvents(paragraphs) :: Printable(e)
  {
    if paragraphs != [] {
      TextEventPrintable("delta", paragraphs[0] + "\n\n");
      DeltasPrintable(paragraphs[1..]);
    }
  }

  lemma ProgressPrintable(reports: seq<string>)
    ensures forall e | e in ProgressEvents(reports) :: Printable(e)
  {
    forall e | e in ProgressEvents(reports) ensures Printable(e) {
      var i :| 0 <= i < |reports| && e == Progress(reports[i]);
      TextEventPrintable("progress", reports[i]);
    }
  }

  lemma FramePrintable(thread: string, answer: Answer)
    requires Json.WellFormed(answer.encoded)
    ensures Printable(Conversation(thread)) && Printable(AnswerEvent(thread, answer))
  {
  }

  lemma EndPrintable(thread: string)
    ensures Printable(Conversation(thread)) && Printable(DONE) && Printable(FAILURE)
  {
  }

  /** The worker's answer, if any, is encoded as well-formed JSON. */
  predicate WellEncoded(past: Past) {
    past.result.Some? && past.result.value.Answered? ==> Json.WellFormed(past.result.value.answer.encoded)
  }

  lemma StreamPrintable(thread: string, past: Past, append: Append)
    requires WellEncoded(past)
    ensures forall e | e in Expected(thread, past, append) :: Printable(e)
  {
    hide Printable;
    hide DeltaEvents;
    EndPrintable(thread);
    ProgressPrintable(past.reports);
    if past.result.Some? && past.result.value.Answered? {
      var answer := past.result.value.answer;
      DeltasPrintable(Paragraphs(answer.content));
      FramePrintable(thread, answer);
    }
  }

  lemma {:induction false} ProgressHasNoDelta(reports: seq<string>)
    ensures DeltaTexts(ProgressEvents(reports)) == ""
  {
    if reports != [] {
      var progress := ProgressEvents(reports);
      assert progress == [Progress(reports[0])] + ProgressEvents(reports[1..]);
      assert progress[1..] == ProgressEvents(reports[1..]);
      ProgressHasNoDelta(reports[1..]);
    }
  }

  lemma NoDeltaText(e: Event)
    requires e.name != "delta"
    ensures DeltaTexts([e]) == ""
  {
    assert [e][1..] == [];
  }

  /** The delta texts of an answered turn, with or without its last event. */
  lemma AnsweredDeltaTexts(thread: string, reports: seq<string>, answer: Answer)
    ensures var sent := [Conversation(thread)] + ProgressEvents(reports) + Body(thread, answer);
            && DeltaTexts(sent) == answer.content + "\n\n" && DeltaTexts(sent + [DONE]) == answer.content + "\n\n"
  {
    hide Deltas;
    hide DeltaTexts;
    ProgressHasNoDelta(reports);
    ParagraphsRejoin(answer.content);
    NoDeltaText(Conversation(thread));
    NoDeltaText(AnswerEvent(thread, answer));
    NoDeltaText(DONE);
    var head, progress := [Conversation(thread)], ProgressEvents(reports);
    DeltaTextsConcat(head + progress + Body(thread, answer), [DONE]);
    DeltaTextsConcat(head + progress, Body(thread, answer));
    DeltaTextsConcat(head, progress);
    DeltaTextsConcat(Deltas(answer.content), [AnswerEvent(thread, answer)]);
    var text := answer.content + "\n\n";
    assert "" + "" + (text + "") == text && text + "" == text;
  }

  // ---- The stream in place -------------------------------------------------------------------------

  /** What the worker thread, the task and the generator share. */
  class ChatStream {
    const thread: string
    var working: bool
    var ready: seq<Callback>
    var task: Task
    var queue: seq<Event>
    var append: Append
    var stored: Option<Answer>
    var stopped: bool
    var generator: Generator
    var sent: seq<Event>

    function Snapshot(): State
      reads this
    {
      State(thread, working, ready, task, queue, append, stored, stopped, generator, sent)
    }

    constructor (thread: string)
      ensures Snapshot() == Initial(thread)
    {
      this.thread := thread;
      working, ready, task, queue := true, [], Waiting, [];
      append, stored, stopped, generator, sent := Untried, None, false, NotStarted, [];
    }

    /** The exception clause of the task. */
    method Fail(handled: bool)
      modifies `task, `queue
      ensures Snapshot() == Failing(old(Snapshot()), handled)
    {
      if handled {
        queue := queue + [FAILURE];
        task := Finishing([FAILURE]);
      } else {
        assert queue + [] == queue;
        task := Finishing([]);
      }
    }

    /** The event loop runs its oldest callback. */
    method RunOldestCallback()
      modifies this
      ensures Snapshot() == RunCallbackStep(old(Snapshot()))
    {
      if ready == [] {
        return;
      }
      var callback := ready[0];
      ready := ready[1..];
      match callback {
        case PutProgress(text) => queue := queue + [Progress(text)];
        case Complete(Raised(handled)) => Fail(handled);
        case Complete(Answered(answer)) => task := if stopped then Finishing([]) else Storing(answer);
      }
    }

    /** The append returns, or raises with or without having kept the turn. */
    method AppendTurn(outcome: Append)
      requires outcome != Untried
      modifies this
      ensures Snapshot() == if outcome.Kept? then StoredStep(old(Snapshot()))
                            else StoreFailsStep(old(Snapshot()), outcome.handled, outcome.kept)
    {
      if task.Storing? {
        append := outcome;
        stored := if outcome.Kept? || outcome.kept then Some(task.answer) else None;
        if outcome.Refused? {
          Fail(outcome.handled);
        } else {
          task := Streaming(task.answer, Body(thread, task.answer));
        }
      }
    }

    /** The task puts its next delta or its answer, or done. */
    method PutEvent(done: bool)
      modifies `task, `queue
      ensures Snapshot() == Apply(old(Snapshot()), if done then PutDone else PutNext)
    {
      if done {
        if task.Finishing? || (task.Streaming? && task.rest == []) {
          queue := queue + [DONE];
          task := Ended(if task.Finishing? then task.body else Body(thread, task.answer));
        }
      } else if task.Streaming? && task.rest != [] {
        queue := queue + [task.rest[0]];
        task := Streaming(task.answer, task.rest[1..]);
      }
    }

    /** The generator sends the oldest queued event. */
    method SendOldest()
      modifies this
      ensures Snapshot() == SendStep(old(Snapshot()))
    {
      if generator.Draining? && queue != [] {
        var e := queue[0];
        queue := queue[1..];
        sent := sent + [e];
        if e.name == "done" {
          generator, stopped := Closed, true;
        }
      }
    }

    method Perform(step: Step)
      modifies this
      ensures Snapshot() == Apply(old(Snapshot()), step)
    {
      hide Body;
      hide RunCallbackStep;
      hide SendStep;
      hide StoredStep;
      hide StoreFailsStep;
      match step {
        case Report(text) => ready := if working then ready + [PutProgress(text)] else ready;
        case Finish(result) =>
          if working {
            working, ready := false, ready + [Complete(result)];
          }
        case RunCallback => RunOldestCallback();
        case Stored => AppendTurn(Kept);
        case StoreFails(handled, kept) => AppendTurn(Refused(handled, kept));
        case PutNext => PutEvent(false);
        case PutDone => PutEvent(true);
        case Open =>
          if generator.NotStarted? {
            generator, sent := Draining, [Conversation(thread)];
          }
        case Send => SendOldest();
        case Disconnect =>
          if generator.Draining? {
            generator, stopped := Closed, true;
          }
      }
    }
  }

  lemma {:induction false} RunSnoc(s: State, steps: seq<Step>, step: Step)
    ensures Run(s, steps + [step]) == Apply(Run(s, steps), step)
    decreases |steps|
  {
    hide Apply;
    if steps == [] {
      assert ([] + [step])[1..] == [];
    } else {
      assert (steps + [step])[1..] == steps[1..] + [step];
      RunSnoc(Apply(s, steps[0]), steps[1..], step);
    }
  }

  /** A whole turn under any schedule: what is sent is a prefix, in order, of the stream that the worker's reports and
      result and the append determine; once done is sent it is all of it; and storage holds the worker's answer or
      nothing. */
  method StreamTurn(thread: string, steps: seq<Step>) returns (sent: seq<Event>, append: Append, stored: Option<Answer>)
    ensures var s := Run(Initial(thread), steps); sent == s.sent && append == s.append && stored == s.stored
    ensures InOrder(sent) && sent <= Expected(thread, PastOf(NOTHING, steps), append)
    ensures !NoDone(sent) ==> sent == Expected(thread, PastOf(NOTHING, steps), append)
    ensures stored.Some? ==> PastOf(NOTHING, steps).result == Some(Answered(stored.value))
    ensures append.Kept? ==> stored.Some?
  {
    hide Apply;
    hide Expected;
    hide Invariant;
    hide InOrder;
    var stream := new ChatStream(thread);
    var i := 0;
    while i < |steps|
      invariant 0 <= i <= |steps|
      invariant stream.Snapshot() == Run(Initial(thread), steps[..i])
    {
      assert steps[..i + 1] == steps[..i] + [steps[i]];
      RunSnoc(Initial(thread), steps[..i], steps[i]);
      stream.Perform(steps[i]);
      i := i + 1;
    }
    assert steps[..i] == steps;
    sent, append, stored := stream.sent, stream.append, stream.stored;
    Reached(thread, steps);
    SentInOrder(thread, steps);
    SentIsPrefix(stream.Snapshot(), PastOf(NOTHING, steps));
    StoredIsAnswer(stream.Snapshot(), PastOf(NOTHING, steps));
    if !NoDone(sent) {
      CompletedShape(stream.Snapshot(), PastOf(NOTHING, steps));
    }
  }

  lemma StoredIsAnswer(s: State, past: Past)
    requires Invariant(s, past)
    ensures s.stored.Some? ==> past.result == Some(Answered(s.stored.value))
    ensures s.append.Kept? ==> s.stored.Some?
  {
    hide Body;
    hide ReadyOrder;
    hide Emitted;
  }
}
