/** Event-stream frames as the server prints them (HTML Living Standard, sections 9.2.5 and 9.2.6) and the browser
    reads them. */
module ChatFrames {
  import opened Text
  import Json

  datatype Event = Event(name: string, data: Json.Value)

  // ---- Printing ----------------------------------------------------------------------------------

  function FrameBody(e: Event): string { "event: " + e.name + "\ndata: " + Json.Dumps(e.data) }

  function Frame(e: Event): string { FrameBody(e) + "\n\n" }

  function Frames(events: seq<Event>): string {
    if events == [] then "" else Frame(events[0]) + Frames(events[1..])
  }

  /** The events the server prints: a nonempty one-line name and a JSON payload. */
  predicate Printable(e: Event) { e.name != "" && '\n' !in e.name && Json.WellFormed(e.data) }

  // ---- Blocks ------------------------------------------------------------------------------------

  /** The position of the first blank-line separator, or the length when there is none. */
  function Boundary(s: string): (i: nat)
    ensures i == |s| || (i + 2 <= |s| && s[i] == '\n' && s[i + 1] == '\n')
    ensures forall k | 0 <= k < i && k + 1 < |s| :: !(s[k] == '\n' && s[k + 1] == '\n')
  {
    if |s| < 2 then |s| else if s[0] == '\n' && s[1] == '\n' then 0 else 1 + Boundary(s[1..])
  }

  predicate HasSeparator(s: string) { exists k :: 0 <= k && k + 1 < |s| && s[k] == '\n' && s[k + 1] == '\n' }

  /** The complete blocks of a text, in order, and what is left over. */
  function Blocks(s: string): (r: (seq<string>, string))
    ensures !HasSeparator(r.1)
    decreases |s|
  {
    var i := Boundary(s);
    if i == |s| then ([], s)
    else
      var (blocks, leftover) := Blocks(s[i + 2..]);
      ([s[..i]] + blocks, leftover)
  }

  lemma BoundaryUnique(s: string, i: nat)
    requires i + 2 <= |s| && s[i] == '\n' && s[i + 1] == '\n'
    requires forall k | 0 <= k < i :: !(s[k] == '\n' && s[k + 1] == '\n')
    ensures Boundary(s) == i
  {
  }

  lemma BoundaryExtends(a: string, b: string)
    requires Boundary(a) < |a|
    ensures Boundary(a + b) == Boundary(a)
    ensures (a + b)[..Boundary(a)] == a[..Boundary(a)] && (a + b)[Boundary(a) + 2..] == a[Boundary(a) + 2..] + b
  {
    var i := Boundary(a);
    forall k | 0 <= k < i ensures !((a + b)[k] == '\n' && (a + b)[k + 1] == '\n') {
      assert (a + b)[k] == a[k] && (a + b)[k + 1] == a[k + 1];
    }
    BoundaryUnique(a + b, i);
  }

  lemma BlocksFirst(s: string)
    ensures var i := Boundary(s);
            Blocks(s) == if i == |s| then ([], s) else ([s[..i]] + Blocks(s[i + 2..]).0, Blocks(s[i + 2..]).1)
  {
    hide Boundary;
  }

  /** Blocks of a text are the blocks of its first part followed by those of the carried leftover and
      the rest, wherever the text is split, also inside a separator. */
  lemma {:induction false} BlocksConcat(a: string, b: string)
    ensures var (blocks, leftover) := Blocks(a);
            var (more, rest) := Blocks(leftover + b);
            Blocks(a + b) == (blocks + more, rest)
    decreases |a|
  {
    hide Boundary;
    hide HasSeparator;
    hide Blocks;
    BlocksFirst(a);
    var i := Boundary(a);
    if i < |a| {
      BoundaryExtends(a, b);
      BlocksFirst(a + b);
      BlocksConcat(a[i + 2..], b);
      var (blocks, leftover) := Blocks(a[i + 2..]);
      var more := Blocks(leftover + b).0;
      assert [a[..i]] + (blocks + more) == [a[..i]] + blocks + more;
    } else {
      assert [] + Blocks(a + b).0 == Blocks(a + b).0;
    }
  }

  // ---- Delivery ----------------------------------------------------------------------------------

  function FirstAfter(lines: seq<string>, prefix: string): string {
    if lines == [] then "" else if prefix <= lines[0] then lines[0][|prefix|..] else FirstAfter(lines[1..], prefix)
  }

  function AllAfter(lines: seq<string>, prefix: string): seq<string> {
    if lines == [] then []
    else (if prefix <= lines[0] then [lines[0][|prefix|..]] else []) + AllAfter(lines[1..], prefix)
  }

  /** What one block does: nothing, an event for the callback, or a parse error that ends the read. */
  datatype Delivery = Nothing | Deliver(event: Event) | Malformed

  function Dispatch(block: string): Delivery {
    var lines := Split(block, '\n');
    var name := FirstAfter(lines, "event: ");
    var data := Join(AllAfter(lines, "data: "), "\n");
    if name == "" || data == "" then Nothing
    else match Json.Parse(data) case None => Malformed case Some(v) => Deliver(Event(name, v))
  }

  /** The events delivered for a list of blocks, up to the first malformed one. */
  datatype Outcome = Outcome(events: seq<Event>, ok: bool)

  function ReadBlocks(blocks: seq<string>): Outcome {
    if blocks == [] then Outcome([], true)
    else match Dispatch(blocks[0])
      case Malformed => Outcome([], false)
      case Nothing => ReadBlocks(blocks[1..])
      case Deliver(e) => var rest := ReadBlocks(blocks[1..]); Outcome([e] + rest.events, rest.ok)
  }

  /** One-shot parsing of a whole text. */
  function ReadText(text: string): Outcome { ReadBlocks(Blocks(text).0) }

  lemma {:induction false} ReadBlocksConcat(a: seq<string>, b: seq<string>)
    ensures ReadBlocks(a + b)
         == if ReadBlocks(a).ok then Outcome(ReadBlocks(a).events + ReadBlocks(b).events, ReadBlocks(b).ok)
            else ReadBlocks(a)
  {
    hide Dispatch;
    if a == [] {
      assert a + b == b;
      assert [] + ReadBlocks(b).events == ReadBlocks(b).events;
    } else {
      assert (a + b)[1..] == a[1..] + b;
      ReadBlocksConcat(a[1..], b);
      match Dispatch(a[0])
      case Deliver(e) =>
        assert [e] + (ReadBlocks(a[1..]).events + ReadBlocks(b).events)
               == [e] + ReadBlocks(a[1..]).events + ReadBlocks(b).events;
      case _ =>
    }
  }

  // ---- What a block says -------------------------------------------------------------------------

  const EVENT := "event: "
  const DATA := "data: "

  /** The name of a block: the rest of its first event line, or nothing without one. */
  ghost predicate NamedBy(lines: seq<string>, name: string) {
    || (name == "" && forall k | 0 <= k < |lines| :: !(EVENT <= lines[k]))
    || (exists k :: 0 <= k < |lines| && lines[k] == EVENT + name && forall j | 0 <= j < k :: !(EVENT <= lines[j]))
  }

  /** The data lines of a block are those at the given places, in this order, with the given rests. */
  ghost predicate DataAt(lines: seq<string>, at: seq<nat>, texts: seq<string>) {
    && |at| == |texts|
    && (forall i | 0 <= i < |at| :: at[i] < |lines| && lines[at[i]] == DATA + texts[i])
    && (forall i, j | 0 <= i < j < |at| :: at[i] < at[j])
    && (forall k | 0 <= k < |lines| && DATA <= lines[k] :: k in at)
  }

  lemma {:induction false} FirstAfterIs(lines: seq<string>, name: string)
    requires NamedBy(lines, name)
    ensures FirstAfter(lines, EVENT) == name
  {
    if lines != [] && !(EVENT <= lines[0]) {
      var rest := lines[1..];
      if k :| 0 <= k < |lines| && lines[k] == EVENT + name && forall j | 0 <= j < k :: !(EVENT <= lines[j]) {
        assert rest[k - 1] == EVENT + name;
        assert forall j | 0 <= j < k - 1 :: rest[j] == lines[j + 1];
      } else {
        assert forall j | 0 <= j < |rest| :: rest[j] == lines[j + 1];
      }
      FirstAfterIs(rest, name);
    }
  }

  lemma NextPlace(at: seq<nat>, i: nat, j: nat)
    requires j <= |at| && forall m, n | 0 <= m < n < |at| :: at[m] < at[n]
    requires forall m | 0 <= m < |at| :: m < j <==> at[m] < i
    ensures i in at ==> j < |at| && at[j] == i && forall m | 0 <= m < |at| :: m < j + 1 <==> at[m] < i + 1
    ensures i !in at ==> forall m | 0 <= m < |at| :: m < j <==> at[m] < i + 1
  {
    if i in at {
      var m :| 0 <= m < |at| && at[m] == i;
      assert m >= j;
      assert at[j] <= at[m];
    }
  }

  /** The data lines from a line on, of which the first is the `j`-th of all. */
  lemma {:induction false} AllAfterIs(lines: seq<string>, i: nat, at: seq<nat>, texts: seq<string>, j: nat)
    requires DataAt(lines, at, texts) && i <= |lines| && j <= |at|
    requires forall m | 0 <= m < |at| :: m < j <==> at[m] < i
    ensures AllAfter(lines[i..], DATA) == texts[j..]
    decreases |lines| - i
  {
    if i < |lines| {
      assert lines[i..][0] == lines[i] && lines[i..][1..] == lines[i + 1..];
      NextPlace(at, i, j);
      if DATA <= lines[i] {
        AllAfterIs(lines, i + 1, at, texts, j + 1);
        assert lines[i][|DATA|..] == texts[j];
      } else {
        AllAfterIs(lines, i + 1, at, texts, j);
      }
    }
  }

  /** What any block does: nothing without a name or without data; otherwise its data lines, joined by line breaks, are
      parsed, and what they hold is delivered under its name. All other lines are ignored. */
  lemma DispatchReads(block: string, name: string, at: seq<nat>, texts: seq<string>)
    requires NamedBy(Split(block, '\n'), name) && DataAt(Split(block, '\n'), at, texts)
    ensures var data := Join(texts, "\n");
            && (Dispatch(block).Nothing? <==> name == "" || texts == [] || texts == [""])
            && (Dispatch(block).Malformed? <==> name != "" && data != "" && Json.Parse(data).None?)
            && (forall e :: Dispatch(block) == Deliver(e)
                            <==> name != "" && data != "" && Json.Parse(data) == Some(e.data) && e.name == name)
  {
    hide FirstAfter;
    hide AllAfter;
    var lines := Split(block, '\n');
    FirstAfterIs(lines, name);
    AllAfterIs(lines, 0, at, texts, 0);
    assert lines[0..] == lines && texts[0..] == texts;
    JoinEmptyIff(texts);
  }

  lemma JoinEmptyIff(texts: seq<string>)
    ensures Join(texts, "\n") == "" <==> texts == [] || texts == [""]
  {
  }

  // ---- Printing then reading -----------------------------------------------------------------------

  lemma DumpsOneLine(v: Json.Value)
    requires Json.WellFormed(v)
    ensures '\n' !in Json.Dumps(v) && Json.Dumps(v) != ""
  {
    Json.DumpsPrintable(v);
    assert !Json.Printable('\n');
    Json.DumpsStart(v, "");
  }

  /** The two lines of a frame. */
  lemma FrameLines(e: Event)
    requires Printable(e)
    ensures Split(FrameBody(e), '\n') == ["event: " + e.name, "data: " + Json.Dumps(e.data)]
  {
    var lines := ["event: " + e.name, "data: " + Json.Dumps(e.data)];
    DumpsOneLine(e.data);
    assert lines[1..] == [lines[1]];
    assert Join(lines, "\n") == FrameBody(e);
    SplitJoin(lines, '\n');
  }

  lemma LinesRead(name: string, text: string)
    ensures var lines := ["event: " + name, "data: " + text];
            FirstAfter(lines, "event: ") == name && AllAfter(lines, "data: ") == [text]
  {
    var lines := ["event: " + name, "data: " + text];
    assert lines[0][7..] == name && lines[1][6..] == text && lines[0][0] == 'e';
    assert lines[1..] == [lines[1]] && lines[1..][1..] == [];
    assert AllAfter(lines[1..], "data: ") == [text] + AllAfter([], "data: ");
  }

  lemma FrameDelivers(e: Event)
    requires Printable(e)
    ensures Dispatch(FrameBody(e)) == Deliver(e)
  {
    hide FrameBody;
    hide FirstAfter;
    hide AllAfter;
    FrameLines(e);
    LinesRead(e.name, Json.Dumps(e.data));
    Json.RoundTrip(e.data);
    DumpsOneLine(e.data);
  }

  lemma FrameIsBlock(e: Event, rest: string)
    requires Printable(e)
    ensures Blocks(Frame(e) + rest) == ([FrameBody(e)] + Blocks(rest).0, Blocks(rest).1)
  {
    var text := Json.Dumps(e.data);
    DumpsOneLine(e.data);
    var body, all := FrameBody(e), Frame(e) + rest;
    var n := 7 + |e.name|;
    assert body[n] == '\n' && body[n + 1] == 'd';
    forall k | 0 <= k < |body| && k != n ensures body[k] != '\n' {
      if k >= n + 7 {
        assert body[k] == text[k - (n + 7)];
      } else if 7 <= k < n {
        assert body[k] == e.name[k - 7];
      }
    }
    assert forall k | 0 <= k < |body| :: all[k] == body[k];
    assert all[|body|] == '\n' && all[|body| + 1] == '\n';
    assert |body| - 1 > n;
    BoundaryUnique(all, |body|);
    assert all[..|body|] == body && all[|body| + 2..] == rest;
  }

  lemma NothingFramed()
    ensures ReadText(Frames([])) == Outcome([], true) && Blocks(Frames([])).1 == ""
  {
  }

  /** Everything the server prints is delivered, in order, and nothing is left over. */
  lemma {:induction false} FramesRoundTrip(events: seq<Event>)
    requires forall e | e in events :: Printable(e)
    ensures ReadText(Frames(events)) == Outcome(events, true) && Blocks(Frames(events)).1 == ""
  {
    hide Blocks;
    hide Dispatch;
    hide Printable;
    hide FrameBody;
    if events == [] {
      NothingFramed();
    } else {
      assert Printable(events[0]);
      FramesRoundTrip(events[1..]);
      FrameIsBlock(events[0], Frames(events[1..]));
      FrameDelivers(events[0]);
      assert ([FrameBody(events[0])] + Blocks(Frames(events[1..])).0)[1..] == Blocks(Frames(events[1..])).0;
    }
  }
}
