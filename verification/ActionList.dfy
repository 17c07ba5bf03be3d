/** The client's action list under overlapping snapshot reads and local edits. */
module ActionList {
  import opened Text

  datatype Item = Item(id: string, version: nat, body: string)

  // ---- The list ----------------------------------------------------------------------------------

  predicate UniqueIds(items: seq<Item>) {
    forall i, j | 0 <= i < j < |items| :: items[i].id != items[j].id
  }

  function Find(items: seq<Item>, id: string): (r: Option<Item>)
    ensures r.Some? ==> r.value in items && r.value.id == id
    ensures r.None? <==> forall item | item in items :: item.id != id
  {
    if items == [] then None else if items[0].id == id then Some(items[0]) else Find(items[1..], id)
  }

  function Without(items: seq<Item>, id: string): seq<Item> {
    if items == [] then []
    else (if items[0].id != id then [items[0]] else []) + Without(items[1..], id)
  }

  function EditOf(edits: map<string, nat>, id: string): nat { if id in edits then edits[id] else 0 }

  /** The items edited locally after a read started. */
  function Newer(items: seq<Item>, edits: map<string, nat>, startedAt: nat): seq<Item> {
    if items == [] then []
    else (if EditOf(edits, items[0].id) > startedAt then [items[0]] else []) + Newer(items[1..], edits, startedAt)
  }

  function NotAmong(snapshot: seq<Item>, newer: seq<Item>): seq<Item> {
    if snapshot == [] then []
    else (if Find(newer, snapshot[0].id).None? then [snapshot[0]] else []) + NotAmong(snapshot[1..], newer)
  }

  /** What the client holds: the edit counter, the number of each item's last edit and the list. */
  datatype Client = Client(sequence: nat, edits: map<string, nat>, items: seq<Item>)

  /** `updateAction`. */
  function Update(c: Client, item: Item): Client {
    Client(c.sequence + 1, c.edits[item.id := c.sequence + 1], Without(c.items, item.id) + [item])
  }

  /** `receiveActions`. */
  function Receive(c: Client, snapshot: seq<Item>, startedAt: nat): Client {
    var newer := Newer(c.items, c.edits, startedAt);
    c.(items := NotAmong(snapshot, newer) + newer)
  }

  /** The insertion of a created action, which is not counted as an edit. */
  function Insert(c: Client, created: Item): Client {
    if Find(c.items, created.id).Some? then c else c.(items := [created] + c.items)
  }

  // ---- What the operations show ------------------------------------------------------------------

  lemma {:induction false} FindConcat(a: seq<Item>, b: seq<Item>, id: string)
    ensures Find(a + b, id) == if Find(a, id).Some? then Find(a, id) else Find(b, id)
  {
    if a == [] {
      assert a + b == b;
    } else {
      assert (a + b)[1..] == a[1..] + b;
      FindConcat(a[1..], b, id);
    }
  }

  lemma {:induction false} FindWithout(items: seq<Item>, id: string, other: string)
    ensures Find(Without(items, id), other) == if other == id then None else Find(items, other)
  {
    if items != [] {
      FindWithout(items[1..], id, other);
      FindConcat(if items[0].id != id then [items[0]] else [], Without(items[1..], id), other);
    }
  }

  lemma {:induction false} FindNewer(items: seq<Item>, edits: map<string, nat>, startedAt: nat, id: string)
    ensures Find(Newer(items, edits, startedAt), id) == if EditOf(edits, id) > startedAt then Find(items, id) else None
  {
    if items != [] {
      FindNewer(items[1..], edits, startedAt, id);
      FindConcat(if EditOf(edits, items[0].id) > startedAt then [items[0]] else [],
                 Newer(items[1..], edits, startedAt), id);
    }
  }

  lemma {:induction false} FindNotAmong(snapshot: seq<Item>, newer: seq<Item>, id: string)
    ensures Find(NotAmong(snapshot, newer), id) == if Find(newer, id).Some? then None else Find(snapshot, id)
  {
    if snapshot != [] {
      FindNotAmong(snapshot[1..], newer, id);
      FindConcat(if Find(newer, snapshot[0].id).None? then [snapshot[0]] else [], NotAmong(snapshot[1..], newer), id);
    }
  }

  /** An update shows the item and leaves the others alone. */
  lemma UpdateShows(c: Client, item: Item, id: string)
    ensures Find(Update(c, item).items, id) == if id == item.id then Some(item) else Find(c.items, id)
  {
    FindWithout(c.items, item.id, id);
    FindConcat(Without(c.items, item.id), [item], id);
  }

  /** A read shows an item's local version exactly when that was edited after the read started, and
      the snapshot's version (or nothing) otherwise. */
  lemma ReceiveShows(c: Client, snapshot: seq<Item>, startedAt: nat, id: string)
    ensures Find(Receive(c, snapshot, startedAt).items, id)
         == if Find(c.items, id).Some? && EditOf(c.edits, id) > startedAt then Find(c.items, id) else Find(snapshot, id)
  {
    var newer := Newer(c.items, c.edits, startedAt);
    FindNewer(c.items, c.edits, startedAt, id);
    FindNotAmong(snapshot, newer, id);
    FindConcat(NotAmong(snapshot, newer), newer, id);
  }

  /** A list has unique ids exactly when every item is the one found under its id and none repeats. */
  lemma {:induction false} UniqueTail(items: seq<Item>)
    requires items != []
    ensures UniqueIds(items) <==> UniqueIds(items[1..]) && Find(items[1..], items[0].id).None?
  {
    var tail := items[1..];
    if UniqueIds(items) {
      forall item | item in tail ensures item.id != items[0].id {
        var i :| 0 <= i < |tail| && tail[i] == item;
        assert items[i + 1] == item;
      }
    }
    if UniqueIds(tail) && Find(tail, items[0].id).None? {
      forall i, j | 0 <= i < j < |items| ensures items[i].id != items[j].id {
        assert items[j] == tail[j - 1] && tail[j - 1] in tail;
        assert i > 0 ==> items[i] == tail[i - 1];
      }
    }
  }

  lemma {:induction false} UniqueConcat(a: seq<Item>, b: seq<Item>)
    requires UniqueIds(a) && UniqueIds(b)
    requires forall item | item in a :: Find(b, item.id).None?
    ensures UniqueIds(a + b)
  {
    forall i, j | 0 <= i < j < |a + b| ensures (a + b)[i].id != (a + b)[j].id {
      if i < |a| <= j {
        assert a[i] in a && b[j - |a|] in b;
      }
    }
  }

  lemma {:induction false} UniqueWithout(items: seq<Item>, id: string)
    requires UniqueIds(items)
    ensures UniqueIds(Without(items, id))
  {
    if items != [] {
      UniqueTail(items);
      UniqueWithout(items[1..], id);
      FindWithout(items[1..], id, items[0].id);
      UniqueConcat([items[0]], Without(items[1..], id));
    }
  }

  lemma {:induction false} UniqueNewer(items: seq<Item>, edits: map<string, nat>, startedAt: nat)
    requires UniqueIds(items)
    ensures UniqueIds(Newer(items, edits, startedAt))
  {
    if items != [] {
      UniqueTail(items);
      UniqueNewer(items[1..], edits, startedAt);
      FindNewer(items[1..], edits, startedAt, items[0].id);
      UniqueConcat([items[0]], Newer(items[1..], edits, startedAt));
    }
  }

  lemma {:induction false} UniqueNotAmong(snapshot: seq<Item>, newer: seq<Item>)
    requires UniqueIds(snapshot)
    ensures UniqueIds(NotAmong(snapshot, newer))
    ensures forall item | item in NotAmong(snapshot, newer) :: Find(newer, item.id).None?
  {
    if snapshot != [] {
      UniqueTail(snapshot);
      UniqueNotAmong(snapshot[1..], newer);
      FindNotAmong(snapshot[1..], newer, snapshot[0].id);
      if Find(newer, snapshot[0].id).None? {
        UniqueConcat([snapshot[0]], NotAmong(snapshot[1..], newer));
      }
    }
  }

  lemma UpdateKeepsUnique(c: Client, item: Item)
    requires UniqueIds(c.items)
    ensures UniqueIds(Update(c, item).items)
  {
    UniqueWithout(c.items, item.id);
    FindWithout(c.items, item.id, item.id);
    UniqueConcat(Without(c.items, item.id), [item]);
  }

  lemma ReceiveKeepsUnique(c: Client, snapshot: seq<Item>, startedAt: nat)
    requires UniqueIds(c.items) && UniqueIds(snapshot)
    ensures UniqueIds(Receive(c, snapshot, startedAt).items)
  {
    var newer := Newer(c.items, c.edits, startedAt);
    UniqueNewer(c.items, c.edits, startedAt);
    UniqueNotAmong(snapshot, newer);
    UniqueConcat(NotAmong(snapshot, newer), newer);
  }

  lemma InsertKeepsUnique(c: Client, created: Item)
    requires UniqueIds(c.items)
    ensures UniqueIds(Insert(c, created).items)
  {
    if Find(c.items, created.id).None? {
      UniqueConcat([created], c.items);
    }
  }

  // ---- The system --------------------------------------------------------------------------------

  /** A read in flight: the edit counter when it started and, once served, the snapshot. */
  datatype Read = Read(startedAt: nat, snapshot: Option<seq<Item>>)

  /** Server items by id, the client, reads in flight, saved items whose responses are in flight, and the newest
      version of each id that a response has acknowledged. */
  datatype System = System(
    server: map<string, Item>, client: Client, inFlight: seq<Read>, responses: seq<Item>,
    acknowledged: map<string, nat>)

  function Initial(server: map<string, Item>): System { System(server, Client(0, map[], []), [], [], map[]) }

  predicate ServerIds(server: map<string, Item>) { forall id | id in server :: server[id].id == id }

  /** The server's list in any order. */
  predicate IsSnapshot(list: seq<Item>, server: map<string, Item>) {
    && UniqueIds(list)
    && (forall item | item in list :: item.id in server && server[item.id] == item)
    && (forall id | id in server :: Find(list, id).Some?)
  }

  datatype Step =
    | Write(id: string, body: string)      // the server saves an edit or a creation
    | Acknowledge(response: nat)           // the client shows a saved edit
    | Show(item: Item)                     // the client shows a refreshed item, an optimistic edit or its undoing
    | Created(response: nat)               // the client inserts a created action
    | StartRead
    | Serve(read: nat, list: seq<Item>)
    | Complete(read: nat)
    | Abort(read: nat)

  function Drop<T>(list: seq<T>, i: nat): seq<T>
    requires i < |list|
  {
    list[..i] + list[i + 1..]
  }

  /** The newest version acknowledged so far, 0 when there is none. */
  function NewestOf(acknowledged: map<string, nat>, id: string): nat {
    if id in acknowledged then acknowledged[id] else 0
  }

  function Acknowledging(acknowledged: map<string, nat>, item: Item): map<string, nat> {
    var newest := NewestOf(acknowledged, item.id);
    acknowledged[item.id := if item.version > newest then item.version else newest]
  }

  function Edited(s: System, item: Item): System { s.(client := Update(s.client, item)) }

  /** One atomic step; a step that is not enabled changes nothing. */
  function Apply(s: System, step: Step): System {
    match step
    case Write(id, body) =>
      var saved := Item(id, if id in s.server then s.server[id].version + 1 else 1, body);
      s.(server := s.server[id := saved], responses := s.responses + [saved])
    case Acknowledge(k) =>
      if k < |s.responses|
      then Edited(s.(responses := Drop(s.responses, k), acknowledged := Acknowledging(s.acknowledged, s.responses[k])),
                  s.responses[k])
      else s
    case Show(item) =>
      if SeenByServer(s, item) then Edited(s, item) else s
    case Created(k) =>
      if k < |s.responses| then s.(responses := Drop(s.responses, k), client := Insert(s.client, s.responses[k])) else s
    case StartRead => s.(inFlight := s.inFlight + [Read(s.client.sequence, None)])
    case Serve(i, list) =>
      if i < |s.inFlight| && s.inFlight[i].snapshot.None? && IsSnapshot(list, s.server)
      then s.(inFlight := s.inFlight[i := s.inFlight[i].(snapshot := Some(list))]) else s
    case Complete(i) =>
      if i < |s.inFlight| && s.inFlight[i].snapshot.Some?
      then
        s.(inFlight := Drop(s.inFlight, i),
           client := Receive(s.client, s.inFlight[i].snapshot.value, s.inFlight[i].startedAt))
      else s
    case Abort(i) => if i < |s.inFlight| then s.(inFlight := Drop(s.inFlight, i)) else s
  }

  function Run(s: System, steps: seq<Step>): System
    decreases |steps|
  {
    if steps == [] then s else Run(Apply(s, steps[0]), steps[1..])
  }

  // ---- Read your writes --------------------------------------------------------------------------

  predicate AtLeast(items: seq<Item>, id: string, version: nat) {
    Find(items, id).Some? && Find(items, id).value.version >= version
  }

  /** Every acknowledged id is shown, in a version no older than the newest acknowledged. */
  predicate ReadsOwnWrites(s: System) {
    forall id | id in s.acknowledged :: AtLeast(s.client.items, id, s.acknowledged[id])
  }

  /** A served read that started after the last edit of an id holds what was acknowledged. */
  predicate ReadInvariant(s: System, read: Read) {
    && read.startedAt <= s.client.sequence
    && (read.snapshot.Some? ==>
          && UniqueIds(read.snapshot.value)
          && forall id | id in s.acknowledged && EditOf(s.client.edits, id) <= read.startedAt ::
               AtLeast(read.snapshot.value, id, s.acknowledged[id]))
  }

  predicate SeenByServer(s: System, item: Item) { item.id in s.server && item.version <= s.server[item.id].version }

  predicate EditsSeen(s: System) {
    && (forall id | id in s.client.edits :: s.client.edits[id] <= s.client.sequence)
    && forall id | id in s.acknowledged ::
         id in s.client.edits && id in s.server && s.acknowledged[id] <= s.server[id].version
  }

  predicate ResponsesSeen(s: System) { forall r | r in s.responses :: SeenByServer(s, r) }

  predicate ReadsHold(s: System) { forall read | read in s.inFlight :: ReadInvariant(s, read) }

  predicate Invariant(s: System) {
    && ServerIds(s.server)
    && UniqueIds(s.client.items)
    && EditsSeen(s)
    && ResponsesSeen(s)
    && ReadsHold(s)
  }

  /** Reads only depend on the edits, their counter and the acknowledged versions. */
  lemma ReadsFrame(s: System, t: System)
    requires ReadsHold(s) && t.inFlight == s.inFlight
    requires t.client.edits == s.client.edits && t.client.sequence == s.client.sequence
             && t.acknowledged == s.acknowledged
    ensures ReadsHold(t)
  {
    hide AtLeast;
    hide UniqueIds;
    forall read | read in t.inFlight ensures ReadInvariant(t, read) {
      assert ReadInvariant(s, read);
    }
  }

  /** Showing a version the server has had, as an acknowledgement or not. */
  lemma EditKeepsInvariant(s: System, item: Item, acknowledged: map<string, nat>)
    requires Invariant(s) && SeenByServer(s, item)
    requires acknowledged == s.acknowledged || acknowledged == Acknowledging(s.acknowledged, item)
    ensures Invariant(Edited(s.(acknowledged := acknowledged), item))
  {
    hide UniqueIds;
    hide Find;
    hide Without;
    hide AtLeast;
    var t := Edited(s.(acknowledged := acknowledged), item);
    UpdateKeepsUnique(s.client, item);
    forall read | read in t.inFlight ensures ReadInvariant(t, read) {
      assert ReadInvariant(s, read);
    }
  }

  lemma WriteKeepsInvariant(s: System, id: string, body: string)
    requires Invariant(s)
    ensures Invariant(Apply(s, Write(id, body)))
  {
    hide UniqueIds;
    hide AtLeast;
    var t := Apply(s, Write(id, body));
    forall r | r in t.responses ensures SeenByServer(t, r) {
      assert r in s.responses ==> SeenByServer(s, r);
    }
    forall read | read in t.inFlight ensures ReadInvariant(t, read) {
      assert ReadInvariant(s, read);
    }
  }

  lemma InsertKeepsEdits(c: Client, created: Item)
    ensures Insert(c, created).edits == c.edits && Insert(c, created).sequence == c.sequence
  {
  }

  lemma InsertShows(c: Client, created: Item, id: string)
    requires Find(c.items, id).Some?
    ensures Find(Insert(c, created).items, id) == Find(c.items, id)
  {
    FindConcat([created], c.items, id);
  }

  lemma InsertKeepsInvariant(s: System, created: Item)
    requires Invariant(s)
    ensures Invariant(s.(client := Insert(s.client, created)))
  {
    var t := s.(client := Insert(s.client, created));
    hide Find;
    hide Insert;
    hide UniqueIds;
    InsertKeepsUnique(s.client, created);
    InsertKeepsEdits(s.client, created);
    ReadsFrame(s, t);
  }

  lemma ReadsAgree(s: System, t: System)
    requires t.client == s.client && t.acknowledged == s.acknowledged
    ensures forall read :: ReadInvariant(t, read) == ReadInvariant(s, read)
  {
    hide AtLeast;
    hide UniqueIds;
  }

  lemma ServedHolds(s: System, read: Read, list: seq<Item>)
    requires Invariant(s) && ReadInvariant(s, read) && IsSnapshot(list, s.server)
    ensures ReadInvariant(s, read.(snapshot := Some(list)))
  {
    hide UniqueIds;
    hide ReadsHold;
    forall id | id in s.acknowledged ensures AtLeast(list, id, s.acknowledged[id]) {
      assert Find(list, id).Some?;
    }
  }

  lemma ServeKeepsInvariant(s: System, i: nat, list: seq<Item>)
    requires Invariant(s) && i < |s.inFlight| && IsSnapshot(list, s.server)
    ensures Invariant(s.(inFlight := s.inFlight[i := s.inFlight[i].(snapshot := Some(list))]))
  {
    hide IsSnapshot;
    hide UniqueIds;
    hide ReadInvariant;
    var t := s.(inFlight := s.inFlight[i := s.inFlight[i].(snapshot := Some(list))]);
    ServedHolds(s, s.inFlight[i], list);
    ReadsAgree(s, t);
    forall read | read in t.inFlight ensures ReadInvariant(t, read) {
      assert read == t.inFlight[i] || read in s.inFlight;
    }
  }

  lemma CompleteKeepsInvariant(s: System, read: Read)
    requires Invariant(s) && read in s.inFlight && read.snapshot.Some?
    ensures Invariant(s.(client := Receive(s.client, read.snapshot.value, read.startedAt)))
  {
    hide UniqueIds;
    hide AtLeast;
    var t := s.(client := Receive(s.client, read.snapshot.value, read.startedAt));
    assert ReadInvariant(s, read);
    ReceiveKeepsUnique(s.client, read.snapshot.value, read.startedAt);
    ReadsFrame(s, t);
  }

  lemma DropKeepsInvariant(s: System, readsLeft: seq<Read>, responses: seq<Item>)
    requires Invariant(s)
    requires (forall read | read in readsLeft :: read in s.inFlight) && (forall r | r in responses :: r in s.responses)
    ensures Invariant(s.(inFlight := readsLeft, responses := responses))
  {
    hide AtLeast;
    hide UniqueIds;
    var t := s.(inFlight := readsLeft, responses := responses);
    forall read | read in readsLeft ensures ReadInvariant(t, read) {
      assert ReadInvariant(s, read);
    }
    forall r | r in responses ensures SeenByServer(t, r) {
      assert SeenByServer(s, r);
    }
  }

  lemma ResponseSeen(s: System, r: Item)
    requires Invariant(s) && r in s.responses
    ensures SeenByServer(s, r)
  {
  }

  lemma StartKeepsInvariant(s: System)
    requires Invariant(s)
    ensures Invariant(Apply(s, StartRead))
  {
    hide AtLeast;
    hide UniqueIds;
    var t := Apply(s, StartRead);
    forall read | read in t.inFlight ensures ReadInvariant(t, read) {
      assert read in s.inFlight ==> ReadInvariant(s, read);
    }
  }

  lemma AcknowledgeKeepsInvariant(s: System, k: nat)
    requires Invariant(s) && k < |s.responses|
    ensures Invariant(Apply(s, Acknowledge(k)))
  {
    hide Invariant;
    hide Acknowledging;
    var dropped := s.(responses := Drop(s.responses, k));
    ResponseSeen(s, s.responses[k]);
    DropKeepsInvariant(s, s.inFlight, Drop(s.responses, k));
    EditKeepsInvariant(dropped, s.responses[k], Acknowledging(s.acknowledged, s.responses[k]));
  }

  lemma StepKeepsInvariant(s: System, step: Step)
    requires Invariant(s)
    ensures Invariant(Apply(s, step))
  {
    hide Invariant;
    match step
    case Write(id, body) => WriteKeepsInvariant(s, id, body);
    case Acknowledge(k) =>
      if k < |s.responses| {
        AcknowledgeKeepsInvariant(s, k);
      }
    case Show(item) =>
      if SeenByServer(s, item) {
        EditKeepsInvariant(s, item, s.acknowledged);
      }
    case Created(k) =>
      if k < |s.responses| {
        DropKeepsInvariant(s, s.inFlight, Drop(s.responses, k));
        InsertKeepsInvariant(s.(responses := Drop(s.responses, k)), s.responses[k]);
      }
    case StartRead => StartKeepsInvariant(s);
    case Serve(i, list) =>
      if i < |s.inFlight| && s.inFlight[i].snapshot.None? && IsSnapshot(list, s.server) {
        ServeKeepsInvariant(s, i, list);
      }
    case Complete(i) =>
      if i < |s.inFlight| && s.inFlight[i].snapshot.Some? {
        var read := s.inFlight[i];
        CompleteKeepsInvariant(s, read);
        DropKeepsInvariant(
          s.(client := Receive(s.client, read.snapshot.value, read.startedAt)), Drop(s.inFlight, i), s.responses);
      }
    case Abort(i) =>
      if i < |s.inFlight| {
        DropKeepsInvariant(s, Drop(s.inFlight, i), s.responses);
      }
  }

  lemma {:induction false} RunKeepsInvariant(s: System, steps: seq<Step>)
    requires Invariant(s)
    ensures Invariant(Run(s, steps))
    decreases |steps|
  {
    hide Invariant;
    hide Apply;
    if steps != [] {
      StepKeepsInvariant(s, steps[0]);
      RunKeepsInvariant(Apply(s, steps[0]), steps[1..]);
    }
  }

  /** For every interleaving the list never holds two items of one id. */
  lemma IdsStayUnique(server: map<string, Item>, steps: seq<Step>)
    requires ServerIds(server)
    ensures UniqueIds(Run(Initial(server), steps).client.items)
  {
    RunKeepsInvariant(Initial(server), steps);
  }

  /** The step shows no version older than one acknowledged before for that id. */
  predicate Fresh(s: System, step: Step) {
    match step
    case Acknowledge(k) => k < |s.responses| ==> s.responses[k].version >= NewestOf(s.acknowledged, s.responses[k].id)
    case Show(item) => SeenByServer(s, item) ==> item.version >= NewestOf(s.acknowledged, item.id)
    case _ => true
  }

  lemma EditReadsIff(s: System, item: Item, acknowledged: map<string, nat>)
    requires ReadsOwnWrites(s)
    requires acknowledged == s.acknowledged || acknowledged == Acknowledging(s.acknowledged, item)
    ensures ReadsOwnWrites(Edited(s.(acknowledged := acknowledged), item))
            <==> item.version >= NewestOf(s.acknowledged, item.id)
  {
    hide Find;
    hide Update;
    var t := Edited(s.(acknowledged := acknowledged), item);
    UpdateShows(s.client, item, item.id);
    if item.version >= NewestOf(s.acknowledged, item.id) {
      forall id | id in acknowledged ensures AtLeast(t.client.items, id, acknowledged[id]) {
        UpdateShows(s.client, item, id);
      }
    }
  }

  lemma CompleteReads(s: System, read: Read)
    requires Invariant(s) && ReadsOwnWrites(s) && read in s.inFlight && read.snapshot.Some?
    ensures ReadsOwnWrites(s.(client := Receive(s.client, read.snapshot.value, read.startedAt)))
  {
    hide Find;
    hide Receive;
    hide UniqueIds;
    var t := s.(client := Receive(s.client, read.snapshot.value, read.startedAt));
    assert ReadInvariant(s, read);
    forall id | id in t.acknowledged ensures AtLeast(t.client.items, id, t.acknowledged[id]) {
      ReceiveShows(s.client, read.snapshot.value, read.startedAt, id);
    }
  }

  lemma InsertReads(s: System, created: Item)
    requires ReadsOwnWrites(s)
    ensures ReadsOwnWrites(s.(client := Insert(s.client, created)))
  {
    hide Find;
    hide Insert;
    var t := s.(client := Insert(s.client, created));
    forall id | id in t.acknowledged ensures AtLeast(t.client.items, id, t.acknowledged[id]) {
      InsertShows(s.client, created, id);
    }
  }

  lemma StepReadsIff(s: System, step: Step)
    requires Invariant(s) && ReadsOwnWrites(s)
    ensures ReadsOwnWrites(Apply(s, step)) <==> Fresh(s, step)
  {
    hide Invariant;
    hide Receive;
    hide Insert;
    hide AtLeast;
    match step
    case Acknowledge(k) =>
      if k < |s.responses| {
        EditReadsIff(s, s.responses[k], Acknowledging(s.acknowledged, s.responses[k]));
      }
    case Show(item) => EditReadsIff(s, item, s.acknowledged);
    case Created(k) =>
      if k < |s.responses| {
        InsertReads(s, s.responses[k]);
      }
    case Complete(i) =>
      if i < |s.inFlight| && s.inFlight[i].snapshot.Some? {
        CompleteReads(s, s.inFlight[i]);
      }
    case _ =>
  }

  /** In every state of a run the list shows what was acknowledged. */
  predicate AlwaysReads(s: System, steps: seq<Step>)
    decreases |steps|
  {
    ReadsOwnWrites(s) && (steps != [] ==> AlwaysReads(Apply(s, steps[0]), steps[1..]))
  }

  predicate AllFresh(s: System, steps: seq<Step>)
    decreases |steps|
  {
    steps != [] ==> Fresh(s, steps[0]) && AllFresh(Apply(s, steps[0]), steps[1..])
  }

  lemma {:induction false} RunReadsIff(s: System, steps: seq<Step>)
    requires Invariant(s) && ReadsOwnWrites(s)
    ensures AlwaysReads(s, steps) <==> AllFresh(s, steps)
    decreases |steps|
  {
    hide Invariant;
    hide Apply;
    hide Fresh;
    hide ReadsOwnWrites;
    if steps != [] {
      var next := Apply(s, steps[0]);
      StepReadsIff(s, steps[0]);
      if Fresh(s, steps[0]) {
        StepKeepsInvariant(s, steps[0]);
        RunReadsIff(next, steps[1..]);
      } else {
        assert !AlwaysReads(next, steps[1..]);
      }
    }
  }

  /** For every interleaving of edits, refreshes, creations, read starts, snapshots, completions and aborts: no
      acknowledged action is ever missing or shown in a version older than the newest acknowledged, if and only if no
      acknowledgement or refresh shows a version older than an earlier acknowledgement of its id. Reads alone never
      break it. */
  lemma ReadYourWritesIff(server: map<string, Item>, steps: seq<Step>)
    requires ServerIds(server)
    ensures AlwaysReads(Initial(server), steps) <==> AllFresh(Initial(server), steps)
  {
    RunReadsIff(Initial(server), steps);
  }

  // ---- What the protocol does not guarantee --------------------------------------------------------

  /** A created action disappears when a read completes whose snapshot lacks it, unless it has been
      edited since that read started. */
  lemma CreatedActionSurvivesRead(c: Client, created: Item, snapshot: seq<Item>, startedAt: nat)
    ensures Find(Receive(Insert(c, created), snapshot, startedAt).items, created.id).Some?
       <==> EditOf(c.edits, created.id) > startedAt || Find(snapshot, created.id).Some?
  {
    var inserted := Insert(c, created);
    assert Find(inserted.items, created.id).Some?;
    ReceiveShows(inserted, snapshot, startedAt, created.id);
  }

  /** A run in which a created action is lost: the read was served before the server saved it. */
  lemma CreatedActionCanBeLost(id: string, body: string)
    ensures var steps := [StartRead, Serve(0, []), Write(id, body), Created(0)];
            var shown, after := Run(Initial(map[]), steps), Run(Initial(map[]), steps + [Complete(0)]);
            && Find(shown.client.items, id).Some? && id in after.server
            && Find(after.client.items, id).None?
  {
    var s0 := Initial(map[]);
    var s1 := Apply(s0, StartRead);
    var s2 := Apply(s1, Serve(0, []));
    var s3 := Apply(s2, Write(id, body));
    var s4 := Apply(s3, Created(0));
    var s5 := Apply(s4, Complete(0));
    assert s2.inFlight == [Read(0, Some([]))];
    assert s4.client.items == [Item(id, 1, body)];
    ReceiveShows(s4.client, [], 0, id);
    RunFour(s0, [StartRead, Serve(0, []), Write(id, body), Created(0)]);
    RunSnoc(s0, [StartRead, Serve(0, []), Write(id, body), Created(0)], Complete(0));
  }

  lemma RunFour(s: System, steps: seq<Step>)
    requires |steps| == 4
    ensures Run(s, steps) == Apply(Apply(Apply(Apply(s, steps[0]), steps[1]), steps[2]), steps[3])
  {
    hide Apply;
    assert steps[1..][1..] == steps[2..] && steps[2..][1..] == steps[3..] && steps[3..][1..] == [];
    var s1 := Apply(s, steps[0]);
    var s2 := Apply(s1, steps[1]);
    assert Run(s1, steps[1..]) == Run(s2, steps[2..]);
    var s3 := Apply(s2, steps[2]);
    assert Run(s2, steps[2..]) == Run(s3, steps[3..]);
    assert Run(s3, steps[3..]) == Run(Apply(s3, steps[3]), []);
  }

  lemma {:induction false} RunSnoc(s: System, steps: seq<Step>, step: Step)
    ensures Run(s, steps + [step]) == Apply(Run(s, steps), step)
    decreases |steps|
  {
    hide Apply;
    if steps == [] {
      assert ([] + [step])[1..] == [];
    } else {
      assert (steps + [step])[1..] == steps[1..] + [step];
      RunSnoc(Apply(s, steps[0]), steps[1..], step);
    }
  }

  /** The state after two saved edits of one action, the second acknowledged. */
  lemma SecondAcknowledged(id: string, first: string, second: string)
    ensures var older, newer := Item(id, 1, first), Item(id, 2, second);
            var s := Run(Initial(map[]), [Write(id, first), Write(id, second), Acknowledge(1)]);
            && s.responses == [older] && s.acknowledged == map[id := 2] && SeenByServer(s, older)
            && Find(s.client.items, id) == Some(newer)
  {
    var s0 := Initial(map[]);
    var s1 := Apply(s0, Write(id, first));
    var s2 := Apply(s1, Write(id, second));
    var steps := [Write(id, first), Write(id, second), Acknowledge(1)];
    assert steps[1..] == [Write(id, second), Acknowledge(1)] && steps[1..][1..] == [Acknowledge(1)];
    assert steps[1..][1..][1..] == [];
    assert s2.responses == [Item(id, 1, first), Item(id, 2, second)];
    assert Run(s2, [Acknowledge(1)]) == Run(Apply(s2, Acknowledge(1)), []);
    UpdateShows(s2.client, Item(id, 2, second), id);
  }

  /** Runs in which the list falls back: acknowledgements that arrive out of order, and a refresh that was answered
      before the edit. */
  lemma OlderVersionCanReturn(id: string, first: string, second: string)
    ensures var steps := [Write(id, first), Write(id, second), Acknowledge(1)];
            var older := Item(id, 1, first);
            var late := Run(Initial(map[]), steps + [Acknowledge(0)]);
            var refreshed := Run(Initial(map[]), steps + [Show(older)]);
            && Find(Run(Initial(map[]), steps).client.items, id) == Some(Item(id, 2, second))
            && Find(late.client.items, id) == Some(older) && late.acknowledged == map[id := 2]
            && Find(refreshed.client.items, id) == Some(older) && refreshed.acknowledged == map[id := 2]
  {
    hide Run;
    hide Find;
    hide Update;
    var steps := [Write(id, first), Write(id, second), Acknowledge(1)];
    var older := Item(id, 1, first);
    var s := Run(Initial(map[]), steps);
    SecondAcknowledged(id, first, second);
    RunSnoc(Initial(map[]), steps, Acknowledge(0));
    RunSnoc(Initial(map[]), steps, Show(older));
    UpdateShows(s.client, older, id);
  }

  // ---- The list in place -------------------------------------------------------------------------

  class ActionBoard {
    var editSequence: nat
    var edits: map<string, nat>
    var items: seq<Item>

    function Snapshot(): Client
      reads this
    {
      Client(editSequence, edits, items)
    }

    constructor ()
      ensures Snapshot() == Client(0, map[], [])
    {
      editSequence, edits, items := 0, map[], [];
    }

    method UpdateAction(item: Item)
      modifies this
      ensures Snapshot() == Update(old(Snapshot()), item)
      ensures Find(items, item.id) == Some(item)
    {
      UpdateShows(Snapshot(), item, item.id);
      editSequence := editSequence + 1;
      edits := edits[item.id := editSequence];
      items := Without(items, item.id) + [item];
    }

    method ReceiveActions(snapshot: seq<Item>, startedAt: nat)
      modifies `items
      ensures Snapshot() == Receive(old(Snapshot()), snapshot, startedAt)
      ensures forall id :: Find(items, id) == if old(Find(items, id)).Some? && EditOf(edits, id) > startedAt
                                              then old(Find(items, id)) else Find(snapshot, id)
      ensures old(UniqueIds(items)) && UniqueIds(snapshot) ==> UniqueIds(items)
    {
      if UniqueIds(items) && UniqueIds(snapshot) {
        ReceiveKeepsUnique(Snapshot(), snapshot, startedAt);
      }
      forall id
        ensures Find(Receive(Snapshot(), snapshot, startedAt).items, id)
             == if Find(items, id).Some? && EditOf(edits, id) > startedAt then Find(items, id) else Find(snapshot, id)
      {
        ReceiveShows(Snapshot(), snapshot, startedAt, id);
      }
      var newer := Newer(items, edits, startedAt);
      items := NotAmong(snapshot, newer) + newer;
    }

    method InsertCreated(created: Item)
      modifies `items
      ensures Snapshot() == Insert(old(Snapshot()), created)
    {
      if Find(items, created.id).None? {
        items := [created] + items;
      }
    }
  }
}
