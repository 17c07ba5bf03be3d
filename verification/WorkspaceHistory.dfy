/** The workspace location, the browser's history entries and the steps that change them. */
module WorkspaceHistory {
  import opened Text
  import opened Locations
  import opened LinkCodec
  import opened LinkTheorems
  import opened LinkCanonical
  import LinkPrograms

  datatype Mode = Push | Replace | Stay

  /** What is remembered for a surface: its filters, sort order and subview. */
  datatype Remembered = Remembered(filters: Option<Filters>, sort: Option<string>, subview: Option<string>)

  datatype State = State(current: Location, entries: seq<string>, index: nat, memory: map<Surface, Remembered>)

  predicate ValidState(s: State) { s.index < |s.entries| }

  function Address(s: State): string
    requires ValidState(s)
  {
    s.entries[s.index]
  }

  ghost function Canonical(hash: string): string { Decode(hash, true).canonicalHash }

  function Remember(memory: map<Surface, Remembered>, next: Location): map<Surface, Remembered> {
    if next.accountId.Some? && next.accountId.value != "" then memory
    else memory[next.surface := Remembered(next.filters, next.sort, next.subview)]
  }

  // ---- Steps -------------------------------------------------------------------------------------

  /** `commitLocation`: ignored when the location or the address already prints as the target. */
  ghost function Commit(s: State, next: Location, mode: Mode): (t: State)
    requires ValidState(s)
    ensures ValidState(t)
  {
    hide Decode;
    hide Encode;
    hide Remember;
    var remembered := s.(memory := Remember(s.memory, next));
    if SameLocation(s.current, next) || Canonical(Address(s)) == Encode(next) then remembered
    else match mode
      case Push => remembered.(current := next, entries := s.entries[..s.index + 1] + [Encode(next)],
                               index := s.index + 1)
      case Replace => remembered.(current := next, entries := s.entries[s.index := Encode(next)])
      case Stay => remembered.(current := next)
  }

  /** The listener for history movements: rewrite the address canonically and adopt its location. */
  ghost function Restore(s: State): (t: State)
    requires ValidState(s)
    ensures ValidState(t)
  {
    s.(current := Decode(Address(s), true).location, entries := s.entries[s.index := Canonical(Address(s))])
  }

  datatype Step = CommitTo(next: Location, mode: Mode) | Go(index: nat) | Enter(hash: string)

  /** A typed address adds an entry, unless it is the one shown already. */
  function Entered(s: State, hash: string): (t: State)
    requires ValidState(s)
    ensures ValidState(t)
  {
    s.(entries := s.entries[..s.index + 1] + [hash], index := s.index + 1)
  }

  ghost function Apply(s: State, step: Step): (t: State)
    requires ValidState(s)
    ensures ValidState(t)
  {
    match step
    case CommitTo(next, mode) => Commit(s, next, mode)
    case Go(index) => if index < |s.entries| then Restore(s.(index := index)) else s
    case Enter(hash) => if hash == Address(s) then Restore(s) else Restore(Entered(s, hash))
  }

  ghost function Run(s: State, steps: seq<Step>): State
    requires ValidState(s)
    ensures ValidState(Run(s, steps))
    decreases |steps|
  {
    if steps == [] then s else Run(Apply(s, steps[0]), steps[1..])
  }

  // ---- The address follows the location ----------------------------------------------------------

  /** The address bar shows the canonical link of a normal current location. */
  ghost predicate Synced(s: State) {
    ValidState(s) && Normal(s.current) && Address(s) == Encode(s.current)
  }

  lemma SyncedAddressDecodes(s: State)
    requires Synced(s)
    ensures Decode(Address(s), true) == Decoded(s.current, Address(s), false)
  {
    hide Decode;
    hide Encode;
    hide Normal;
    RoundTrip(s.current);
  }

  predicate NormalStep(step: Step) { step.CommitTo? ==> Normal(step.next) && !step.mode.Stay? }

  lemma RestoreSyncs(s: State)
    requires ValidState(s)
    ensures Synced(Restore(s))
  {
    hide Decode;
    hide Encode;
    hide Normal;
    DecodedNormal(Address(s), true);
    CanonicalHashPrints(Address(s), true);
  }

  lemma CommitKeepsSynced(s: State, next: Location, mode: Mode)
    requires Synced(s) && Normal(next) && !mode.Stay?
    ensures Synced(Commit(s, next, mode)) && Commit(s, next, mode).current == next
  {
    hide Decode;
    hide Encode;
    hide Normal;
    SyncedAddressDecodes(s);
    SameLocationIsEquality(s.current, next);
  }

  lemma StepKeepsSynced(s: State, step: Step)
    requires Synced(s) && NormalStep(step)
    ensures Synced(Apply(s, step))
  {
    hide Decode;
    hide Encode;
    hide Normal;
    hide Commit;
    hide Restore;
    match step
    case CommitTo(next, mode) => CommitKeepsSynced(s, next, mode);
    case Go(index) =>
      if index < |s.entries| {
        RestoreSyncs(s.(index := index));
      }
    case Enter(hash) => RestoreSyncs(if hash == Address(s) then s else Entered(s, hash));
  }

  /** After any run of push or replace commits to normal locations, movements through the history and
      typed addresses, the address bar decodes to the current location. */
  lemma {:induction false} RunKeepsSynced(s: State, steps: seq<Step>)
    requires Synced(s) && forall step | step in steps :: NormalStep(step)
    ensures Synced(Run(s, steps))
    ensures Decode(Address(Run(s, steps)), true).location == Run(s, steps).current
    decreases |steps|
  {
    hide Decode;
    hide Encode;
    hide Normal;
    hide Apply;
    if steps == [] {
      SyncedAddressDecodes(s);
    } else {
      StepKeepsSynced(s, steps[0]);
      RunKeepsSynced(Apply(s, steps[0]), steps[1..]);
    }
  }

  /** Repeating any commit changes nothing, from any state. */
  lemma CommitIsIdempotent(s: State, next: Location, mode: Mode)
    requires ValidState(s)
    ensures Commit(Commit(s, next, mode), next, mode) == Commit(s, next, mode)
  {
    hide Decode;
    hide Encode;
    hide Normal;
    assert Remember(Remember(s.memory, next), next) == Remember(s.memory, next);
  }

  // ---- What is remembered ------------------------------------------------------------------------

  /** The last location without an account that a run commits to on a surface. */
  function LastOn(steps: seq<Step>, surface: Surface): Option<Location>
    decreases |steps|
  {
    if steps == [] then None
    else
      var last := steps[|steps| - 1];
      if last.CommitTo? && last.next.surface == surface
        && (last.next.accountId.None? || last.next.accountId.value == "")
      then Some(last.next)
      else LastOn(steps[..|steps| - 1], surface)
  }

  lemma StepRemembers(s: State, step: Step, surface: Surface)
    requires ValidState(s)
    ensures var memory := Apply(s, step).memory;
            if step.CommitTo? && step.next.surface == surface
               && (step.next.accountId.None? || step.next.accountId.value == "")
            then surface in memory
                 && memory[surface] == Remembered(step.next.filters, step.next.sort, step.next.subview)
            else (surface in memory <==> surface in s.memory)
                 && (surface in memory ==> memory[surface] == s.memory[surface])
  {
    hide Decode;
    hide Encode;
  }

  lemma RunLast(s: State, steps: seq<Step>, step: Step)
    requires ValidState(s)
    ensures Run(s, steps + [step]) == Apply(Run(s, steps), step)
    decreases |steps|
  {
    hide Apply;
    if steps == [] {
      assert ([] + [step])[1..] == [];
    } else {
      assert (steps + [step])[1..] == steps[1..] + [step];
      RunLast(Apply(s, steps[0]), steps[1..], step);
    }
  }

  /** After any run a surface is remembered with the filters, sort order and subview of the last location without an
      account committed on it, whether or not that commit was ignored; other steps leave it alone. */
  lemma {:induction false} RunRemembers(s: State, steps: seq<Step>, surface: Surface)
    requires ValidState(s)
    ensures var memory, last := Run(s, steps).memory, LastOn(steps, surface);
            if last.Some?
            then surface in memory
                 && memory[surface] == Remembered(last.value.filters, last.value.sort, last.value.subview)
            else (surface in memory <==> surface in s.memory)
                 && (surface in memory ==> memory[surface] == s.memory[surface])
    decreases |steps|
  {
    hide Apply;
    if steps != [] {
      var init, step := steps[..|steps| - 1], steps[|steps| - 1];
      RunRemembers(s, init, surface);
      assert steps == init + [step];
      RunLast(s, init, step);
      hide Run;
      StepRemembers(Run(s, init), step, surface);
    }
  }

  // ---- When a commit does not reach its target ----------------------------------------------------

  /** A commit reaches its target exactly when the target is current already or the address bar does
      not already print it. */
  lemma CommitReachesTarget(s: State, next: Location, mode: Mode)
    requires ValidState(s) && Normal(s.current) && Normal(next)
    ensures Commit(s, next, mode).current == next <==> s.current == next || Canonical(Address(s)) != Encode(next)
  {
    hide Decode;
    hide Encode;
    hide Normal;
    SameLocationIsEquality(s.current, next);
  }

  /** A commit that leaves the address alone cannot be undone by committing the location it left. */
  lemma ReturnAfterStayIsIgnored(s: State, next: Location, mode: Mode)
    requires Synced(s) && Normal(next) && next != s.current
    ensures Commit(Commit(s, next, Stay), s.current, mode).current == next
  {
    hide Decode;
    hide Encode;
    hide Normal;
    hide Commit;
    SyncedAddressDecodes(s);
    CommitReachesTarget(s, next, Stay);
    SameLocationIsEquality(s.current, next);
    StayKeepsAddress(s, next);
    var t := Commit(s, next, Stay);
    CommitReachesTarget(t, s.current, mode);
    CommitMoves(t, s.current, mode);
  }

  lemma StayKeepsAddress(s: State, next: Location)
    requires ValidState(s)
    ensures Address(Commit(s, next, Stay)) == Address(s)
  {
    hide Decode;
    hide Encode;
  }

  lemma CommitMoves(s: State, next: Location, mode: Mode)
    requires ValidState(s)
    ensures Commit(s, next, mode).current in {s.current, next}
  {
    hide Decode;
    hide Encode;
  }

  // ---- Adjacent history entries ------------------------------------------------------------------

  ghost predicate Distinct(entries: seq<string>) {
    forall i | 0 <= i && i + 1 < |entries| :: Canonical(entries[i]) != Canonical(entries[i + 1])
  }

  lemma CanonicalTwice(hash: string)
    ensures Canonical(Canonical(hash)) == Canonical(hash)
  {
    hide Decode;
    hide Encode;
    hide Normal;
    CanonicalHashIsFixedPoint(hash, true);
  }

  /** Exactly the links of locations that print canonically are their own canonical link. */
  lemma PrintedIsCanonical(loc: Location)
    ensures Canonical(Encode(loc)) == Encode(loc) <==> PrintsCanonically(loc)
  {
    hide Decode;
    hide Encode;
    CanonicalIff(loc);
  }

  /** A commit that is not ignored. */
  ghost predicate Takes(s: State, next: Location)
    requires ValidState(s)
  {
    !SameLocation(s.current, next) && Canonical(Address(s)) != Encode(next)
  }

  /** A push that takes effect keeps adjacent entries apart exactly when its link leads elsewhere than the shown one. */
  lemma PushKeepsDistinct(s: State, next: Location)
    requires ValidState(s) && Distinct(s.entries) && Takes(s, next)
    ensures Distinct(Commit(s, next, Push).entries) <==> Canonical(Encode(next)) != Canonical(Address(s))
  {
    hide Decode;
    hide Encode;
    var t := Commit(s, next, Push);
    assert forall i | 0 <= i <= s.index :: t.entries[i] == s.entries[i];
    assert t.entries[s.index + 1] == Encode(next);
  }

  /** A replacing commit that takes effect keeps adjacent entries apart exactly when its link leads elsewhere than those
      of its neighbours. */
  lemma ReplaceKeepsDistinct(s: State, next: Location)
    requires ValidState(s) && Distinct(s.entries) && Takes(s, next)
    ensures Distinct(Commit(s, next, Replace).entries) <==>
            && (s.index > 0 ==> Canonical(s.entries[s.index - 1]) != Canonical(Encode(next)))
            && (s.index + 1 < |s.entries| ==> Canonical(s.entries[s.index + 1]) != Canonical(Encode(next)))
  {
    hide Decode;
    hide Encode;
    var t := Commit(s, next, Replace);
    assert forall i | 0 <= i < |t.entries| && i != s.index :: t.entries[i] == s.entries[i];
    assert t.entries[s.index] == Encode(next);
    if s.index > 0 && Canonical(s.entries[s.index - 1]) == Canonical(Encode(next)) {
      assert Canonical(t.entries[s.index - 1]) == Canonical(t.entries[s.index - 1 + 1]);
    }
    if s.index + 1 < |s.entries| && Canonical(s.entries[s.index + 1]) == Canonical(Encode(next)) {
      assert Canonical(t.entries[s.index]) == Canonical(t.entries[s.index + 1]);
    }
  }

  lemma StayKeepsEntries(s: State, next: Location)
    requires ValidState(s)
    ensures Commit(s, next, Stay).entries == s.entries
  {
    hide Decode;
    hide Encode;
  }

  lemma EnterKeepsDistinct(s: State, hash: string)
    requires ValidState(s) && Distinct(s.entries)
    ensures Distinct(Entered(s, hash).entries) <==> Canonical(hash) != Canonical(Address(s))
  {
    hide Decode;
    hide Encode;
    var t := Entered(s, hash);
    assert forall i | 0 <= i <= s.index :: t.entries[i] == s.entries[i];
    assert t.entries[s.index + 1] == hash;
  }

  lemma RestoredDistinct(s: State)
    requires ValidState(s)
    ensures Distinct(Restore(s).entries) <==> Distinct(s.entries)
  {
    hide Decode;
    hide Encode;
    CanonicalTwice(Address(s));
    var t := Restore(s);
    assert forall i | 0 <= i < |t.entries| :: Canonical(t.entries[i]) == Canonical(s.entries[i]);
  }

  /** A push fits when its link leads elsewhere than the shown one, a replacement when it leads elsewhere than those of
      both neighbours, a typed address when it leads elsewhere than the entry before it; everything else fits. */
  ghost predicate Fits(s: State, step: Step)
    requires ValidState(s)
  {
    match step
    case CommitTo(next, Push) => Takes(s, next) ==> Canonical(Encode(next)) != Canonical(Address(s))
    case CommitTo(next, Replace) =>
      Takes(s, next) ==>
        && (s.index > 0 ==> Canonical(s.entries[s.index - 1]) != Canonical(Encode(next)))
        && (s.index + 1 < |s.entries| ==> Canonical(s.entries[s.index + 1]) != Canonical(Encode(next)))
    case Enter(hash) => hash != Address(s) ==> Canonical(hash) != Canonical(Address(s))
    case _ => true
  }

  lemma IgnoredKeepsEntries(s: State, next: Location, mode: Mode)
    requires ValidState(s) && !Takes(s, next)
    ensures Commit(s, next, mode).entries == s.entries
  {
    hide Decode;
    hide Encode;
  }

  lemma CommitDistinctIff(s: State, next: Location, mode: Mode)
    requires ValidState(s) && Distinct(s.entries)
    ensures Distinct(Commit(s, next, mode).entries) <==> Fits(s, CommitTo(next, mode))
  {
    hide Decode;
    hide Encode;
    hide Normal;
    hide Commit;
    hide Distinct;
    if !Takes(s, next) {
      IgnoredKeepsEntries(s, next, mode);
    } else {
      match mode
      case Push => PushKeepsDistinct(s, next);
      case Replace => ReplaceKeepsDistinct(s, next);
      case Stay => StayKeepsEntries(s, next);
    }
  }

  lemma StepDistinctIff(s: State, step: Step)
    requires ValidState(s) && Distinct(s.entries)
    ensures Distinct(Apply(s, step).entries) <==> Fits(s, step)
  {
    hide Decode;
    hide Encode;
    hide Normal;
    hide Commit;
    hide Restore;
    hide Distinct;
    match step
    case CommitTo(next, mode) => CommitDistinctIff(s, next, mode);
    case Go(index) =>
      if index < |s.entries| {
        RestoredDistinct(s.(index := index));
      }
    case Enter(hash) =>
      RestoredDistinct(if hash == Address(s) then s else Entered(s, hash));
      EnterKeepsDistinct(s, hash);
  }

  /** In every state of a run adjacent entries print different locations. */
  ghost predicate AlwaysDistinct(s: State, steps: seq<Step>)
    requires ValidState(s)
    decreases |steps|
  {
    Distinct(s.entries) && (steps != [] ==> AlwaysDistinct(Apply(s, steps[0]), steps[1..]))
  }

  ghost predicate AllFit(s: State, steps: seq<Step>)
    requires ValidState(s)
    decreases |steps|
  {
    steps != [] ==> Fits(s, steps[0]) && AllFit(Apply(s, steps[0]), steps[1..])
  }

  /** For every run of pushes, replacements, commits that leave the address alone, history movements and typed
      addresses, to whatever locations: adjacent entries stay apart throughout exactly when every step fits. */
  lemma {:induction false} AlwaysDistinctIff(s: State, steps: seq<Step>)
    requires ValidState(s) && Distinct(s.entries)
    ensures AlwaysDistinct(s, steps) <==> AllFit(s, steps)
    decreases |steps|
  {
    hide Apply;
    hide Distinct;
    hide Fits;
    if steps != [] {
      var next := Apply(s, steps[0]);
      StepDistinctIff(s, steps[0]);
      if Fits(s, steps[0]) {
        AlwaysDistinctIff(next, steps[1..]);
      } else {
        assert !AlwaysDistinct(next, steps[1..]);
      }
    }
  }

  // ---- Pushed entries ------------------------------------------------------------------------------

  predicate CanonicalPush(step: Step) { step.CommitTo? && step.mode.Push? ==> PrintsCanonically(step.next) }

  /** How an entry came to hold its link. */
  datatype Mark = Opened | Typed | Pushed | Replaced

  /** A step that is not ignored: a commit that takes effect, or another address than the one shown. */
  ghost predicate Moves(s: State, step: Step)
    requires ValidState(s)
  {
    match step
    case CommitTo(next, _) => Takes(s, next)
    case Go(_) => true
    case Enter(hash) => hash != Address(s)
  }

  /** The marks after a step at an index of the history. */
  function Remark(marks: seq<Mark>, index: nat, step: Step, moves: bool): (after: seq<Mark>)
    requires index < |marks|
    ensures |after| == if moves && (step.Enter? || (step.CommitTo? && step.mode.Push?)) then index + 2 else |marks|
  {
    match step
    case CommitTo(next, mode) =>
      if !moves then marks
      else (match mode
        case Push => marks[..index + 1] + [Pushed]
        case Replace => marks[index := Replaced]
        case Stay => marks)
    case Go(_) => marks
    case Enter(_) => if moves then marks[..index + 1] + [Typed] else marks
  }

  ghost function StepMarks(s: State, marks: seq<Mark>, step: Step): seq<Mark>
    requires ValidState(s) && |marks| == |s.entries|
  {
    Remark(marks, s.index, step, Moves(s, step))
  }

  lemma EntryCount(s: State, marks: seq<Mark>, step: Step)
    requires ValidState(s) && |marks| == |s.entries|
    ensures |StepMarks(s, marks, step)| == |Apply(s, step).entries|
  {
    hide Decode;
    hide Encode;
  }

  ghost function Marks(s: State, marks: seq<Mark>, steps: seq<Step>): seq<Mark>
    requires ValidState(s) && |marks| == |s.entries|
    ensures |Marks(s, marks, steps)| == |Run(s, steps).entries|
    decreases |steps|
  {
    if steps == [] then marks
    else
      EntryCount(s, marks, steps[0]);
      hide Apply;
      hide StepMarks;
      Marks(Apply(s, steps[0]), StepMarks(s, marks, steps[0]), steps[1..])
  }

  /** A pushed entry prints another location than the entry before it, unless that one has been replaced. */
  ghost predicate PushesApart(entries: seq<string>, marks: seq<Mark>)
  {
    && |marks| == |entries|
    && forall i | 0 <= i && i + 1 < |entries| && marks[i + 1].Pushed? && !marks[i].Replaced? ::
         Canonical(entries[i]) != Canonical(entries[i + 1])
  }

  lemma CommitKeepsApart(s: State, marks: seq<Mark>, next: Location, mode: Mode)
    requires ValidState(s) && |marks| == |s.entries| && PushesApart(s.entries, marks)
    requires mode.Push? ==> PrintsCanonically(next)
    ensures PushesApart(Commit(s, next, mode).entries, StepMarks(s, marks, CommitTo(next, mode)))
  {
    hide Decode;
    hide Encode;
    hide PrintsCanonically;
    PrintedIsCanonical(next);
    var t, after := Commit(s, next, mode), StepMarks(s, marks, CommitTo(next, mode));
    forall i | 0 <= i && i + 1 < |t.entries| && after[i + 1].Pushed? && !after[i].Replaced?
      ensures Canonical(t.entries[i]) != Canonical(t.entries[i + 1])
    {
      assert t.entries[i] == s.entries[i];
      assert i + 1 <= s.index ==> t.entries[i + 1] == s.entries[i + 1];
    }
  }

  lemma RestoreKeepsApart(s: State, marks: seq<Mark>)
    requires ValidState(s) && |marks| == |s.entries| && PushesApart(s.entries, marks)
    ensures PushesApart(Restore(s).entries, marks)
  {
    hide Decode;
    hide Encode;
    CanonicalTwice(Address(s));
    var t := Restore(s);
    assert forall i | 0 <= i < |t.entries| :: Canonical(t.entries[i]) == Canonical(s.entries[i]);
  }

  lemma EnterKeepsApart(s: State, marks: seq<Mark>, hash: string)
    requires ValidState(s) && |marks| == |s.entries| && PushesApart(s.entries, marks)
    ensures PushesApart(Entered(s, hash).entries, marks[..s.index + 1] + [Typed])
  {
    hide Canonical;
  }

  lemma StepKeepsApart(s: State, marks: seq<Mark>, step: Step)
    requires ValidState(s) && |marks| == |s.entries| && CanonicalPush(step) && PushesApart(s.entries, marks)
    ensures PushesApart(Apply(s, step).entries, StepMarks(s, marks, step))
  {
    hide Decode;
    hide Encode;
    hide Normal;
    hide Commit;
    hide Restore;
    hide PushesApart;
    match step
    case CommitTo(next, mode) => CommitKeepsApart(s, marks, next, mode);
    case Go(index) =>
      if index < |s.entries| {
        RestoreKeepsApart(s.(index := index), marks);
      }
    case Enter(hash) =>
      if hash == Address(s) {
        RestoreKeepsApart(s, marks);
      } else {
        EnterKeepsApart(s, marks, hash);
        RestoreKeepsApart(Entered(s, hash), marks[..s.index + 1] + [Typed]);
      }
  }

  /** In every run, replacements and typed addresses included, a pushed entry prints another location than the entry
      before it unless that one was replaced; so two adjacent pushed entries never share a canonical link. */
  lemma {:induction false} PushedEntriesDiffer(s: State, marks: seq<Mark>, steps: seq<Step>)
    requires ValidState(s) && |marks| == |s.entries| && PushesApart(s.entries, marks)
    requires forall step | step in steps :: CanonicalPush(step)
    ensures PushesApart(Run(s, steps).entries, Marks(s, marks, steps))
    decreases |steps|
  {
    hide Apply;
    hide PushesApart;
    hide CanonicalPush;
    hide StepMarks;
    if steps != [] {
      StepKeepsApart(s, marks, steps[0]);
      EntryCount(s, marks, steps[0]);
      PushedEntriesDiffer(Apply(s, steps[0]), StepMarks(s, marks, steps[0]), steps[1..]);
    }
  }

  /** Pushing a location and replacing it by the one it came from leaves two equal entries. */
  lemma PushThenReplaceRepeats(s: State, next: Location)
    requires Synced(s) && Normal(next) && next != s.current
    ensures !Distinct(Commit(Commit(s, next, Push), s.current, Replace).entries)
  {
    hide Decode;
    hide Encode;
    hide Normal;
    SyncedAddressDecodes(s);
    SameLocationIsEquality(s.current, next);
    SameLocationIsEquality(next, s.current);
    RoundTrip(next);
    var t := Commit(Commit(s, next, Push), s.current, Replace);
    assert t.entries[s.index] == t.entries[s.index + 1] == Encode(s.current);
  }

  /** Coming back to a pushed link and pushing its location again is ignored exactly when the location prints
      canonically; otherwise it leaves two entries with one canonical link. */
  lemma PushAgainRepeatsIff(s: State, next: Location)
    requires ValidState(s) && Takes(s, next)
    ensures var t := Restore(Commit(s, next, Push));
            var u := Commit(t, next, Push);
            && (u.entries == t.entries <==> PrintsCanonically(next))
            && (!PrintsCanonically(next) ==>
                  u.index > 0 && Canonical(u.entries[u.index - 1]) == Canonical(u.entries[u.index]))
  {
    hide Decode;
    hide Encode;
    hide PrintsCanonically;
    PrintedIsCanonical(next);
    CanonicalHashPrints(Encode(next), true);
    CanonicalTwice(Encode(next));
    var t := Restore(Commit(s, next, Push));
    assert Address(t) == Canonical(Encode(next));
  }

  /** As the app does when an action is created for a strategic partner: its link selects the partner but no
      partnership. */
  lemma PartnerPushedAgainRepeats(s: State, next: Location)
    requires ValidState(s) && Takes(s, next)
    requires next.federal.Some? && Usable(next.federal.value.partnershipId) && next.partnershipId.None?
    ensures !Distinct(Commit(Restore(Commit(s, next, Push)), next, Push).entries)
  {
    hide Decode;
    hide Encode;
    hide Commit;
    hide Restore;
    PushAgainRepeatsIff(s, next);
    var u := Commit(Restore(Commit(s, next, Push)), next, Push);
    var before: nat := u.index - 1;
    assert Canonical(u.entries[before]) == Canonical(u.entries[before + 1]);
  }

  // ---- The steps in place ------------------------------------------------------------------------

  class Workspace {
    var current: Location
    var entries: seq<string>
    var index: nat
    var memory: map<Surface, Remembered>

    function Snapshot(): State
      reads this
    {
      State(current, entries, index, memory)
    }

    /** Opening a link: one history entry, restored. */
    constructor (hash: string)
      ensures Synced(Snapshot()) && entries == [Canonical(hash)] && current == Decode(hash, true).location
    {
      hide Encode;
      hide Decode;
      hide Normal;
      var decoded := LinkPrograms.DecodeWorkspaceLocation(hash, true);
      current := decoded.location;
      entries := [decoded.canonicalHash];
      index := 0;
      memory := map[decoded.location.surface :=
        Remembered(decoded.location.filters, decoded.location.sort, decoded.location.subview)];
      new;
      CanonicalHashPrints(hash, true);
      DecodedNormal(hash, true);
    }

    method CommitLocation(next: Location, mode: Mode)
      requires ValidState(Snapshot())
      modifies this
      ensures Snapshot() == Commit(old(Snapshot()), next, mode)
    {
      hide Encode;
      hide Decode;
      memory := Remember(memory, next);
      var here := LinkPrograms.WorkspaceHash(current);
      var hash := LinkPrograms.WorkspaceHash(next);
      if here == hash {
        return;
      }
      var shown := LinkPrograms.DecodeWorkspaceLocation(entries[index], true);
      var update := if mode.Stay? || shown.canonicalHash == hash then Stay else mode;
      if update.Stay? && hash == shown.canonicalHash {
        return;
      }
      match update {
        case Push => entries, index := entries[..index + 1] + [hash], index + 1;
        case Replace => entries := entries[index := hash];
        case Stay =>
      }
      current := next;
    }

    method RestoreLocation()
      requires ValidState(Snapshot())
      modifies this
      ensures Snapshot() == Restore(old(Snapshot()))
    {
      hide Encode;
      hide Decode;
      var decoded := LinkPrograms.DecodeWorkspaceLocation(entries[index], true);
      if entries[index] != decoded.canonicalHash {
        entries := entries[index := decoded.canonicalHash];
      }
      current := decoded.location;
    }
  }

  // ---- Typed addresses and going back --------------------------------------------------------------

  /** A typed address leads to its location and shows its canonical link; what came before it stays. */
  lemma EnteredLeads(s: State, hash: string)
    requires ValidState(s)
    ensures var t := Apply(s, Enter(hash));
            && t.current == Decode(hash, true).location && Address(t) == Canonical(hash) && t.memory == s.memory
            && s.index <= t.index && t.entries[..s.index] == s.entries[..s.index]
  {
    hide Decode;
  }

  /** A step that adds an entry drops the ones ahead. Going back from it restores location and address, and going
      forward again leads to where the step led. */
  lemma BackReturns(s: State, step: Step)
    requires Synced(s) && NormalStep(step) && Moves(s, step)
    requires step.Enter? || (step.CommitTo? && step.mode.Push?)
    ensures var t := Apply(s, step);
            && t.index == s.index + 1 == |t.entries| - 1
            && (var back := Apply(t, Go(s.index));
                && back.current == s.current && Address(back) == Address(s)
                && Apply(back, Go(t.index)) == t)
  {
    hide Decode;
    hide Encode;
    hide Normal;
    var t := Apply(s, step);
    StepKeepsSynced(s, step);
    AddedEntry(s, step);
    hide Apply;
    SyncedAddressDecodes(s);
    SyncedAddressDecodes(t);
    WentTo(t, s.index);
    var back := Apply(t, Go(s.index));
    assert back.entries == t.entries;
    WentTo(back, t.index);
    assert Apply(back, Go(t.index)).entries == t.entries;
  }

  lemma AddedEntry(s: State, step: Step)
    requires ValidState(s) && Moves(s, step)
    requires step.Enter? || (step.CommitTo? && step.mode.Push?)
    ensures var t := Apply(s, step);
            t.index == s.index + 1 == |t.entries| - 1 && t.entries[s.index] == Address(s)
  {
    hide Decode;
    hide Encode;
  }

  lemma WentTo(s: State, index: nat)
    requires ValidState(s) && index < |s.entries|
    ensures var link := s.entries[index];
            Apply(s, Go(index))
            == State(Decode(link, true).location, s.entries[index := Canonical(link)], index, s.memory)
  {
    hide Decode;
  }
}
