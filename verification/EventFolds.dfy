/** Versioned source records folded into clusters and candidates. */
module EventFolds {
  import opened Text

  /** `dict.fromkeys`: the distinct elements in the order they are first seen. */
  function Distinct(items: seq<string>): (r: seq<string>)
    ensures forall x :: x in r <==> x in items
    decreases |items|
  {
    if items == [] then []
    else
      var rest, last := Distinct(items[..|items| - 1]), items[|items| - 1];
      assert items == items[..|items| - 1] + [last];
      if last in rest then rest else rest + [last]
  }

  lemma DistinctSnoc(items: seq<string>, x: string)
    ensures Distinct(items + [x]) == if x in items then Distinct(items) else Distinct(items) + [x]
  {
    assert (items + [x])[..|items|] == items;
  }

  predicate NoRepeats(items: seq<string>) { forall i, j | 0 <= i < j < |items| :: items[i] != items[j] }

  /** The index at which an element is first seen. */
  function FirstIndex(items: seq<string>, x: string): (i: nat)
    requires x in items
    ensures i < |items| && items[i] == x && forall k | 0 <= k < i :: items[k] != x
  {
    if items[0] == x then 0 else 1 + FirstIndex(items[1..], x)
  }

  /** `listed` holds exactly the elements of `seen`, each once, in the order in which they are first seen. */
  ghost predicate FirstSeen(listed: seq<string>, seen: seq<string>) {
    && (forall x :: x in listed <==> x in seen)
    && NoRepeats(listed)
    && forall i, j | 0 <= i < j < |listed| :: FirstIndex(seen, listed[i]) < FirstIndex(seen, listed[j])
  }

  lemma FirstIndexSnoc(items: seq<string>, last: string, x: string)
    requires x in items + [last]
    ensures FirstIndex(items + [last], x) == if x in items then FirstIndex(items, x) else |items|
  {
    var all := items + [last];
    var i := FirstIndex(all, x);
    if x in items {
      var k := FirstIndex(items, x);
      assert all[k] == x;
      assert i <= k;
      assert items[i] == x;
    } else {
      assert forall k | 0 <= k < |items| :: all[k] in items;
    }
  }

  lemma FirstSeenSnoc(listed: seq<string>, seen: seq<string>, last: string)
    requires FirstSeen(listed, seen)
    ensures FirstSeen(if last in seen then listed else listed + [last], seen + [last])
  {
    hide FirstIndex;
    var more, all := if last in seen then listed else listed + [last], seen + [last];
    forall i, j | 0 <= i < j < |more| ensures FirstIndex(all, more[i]) < FirstIndex(all, more[j]) {
      assert more[i] in seen && more[i] == listed[i];
      FirstIndexSnoc(seen, last, more[i]);
      FirstIndexSnoc(seen, last, more[j]);
    }
  }

  /** `dict.fromkeys` lists each element once, in first-seen order. */
  lemma {:induction false} DistinctFirstSeen(items: seq<string>)
    ensures FirstSeen(Distinct(items), items)
    decreases |items|
  {
    if items != [] {
      var init, last := items[..|items| - 1], items[|items| - 1];
      hide FirstSeen;
      DistinctFirstSeen(init);
      FirstSeenSnoc(Distinct(init), init, last);
      assert items == init + [last];
    }
  }

  lemma {:induction false} DistinctOfDistinct(items: seq<string>)
    requires NoRepeats(items)
    ensures Distinct(items) == items
    decreases |items|
  {
    if items != [] {
      var init := items[..|items| - 1];
      DistinctOfDistinct(init);
      assert items == init + [items[|items| - 1]];
    }
  }

  /** Adding an element to a list in first-seen order and removing repeats keeps it in first-seen order. */
  lemma FirstSeenNext(listed: seq<string>, seen: seq<string>, x: string)
    requires FirstSeen(listed, seen)
    ensures FirstSeen(Distinct(listed + [x]), seen + [x])
  {
    hide FirstIndex;
    DistinctOfDistinct(listed);
    DistinctSnoc(listed, x);
    FirstSeenSnoc(listed, seen, x);
  }

  lemma FirstSeenOne(x: string)
    ensures FirstSeen([x], [x])
  {
  }

  lemma NoRepeatsNext(listed: seq<string>, x: string)
    requires NoRepeats(listed)
    ensures NoRepeats(Distinct(listed + [x])) && Distinct(listed + []) == listed
  {
    DistinctOfDistinct(listed);
    DistinctSnoc(listed, x);
    assert listed + [] == listed;
  }

  // ---- Clusters --------------------------------------------------------------------------------------

  /** One version of a publisher's record; the key stands for the hash of its source system and record id. */
  datatype Version = Version(sourceSystem: string, recordId: string, eventId: string, observationId: string,
                             evidenceId: string)

  datatype ClusterKey = ClusterKey(sourceSystem: string, recordId: string)

  function KeyOf(v: Version): ClusterKey { ClusterKey(v.sourceSystem, v.recordId) }

  datatype Cluster = Cluster(id: ClusterKey, eventId: string, observationIds: seq<string>, evidenceIds: seq<string>,
                             relatedEventIds: seq<string>)

  datatype Decision = Decision(cluster: Cluster, created: bool, changed: bool) | Mismatch

  /** `cluster_event`. */
  function ClusterEvent(v: Version, existing: Option<Cluster>): Decision {
    if existing.None? then Decision(Cluster(KeyOf(v), v.eventId, [v.observationId], [v.evidenceId], []), true, false)
    else if existing.value.id != KeyOf(v) then Mismatch
    else
      var c := existing.value;
      var superseded := if c.eventId != v.eventId then [c.eventId] else [];
      Decision(Cluster(c.id, v.eventId, Distinct(c.observationIds + [v.observationId]),
                       Distinct(c.evidenceIds + [v.evidenceId]), Distinct(c.relatedEventIds + superseded)),
               false, c.eventId != v.eventId)
  }

  /** The cluster of a nonempty history of versions; None once a version belongs to another record. */
  function Clustered(versions: seq<Version>): Option<Cluster>
    requires versions != []
    decreases |versions|
  {
    var init, last := versions[..|versions| - 1], versions[|versions| - 1];
    if init == [] then Some(ClusterEvent(last, None).cluster)
    else if Clustered(init).None? then None
    else
      var next := ClusterEvent(last, Clustered(init));
      if next.Mismatch? then None else Some(next.cluster)
  }

  function Events(versions: seq<Version>): seq<string>
    decreases |versions|
  {
    if versions == [] then [] else Events(versions[..|versions| - 1]) + [versions[|versions| - 1].eventId]
  }

  function Observations(versions: seq<Version>): seq<string>
    decreases |versions|
  {
    if versions == [] then [] else Observations(versions[..|versions| - 1]) + [versions[|versions| - 1].observationId]
  }

  function Evidence(versions: seq<Version>): seq<string>
    decreases |versions|
  {
    if versions == [] then [] else Evidence(versions[..|versions| - 1]) + [versions[|versions| - 1].evidenceId]
  }

  predicate OneRecord(versions: seq<Version>) {
    forall i, j | 0 <= i < |versions| && 0 <= j < |versions| :: KeyOf(versions[i]) == KeyOf(versions[j])
  }

  /** What a cluster records of the versions folded into it. */
  ghost predicate Records(c: Cluster, versions: seq<Version>)
    requires versions != []
  {
    && c.id == ClusterKey(versions[0].sourceSystem, versions[0].recordId)
    && c.eventId == versions[|versions| - 1].eventId
    && FirstSeen(c.observationIds, Observations(versions))
    && FirstSeen(c.evidenceIds, Evidence(versions))
    && NoRepeats(c.relatedEventIds)
    && forall x :: x in c.relatedEventIds || x == c.eventId <==> x in Events(versions)
  }

  lemma OneRecordSnoc(init: seq<Version>, last: Version)
    requires init != []
    ensures OneRecord(init + [last]) <==> OneRecord(init) && KeyOf(last) == KeyOf(init[0])
  {
    hide KeyOf;
    var all := init + [last];
    if OneRecord(all) {
      assert KeyOf(all[|init|]) == KeyOf(all[0]);
      forall i, j | 0 <= i < |init| && 0 <= j < |init| ensures KeyOf(init[i]) == KeyOf(init[j]) {
        assert KeyOf(all[i]) == KeyOf(all[j]);
      }
    }
    if OneRecord(init) && KeyOf(last) == KeyOf(init[0]) {
      forall i, j | 0 <= i < |all| && 0 <= j < |all| ensures KeyOf(all[i]) == KeyOf(all[j]) {
        assert i < |init| ==> KeyOf(init[i]) == KeyOf(init[0]);
        assert j < |init| ==> KeyOf(init[j]) == KeyOf(init[0]);
      }
    }
  }

  lemma NextRecords(init: seq<Version>, last: Version, c: Cluster)
    requires init != [] && Records(c, init) && KeyOf(last) == c.id
    ensures Records(ClusterEvent(last, Some(c)).cluster, init + [last])
  {
    var all := init + [last];
    assert all[..|all| - 1] == init && all[|all| - 1] == last && all[0] == init[0];
    FirstSeenNext(c.observationIds, Observations(init), last.observationId);
    FirstSeenNext(c.evidenceIds, Evidence(init), last.evidenceId);
    NoRepeatsNext(c.relatedEventIds, c.eventId);
  }

  lemma FirstRecords(v: Version)
    ensures Records(ClusterEvent(v, None).cluster, [v])
  {
    assert [v][..0] == [];
    assert Events([v]) == Events([]) + [v.eventId] && Observations([v]) == Observations([]) + [v.observationId];
    assert Evidence([v]) == Evidence([]) + [v.evidenceId];
    FirstSeenOne(v.observationId);
    FirstSeenOne(v.evidenceId);
  }

  /** Folding versions succeeds exactly when they are versions of one record. The cluster then keeps the record's id,
      holds each observation and evidence id once, in first-seen order, and its related and current event ids are
      exactly those seen. */
  lemma {:induction false} FoldRecordsIff(versions: seq<Version>)
    requires versions != []
    ensures Clustered(versions).Some? <==> OneRecord(versions)
    ensures Clustered(versions).Some? ==> Records(Clustered(versions).value, versions)
    decreases |versions|
  {
    hide ClusterEvent;
    hide OneRecord;
    hide Records;
    var init, last := versions[..|versions| - 1], versions[|versions| - 1];
    if init == [] {
      assert versions == [last];
      SingleRecord(last);
      FirstRecords(last);
    } else {
      assert versions == init + [last];
      FoldRecordsIff(init);
      OneRecordSnoc(init, last);
      if Clustered(init).Some? {
        StepKeys(last, Clustered(init).value);
        RecordedId(Clustered(init).value, init);
        if KeyOf(last) == KeyOf(init[0]) {
          NextRecords(init, last, Clustered(init).value);
        }
      }
    }
  }

  lemma RecordedId(c: Cluster, versions: seq<Version>)
    requires versions != [] && Records(c, versions)
    ensures c.id == KeyOf(versions[0])
  {
  }

  lemma SingleRecord(v: Version)
    ensures OneRecord([v])
    ensures ClusterEvent(v, None).Decision?
  {
  }

  lemma StepKeys(v: Version, c: Cluster)
    ensures ClusterEvent(v, Some(c)).Decision? <==> KeyOf(v) == c.id
  {
  }

  /** Some version of the event is directly followed by a version of another. */
  ghost predicate Superseded(versions: seq<Version>, eventId: string) {
    exists i | 0 < i < |versions| :: versions[i - 1].eventId == eventId && versions[i].eventId != eventId
  }

  lemma SupersededSnoc(init: seq<Version>, last: Version, eventId: string)
    requires init != []
    ensures Superseded(init + [last], eventId)
            <==> Superseded(init, eventId) || (init[|init| - 1].eventId == eventId && last.eventId != eventId)
  {
    var all := init + [last];
    if i :| 0 < i < |init| && init[i - 1].eventId == eventId && init[i].eventId != eventId {
      assert all[i - 1].eventId == eventId && all[i].eventId != eventId;
    }
    if init[|init| - 1].eventId == eventId && last.eventId != eventId {
      assert all[|init| - 1].eventId == eventId && all[|init|].eventId != eventId;
    }
    if i :| 0 < i < |all| && all[i - 1].eventId == eventId && all[i].eventId != eventId {
      if i < |init| {
        assert init[i - 1].eventId == eventId && init[i].eventId != eventId;
      }
    }
  }

  lemma NextRelated(c: Cluster, v: Version, eventId: string)
    requires KeyOf(v) == c.id
    ensures eventId in ClusterEvent(v, Some(c)).cluster.relatedEventIds
            <==> eventId in c.relatedEventIds || (c.eventId == eventId && v.eventId != eventId)
  {
    hide Distinct;
  }

  lemma LastEvent(versions: seq<Version>)
    requires versions != [] && Clustered(versions).Some?
    ensures Clustered(versions).value.eventId == versions[|versions| - 1].eventId
  {
    hide Clustered;
    hide Distinct;
    hide OneRecord;
    FoldRecordsIff(versions);
  }

  /** A cluster relates exactly the events that were superseded. */
  lemma {:induction false} RelatedIff(versions: seq<Version>, eventId: string)
    requires versions != [] && Clustered(versions).Some?
    ensures eventId in Clustered(versions).value.relatedEventIds <==> Superseded(versions, eventId)
    decreases |versions|
  {
    hide ClusterEvent;
    hide Superseded;
    var init, last := versions[..|versions| - 1], versions[|versions| - 1];
    if init == [] {
      FirstRelated(last, eventId);
      assert versions == [last];
    } else {
      RelatedIff(init, eventId);
      LastEvent(init);
      StepKeys(last, Clustered(init).value);
      NextRelated(Clustered(init).value, last, eventId);
      SupersededSnoc(init, last, eventId);
      assert versions == init + [last];
    }
  }

  lemma FirstRelated(v: Version, eventId: string)
    ensures ClusterEvent(v, None).cluster.relatedEventIds == []
    ensures !Superseded([v], eventId)
  {
  }

  lemma {:induction false} SupersededBetween(versions: seq<Version>, i: nat, j: nat)
    requires i < j < |versions| && versions[i].eventId != versions[j].eventId
    ensures Superseded(versions, versions[i].eventId)
    decreases j - i
  {
    if versions[i + 1].eventId == versions[i].eventId {
      SupersededBetween(versions, i + 1, j);
    } else {
      assert versions[(i + 1) - 1].eventId == versions[i].eventId;
    }
  }

  /** The current event is also listed as related exactly when it occurs earlier with another event in between. */
  lemma CurrentAlsoRelated(versions: seq<Version>)
    requires versions != [] && Clustered(versions).Some?
    ensures var c := Clustered(versions).value;
            c.eventId in c.relatedEventIds
            <==> exists i, j | 0 <= i < j < |versions| ::
                   versions[i].eventId == c.eventId && versions[j].eventId != c.eventId
  {
    hide Clustered;
    var current := Clustered(versions).value.eventId;
    RelatedIff(versions, current);
    if i: nat, j: nat :| i < j < |versions| && versions[i].eventId == current && versions[j].eventId != current {
      SupersededBetween(versions, i, j);
    }
    if i :| 0 < i < |versions| && versions[i - 1].eventId == current && versions[i].eventId != current {
      var before: nat := i - 1;
      assert before < i && versions[before].eventId == current;
    }
  }

  /** The decision about the last version of a history. */
  function Decided(versions: seq<Version>): Decision
    requires versions != []
  {
    var init := versions[..|versions| - 1];
    ClusterEvent(versions[|versions| - 1], if init == [] then None else Clustered(init))
  }

  /** The first version creates the cluster; a later one changes it exactly when it is of another event than the version
      before it. */
  lemma DecidedFlags(versions: seq<Version>)
    requires versions != [] && Clustered(versions).Some?
    ensures var n, d := |versions|, Decided(versions);
            && d.Decision? && d.cluster == Clustered(versions).value
            && (d.created <==> n == 1)
            && (d.changed <==> n > 1 && versions[n - 1].eventId != versions[n - 2].eventId)
  {
    hide Distinct;
    var init := versions[..|versions| - 1];
    if init != [] {
      LastEvent(init);
    }
  }

  // ---- Candidates ------------------------------------------------------------------------------------

  /** What one event and observation say about an unresolved organization or program. `usable` is false when there is no
      mention, it is already resolved, or it is a placeholder. */
  datatype Sighting = Sighting(usable: bool, identityKey: string, sourceName: string, reviewState: string,
                               eventId: string, observationId: string, observedAt: int)

  /** The id stands for the hash of the identity key. */
  datatype Candidate = Candidate(id: string, identityKey: string, sourceName: string, reviewState: string,
                                 eventIds: seq<string>, observationIds: seq<string>, createdAt: int, observedAt: int)

  function Max(a: int, b: int): int { if a < b then b else a }

  /** `organization_candidate_for`. */
  function OrganizationCandidateFor(s: Sighting, existing: Option<Candidate>): Option<Candidate> {
    if !s.usable then None
    else
      var current := Candidate(s.identityKey, s.identityKey, s.sourceName, s.reviewState, [s.eventId],
                               [s.observationId], s.observedAt, s.observedAt);
      if existing.None? then Some(current)
      else
        var e := existing.value;
        Some(current.(id := e.id, eventIds := Distinct(e.eventIds + [s.eventId]),
                      observationIds := Distinct(e.observationIds + [s.observationId]),
                      createdAt := e.createdAt, observedAt := Max(e.observedAt, s.observedAt)))
  }

  /** `program_candidate_for`, whose candidates hold no observation ids. */
  function ProgramCandidateFor(s: Sighting, existing: Option<Candidate>): Option<Candidate> {
    if !s.usable then None
    else
      var current := Candidate(s.identityKey, s.identityKey, s.sourceName, "PENDING_REVIEW", [s.eventId], [],
                               s.observedAt, s.observedAt);
      if existing.None? then Some(current)
      else
        var e := existing.value;
        Some(current.(id := e.id, eventIds := Distinct(e.eventIds + [s.eventId]), createdAt := e.createdAt,
                      observedAt := Max(e.observedAt, s.observedAt)))
  }

  datatype Subject = Organization | Program

  function CandidateFor(subject: Subject, s: Sighting, existing: Option<Candidate>): Option<Candidate> {
    if subject == Organization then OrganizationCandidateFor(s, existing) else ProgramCandidateFor(s, existing)
  }

  /** The stored candidate after a series of sightings; one that yields no candidate leaves it as it is. */
  function Merged(subject: Subject, sightings: seq<Sighting>): Option<Candidate>
    decreases |sightings|
  {
    if sightings == [] then None
    else
      var before := Merged(subject, sightings[..|sightings| - 1]);
      var next := CandidateFor(subject, sightings[|sightings| - 1], before);
      if next.Some? then next else before
  }

  function Usable(sightings: seq<Sighting>): seq<Sighting>
    decreases |sightings|
  {
    if sightings == [] then []
    else
      var last := sightings[|sightings| - 1];
      Usable(sightings[..|sightings| - 1]) + if last.usable then [last] else []
  }

  function SeenEvents(sightings: seq<Sighting>): seq<string>
    decreases |sightings|
  {
    if sightings == [] then [] else SeenEvents(sightings[..|sightings| - 1]) + [sightings[|sightings| - 1].eventId]
  }

  function SeenObservations(sightings: seq<Sighting>): seq<string>
    decreases |sightings|
  {
    if sightings == [] then []
    else SeenObservations(sightings[..|sightings| - 1]) + [sightings[|sightings| - 1].observationId]
  }

  predicate IsLatest(time: int, sightings: seq<Sighting>) {
    (exists s | s in sightings :: s.observedAt == time) && forall s | s in sightings :: s.observedAt <= time
  }

  /** What a candidate keeps of its usable sightings: the first id and creation time, the latest observation time, the
      events (and observations), each once in first-seen order, and the description of the last one. */
  ghost predicate Keeps(subject: Subject, c: Candidate, sightings: seq<Sighting>)
    requires sightings != []
  {
    var first, last := sightings[0], sightings[|sightings| - 1];
    && c.id == first.identityKey && c.createdAt == first.observedAt
    && IsLatest(c.observedAt, sightings)
    && FirstSeen(c.eventIds, SeenEvents(sightings))
    && (if subject == Organization then FirstSeen(c.observationIds, SeenObservations(sightings))
        else c.observationIds == [])
    && c.identityKey == last.identityKey && c.sourceName == last.sourceName
    && c.reviewState == (if subject == Organization then last.reviewState else "PENDING_REVIEW")
  }

  lemma LatestFirst(s: Sighting)
    ensures IsLatest(s.observedAt, [s])
  {
    assert s in [s];
  }

  lemma KeepsFirst(subject: Subject, s: Sighting)
    requires s.usable
    ensures Keeps(subject, CandidateFor(subject, s, None).value, [s])
  {
    hide IsLatest;
    hide Distinct;
    assert [s][..0] == [];
    assert SeenEvents([s]) == SeenEvents([]) + [s.eventId] == [s.eventId];
    assert SeenObservations([s]) == SeenObservations([]) + [s.observationId] == [s.observationId];
    FirstSeenOne(s.eventId);
    FirstSeenOne(s.observationId);
    LatestFirst(s);
  }

  lemma LatestSnoc(time: int, init: seq<Sighting>, s: Sighting)
    requires IsLatest(time, init)
    ensures IsLatest(Max(time, s.observedAt), init + [s])
  {
    var all := init + [s];
    var seen :| seen in init && seen.observedAt == time;
    assert seen in all && all[|init|] == s;
  }

  lemma KeepsNext(subject: Subject, init: seq<Sighting>, s: Sighting, c: Candidate)
    requires init != [] && Keeps(subject, c, init) && s.usable
    ensures Keeps(subject, CandidateFor(subject, s, Some(c)).value, init + [s])
  {
    hide IsLatest;
    var all := init + [s];
    assert all[..|all| - 1] == init && all[0] == init[0];
    LatestSnoc(c.observedAt, init, s);
    FirstSeenNext(c.eventIds, SeenEvents(init), s.eventId);
    if subject == Organization {
      FirstSeenNext(c.observationIds, SeenObservations(init), s.observationId);
    }
  }

  /** Merging any series of sightings yields a candidate exactly when one of them is usable, and the candidate keeps of
      the usable ones what `Keeps` says. */
  lemma {:induction false} MergedKeepsIff(subject: Subject, sightings: seq<Sighting>)
    ensures Merged(subject, sightings).Some? <==> Usable(sightings) != []
    ensures Usable(sightings) != [] ==> Keeps(subject, Merged(subject, sightings).value, Usable(sightings))
    decreases |sightings|
  {
    hide Keeps;
    if sightings != [] {
      var init, last := sightings[..|sightings| - 1], sightings[|sightings| - 1];
      MergedKeepsIff(subject, init);
      if last.usable {
        if Usable(init) == [] {
          assert Usable(sightings) == [] + [last] == [last];
          KeepsFirst(subject, last);
        } else {
          KeepsNext(subject, Usable(init), last, Merged(subject, init).value);
        }
      } else {
        assert Usable(sightings) == Usable(init) + [] == Usable(init);
      }
    }
  }
}
