/** The source-neutral order of priority items: assess, exclude closed identities, sort and deduplicate. */
module PriorityOrdering {
  import opened Text
  import opened Sorting
  import Ordering

  // ---- Candidates --------------------------------------------------------------------------------

  /** A field read as a number; anything that is not a finite number is absent. */
  datatype Figure = Absent | Value(value: real)

  /** A scored decision or confidence; `tier` is its upper-case band or tier label, "" without one. */
  datatype Decision = Decision(score: Figure, range: Option<Figure>, status: string, tier: string)

  datatype Nature = Risk | Opportunity | Unknown

  datatype ScoreKind = OpportunityPriority | RiskSeverity | CustomerHealth | TierOnly | NoScore

  /** A time in seconds, or infinity when it is missing or unreadable. */
  datatype Time = At(seconds: real) | Never

  datatype Item = Item(id: string, body: string)

  datatype Candidate = Candidate(
    item: Item, nature: Nature, decision: Decision, scoreKind: ScoreKind, confidence: Decision,
    missing: seq<string>, hardStop: bool, excluded: bool, identity: string, due: Time, created: Time)

  datatype Reason = ConfirmedHardStop | EscalateNow | ValidateNow | NatureUnknown | ConfidenceUnknown | OtherItem

  datatype Metadata = Metadata(
    triage: nat, nature: Nature, underlying: Option<real>, scoreKind: ScoreKind, complete: bool,
    highImportance: bool, hardStop: bool, reason: Reason)

  datatype Listed = Listed(item: Item, metadata: Metadata)

  // ---- Assessment --------------------------------------------------------------------------------

  const UNSETTLED: set<string> := {"PARTIAL_RANGE", "INSUFFICIENT_EVIDENCE", "INELIGIBLE", "BLOCKED"}

  const TIER_RANK: map<string, real> :=
    map["CRITICAL" := 100.0, "HIGH" := 75.0, "MEDIUM" := 50.0, "MODERATE" := 50.0, "LOW" := 25.0]

  function Number(figure: Figure): Option<real> {
    if figure.Value? && 0.0 <= figure.value <= 100.0 then Some(figure.value) else None
  }

  function Band(decision: Decision): Option<string> {
    var score := Number(decision.score);
    if score.Some? then Some(if score.value >= 70.0 then "HIGH" else if score.value >= 40.0 then "MEDIUM" else "LOW")
    else if decision.range.Some? || decision.status in UNSETTLED then None
    else if decision.tier == "CRITICAL" then Some("HIGH")
    else if decision.tier in {"HIGH", "MEDIUM", "MODERATE", "LOW"} then Some(decision.tier)
    else None
  }

  predicate Complete(c: Candidate) {
    && c.nature != Unknown
    && Band(c.confidence).Some?
    && c.missing == []
    && (Number(c.decision.score).Some? || Band(c.decision).Some?)
    && c.decision.status !in UNSETTLED
  }

  predicate HighRisk(c: Candidate) {
    c.nature == Risk && c.scoreKind != CustomerHealth && Band(c.decision) == Some("HIGH")
  }

  function Triage(c: Candidate): (nat, Reason) {
    var confidence := Band(c.confidence);
    if c.hardStop then (0, ConfirmedHardStop)
    else if HighRisk(c) && confidence == Some("HIGH") then (1, EscalateNow)
    else if HighRisk(c) && confidence.Some? && confidence.value in {"MEDIUM", "MODERATE", "LOW"} then (2, ValidateNow)
    else if c.nature == Unknown then (3, NatureUnknown)
    else if confidence.None? then (3, ConfidenceUnknown)
    else (3, OtherItem)
  }

  /** The score shown: the confirmed one when the assessment is complete, else the ceiling of its range. */
  function Underlying(c: Candidate): Option<real> {
    var score := Number(c.decision.score);
    var ceiling := if c.decision.range.Some? then Number(c.decision.range.value) else None;
    if Complete(c) || ceiling.None? then score else ceiling
  }

  function TierRank(decision: Decision): real {
    var band := Band(decision);
    if band.None? then -1.0
    else if decision.tier in TIER_RANK then TIER_RANK[decision.tier]
    else if band.value in TIER_RANK then TIER_RANK[band.value]
    else -1.0
  }

  function OrderingScore(c: Candidate): real {
    if Underlying(c).Some? then Underlying(c).value else TierRank(c.decision)
  }

  function Describe(c: Candidate): Metadata {
    var triage := Triage(c);
    var score := Number(c.decision.score);
    var high := triage.0 < 3 || HighRisk(c)
      || (c.nature == Opportunity && c.scoreKind == OpportunityPriority && score.Some? && score.value >= 75.0);
    var kind := if Underlying(c).None? && Band(c.decision).Some? then TierOnly else c.scoreKind;
    Metadata(triage.0, c.nature, Underlying(c), kind, Complete(c), high, c.hardStop, triage.1)
  }

  function TimePart(t: Time): Part { if t.At? then Part.Number(t.seconds) else Infinity }

  function Rank(c: Candidate): Key {
    [Part.Number(Triage(c).0 as real), Flag(!Complete(c)), Part.Number(-OrderingScore(c)),
     TimePart(c.due), TimePart(c.created), Word(c.item.id)]
  }

  /** Nothing escalates on a label or on the ceiling of a range: a candidate whose score is missing and whose
      assessment is explicitly open has no band, so only a hard stop lifts it above the ordinary items. */
  lemma OpenAssessmentNeverEscalates(c: Candidate)
    requires Number(c.decision.score).None?
    requires c.decision.range.Some? || c.decision.status in UNSETTLED
    ensures !Complete(c) && !HighRisk(c)
    ensures Describe(c).triage == if c.hardStop then 0 else 3
    ensures Describe(c).highImportance <==> c.hardStop
  {
  }

  // ---- What the classes and keys mean --------------------------------------------------------------------

  /** A usable score lies between 0 and 100. */
  predicate Scored(d: Decision) { d.score.Value? && 0.0 <= d.score.value <= 100.0 }

  /** An assessment that says itself that it is not settled. */
  predicate OpenEnded(d: Decision) {
    d.range.Some? || d.status in {"PARTIAL_RANGE", "INSUFFICIENT_EVIDENCE", "INELIGIBLE", "BLOCKED"}
  }

  /** Scored at least 70, or unscored, not open and labelled so. */
  predicate RatedHigh(d: Decision) {
    if Scored(d) then d.score.value >= 70.0 else !OpenEnded(d) && d.tier in {"HIGH", "CRITICAL"}
  }

  /** Scored below 70, or unscored, not open and labelled so. */
  predicate RatedLower(d: Decision) {
    if Scored(d) then d.score.value < 70.0 else !OpenEnded(d) && d.tier in {"MEDIUM", "MODERATE", "LOW"}
  }

  /** The classes on scores and labels: hard stops, then high risks of high confidence, then those of lower known
      confidence, then the rest. */
  lemma TriageIff(c: Candidate)
    ensures var risk := c.nature == Risk && c.scoreKind != CustomerHealth && RatedHigh(c.decision);
            var level := Describe(c).triage;
            && (level == 0 <==> c.hardStop)
            && (level == 1 <==> !c.hardStop && risk && RatedHigh(c.confidence))
            && (level == 2 <==> !c.hardStop && risk && RatedLower(c.confidence))
            && level <= 3
  {
  }

  /** The reason given is that of the class; in the last one it names what is unknown. */
  lemma ReasonIff(c: Candidate)
    ensures var m := Describe(c); var known := RatedHigh(c.confidence) || RatedLower(c.confidence);
            && (m.reason == ConfirmedHardStop <==> m.triage == 0)
            && (m.reason == EscalateNow <==> m.triage == 1)
            && (m.reason == ValidateNow <==> m.triage == 2)
            && (m.reason == NatureUnknown <==> m.triage == 3 && c.nature == Unknown)
            && (m.reason == ConfidenceUnknown <==> m.triage == 3 && c.nature != Unknown && !known)
  {
  }

  /** An assessment is complete when its nature, its confidence and its decision are known, nothing is missing and its
      status settles it. */
  lemma CompleteIff(c: Candidate)
    ensures Describe(c).complete
            <==> && c.nature != Unknown && c.missing == []
                 && (RatedHigh(c.confidence) || RatedLower(c.confidence))
                 && (RatedHigh(c.decision) || RatedLower(c.decision))
                 && c.decision.status !in {"PARTIAL_RANGE", "INSUFFICIENT_EVIDENCE", "INELIGIBLE", "BLOCKED"}
  {
  }

  /** The listing shows the score of a complete assessment, of an incomplete one the ceiling of its range when it has a
      usable one; high importance is a class above the rest, a high risk or an opportunity scored 75 or more. */
  lemma DescribeMeans(c: Candidate)
    ensures var m, d := Describe(c), c.decision;
            && m.nature == c.nature && m.hardStop == c.hardStop
            && (Scored(d) && (m.complete || d.range.None?) ==> m.underlying == Some(d.score.value))
            && (!m.complete && d.range.Some? && Scored(Decision(d.range.value, None, "", "")) ==>
                  m.underlying == Some(d.range.value.value))
            && (m.highImportance
                <==> || c.hardStop || (c.nature == Risk && c.scoreKind != CustomerHealth && RatedHigh(d))
                     || (c.nature == Opportunity && c.scoreKind == OpportunityPriority
                         && Scored(d) && d.score.value >= 75.0))
            && m.scoreKind == (if m.underlying.None? && (RatedHigh(d) || RatedLower(d)) then TierOnly else c.scoreKind)
  {
  }

  /** A listed time is at or before another; a missing time comes last. */
  predicate TimeAtMost(a: Time, b: Time) { b.Never? || (a.At? && a.seconds <= b.seconds) }

  /** What decides the order within a class: the score shown, or the label of an unscored assessment, or nothing. */
  predicate OrdersBy(c: Candidate, score: real) {
    if Describe(c).underlying.Some? then score == Describe(c).underlying.value
    else if OpenEnded(c.decision) then score == -1.0
    else if c.decision.tier == "CRITICAL" then score == 100.0
    else if c.decision.tier == "HIGH" then score == 75.0
    else if c.decision.tier in {"MEDIUM", "MODERATE"} then score == 50.0
    else if c.decision.tier == "LOW" then score == 25.0
    else score == -1.0
  }

  lemma OrdersByScore(c: Candidate)
    ensures OrdersBy(c, OrderingScore(c))
  {
  }

  // ---- Ordering ----------------------------------------------------------------------------------

  ghost function Closed(cs: seq<Candidate>): set<string> { set c | c in cs && c.excluded :: c.identity }

  /** The open candidates from position `i` on, with their keys and positions. */
  function Open(cs: seq<Candidate>, closed: set<string>, i: nat): (rows: seq<Row<Candidate>>)
    requires i <= |cs|
    ensures forall row | row in rows :: i <= row.position < |cs| && row.value == cs[row.position]
    ensures forall row | row in rows :: row.key == Rank(row.value) && row.value.identity !in closed
    decreases |cs| - i
  {
    if i == |cs| then []
    else (if cs[i].identity in closed then [] else [Row(Rank(cs[i]), i, cs[i])]) + Open(cs, closed, i + 1)
  }

  /** Keeps the first row of each identity not seen before. */
  function Dedupe(rows: seq<Row<Candidate>>, seen: set<string>): seq<Row<Candidate>> {
    if rows == [] then []
    else if rows[0].value.identity in seen then Dedupe(rows[1..], seen)
    else [rows[0]] + Dedupe(rows[1..], seen + {rows[0].value.identity})
  }

  function Present(rows: seq<Row<Candidate>>): seq<Listed> {
    if rows == [] then []
    else [Listed(rows[0].value.item, Describe(rows[0].value))] + Present(rows[1..])
  }

  ghost function OpenRows(cs: seq<Candidate>): seq<Row<Candidate>> { Open(cs, Closed(cs), 0) }

  ghost function Chosen(cs: seq<Candidate>): seq<Row<Candidate>> { Dedupe(Sort(OpenRows(cs)), {}) }

  /** `order_priorities`. */
  ghost function Ordered(cs: seq<Candidate>): seq<Listed> { Present(Chosen(cs)) }

  // ---- The specification -------------------------------------------------------------------------

  /** The first row of its identity: no other row of that identity comes before it. */
  predicate Keeps(rows: seq<Row<Candidate>>, row: Row<Candidate>) {
    && row in rows
    && forall other | other in rows && other.value.identity == row.value.identity :: other == row || Before(row, other)
  }

  lemma {:induction false} OpenMembers(cs: seq<Candidate>, closed: set<string>, i: nat, k: nat)
    requires i <= k < |cs| && cs[k].identity !in closed
    ensures Row(Rank(cs[k]), k, cs[k]) in Open(cs, closed, i)
    decreases k - i
  {
    hide Rank;
    if i < k {
      OpenMembers(cs, closed, i + 1, k);
    }
  }

  lemma {:induction false} OpenInOrder(cs: seq<Candidate>, closed: set<string>, i: nat)
    requires i <= |cs|
    ensures InInputOrder(Open(cs, closed, i))
    decreases |cs| - i
  {
    hide Rank;
    if i < |cs| {
      OpenInOrder(cs, closed, i + 1);
      var rest := Open(cs, closed, i + 1);
      assert forall j | 0 <= j < |rest| :: rest[j] in rest && rest[j].position > i;
    }
  }

  /** On a ranked list, deduplication keeps a subsequence: the first row of each identity not seen. */
  lemma {:induction false} DedupeMembers(rows: seq<Row<Candidate>>, seen: set<string>, row: Row<Candidate>)
    requires Ranked(rows)
    ensures row in Dedupe(rows, seen) <==> Keeps(rows, row) && row.value.identity !in seen
  {
    hide Ranked;
    hide Before;
    if rows != [] {
      RankedTail(rows);
      var tail := rows[1..];
      var first := rows[0].value.identity;
      DedupeMembers(tail, if first in seen then seen else seen + {first}, row);
      FirstIsKept(rows);
      if row != rows[0] && row.value.identity != first {
        KeepsTail(rows, row);
      }
      if row != rows[0] && row.value.identity == first {
        HeadWins(rows, row);
      }
    }
  }

  lemma FirstIsKept(rows: seq<Row<Candidate>>)
    requires Ranked(rows) && rows != []
    ensures Keeps(rows, rows[0])
  {
    hide Before;
    forall other | other in rows && other != rows[0] ensures Before(rows[0], other) {
      var i :| 0 <= i < |rows| && rows[i] == other;
    }
  }

  lemma KeepsTail(rows: seq<Row<Candidate>>, row: Row<Candidate>)
    requires Ranked(rows) && rows != []
    requires row.value.identity != rows[0].value.identity
    ensures Keeps(rows, row) <==> Keeps(rows[1..], row)
  {
    hide Before;
    RankedTail(rows);
  }

  lemma HeadWins(rows: seq<Row<Candidate>>, row: Row<Candidate>)
    requires Ranked(rows) && rows != []
    requires row != rows[0] && row.value.identity == rows[0].value.identity
    ensures !Keeps(rows, row)
  {
    if Keeps(rows, row) {
      FirstIsKept(rows);
      BeforeIrreflexive(rows[0], row);
      assert false;
    }
  }

  lemma {:induction false} DedupeRanked(rows: seq<Row<Candidate>>, seen: set<string>)
    requires Ranked(rows)
    ensures Ranked(Dedupe(rows, seen))
    ensures forall row | row in Dedupe(rows, seen) :: row in rows
  {
    hide Before;
    if rows != [] {
      var first := rows[0].value.identity;
      var rest := Dedupe(rows[1..], if first in seen then seen else seen + {first});
      DedupeRanked(rows[1..], if first in seen then seen else seen + {first});
      if first !in seen && rest != [] {
        assert rest[0] in rest;
        var i :| 0 <= i < |rows[1..]| && rows[1..][i] == rest[0];
        assert Before(rows[0], rows[i + 1]);
      }
      if first !in seen {
        RankedCons(rows[0], rest);
      }
    }
  }

  lemma KeepsSameMembers(a: seq<Row<Candidate>>, b: seq<Row<Candidate>>, row: Row<Candidate>)
    requires forall x :: x in a <==> x in b
    ensures Keeps(a, row) <==> Keeps(b, row)
  {
    hide Before;
  }

  /** The order meets its specification: the chosen rows are exactly the first row in key order (the earlier one on
      equal keys) of every identity without an excluded member, listed in key order. */
  lemma OrderMeetsSpecification(cs: seq<Candidate>, row: Row<Candidate>)
    ensures Ranked(Chosen(cs))
    ensures row in Chosen(cs) <==> Keeps(OpenRows(cs), row)
  {
    hide Keeps;
    hide Dedupe;
    hide Open;
    hide Closed;
    hide Ranked;
    hide Sort;
    hide Before;
    var rows := OpenRows(cs);
    OpenInOrder(cs, Closed(cs), 0);
    SortRanks(rows);
    SortMembers(rows);
    DedupeRanked(Sort(rows), {});
    DedupeMembers(Sort(rows), {}, row);
    assert multiset(Sort(rows)) == multiset(rows);
    forall x ensures x in Sort(rows) <==> x in rows {
      assert x in multiset(Sort(rows)) <==> x in multiset(rows);
    }
    KeepsSameMembers(Sort(rows), rows, row);
  }

  /** The open rows are the candidates of the identities without an excluded member, each at its position. */
  lemma OpenRowsMembers(cs: seq<Candidate>, row: Row<Candidate>)
    ensures row in OpenRows(cs)
       <==> && row.position < |cs| && row == Row(Rank(cs[row.position]), row.position, cs[row.position])
            && forall c | c in cs && c.excluded :: c.identity != row.value.identity
  {
    hide Rank;
    if row.position < |cs| && row == Row(Rank(cs[row.position]), row.position, cs[row.position])
      && row.value.identity !in Closed(cs) {
      OpenMembers(cs, Closed(cs), 0, row.position);
    }
  }

  /** No identity is listed twice. */
  lemma ChosenIdentitiesDistinct(cs: seq<Candidate>, i: nat, j: nat)
    requires i < j < |Chosen(cs)|
    ensures Chosen(cs)[i].value.identity != Chosen(cs)[j].value.identity
  {
    hide Chosen;
    var a, b := Chosen(cs)[i], Chosen(cs)[j];
    OrderMeetsSpecification(cs, a);
    OrderMeetsSpecification(cs, b);
    BeforeIrreflexive(a, b);
  }

  // ---- Independence of the input order -------------------------------------------------------------

  predicate DistinctItems(cs: seq<Candidate>) {
    forall i, j | 0 <= i < j < |cs| :: cs[i].item.id != cs[j].item.id
  }

  /** The candidate that stands for its identity, without mentioning positions. */
  predicate Stands(cs: seq<Candidate>, c: Candidate) {
    && c in cs
    && (forall d | d in cs && d.excluded :: d.identity != c.identity)
    && forall d | d in cs && d.identity == c.identity :: d == c || KeyLess(Rank(c), Rank(d))
  }

  function Placeless(rows: seq<Row<Candidate>>): (r: seq<Row<Candidate>>)
    ensures |r| == |rows|
    ensures forall i | 0 <= i < |r| :: r[i] == rows[i].(position := 0)
  {
    if rows == [] then [] else [rows[0].(position := 0)] + Placeless(rows[1..])
  }

  lemma DistinctKeys(cs: seq<Candidate>, i: nat, j: nat)
    requires DistinctItems(cs) && i < |cs| && j < |cs| && i != j
    ensures Rank(cs[i]) != Rank(cs[j])
  {
    assert Rank(cs[i])[5].text == cs[i].item.id && Rank(cs[j])[5].text == cs[j].item.id;
  }

  lemma KeptStands(cs: seq<Candidate>, row: Row<Candidate>)
    requires DistinctItems(cs) && row in OpenRows(cs)
    ensures Keeps(OpenRows(cs), row) <==> Stands(cs, row.value)
  {
    hide Rank;
    hide Open;
    OpenRowsMembers(cs, row);
    var i := row.position;
    if Keeps(OpenRows(cs), row) {
      forall d | d in cs && d.identity == row.value.identity
        ensures d == row.value || KeyLess(Rank(row.value), Rank(d))
      {
        var k: nat :| k < |cs| && cs[k] == d;
        OpenRowsMembers(cs, Row(Rank(d), k, d));
        if k != i {
          DistinctKeys(cs, i, k);
        }
      }
    }
    if Stands(cs, row.value) {
      forall other | other in OpenRows(cs) && other.value.identity == row.value.identity
        ensures other == row || Before(row, other)
      {
        OpenRowsMembers(cs, other);
        if other.position != i {
          DistinctKeys(cs, i, other.position);
        }
      }
    }
  }

  lemma PlacelessMembers(cs: seq<Candidate>, p: Row<Candidate>)
    requires DistinctItems(cs)
    ensures p in Placeless(Chosen(cs)) <==> p == Row(Rank(p.value), 0, p.value) && Stands(cs, p.value)
  {
    hide Rank;
    hide Chosen;
    hide OpenRows;
    hide Stands;
    hide Keeps;
    if p in Placeless(Chosen(cs)) {
      var i :| 0 <= i < |Chosen(cs)| && p == Chosen(cs)[i].(position := 0);
      ChosenStands(cs, Chosen(cs)[i]);
    }
    if p == Row(Rank(p.value), 0, p.value) && Stands(cs, p.value) {
      var row := StandsChosen(cs, p.value);
      var i :| 0 <= i < |Chosen(cs)| && Chosen(cs)[i] == row;
      assert Placeless(Chosen(cs))[i] == p;
    }
  }

  lemma ChosenStands(cs: seq<Candidate>, row: Row<Candidate>)
    requires DistinctItems(cs) && row in Chosen(cs)
    ensures row.key == Rank(row.value) && Stands(cs, row.value)
  {
    hide Rank;
    hide Chosen;
    hide OpenRows;
    hide Stands;
    OrderMeetsSpecification(cs, row);
    KeptStands(cs, row);
    OpenRowsMembers(cs, row);
  }

  lemma StandsChosen(cs: seq<Candidate>, c: Candidate) returns (row: Row<Candidate>)
    requires DistinctItems(cs) && Stands(cs, c)
    ensures row in Chosen(cs) && row.key == Rank(c) && row.value == c
  {
    hide Rank;
    hide Chosen;
    hide OpenRows;
    hide Keeps;
    var i: nat :| i < |cs| && cs[i] == c;
    row := Row(Rank(c), i, c);
    OpenRowsMembers(cs, row);
    KeptStands(cs, row);
    OrderMeetsSpecification(cs, row);
  }

  lemma PlacelessRanked(cs: seq<Candidate>)
    requires DistinctItems(cs)
    ensures Ranked(Placeless(Chosen(cs)))
  {
    hide Chosen;
    hide OpenRows;
    hide Rank;
    hide Before;
    var rows := Chosen(cs);
    forall i, j | 0 <= i < j < |rows| ensures Before(Placeless(rows)[i], Placeless(rows)[j]) {
      ChosenInOrder(cs, i, j);
      OrderMeetsSpecification(cs, rows[i]);
      OrderMeetsSpecification(cs, rows[j]);
      KeyDecides(cs, rows[i], rows[j]);
    }
  }

  lemma ChosenInOrder(cs: seq<Candidate>, i: nat, j: nat)
    requires i < j < |Chosen(cs)|
    ensures Before(Chosen(cs)[i], Chosen(cs)[j])
  {
    hide Chosen;
    hide Before;
    hide OpenRows;
    OrderMeetsSpecification(cs, Chosen(cs)[i]);
  }

  lemma KeyDecides(cs: seq<Candidate>, a: Row<Candidate>, b: Row<Candidate>)
    requires DistinctItems(cs)
    requires Keeps(OpenRows(cs), a) && Keeps(OpenRows(cs), b) && Before(a, b)
    ensures Before(a.(position := 0), b.(position := 0))
  {
    hide OpenRows;
    hide Rank;
    hide KeyLess;
    OpenRowsMembers(cs, a);
    OpenRowsMembers(cs, b);
    if a.key == b.key {
      KeyIrreflexive(a.key);
      DistinctKeys(cs, a.position, b.position);
      assert false;
    }
  }

  lemma {:induction false} PresentPlaceless(rows: seq<Row<Candidate>>)
    ensures Present(Placeless(rows)) == Present(rows)
  {
    hide Describe;
    if rows != [] {
      PresentPlaceless(rows[1..]);
    }
  }

  lemma StandsSameMembers(cs: seq<Candidate>, ds: seq<Candidate>, c: Candidate)
    requires forall x :: x in cs <==> x in ds
    ensures Stands(cs, c) <==> Stands(ds, c)
  {
    hide Rank;
    hide KeyLess;
  }

  /** With distinct item ids the listing depends only on which candidates there are, not on the order the sources
      supply them in. */
  lemma ListingIgnoresInputOrder(cs: seq<Candidate>, ds: seq<Candidate>)
    requires DistinctItems(cs) && DistinctItems(ds)
    requires forall c :: c in cs <==> c in ds
    ensures Ordered(cs) == Ordered(ds)
  {
    hide Chosen;
    hide Stands;
    hide Rank;
    var a, b := Placeless(Chosen(cs)), Placeless(Chosen(ds));
    PlacelessRanked(cs);
    PlacelessRanked(ds);
    forall row ensures row in a <==> row in b {
      PlacelessMembers(cs, row);
      PlacelessMembers(ds, row);
      StandsSameMembers(cs, ds, row.value);
    }
    RankedUnique(a, b);
    PresentPlaceless(Chosen(cs));
    PresentPlaceless(Chosen(ds));
  }

  lemma {:induction false} PresentAt(rows: seq<Row<Candidate>>, i: nat)
    requires i < |rows|
    ensures |Present(rows)| == |rows| && Present(rows)[i] == Listed(rows[i].value.item, Describe(rows[i].value))
  {
    hide Describe;
    if |rows| > 1 {
      PresentAt(rows[1..], if i > 0 then i - 1 else 0);
    }
  }

  /** Of two listed items the earlier one has the lower triage class, or the same; then it is complete unless neither
      is; then it has no lower score; then no later due time; then no later creation time; then no greater id. */
  lemma ListingFollowsTriage(cs: seq<Candidate>, i: nat, j: nat, x: real, y: real)
    requires i < j < |Chosen(cs)| && OrdersBy(Chosen(cs)[i].value, x) && OrdersBy(Chosen(cs)[j].value, y)
    ensures |Ordered(cs)| == |Chosen(cs)|
    ensures var a, b := Chosen(cs)[i].value, Chosen(cs)[j].value;
            && Ordered(cs)[i] == Listed(a.item, Describe(a)) && Ordered(cs)[j] == Listed(b.item, Describe(b))
            && Follows(a, b, x, y)
  {
    hide Chosen;
    hide OpenRows;
    hide Describe;
    hide Follows;
    hide OrdersBy;
    var a, b := Chosen(cs)[i], Chosen(cs)[j];
    PresentAt(Chosen(cs), i);
    PresentAt(Chosen(cs), j);
    OrderMeetsSpecification(cs, a);
    OrderMeetsSpecification(cs, b);
    OpenRowsMembers(cs, a);
    OpenRowsMembers(cs, b);
    assert Before(a, b);
    KeysCompare(a.value, b.value, x, y);
  }

  /** The order of two listed candidates with ordering scores `x` and `y`. */
  predicate Follows(a: Candidate, b: Candidate, x: real, y: real) {
    var m, n := Describe(a), Describe(b);
    && m.triage <= n.triage
    && (m.triage == n.triage ==>
          && (n.complete ==> m.complete)
          && (m.complete == n.complete ==>
                && x >= y
                && (x == y ==>
                      && TimeAtMost(a.due, b.due)
                      && (a.due == b.due ==>
                            && TimeAtMost(a.created, b.created)
                            && (a.created == b.created ==> !Ordering.Less(b.item.id, a.item.id))))))
  }

  lemma KeysCompare(a: Candidate, b: Candidate, x: real, y: real)
    requires KeyAtMost(Rank(a), Rank(b)) && OrdersBy(a, x) && OrdersBy(b, y)
    ensures Follows(a, b, x, y)
  {
    OrdersByScore(a);
    OrdersByScore(b);
    assert x == OrderingScore(a) && y == OrderingScore(b);
    hide Triage;
    hide Complete;
    hide OrderingScore;
    hide OrdersBy;
    var k, l := Rank(a), Rank(b);
    KeyAtMostFirst(k, l);
    if k[0] == l[0] {
      RankTail(a, b, 1);
      KeyAtMostFirst(k[1..], l[1..]);
      if k[1] == l[1] {
        RankTail(a, b, 2);
        KeyAtMostFirst(k[2..], l[2..]);
        if k[2] == l[2] {
          LaterParts(a, b);
        }
      }
    }
  }

  lemma RankTail(a: Candidate, b: Candidate, n: nat)
    requires 0 < n <= 5
    ensures Rank(a)[n - 1..][1..] == Rank(a)[n..] && Rank(b)[n - 1..][1..] == Rank(b)[n..]
    ensures Rank(a)[n..][0] == Rank(a)[n] && Rank(b)[n..][0] == Rank(b)[n]
  {
  }

  lemma LaterParts(a: Candidate, b: Candidate)
    requires KeyAtMost(Rank(a)[2..], Rank(b)[2..]) && Rank(a)[2] == Rank(b)[2]
    ensures TimeAtMost(a.due, b.due)
    ensures a.due == b.due ==> TimeAtMost(a.created, b.created)
    ensures a.due == b.due && a.created == b.created ==> !Ordering.Less(b.item.id, a.item.id)
  {
    hide Triage;
    hide Complete;
    hide OrderingScore;
    var k, l := Rank(a), Rank(b);
    KeyAtMostFirst(k[2..], l[2..]);
    RankTail(a, b, 3);
    KeyAtMostFirst(k[3..], l[3..]);
    if a.due == b.due {
      RankTail(a, b, 4);
      KeyAtMostFirst(k[4..], l[4..]);
      if a.created == b.created {
        RankTail(a, b, 5);
        KeyAtMostFirst(k[5..], l[5..]);
      }
    }
  }

  // ---- The program -------------------------------------------------------------------------------

  lemma PresentNext(rows: seq<Row<Candidate>>, i: nat, seen: set<string>)
    requires i < |rows|
    ensures var c := rows[i].value;
            && Present(Dedupe(rows[i..], seen))
               == if c.identity in seen then Present(Dedupe(rows[i + 1..], seen))
                  else [Listed(c.item, Describe(c))] + Present(Dedupe(rows[i + 1..], seen + {c.identity}))
  {
    hide Describe;
    var c := rows[i].value;
    assert rows[i..][0] == rows[i] && rows[i..][1..] == rows[i + 1..];
    var rest := Dedupe(rows[i + 1..], seen + {c.identity});
    assert ([rows[i]] + rest)[1..] == rest;
  }

  lemma NothingPresented(seen: set<string>)
    ensures Present(Dedupe([], seen)) == []
  {
  }

  method OrderPriorities(cs: seq<Candidate>) returns (result: seq<Listed>)
    ensures result == Ordered(cs)
  {
    hide Describe;
    hide Rank;
    hide Present;
    hide Dedupe;
    hide Sort;
    hide Open;
    var closed := set c | c in cs && c.excluded :: c.identity;
    var rows := Sort(Open(cs, closed, 0));
    assert rows[0..] == rows;
    var seen := {};
    result := [];
    var i := 0;
    while i < |rows|
      invariant i <= |rows|
      invariant Ordered(cs) == result + Present(Dedupe(rows[i..], seen))
    {
      var candidate := rows[i].value;
      PresentNext(rows, i, seen);
      if candidate.identity !in seen {
        seen := seen + {candidate.identity};
        ghost var one, rest := [Listed(candidate.item, Describe(candidate))], Present(Dedupe(rows[i + 1..], seen));
        assert result + (one + rest) == result + one + rest;
        result := result + [Listed(candidate.item, Describe(candidate))];
      }
      i := i + 1;
    }
    assert rows[i..] == [] && result + [] == result;
    NothingPresented(seen);
  }
}
