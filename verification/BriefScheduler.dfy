/** The capped synthesis worker over its durable cache, run in cycles. */
module BriefScheduler {
  import opened Text
  import opened Briefs
  import opened Sorting
  import Ordering

  const TICKS_PER_SECOND: nat := 1_000_000

  /** Cooldown seconds per failing status. */
  datatype Policy = Policy(authFailed: int, timeout: int, quota: int, unavailable: int)

  function Cooldown(policy: Policy, status: Status): Option<nat> {
    match status
    case AUTH_FAILED => Some(Ticks(policy.authFailed))
    case TIMEOUT => Some(Ticks(policy.timeout))
    case QUOTA => Some(Ticks(policy.quota))
    case UNAVAILABLE => Some(Ticks(policy.unavailable))
    case _ => None
  }

  function Ticks(seconds: int): nat { (if seconds > 0 then seconds else 0) * TICKS_PER_SECOND }

  /** When a failed attempt may be repeated; a zero cooldown counts as none. */
  function RetryAt(now: int, cooldown: Option<nat>): Option<int> {
    if cooldown.Some? && cooldown.value != 0 then Some(now + cooldown.value) else None
  }

  /** One brief with what the provider would answer and whether the deadline would stop its attempt. */
  datatype Job = Job(brief: Brief, answer: Answer, late: bool)

  datatype Cycle = Cycle(configured: bool, structured: bool, cap: int, now: int, policy: Policy, jobs: seq<Job>)

  type Cache = map<CacheId, Briefs.Row>

  /** `brief_synthesis`: only a row of exactly this content. */
  function Cached(rows: Cache, b: Brief): Option<Briefs.Row> {
    if CacheKey(b) in rows && rows[CacheKey(b)].hash == Governed(b) then Some(rows[CacheKey(b)]) else None
  }

  // ---- One brief ---------------------------------------------------------------------------------

  datatype Choice = Reuse | Skip | Record | Wait | Stop | Attempt

  function Room(cycle: Cycle): nat { if cycle.cap > 0 then cycle.cap else 0 }

  function Choose(cached: Option<Briefs.Row>, cycle: Cycle, attempted: nat, late: bool): Choice {
    if cached.Some? && cached.value.status == AVAILABLE then Reuse
    else if !cycle.configured then (if cached.Some? && cached.value.status == NOT_CONFIGURED then Skip else Record)
    else if cached.Some? && cached.value.status != NOT_CONFIGURED
      && (cached.value.nextRetry.None? || cycle.now < cached.value.nextRetry.value) then Wait
    else if attempted >= Room(cycle) || late then Stop
    else Attempt
  }

  /** A write to the cache: a placeholder of an unconfigured cycle, or an attempt with its outcome. */
  datatype Kind = Placeholder | Attempted(status: Status, cooldown: Option<nat>)

  datatype Write = Write(id: CacheId, hash: Brief, at: int, kind: Kind)

  /** The worker's state: the cache, the history of writes, and the counters of the running cycle. */
  datatype Progress = Progress(rows: Cache, log: seq<Write>, attempted: nat, reused: nat, deferred: nat, assisted: nat,
                               statuses: seq<Status>, capped: bool)

  function Previous(cached: Option<Briefs.Row>): nat { if cached.Some? then cached.value.attempts else 0 }

  function Placed(cycle: Cycle, p: Progress, job: Job): Progress {
    var b := job.brief;
    p.(rows := p.rows[CacheKey(b) := PlaceholderRow(b, Previous(Cached(p.rows, b)))],
       log := p.log + [Write(CacheKey(b), Governed(b), cycle.now, Placeholder)], deferred := p.deferred + 1)
  }

  function Tried(cycle: Cycle, p: Progress, job: Job): Progress {
    var b := job.brief;
    var outcome := Synthesize(b, true, cycle.structured, job.answer);
    var cooldown := Cooldown(cycle.policy, outcome.status);
    var row := AttemptRow(b, outcome, Previous(Cached(p.rows, b)) + 1, RetryAt(cycle.now, cooldown));
    p.(rows := p.rows[CacheKey(b) := row],
       log := p.log + [Write(CacheKey(b), Governed(b), cycle.now, Attempted(outcome.status, cooldown))],
       attempted := p.attempted + 1,
       assisted := p.assisted + if outcome.brief.summaryMode == "GEMINI_ASSISTED" then 1 else 0,
       statuses := p.statuses + [outcome.status])
  }

  function Visit(cycle: Cycle, p: Progress, job: Job): Progress {
    match Choose(Cached(p.rows, job.brief), cycle, p.attempted, job.late)
    case Reuse => p.(reused := p.reused + 1)
    case Skip => p.(deferred := p.deferred + 1)
    case Record => Placed(cycle, p, job)
    case Wait => p.(deferred := p.deferred + 1)
    case Stop => p.(capped := true)
    case Attempt => Tried(cycle, p, job)
  }

  // ---- One cycle ---------------------------------------------------------------------------------

  /** Visits the jobs in turn until one is stopped by the cap or the deadline. */
  function Work(cycle: Cycle, p: Progress, jobs: seq<Sorting.Row<Job>>): Progress
    decreases |jobs|
  {
    if jobs == [] then p
    else
      var next := Visit(cycle, p, jobs[0].value);
      if next.capped then next else Work(cycle, next, jobs[1..])
  }

  function Coverage(b: Brief): real {
    if b.signalConfidence.Some? && b.signalConfidence.value.coverage.Some? then b.signalConfidence.value.coverage.value
    else 0.0
  }

  function Urgency(b: Brief): Key { [Flag(!b.priorityEligible), Number(-Coverage(b)), Word(b.id)] }

  /** The eligible jobs from position `i` on. */
  function Selected(jobs: seq<Job>, i: nat): (rows: seq<Sorting.Row<Job>>)
    requires i <= |jobs|
    ensures forall row | row in rows :: Eligible(row.value.brief) && i <= row.position < |jobs|
    ensures forall row | row in rows :: row.value == jobs[row.position] && row.key == Urgency(row.value.brief)
    decreases |jobs| - i
  {
    if i == |jobs| then []
    else
      (if Eligible(jobs[i].brief) then [Sorting.Row(Urgency(jobs[i].brief), i, jobs[i])] else [])
      + Selected(jobs, i + 1)
  }

  function Queue(cycle: Cycle): seq<Sorting.Row<Job>> { Sort(Selected(cycle.jobs, 0)) }

  function Begin(rows: Cache, log: seq<Write>): Progress { Progress(rows, log, 0, 0, 0, 0, [], false) }

  /** `process_signal_brief_synthesis`. */
  function Process(rows: Cache, log: seq<Write>, cycle: Cycle): Progress { Work(cycle, Begin(rows, log), Queue(cycle)) }

  /** Any number of cycles, starting from an empty cache. */
  function Run(cycles: seq<Cycle>): Progress
    decreases |cycles|
  {
    if cycles == [] then Begin(map[], [])
    else
      var before := Run(cycles[..|cycles| - 1]);
      Process(before.rows, before.log, cycles[|cycles| - 1])
  }

  lemma {:induction false} SelectedInOrder(jobs: seq<Job>, i: nat)
    requires i <= |jobs|
    ensures InInputOrder(Selected(jobs, i))
    decreases |jobs| - i
  {
    hide Eligible;
    hide Urgency;
    if i < |jobs| {
      SelectedInOrder(jobs, i + 1);
      var rest := Selected(jobs, i + 1);
      assert forall j | 0 <= j < |rest| :: rest[j] in rest && rest[j].position > i;
    }
  }

  lemma {:induction false} SelectedMembers(jobs: seq<Job>, i: nat, k: nat)
    requires i <= k < |jobs| && Eligible(jobs[k].brief)
    ensures Sorting.Row(Urgency(jobs[k].brief), k, jobs[k]) in Selected(jobs, i)
    decreases k - i
  {
    hide Eligible;
    hide Urgency;
    if i < k {
      SelectedMembers(jobs, i + 1, k);
    }
  }

  /** The worker visits exactly the eligible briefs: priority briefs first, then by falling coverage, then by id. */
  lemma QueueOrder(cycle: Cycle, row: Sorting.Row<Job>)
    ensures Ranked(Queue(cycle))
    ensures row in Queue(cycle)
       <==> && row.position < |cycle.jobs| && Eligible(cycle.jobs[row.position].brief)
            && row == Sorting.Row(Urgency(cycle.jobs[row.position].brief), row.position, cycle.jobs[row.position])
  {
    hide Eligible;
    hide Urgency;
    hide Ranked;
    hide Sort;
    var rows := Selected(cycle.jobs, 0);
    SelectedInOrder(cycle.jobs, 0);
    SortRanks(rows);
    assert row in Queue(cycle) <==> row in multiset(Queue(cycle));
    assert row in rows <==> row in multiset(rows);
    if row.position < |cycle.jobs| && Eligible(cycle.jobs[row.position].brief) {
      SelectedMembers(cycle.jobs, 0, row.position);
    }
  }

  /** Each brief open to synthesis is visited once, and no other: promoted or withheld as stale, resolved, with a
      publication time, not of incomplete relevance, and analysed or else current and without an evidence package. */
  lemma QueueVisits(cycle: Cycle, k: nat)
    ensures (exists i :: 0 <= i < |Queue(cycle)| && Queue(cycle)[i].position == k)
       <==> k < |cycle.jobs|
            && (var b := cycle.jobs[k].brief;
                && b.promotionState in {"RESOLVED_ELIGIBLE", "RESOLVED_NEEDS_REVIEW", "WITHHELD_STALE"}
                && b.resolutionState == "RESOLVED" && b.publishedAt.Some? && b.relevanceState != "INCOMPLETE"
                && (b.analysisStatus == "READY" || (b.package.Absent? && b.freshness == "CURRENT")))
    ensures forall i | 0 <= i < |Queue(cycle)| && Queue(cycle)[i].position == k ::
              k < |cycle.jobs| && Queue(cycle)[i].value == cycle.jobs[k]
    ensures forall i, j ::
              0 <= i < j < |Queue(cycle)| ==> Queue(cycle)[i].position != Queue(cycle)[j].position
  {
    hide Queue;
    hide Ranked;
    hide Urgency;
    forall i | 0 <= i < |Queue(cycle)|
      ensures var p := Queue(cycle)[i].position;
              p < |cycle.jobs| && Eligible(cycle.jobs[p].brief) && Queue(cycle)[i].value == cycle.jobs[p]
    {
      QueueOrder(cycle, Queue(cycle)[i]);
    }
    QueuePositionsDiffer(cycle);
    if k < |cycle.jobs| && Eligible(cycle.jobs[k].brief) {
      var row := Sorting.Row(Urgency(cycle.jobs[k].brief), k, cycle.jobs[k]);
      QueueOrder(cycle, row);
      var i :| 0 <= i < |Queue(cycle)| && Queue(cycle)[i] == row;
      assert Queue(cycle)[i].position == k;
    }
  }

  lemma QueuePositionsDiffer(cycle: Cycle)
    ensures forall i, j ::
              0 <= i < j < |Queue(cycle)| ==> Queue(cycle)[i].position != Queue(cycle)[j].position
  {
    hide Queue;
    hide Eligible;
    hide Urgency;
    hide Before;
    forall i, j | 0 <= i < j < |Queue(cycle)| ensures Queue(cycle)[i].position != Queue(cycle)[j].position {
      QueueOrder(cycle, Queue(cycle)[i]);
      QueueOrder(cycle, Queue(cycle)[j]);
      BeforeIrreflexive(Queue(cycle)[i], Queue(cycle)[j]);
    }
  }

  /** The coverage of a brief's signal confidence; a missing one counts as none. */
  predicate Covers(b: Brief, coverage: real) {
    match b.signalConfidence
    case Some(confidence) => coverage == if confidence.coverage.Some? then confidence.coverage.value else 0.0
    case None => coverage == 0.0
  }

  /** Of two briefs in the queue the earlier one is a priority brief unless neither is; of equal ones coverage does not
      rise; and with equal coverage the ids do not fall. */
  lemma QueueByPriority(cycle: Cycle, i: nat, j: nat, before: real, after: real)
    requires i < j < |Queue(cycle)|
    requires Covers(Queue(cycle)[i].value.brief, before) && Covers(Queue(cycle)[j].value.brief, after)
    ensures var a, b := Queue(cycle)[i].value.brief, Queue(cycle)[j].value.brief;
            && (b.priorityEligible ==> a.priorityEligible)
            && (a.priorityEligible == b.priorityEligible ==> before >= after)
            && (a.priorityEligible == b.priorityEligible && before == after ==> !Ordering.Less(b.id, a.id))
  {
    hide Queue;
    hide Eligible;
    var a, b := Queue(cycle)[i], Queue(cycle)[j];
    QueueOrder(cycle, a);
    QueueOrder(cycle, b);
    assert Before(a, b);
    UrgencyCompares(a.value.brief, b.value.brief);
  }

  lemma UrgencyCompares(a: Brief, b: Brief)
    requires KeyAtMost(Urgency(a), Urgency(b))
    ensures b.priorityEligible ==> a.priorityEligible
    ensures a.priorityEligible == b.priorityEligible ==> Coverage(a) >= Coverage(b)
    ensures a.priorityEligible == b.priorityEligible && Coverage(a) == Coverage(b) ==> !Ordering.Less(b.id, a.id)
  {
    hide Coverage;
    var x, y := Urgency(a), Urgency(b);
    KeyAtMostFirst(x, y);
    if a.priorityEligible == b.priorityEligible {
      assert x[1..] == [x[1], x[2]] && y[1..] == [y[1], y[2]];
      KeyAtMostFirst(x[1..], y[1..]);
      if Coverage(a) == Coverage(b) {
        assert x[1..][1..] == [x[2]] && y[1..][1..] == [y[2]];
        KeyAtMostFirst(x[1..][1..], y[1..][1..]);
      }
    }
  }

  // ---- Accounting of one cycle -----------------------------------------------------------------------

  predicate Balanced(cycle: Cycle, p: Progress) {
    && p.attempted <= Room(cycle)
    && |p.statuses| == p.attempted && p.assisted <= p.attempted
  }

  lemma VisitAccounts(cycle: Cycle, p: Progress, job: Job)
    requires Balanced(cycle, p) && !p.capped
    ensures var q := Visit(cycle, p, job);
            && Balanced(cycle, q)
            && q.attempted + q.reused + q.deferred
               == p.attempted + p.reused + p.deferred + (if q.capped then 0 else 1)
  {
    hide Synthesize;
    hide Cached;
  }

  lemma {:induction false} WorkAccounts(cycle: Cycle, p: Progress, jobs: seq<Sorting.Row<Job>>)
    requires Balanced(cycle, p) && !p.capped
    ensures var q := Work(cycle, p, jobs);
            && Balanced(cycle, q)
            && q.attempted + q.reused + q.deferred <= p.attempted + p.reused + p.deferred + |jobs|
            && (q.attempted + q.reused + q.deferred == p.attempted + p.reused + p.deferred + |jobs| <==> !q.capped)
    decreases |jobs|
  {
    hide Visit;
    hide Balanced;
    if jobs != [] {
      VisitAccounts(cycle, p, jobs[0].value);
      var next := Visit(cycle, p, jobs[0].value);
      if !next.capped {
        WorkAccounts(cycle, next, jobs[1..]);
      }
    }
  }

  /** A cycle attempts no more than its cap, reports one status per attempt, and accounts for every eligible brief
      exactly when it was not cut short. */
  lemma CycleAccounts(rows: Cache, log: seq<Write>, cycle: Cycle)
    ensures var q := Process(rows, log, cycle);
            && Balanced(cycle, q)
            && q.attempted + q.reused + q.deferred <= |Queue(cycle)|
            && (q.attempted + q.reused + q.deferred == |Queue(cycle)| <==> !q.capped)
  {
    hide Queue;
    WorkAccounts(cycle, Begin(rows, log), Queue(cycle));
  }

  /** Only a configured worker is cut short, and only by its cap or by the deadline. */
  lemma {:induction false} WorkStops(cycle: Cycle, p: Progress, jobs: seq<Sorting.Row<Job>>)
    requires !p.capped
    ensures var q := Work(cycle, p, jobs);
            q.capped ==> cycle.configured
                         && (q.attempted >= Room(cycle) || exists i :: 0 <= i < |jobs| && jobs[i].value.late)
    decreases |jobs|
  {
    hide Tried;
    hide Placed;
    hide Cached;
    hide Room;
    if jobs != [] {
      var next := Visit(cycle, p, jobs[0].value);
      VisitStops(cycle, p, jobs[0].value);
      if !next.capped {
        hide Visit;
        WorkStops(cycle, next, jobs[1..]);
        var q := Work(cycle, p, jobs);
        if q.capped && q.attempted < Room(cycle) {
          var i :| 0 <= i < |jobs| - 1 && jobs[1..][i].value.late;
          assert jobs[i + 1].value.late;
        }
      }
    }
  }

  lemma VisitStops(cycle: Cycle, p: Progress, job: Job)
    requires !p.capped
    ensures var q := Visit(cycle, p, job); q.capped ==> cycle.configured && (q.attempted >= Room(cycle) || job.late)
  {
    hide Synthesize;
    hide Cached;
  }

  /** The cap: a cycle attempts no more, and none if it is not positive. A cycle without a passed deadline that is cut
      short has used its cap up; one that is not configured is never cut short. */
  lemma CapBounds(rows: Cache, log: seq<Write>, cycle: Cycle)
    ensures var q := Process(rows, log, cycle);
            && (cycle.cap <= 0 ==> q.attempted == 0) && (cycle.cap > 0 ==> q.attempted <= cycle.cap)
            && (q.capped ==> cycle.configured)
            && (q.capped && cycle.cap > 0 && (forall k | 0 <= k < |cycle.jobs| :: !cycle.jobs[k].late)
                ==> q.attempted == cycle.cap)
  {
    hide Work;
    CycleAccounts(rows, log, cycle);
    WorkStops(cycle, Begin(rows, log), Queue(cycle));
    forall i | 0 <= i < |Queue(cycle)|
      ensures Queue(cycle)[i].position < |cycle.jobs|
              && Queue(cycle)[i].value == cycle.jobs[Queue(cycle)[i].position]
    {
      QueueVisits(cycle, Queue(cycle)[i].position);
    }
  }

  // ---- The worker in place -------------------------------------------------------------------------

  /** The durable cache: one row per cache id. */
  class Repository {
    var rows: Cache

    constructor ()
      ensures rows == map[]
    {
      rows := map[];
    }

    method BriefSynthesis(b: Brief) returns (r: Option<Briefs.Row>)
      ensures r == Cached(rows, b)
    {
      var id := CacheKey(b);
      r := if id in rows && rows[id].hash == Governed(b) then Some(rows[id]) else None;
    }

    method SaveBriefSynthesis(id: CacheId, row: Briefs.Row)
      modifies this
      ensures rows == old(rows)[id := row]
    {
      rows := rows[id := row];
    }
  }

  datatype Batch = Batch(attempted: nat, reused: nat, deferred: nat, assisted: nat, statuses: seq<Status>, capped: bool)

  function Report(p: Progress): Batch { Batch(p.attempted, p.reused, p.deferred, p.assisted, p.statuses, p.capped) }

  lemma WorkNext(cycle: Cycle, p: Progress, jobs: seq<Sorting.Row<Job>>, i: nat)
    requires i < |jobs|
    ensures var next := Visit(cycle, p, jobs[i].value);
            Work(cycle, p, jobs[i..]) == if next.capped then next else Work(cycle, next, jobs[i + 1..])
  {
    hide Visit;
    assert jobs[i..][0] == jobs[i] && jobs[i..][1..] == jobs[i + 1..];
  }

  lemma WorkDone(cycle: Cycle, p: Progress)
    ensures Work(cycle, p, []) == p
  {
  }

  method ProcessSignalBriefSynthesis(repository: Repository, ghost log: seq<Write>, cycle: Cycle) returns (batch: Batch)
    modifies repository
    ensures var p := Process(old(repository.rows), log, cycle); repository.rows == p.rows && batch == Report(p)
  {
    hide Synthesize;
    hide Governed;
    hide CacheKey;
    hide AttemptRow;
    hide PlaceholderRow;
    hide Work;
    hide Cached;
    hide Cooldown;
    hide RetryAt;
    hide Queue;
    var eligible := Queue(cycle);
    var attempted, reused, deferred, assisted := 0, 0, 0, 0;
    var statuses: seq<Status> := [];
    var capped := false;
    ghost var history := log;
    var i := 0;
    while i < |eligible| && !capped
      invariant i <= |eligible|
      invariant var p := Progress(repository.rows, history, attempted, reused, deferred, assisted, statuses, capped);
                Process(old(repository.rows), log, cycle) == if capped then p else Work(cycle, p, eligible[i..])
      decreases |eligible| - i, !capped
    {
      var job := eligible[i].value;
      var b := job.brief;
      ghost var p := Progress(repository.rows, history, attempted, reused, deferred, assisted, statuses, capped);
      WorkNext(cycle, p, eligible, i);
      var cached := repository.BriefSynthesis(b);
      if cached.Some? && cached.value.status == AVAILABLE {
        reused := reused + 1;
      } else if !cycle.configured {
        if !(cached.Some? && cached.value.status == NOT_CONFIGURED) {
          repository.SaveBriefSynthesis(CacheKey(b), PlaceholderRow(b, Previous(cached)));
          history := history + [Write(CacheKey(b), Governed(b), cycle.now, Placeholder)];
        }
        deferred := deferred + 1;
      } else if cached.Some? && cached.value.status != NOT_CONFIGURED
        && (cached.value.nextRetry.None? || cycle.now < cached.value.nextRetry.value) {
        deferred := deferred + 1;
      } else if attempted >= Room(cycle) {
        capped := true;
      } else if job.late {
        capped := true;
      } else {
        var outcome := Synthesize(b, true, cycle.structured, job.answer);
        attempted := attempted + 1;
        statuses := statuses + [outcome.status];
        assisted := assisted + if outcome.brief.summaryMode == "GEMINI_ASSISTED" then 1 else 0;
        var cooldown := Cooldown(cycle.policy, outcome.status);
        repository.SaveBriefSynthesis(
          CacheKey(b), AttemptRow(b, outcome, Previous(cached) + 1, RetryAt(cycle.now, cooldown)));
        history := history + [Write(CacheKey(b), Governed(b), cycle.now, Attempted(outcome.status, cooldown))];
      }
      assert Progress(repository.rows, history, attempted, reused, deferred, assisted, statuses, capped)
          == Visit(cycle, p, job);
      if !capped {
        i := i + 1;
      }
    }
    assert capped || eligible[i..] == [];
    hide Visit;
    WorkDone(cycle, Progress(repository.rows, history, attempted, reused, deferred, assisted, statuses, capped));
    batch := Batch(attempted, reused, deferred, assisted, statuses, capped);
  }
}
