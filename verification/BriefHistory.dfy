/** What every run of the synthesis worker guarantees about attempts, cooldowns and stored rows. */
module BriefHistory {
  import opened Text
  import opened Briefs
  import opened BriefScheduler
  import Sorting

  // ---- Reading the history -------------------------------------------------------------------------

  function LastWrite(log: seq<Write>, id: CacheId): Option<Write>
    decreases |log|
  {
    if log == [] then None
    else if log[|log| - 1].id == id then Some(log[|log| - 1])
    else LastWrite(log[..|log| - 1], id)
  }

  predicate AttemptOn(w: Write, id: CacheId, hash: Brief) { w.id == id && w.hash == hash && w.kind.Attempted? }

  /** The attempts on some content since its cache id was last written for other content. */
  function Streak(log: seq<Write>, id: CacheId, hash: Brief): nat
    decreases |log|
  {
    if log == [] then 0
    else
      var last, rest := log[|log| - 1], log[..|log| - 1];
      if last.id == id && last.hash != hash then 0
      else Streak(rest, id, hash) + if AttemptOn(last, id, hash) then 1 else 0
  }

  /** All attempts ever made on some content. */
  function Total(log: seq<Write>, id: CacheId, hash: Brief): nat
    decreases |log|
  {
    if log == [] then 0
    else Total(log[..|log| - 1], id, hash) + if AttemptOn(log[|log| - 1], id, hash) then 1 else 0
  }

  function StatusOf(w: Write): Status { if w.kind.Attempted? then w.kind.status else NOT_CONFIGURED }

  function RetryOf(w: Write): Option<int> { if w.kind.Attempted? then RetryAt(w.at, w.kind.cooldown) else None }

  /** The row a cache id holds, as far as the history determines it. */
  predicate RowAgrees(rows: Cache, log: seq<Write>, id: CacheId) {
    match LastWrite(log, id)
    case None => id !in rows
    case Some(w) =>
      && id in rows && rows[id].hash == w.hash && rows[id].status == StatusOf(w) && rows[id].nextRetry == RetryOf(w)
      && rows[id].attempts == Streak(log, id, w.hash)
  }

  ghost predicate Agrees(rows: Cache, log: seq<Write>) {
    forall id :: RowAgrees(rows, log, id)
  }

  /** Whether a write may follow the previous write on the same cache id. Other content may always follow. Nothing
      follows a success; an attempt follows a failure only when its cooldown is positive and over; a placeholder
      follows any failure but no other placeholder. */
  predicate MayFollow(first: Write, second: Write) {
    first.hash == second.hash ==>
      && StatusOf(first) != AVAILABLE
      && (second.kind.Placeholder? ==> StatusOf(first) != NOT_CONFIGURED)
      && (second.kind.Attempted? && StatusOf(first) != NOT_CONFIGURED ==>
            RetryOf(first).Some? && second.at >= RetryOf(first).value)
  }

  /** Every write may follow the one before it on its cache id. */
  predicate Lawful(log: seq<Write>)
    decreases |log|
  {
    log == [] ||
    (var last, rest := log[|log| - 1], log[..|log| - 1];
     Lawful(rest) && (LastWrite(rest, last.id).Some? ==> MayFollow(LastWrite(rest, last.id).value, last)))
  }

  // ---- Appending one write -------------------------------------------------------------------------

  lemma Appended(log: seq<Write>, w: Write)
    ensures var all := log + [w]; all[|all| - 1] == w && all[..|all| - 1] == log
  {
  }

  /** A cached row is the last write, when that is for the same content. */
  lemma CachedIsLast(rows: Cache, log: seq<Write>, b: Brief)
    requires RowAgrees(rows, log, CacheKey(b))
    ensures var last := LastWrite(log, CacheKey(b)); var cached := Cached(rows, b);
            && (cached.Some? <==> last.Some? && last.value.hash == Governed(b))
            && (cached.Some? ==>
                  cached.value.status == StatusOf(last.value) && cached.value.nextRetry == RetryOf(last.value))
            && Previous(cached) == Streak(log, CacheKey(b), Governed(b))
  {
    hide Governed;
    hide CacheKey;
    if LastWrite(log, CacheKey(b)).None? {
      NeverWritten(log, CacheKey(b), Governed(b));
    } else if LastWrite(log, CacheKey(b)).value.hash != Governed(b) {
      OtherContentLast(log, CacheKey(b), Governed(b));
    }
  }

  lemma {:induction false} NeverWritten(log: seq<Write>, id: CacheId, hash: Brief)
    requires LastWrite(log, id).None?
    ensures Streak(log, id, hash) == 0
    decreases |log|
  {
    if log != [] {
      NeverWritten(log[..|log| - 1], id, hash);
    }
  }

  lemma {:induction false} OtherContentLast(log: seq<Write>, id: CacheId, hash: Brief)
    requires LastWrite(log, id).Some? && LastWrite(log, id).value.hash != hash
    ensures Streak(log, id, hash) == 0
    decreases |log|
  {
    if log[|log| - 1].id != id {
      OtherContentLast(log[..|log| - 1], id, hash);
    }
  }

  lemma AgreesAfter(rows: Cache, log: seq<Write>, w: Write, row: Briefs.Row)
    requires Agrees(rows, log)
    requires row.hash == w.hash && row.status == StatusOf(w) && row.nextRetry == RetryOf(w)
    requires row.attempts == Streak(log, w.id, w.hash) + if w.kind.Attempted? then 1 else 0
    ensures Agrees(rows[w.id := row], log + [w])
  {
    var after, all := rows[w.id := row], log + [w];
    forall id ensures RowAgrees(after, all, id) {
      assert RowAgrees(rows, log, id);
      OneMore(log, w, id);
    }
  }

  lemma OneMore(log: seq<Write>, w: Write, id: CacheId)
    ensures LastWrite(log + [w], id) == if w.id == id then Some(w) else LastWrite(log, id)
    ensures w.id != id ==> forall hash :: Streak(log + [w], id, hash) == Streak(log, id, hash)
    ensures Streak(log + [w], w.id, w.hash) == Streak(log, w.id, w.hash) + if w.kind.Attempted? then 1 else 0
  {
    Appended(log, w);
  }

  lemma LawfulAfter(log: seq<Write>, w: Write)
    requires Lawful(log) && (LastWrite(log, w.id).Some? ==> MayFollow(LastWrite(log, w.id).value, w))
    ensures Lawful(log + [w])
  {
    hide MayFollow;
    Appended(log, w);
  }

  // ---- Every step keeps the history lawful and the rows in agreement with it ----------------------------

  ghost predicate Kept(p: Progress) { Agrees(p.rows, p.log) && Lawful(p.log) }

  lemma PlacedKeeps(cycle: Cycle, p: Progress, job: Job)
    requires Kept(p) && Choose(Cached(p.rows, job.brief), cycle, p.attempted, job.late) == Record
    ensures Kept(Placed(cycle, p, job))
  {
    hide Governed;
    hide CacheKey;
    hide Cached;
    hide Agrees;
    hide Lawful;
    var b := job.brief;
    var w := Write(CacheKey(b), Governed(b), cycle.now, Placeholder);
    AgreesAt(p, CacheKey(b));
    CachedIsLast(p.rows, p.log, b);
    AgreesAfter(p.rows, p.log, w, PlaceholderRow(b, Previous(Cached(p.rows, b))));
    LawfulAfter(p.log, w);
  }

  lemma AgreesAt(p: Progress, id: CacheId)
    requires Agrees(p.rows, p.log)
    ensures RowAgrees(p.rows, p.log, id)
  {
  }

  lemma TriedKeeps(cycle: Cycle, p: Progress, job: Job)
    requires Kept(p) && Choose(Cached(p.rows, job.brief), cycle, p.attempted, job.late) == Attempt
    ensures Kept(Tried(cycle, p, job))
  {
    hide Governed;
    hide CacheKey;
    hide Cached;
    hide Agrees;
    hide Lawful;
    hide Synthesize;
    hide Cooldown;
    hide RetryAt;
    var b := job.brief;
    var outcome := Synthesize(b, true, cycle.structured, job.answer);
    var cooldown := Cooldown(cycle.policy, outcome.status);
    var w := Write(CacheKey(b), Governed(b), cycle.now, Attempted(outcome.status, cooldown));
    AgreesAt(p, CacheKey(b));
    CachedIsLast(p.rows, p.log, b);
    AgreesAfter(p.rows, p.log, w, AttemptRow(b, outcome, Previous(Cached(p.rows, b)) + 1,
                                             RetryAt(cycle.now, cooldown)));
    LawfulAfter(p.log, w);
  }

  lemma VisitKeeps(cycle: Cycle, p: Progress, job: Job)
    requires Kept(p)
    ensures Kept(Visit(cycle, p, job))
  {
    hide Cached;
    hide Placed;
    hide Tried;
    hide Agrees;
    hide Lawful;
    match Choose(Cached(p.rows, job.brief), cycle, p.attempted, job.late)
    case Record => PlacedKeeps(cycle, p, job);
    case Attempt => TriedKeeps(cycle, p, job);
    case _ =>
  }

  lemma {:induction false} WorkKeeps(cycle: Cycle, p: Progress, jobs: seq<Sorting.Row<Job>>)
    requires Kept(p)
    ensures Kept(Work(cycle, p, jobs))
    decreases |jobs|
  {
    hide Visit;
    hide Kept;
    if jobs != [] {
      VisitKeeps(cycle, p, jobs[0].value);
      var next := Visit(cycle, p, jobs[0].value);
      if !next.capped {
        WorkKeeps(cycle, next, jobs[1..]);
      }
    }
  }

  /** For every run of cycles, configured or not and whatever the provider answers: each stored row is the last write
      on its cache id, its attempt count is the number of attempts since the content last changed, and every write
      respects the one before it on its cache id. */
  lemma {:induction false} RunKeeps(cycles: seq<Cycle>)
    ensures Kept(Run(cycles))
    decreases |cycles|
  {
    hide Work;
    hide Lawful;
    if cycles == [] {
      assert forall id :: RowAgrees(map[], [], id);
      assert Lawful([]) by { NothingLawful(); }
    } else {
      var before := Run(cycles[..|cycles| - 1]);
      RunKeeps(cycles[..|cycles| - 1]);
      var cycle := cycles[|cycles| - 1];
      WorkKeeps(cycle, Begin(before.rows, before.log), Queue(cycle));
    }
  }

  lemma NothingLawful()
    ensures Lawful([])
  {
  }

  // ---- Consecutive writes ------------------------------------------------------------------------------

  predicate Consecutive(log: seq<Write>, i: nat, j: nat) {
    && i < j < |log| && log[i].id == log[j].id
    && forall k | i < k < j :: log[k].id != log[i].id
  }

  lemma {:induction false} LastBefore(log: seq<Write>, i: nat, id: CacheId)
    requires i < |log| && log[i].id == id && forall k | i < k < |log| :: log[k].id != id
    ensures LastWrite(log, id) == Some(log[i])
    decreases |log|
  {
    if i < |log| - 1 {
      LastBefore(log[..|log| - 1], i, id);
    }
  }

  lemma {:induction false} LawfulPairs(log: seq<Write>, i: nat, j: nat)
    requires Lawful(log) && Consecutive(log, i, j)
    ensures MayFollow(log[i], log[j])
    decreases |log|
  {
    hide MayFollow;
    var rest := log[..|log| - 1];
    if j == |log| - 1 {
      LastBefore(rest, i, log[i].id);
    } else {
      LawfulPairs(rest, i, j);
    }
  }

  /** In every run: once an attempt succeeds, nothing is written for that cache id until its content changes. */
  lemma SuccessIsFinal(cycles: seq<Cycle>, i: nat, j: nat)
    requires Consecutive(Run(cycles).log, i, j) && StatusOf(Run(cycles).log[i]) == AVAILABLE
    ensures Run(cycles).log[j].hash != Run(cycles).log[i].hash
  {
    hide Run;
    RunKeeps(cycles);
    LawfulPairs(Run(cycles).log, i, j);
  }

  /** In every run: when the next write on a cache id after a failed attempt is another attempt on the same content,
      it comes no earlier than the failure's cooldown allows, and that cooldown was positive. */
  lemma NextAttemptWaits(cycles: seq<Cycle>, i: nat, j: nat)
    requires Consecutive(Run(cycles).log, i, j)
    requires var first, second := Run(cycles).log[i], Run(cycles).log[j];
             first.kind.Attempted? && second.kind.Attempted? && first.hash == second.hash
    ensures var first, second := Run(cycles).log[i], Run(cycles).log[j];
            && first.kind.status != AVAILABLE
            && (first.kind.status != NOT_CONFIGURED ==>
                  first.kind.cooldown.Some? && first.kind.cooldown.value > 0
                  && second.at >= first.at + first.kind.cooldown.value)
  {
    hide Run;
    RunKeeps(cycles);
    LawfulPairs(Run(cycles).log, i, j);
  }

  // ---- Spacing over whole runs with a clock that does not go back ------------------------------------------

  predicate ClockForward(cycles: seq<Cycle>) {
    forall i, j | 0 <= i < j < |cycles| :: cycles[i].now <= cycles[j].now
  }

  predicate TimesForward(log: seq<Write>) {
    forall i, j | 0 <= i < j < |log| :: log[i].at <= log[j].at
  }

  predicate UpTo(log: seq<Write>, now: int) {
    TimesForward(log) && forall w | w in log :: w.at <= now
  }

  lemma VisitLog(cycle: Cycle, p: Progress, job: Job)
    ensures Visit(cycle, p, job).log == p.log
            || exists w: Write :: w.at == cycle.now && Visit(cycle, p, job).log == p.log + [w]
  {
    hide Cached;
    hide Choose;
    hide Synthesize;
  }

  lemma VisitUpTo(cycle: Cycle, p: Progress, job: Job)
    requires UpTo(p.log, cycle.now)
    ensures UpTo(Visit(cycle, p, job).log, cycle.now)
  {
    hide Visit;
    VisitLog(cycle, p, job);
    var log := Visit(cycle, p, job).log;
    forall i, j | 0 <= i < j < |log| ensures log[i].at <= log[j].at {
      assert log[i] in p.log;
    }
  }

  lemma {:induction false} WorkUpTo(cycle: Cycle, p: Progress, jobs: seq<Sorting.Row<Job>>)
    requires UpTo(p.log, cycle.now)
    ensures UpTo(Work(cycle, p, jobs).log, cycle.now)
    decreases |jobs|
  {
    hide Visit;
    hide UpTo;
    if jobs != [] {
      VisitUpTo(cycle, p, jobs[0].value);
      WorkUpTo(cycle, Visit(cycle, p, jobs[0].value), jobs[1..]);
    }
  }

  lemma {:induction false} RunUpTo(cycles: seq<Cycle>)
    requires ClockForward(cycles) && cycles != []
    ensures UpTo(Run(cycles).log, cycles[|cycles| - 1].now)
    decreases |cycles|
  {
    hide Work;
    var before, cycle := cycles[..|cycles| - 1], cycles[|cycles| - 1];
    if before == [] {
      assert Run(before).log == [];
    } else {
      RunUpTo(before);
      assert cycles[|before| - 1].now <= cycle.now;
    }
    WorkUpTo(cycle, Begin(Run(before).rows, Run(before).log), Queue(cycle));
  }

  // ---- The cooldown of an attempt ------------------------------------------------------------------------

  /** The cooldown, in microseconds, of a failure under a policy; negative seconds count as none. */
  predicate Cools(policy: Policy, status: Status, cooldown: Option<nat>) {
    var seconds := match status
      case AUTH_FAILED => Some(policy.authFailed)
      case TIMEOUT => Some(policy.timeout)
      case QUOTA => Some(policy.quota)
      case UNAVAILABLE => Some(policy.unavailable)
      case _ => None;
    match seconds
    case Some(n) => cooldown == Some(if n < 0 then 0 else n * 1_000_000)
    case None => cooldown == None
  }

  /** Every write after the first `from` happened in the cycle, an attempt with the cooldown of its status. */
  ghost predicate WrittenIn(cycle: Cycle, log: seq<Write>, from: nat) {
    forall i | from <= i < |log| ::
      && log[i].at == cycle.now
      && (log[i].kind.Attempted? ==> Cools(cycle.policy, log[i].kind.status, log[i].kind.cooldown))
  }

  lemma VisitWritten(cycle: Cycle, p: Progress, job: Job, from: nat)
    requires WrittenIn(cycle, p.log, from)
    ensures WrittenIn(cycle, Visit(cycle, p, job).log, from)
  {
    hide Cached;
    hide Choose;
    hide Synthesize;
    hide Governed;
    hide CacheKey;
  }

  lemma {:induction false} WorkWritten(cycle: Cycle, p: Progress, jobs: seq<Sorting.Row<Job>>, from: nat)
    requires WrittenIn(cycle, p.log, from)
    ensures WrittenIn(cycle, Work(cycle, p, jobs).log, from)
    decreases |jobs|
  {
    hide Visit;
    hide WrittenIn;
    if jobs != [] {
      VisitWritten(cycle, p, jobs[0].value, from);
      WorkWritten(cycle, Visit(cycle, p, jobs[0].value), jobs[1..], from);
    }
  }

  lemma VisitExtends(cycle: Cycle, p: Progress, job: Job)
    ensures p.log <= Visit(cycle, p, job).log
  {
    hide Cached;
    hide Choose;
    hide Synthesize;
    hide Governed;
    hide CacheKey;
  }

  lemma {:induction false} WorkExtends(cycle: Cycle, p: Progress, jobs: seq<Sorting.Row<Job>>)
    ensures p.log <= Work(cycle, p, jobs).log
    decreases |jobs|
  {
    hide Visit;
    if jobs != [] {
      VisitExtends(cycle, p, jobs[0].value);
      WorkExtends(cycle, Visit(cycle, p, jobs[0].value), jobs[1..]);
    }
  }

  /** Every write of a run happens at the time of one of its cycles, and every attempt records the cooldown that the
      policy of that cycle gives its status. */
  lemma {:induction false} AttemptsCool(cycles: seq<Cycle>, i: nat) returns (k: nat)
    requires i < |Run(cycles).log|
    ensures k < |cycles| && cycles[k].now == Run(cycles).log[i].at
    ensures var kind := Run(cycles).log[i].kind;
            kind.Attempted? ==> Cools(cycles[k].policy, kind.status, kind.cooldown)
    decreases |cycles|
  {
    hide Work;
    hide Cools;
    if cycles == [] {
      assert false;
    } else {
      var before, cycle := Run(cycles[..|cycles| - 1]), cycles[|cycles| - 1];
      var start := Begin(before.rows, before.log);
      WorkExtends(cycle, start, Queue(cycle));
      if i < |before.log| {
        k := AttemptsCool(cycles[..|cycles| - 1], i);
      } else {
        WorkWritten(cycle, start, Queue(cycle), |before.log|);
        k := |cycles| - 1;
      }
    }
  }

  // ---- When an attempt happens -------------------------------------------------------------------------

  /** The exact condition, in terms of the history alone, under which a configured worker with room attempts a brief
      (in any state that `RunKeeps` and `VisitKeeps` reach):
      its cache id was never written, or last for other content, or last without a configured provider, or last by a
      failed attempt whose cooldown was positive and is over. */
  lemma AttemptedIff(cycle: Cycle, p: Progress, job: Job)
    requires Kept(p)
    requires cycle.configured && p.attempted < cycle.cap && !job.late
    ensures var id, hash := CacheKey(job.brief), Governed(job.brief);
            var last := LastWrite(p.log, id);
            && (Visit(cycle, p, job).attempted > p.attempted
                <==> || last.None? || last.value.hash != hash || StatusOf(last.value) == NOT_CONFIGURED
                     || (&& last.value.kind.Attempted? && last.value.kind.status != AVAILABLE
                         && last.value.kind.cooldown.Some? && last.value.kind.cooldown.value > 0
                         && cycle.now >= last.value.at + last.value.kind.cooldown.value))
  {
    hide Governed;
    hide CacheKey;
    hide Cached;
    hide Synthesize;
    AgreesAt(p, CacheKey(job.brief));
    CachedIsLast(p.rows, p.log, job.brief);
  }

  // ---- Attempt counts ------------------------------------------------------------------------------------

  /** Some attempt on the content precedes a write of other content on its cache id. */
  predicate Interrupted(log: seq<Write>, id: CacheId, hash: Brief) {
    exists i, j | 0 <= i < j < |log| :: AttemptOn(log[i], id, hash) && log[j].id == id && log[j].hash != hash
  }

  lemma {:induction false} TotalZero(log: seq<Write>, id: CacheId, hash: Brief)
    ensures Total(log, id, hash) == 0 <==> forall i | 0 <= i < |log| :: !AttemptOn(log[i], id, hash)
    decreases |log|
  {
    if log != [] {
      TotalZero(log[..|log| - 1], id, hash);
      var rest := log[..|log| - 1];
      assert forall i | 0 <= i < |rest| :: rest[i] == log[i];
    }
  }

  lemma InterruptedEarlier(log: seq<Write>, id: CacheId, hash: Brief)
    requires log != [] && Interrupted(log[..|log| - 1], id, hash)
    ensures Interrupted(log, id, hash)
  {
    hide AttemptOn;
    var rest := log[..|log| - 1];
    var i, j :| 0 <= i < j < |rest| && AttemptOn(rest[i], id, hash) && rest[j].id == id && rest[j].hash != hash;
    assert AttemptOn(log[i], id, hash) && log[j].id == id && log[j].hash != hash;
  }

  lemma InterruptedNow(log: seq<Write>, id: CacheId, hash: Brief, i: nat)
    requires i < |log| - 1 && AttemptOn(log[i], id, hash) && log[|log| - 1].id == id && log[|log| - 1].hash != hash
    ensures Interrupted(log, id, hash)
  {
    hide AttemptOn;
  }

  lemma InterruptedWhen(log: seq<Write>, id: CacheId, hash: Brief) returns (i: nat)
    requires log != [] && Interrupted(log, id, hash)
    ensures i < |log| - 1 && AttemptOn(log[i], id, hash)
    ensures var last := log[|log| - 1]; Interrupted(log[..|log| - 1], id, hash) || (last.id == id && last.hash != hash)
  {
    hide AttemptOn;
    var rest := log[..|log| - 1];
    var j: nat;
    i, j :| i < j < |log| && AttemptOn(log[i], id, hash) && log[j].id == id && log[j].hash != hash;
    if j < |rest| {
      assert AttemptOn(rest[i], id, hash) && rest[j].id == id && rest[j].hash != hash;
    }
  }

  lemma InterruptedBefore(log: seq<Write>, id: CacheId, hash: Brief)
    requires log != []
    ensures var last, rest := log[|log| - 1], log[..|log| - 1];
            && (Interrupted(log, id, hash)
                <==> Interrupted(rest, id, hash) || (last.id == id && last.hash != hash && Total(rest, id, hash) > 0))
  {
    hide Total;
    hide AttemptOn;
    hide Interrupted;
    var last, rest := log[|log| - 1], log[..|log| - 1];
    TotalZero(rest, id, hash);
    if Interrupted(rest, id, hash) {
      InterruptedEarlier(log, id, hash);
    } else if Interrupted(log, id, hash) {
      var i := InterruptedWhen(log, id, hash);
      assert AttemptOn(rest[i], id, hash);
    } else if last.id == id && last.hash != hash && Total(rest, id, hash) > 0 {
      var i :| 0 <= i < |rest| && AttemptOn(rest[i], id, hash);
      assert rest[i] == log[i];
      InterruptedNow(log, id, hash, i);
      assert false;
    }
  }

  lemma {:induction false} StreakIsTotal(log: seq<Write>, id: CacheId, hash: Brief)
    ensures Streak(log, id, hash) <= Total(log, id, hash)
    ensures Streak(log, id, hash) == Total(log, id, hash) <==> !Interrupted(log, id, hash)
    decreases |log|
  {
    hide Interrupted;
    if log == [] {
      NothingInterrupted(id, hash);
    } else {
      StreakIsTotal(log[..|log| - 1], id, hash);
      InterruptedBefore(log, id, hash);
    }
  }

  lemma NothingInterrupted(id: CacheId, hash: Brief)
    ensures !Interrupted([], id, hash)
  {
  }

  /** In every run the stored attempt count never exceeds the attempts made on the stored content, and equals them
      exactly when none of those attempts was followed by a write of other content on the cache id. Unconfigured
      cycles do not disturb it. */
  lemma AttemptCountExactIff(cycles: seq<Cycle>, id: CacheId)
    requires id in Run(cycles).rows
    ensures var p := Run(cycles);
            && p.rows[id].attempts <= Total(p.log, id, p.rows[id].hash)
            && (p.rows[id].attempts == Total(p.log, id, p.rows[id].hash) <==> !Interrupted(p.log, id, p.rows[id].hash))
  {
    hide Run;
    hide Interrupted;
    RunKeeps(cycles);
    var p := Run(cycles);
    AgreesAt(p, id);
    StreakIsTotal(p.log, id, p.rows[id].hash);
  }

  // ---- The same over the worker's input ----------------------------------------------------------------------

  /** Every eligible brief offered under a cache id has this content. */
  predicate OffersOnly(jobs: seq<Job>, id: CacheId, hash: Brief) {
    forall job | job in jobs && Eligible(job.brief) && CacheKey(job.brief) == id :: Governed(job.brief) == hash
  }

  /** The briefs offered under a cache id never change their content. */
  predicate StableContent(cycles: seq<Cycle>, id: CacheId, hash: Brief) {
    forall cycle | cycle in cycles :: OffersOnly(cycle.jobs, id, hash)
  }

  predicate AllConfigured(cycles: seq<Cycle>) { forall cycle | cycle in cycles :: cycle.configured }

  /** Every write on a cache id is for one content and, when asked, an attempt. */
  predicate WritesOnly(log: seq<Write>, id: CacheId, hash: Brief, attemptsOnly: bool) {
    forall w | w in log && w.id == id :: w.hash == hash && (attemptsOnly ==> w.kind.Attempted?)
  }

  lemma VisitWritesOnly(cycle: Cycle, p: Progress, job: Job, id: CacheId, hash: Brief, attemptsOnly: bool)
    requires WritesOnly(p.log, id, hash, attemptsOnly) && (attemptsOnly ==> cycle.configured)
    requires CacheKey(job.brief) == id ==> Governed(job.brief) == hash
    ensures WritesOnly(Visit(cycle, p, job).log, id, hash, attemptsOnly)
  {
    hide Cached;
    hide Synthesize;
    hide Governed;
    hide CacheKey;
    hide Cooldown;
  }

  predicate QueueOffers(jobs: seq<Sorting.Row<Job>>, id: CacheId, hash: Brief) {
    forall row | row in jobs && CacheKey(row.value.brief) == id :: Governed(row.value.brief) == hash
  }

  lemma {:induction false} WorkWritesOnly(cycle: Cycle, p: Progress, jobs: seq<Sorting.Row<Job>>, id: CacheId,
                                          hash: Brief, attemptsOnly: bool)
    requires WritesOnly(p.log, id, hash, attemptsOnly) && (attemptsOnly ==> cycle.configured)
    requires QueueOffers(jobs, id, hash)
    ensures WritesOnly(Work(cycle, p, jobs).log, id, hash, attemptsOnly)
    decreases |jobs|
  {
    hide Visit;
    hide WritesOnly;
    hide Governed;
    hide CacheKey;
    if jobs != [] {
      assert jobs[0] in jobs;
      VisitWritesOnly(cycle, p, jobs[0].value, id, hash, attemptsOnly);
      WorkWritesOnly(cycle, Visit(cycle, p, jobs[0].value), jobs[1..], id, hash, attemptsOnly);
    }
  }

  lemma QueueOffersOnly(cycle: Cycle, id: CacheId, hash: Brief)
    requires OffersOnly(cycle.jobs, id, hash)
    ensures QueueOffers(Queue(cycle), id, hash)
  {
    hide Eligible;
    hide Governed;
    hide CacheKey;
    hide Queue;
    forall row | row in Queue(cycle) && CacheKey(row.value.brief) == id ensures Governed(row.value.brief) == hash {
      QueueOrder(cycle, row);
      assert row.value in cycle.jobs;
    }
  }

  lemma {:induction false} RunWritesOnly(cycles: seq<Cycle>, id: CacheId, hash: Brief, attemptsOnly: bool)
    requires StableContent(cycles, id, hash) && (attemptsOnly ==> AllConfigured(cycles))
    ensures WritesOnly(Run(cycles).log, id, hash, attemptsOnly)
    decreases |cycles|
  {
    hide Work;
    hide Queue;
    hide OffersOnly;
    hide QueueOffers;
    if cycles != [] {
      var before, cycle := cycles[..|cycles| - 1], cycles[|cycles| - 1];
      assert cycle in cycles && forall c | c in before :: c in cycles;
      RunWritesOnly(before, id, hash, attemptsOnly);
      QueueOffersOnly(cycle, id, hash);
      WorkWritesOnly(cycle, Begin(Run(before).rows, Run(before).log), Queue(cycle), id, hash, attemptsOnly);
    }
  }

  /** The next write on the cache id of a write. */
  lemma {:induction false} NextWrite(log: seq<Write>, i: nat, k: nat) returns (j: nat)
    requires i < k < |log| && log[i].id == log[k].id
    ensures i < j <= k && Consecutive(log, i, j)
    decreases k
  {
    if m: nat :| i < m < k && log[m].id == log[i].id {
      j := NextWrite(log, i, m);
    } else {
      j := k;
    }
  }

  lemma NothingRun()
    ensures Run([]).log == []
  {
  }

  /** Over any cycles with a configured provider and a clock that does not go back, and briefs whose content does not
      change: of any two writes on a cache id both are attempts, the earlier one did not succeed, and the later one
      comes at least the earlier one's cooldown after it, whatever happened in between. */
  lemma ConfiguredAttemptsAreSpaced(cycles: seq<Cycle>, hash: Brief, i: nat, k: nat)
    requires i < k < |Run(cycles).log| && Run(cycles).log[i].id == Run(cycles).log[k].id
    requires AllConfigured(cycles) && ClockForward(cycles) && StableContent(cycles, Run(cycles).log[i].id, hash)
    ensures var first, second := Run(cycles).log[i], Run(cycles).log[k];
            && first.kind.Attempted? && second.kind.Attempted? && first.hash == second.hash == hash
            && first.kind.status != AVAILABLE
            && (first.kind.status != NOT_CONFIGURED ==>
                  && first.kind.cooldown.Some? && first.kind.cooldown.value > 0
                  && second.at >= first.at + first.kind.cooldown.value)
  {
    hide Run;
    hide Consecutive;
    hide StableContent;
    var log := Run(cycles).log;
    RunWritesOnly(cycles, log[i].id, hash, true);
    assert log[i] in log && log[k] in log;
    var j := NextWrite(log, i, k);
    assert log[j] in log && log[j].id == log[i].id by { ConsecutiveIds(log, i, j); }
    NextAttemptWaits(cycles, i, j);
    if cycles == [] {
      NothingRun();
    } else {
      RunUpTo(cycles);
    }
  }

  lemma ConsecutiveIds(log: seq<Write>, i: nat, j: nat)
    requires Consecutive(log, i, j)
    ensures i < j < |log| && log[i].id == log[j].id
  {
  }

  /** Over any cycles, configured or not, with briefs whose content does not change, the stored count is the number of
      attempts made. */
  lemma AttemptCountExact(cycles: seq<Cycle>, id: CacheId, hash: Brief)
    requires id in Run(cycles).rows && StableContent(cycles, id, hash)
    ensures Run(cycles).rows[id].hash == hash
    ensures Run(cycles).rows[id].attempts == Total(Run(cycles).log, id, hash)
  {
    hide Run;
    hide StableContent;
    hide Total;
    hide AttemptOn;
    RunWritesOnly(cycles, id, hash, false);
    AttemptCountExactIff(cycles, id);
    RunKeeps(cycles);
    AgreesAt(Run(cycles), id);
    var last := LastWrite(Run(cycles).log, id);
    LastWriteIn(Run(cycles).log, id);
    assert !Interrupted(Run(cycles).log, id, hash);
  }

  lemma {:induction false} LastWriteIn(log: seq<Write>, id: CacheId)
    ensures LastWrite(log, id).Some? ==> LastWrite(log, id).value in log && LastWrite(log, id).value.id == id
    decreases |log|
  {
    if log != [] {
      LastWriteIn(log[..|log| - 1], id);
    }
  }

  // ---- What the worker does not guarantee ------------------------------------------------------------------

  function Single(b: Brief, configured: bool, policy: Policy, now: int): Cycle {
    Cycle(configured, true, 1, now, policy, [Job(b, Refused(QUOTA), false)])
  }

  lemma SingleCycle(rows: Cache, log: seq<Write>, cycle: Cycle, b: Brief)
    requires Eligible(b) && cycle.jobs == [Job(b, Refused(QUOTA), false)]
    ensures Process(rows, log, cycle) == Visit(cycle, Begin(rows, log), cycle.jobs[0])
  {
    hide Visit;
    hide Eligible;
    var row := Sorting.Row(Urgency(b), 0, cycle.jobs[0]);
    assert Selected(cycle.jobs, 1) == [];
    assert Selected(cycle.jobs, 0) == [row] + [] == [row];
    assert [row][1..] == [];
    assert Sorting.Sort([row]) == Sorting.Insert(row, []) == [row];
    assert Queue(cycle) == [row];
    var next := Visit(cycle, Begin(rows, log), row.value);
    assert Work(cycle, next, []) == next;
  }

  lemma RunSnoc(cycles: seq<Cycle>, cycle: Cycle)
    ensures Run(cycles + [cycle]) == Process(Run(cycles).rows, Run(cycles).log, cycle)
  {
    hide Process;
    var all := cycles + [cycle];
    assert all[..|all| - 1] == cycles && all[|all| - 1] == cycle;
  }

  lemma RunThree(a: Cycle, b: Cycle, c: Cycle)
    ensures var one := Process(map[], [], a);
            var two := Process(one.rows, one.log, b);
            Run([a, b, c]) == Process(two.rows, two.log, c)
  {
    RunSnoc([], a);
    RunSnoc([a], b);
    RunSnoc([a, b], c);
    assert [] + [a] == [a] && [a] + [b] == [a, b] && [a, b] + [c] == [a, b, c];
  }

  /** When content alternates, the cooldown and the attempt count of the earlier content are forgotten: two attempts
      on it happen at the same moment and the row counts one. */
  lemma AlternatingContentForgetsCooldown(b: Brief, other: Brief, policy: Policy, now: int)
    requires Eligible(b) && Eligible(other) && CacheKey(b) == CacheKey(other) && Governed(b) != Governed(other)
    requires policy.quota > 0
    ensures var p := Run(
              [Single(b, true, policy, now), Single(other, true, policy, now), Single(b, true, policy, now)]);
            && |p.log| == 3
            && AttemptOn(p.log[0], CacheKey(b), Governed(b)) && AttemptOn(p.log[2], CacheKey(b), Governed(b))
            && p.log[0].at == p.log[2].at && p.log[0].kind.cooldown == Some(Ticks(policy.quota))
            && CacheKey(b) in p.rows && p.rows[CacheKey(b)].attempts == 1
  {
    hide Eligible;
    hide Governed;
    hide CacheKey;
    hide Process;
    hide Visit;
    hide Run;
    var first, second := Single(b, true, policy, now), Single(other, true, policy, now);
    RunThree(first, second, first);
    var one := Process(map[], [], first);
    SingleCycle(map[], [], first, b);
    QuotaWrite(map[], [], first, b);
    var two := Process(one.rows, one.log, second);
    SingleCycle(one.rows, one.log, second, other);
    QuotaWrite(one.rows, one.log, second, other);
    SingleCycle(two.rows, two.log, first, b);
    QuotaWrite(two.rows, two.log, first, b);
  }

  /** A configured visit that finds no row of its content, or a placeholder, attempts and records the failure. */
  lemma QuotaWrite(rows: Cache, log: seq<Write>, cycle: Cycle, b: Brief)
    requires Eligible(b) && cycle.configured && cycle.cap == 1
    requires var cached := Cached(rows, b); cached.None? || cached.value.status == NOT_CONFIGURED
    ensures var q := Visit(cycle, Begin(rows, log), Job(b, Refused(QUOTA), false));
            && q.log == log + [Write(CacheKey(b), Governed(b), cycle.now,
                                     Attempted(QUOTA, Some(Ticks(cycle.policy.quota))))]
            && CacheKey(b) in q.rows && q.rows[CacheKey(b)].hash == Governed(b) && q.rows[CacheKey(b)].status == QUOTA
            && q.rows[CacheKey(b)].attempts == Previous(Cached(rows, b)) + 1
  {
    hide Eligible;
    hide Governed;
    hide CacheKey;
    hide Cached;
    assert Synthesize(b, true, cycle.structured, Refused(QUOTA)) == Outcome(b, QUOTA);
  }

  /** A cycle without a configured provider replaces a failed row by a placeholder and so ends its cooldown; the attempt
      count survives. */
  lemma UnconfiguredCycleEndsCooldown(b: Brief, policy: Policy, now: int)
    requires Eligible(b) && policy.quota > 0
    ensures var p := Run([Single(b, true, policy, now), Single(b, false, policy, now), Single(b, true, policy, now)]);
            && |p.log| == 3
            && AttemptOn(p.log[0], CacheKey(b), Governed(b)) && AttemptOn(p.log[2], CacheKey(b), Governed(b))
            && p.log[0].at == p.log[2].at && p.log[0].kind.cooldown == Some(Ticks(policy.quota))
            && CacheKey(b) in p.rows && p.rows[CacheKey(b)].attempts == 2
  {
    hide Eligible;
    hide Governed;
    hide CacheKey;
    hide Process;
    hide Visit;
    hide Run;
    var first, second := Single(b, true, policy, now), Single(b, false, policy, now);
    RunThree(first, second, first);
    var one := Process(map[], [], first);
    SingleCycle(map[], [], first, b);
    QuotaWrite(map[], [], first, b);
    var two := Process(one.rows, one.log, second);
    SingleCycle(one.rows, one.log, second, b);
    PlaceholderWrite(one.rows, one.log, second, b);
    SingleCycle(two.rows, two.log, first, b);
    QuotaWrite(two.rows, two.log, first, b);
  }

  lemma PlaceholderWrite(rows: Cache, log: seq<Write>, cycle: Cycle, b: Brief)
    requires !cycle.configured
    requires var cached := Cached(rows, b); cached.Some? && cached.value.status == QUOTA
    ensures var q := Visit(cycle, Begin(rows, log), Job(b, Refused(QUOTA), false));
            && q.log == log + [Write(CacheKey(b), Governed(b), cycle.now, Placeholder)]
            && CacheKey(b) in q.rows && q.rows[CacheKey(b)].hash == Governed(b)
            && q.rows[CacheKey(b)].status == NOT_CONFIGURED
            && q.rows[CacheKey(b)].attempts == rows[CacheKey(b)].attempts
  {
    hide Governed;
    hide CacheKey;
  }

  /** One-brief cycles with a configured provider at any times. */
  function Singles(b: Brief, policy: Policy, times: seq<int>): seq<Cycle>
    decreases |times|
  {
    if times == [] then []
    else Singles(b, policy, times[..|times| - 1]) + [Single(b, true, policy, times[|times| - 1])]
  }

  /** A failure whose cooldown is zero seconds is never repeated, however many cycles follow and however late. */
  lemma {:induction false} ZeroCooldownNeverRetried(b: Brief, policy: Policy, times: seq<int>)
    requires Eligible(b) && policy.quota <= 0 && times != []
    ensures var p := Run(Singles(b, policy, times));
            && p.log == [Write(CacheKey(b), Governed(b), times[0], Attempted(QUOTA, Some(0)))]
            && CacheKey(b) in p.rows && GivenUp(p.rows[CacheKey(b)], b)
    decreases |times|
  {
    hide Eligible;
    hide Governed;
    hide CacheKey;
    hide Process;
    hide Visit;
    hide Run;
    var init, cycle := times[..|times| - 1], Single(b, true, policy, times[|times| - 1]);
    RunSnoc(Singles(b, policy, init), cycle);
    if init == [] {
      assert Run([]) == Begin(map[], []) by { NothingYet(); }
      SingleCycle(map[], [], cycle, b);
      QuotaWrite(map[], [], cycle, b);
      ZeroQuotaRow(map[], [], cycle, b);
    } else {
      ZeroCooldownNeverRetried(b, policy, init);
      var p := Run(Singles(b, policy, init));
      SingleCycle(p.rows, p.log, cycle, b);
      GivenUpWaits(p.rows, p.log, cycle, b);
    }
  }

  lemma NothingYet()
    ensures Run([]) == Begin(map[], [])
  {
  }

  /** A failed row of the brief's content that names no time for a retry. */
  predicate GivenUp(row: Briefs.Row, b: Brief) {
    row.hash == Governed(b) && row.status == QUOTA && row.nextRetry.None?
  }

  lemma ZeroQuotaRow(rows: Cache, log: seq<Write>, cycle: Cycle, b: Brief)
    requires Eligible(b) && cycle.configured && cycle.cap == 1 && cycle.policy.quota <= 0 && Cached(rows, b).None?
    ensures var q := Visit(cycle, Begin(rows, log), Job(b, Refused(QUOTA), false));
            CacheKey(b) in q.rows && GivenUp(q.rows[CacheKey(b)], b)
  {
    hide Eligible;
    hide Governed;
    hide CacheKey;
    hide Cached;
    assert Synthesize(b, true, cycle.structured, Refused(QUOTA)) == Outcome(b, QUOTA);
  }

  lemma GivenUpWaits(rows: Cache, log: seq<Write>, cycle: Cycle, b: Brief)
    requires cycle.configured && CacheKey(b) in rows && GivenUp(rows[CacheKey(b)], b)
    ensures var q := Visit(cycle, Begin(rows, log), Job(b, Refused(QUOTA), false)); q.log == log && q.rows == rows
  {
    hide Governed;
    hide CacheKey;
  }

  // ---- Reading the cache back --------------------------------------------------------------------------------

  ghost predicate Sourced(row: Briefs.Row) {
    exists source, structured, answer :: WrittenFrom(row, source, structured, answer)
  }

  predicate AllEligible(jobs: seq<Sorting.Row<Job>>) { forall row | row in jobs :: Eligible(row.value.brief) }

  ghost predicate SuccessesSourced(rows: Cache) {
    forall id | id in rows && rows[id].status == AVAILABLE :: Sourced(rows[id])
  }

  lemma VisitSourced(cycle: Cycle, p: Progress, job: Job)
    requires SuccessesSourced(p.rows) && Eligible(job.brief)
    ensures SuccessesSourced(Visit(cycle, p, job).rows)
  {
    hide Eligible;
    hide Governed;
    hide CacheKey;
    hide Cached;
    hide Synthesize;
    hide Sourced;
    if Choose(Cached(p.rows, job.brief), cycle, p.attempted, job.late) == Attempt {
      var row := Tried(cycle, p, job).rows[CacheKey(job.brief)];
      SourcedBy(row, job.brief, cycle.structured, job.answer);
    }
  }

  lemma SourcedBy(row: Briefs.Row, source: Brief, structured: bool, answer: Answer)
    requires WrittenFrom(row, source, structured, answer)
    ensures Sourced(row)
  {
    hide WrittenFrom;
  }

  lemma {:induction false} WorkSourced(cycle: Cycle, p: Progress, jobs: seq<Sorting.Row<Job>>)
    requires SuccessesSourced(p.rows) && AllEligible(jobs)
    ensures SuccessesSourced(Work(cycle, p, jobs).rows)
    decreases |jobs|
  {
    hide Visit;
    hide SuccessesSourced;
    hide Eligible;
    if jobs != [] {
      assert jobs[0] in jobs;
      VisitSourced(cycle, p, jobs[0].value);
      WorkSourced(cycle, Visit(cycle, p, jobs[0].value), jobs[1..]);
    }
  }

  lemma QueueEligible(cycle: Cycle)
    ensures AllEligible(Queue(cycle))
  {
    hide Eligible;
    var rows := Selected(cycle.jobs, 0);
    forall row | row in Queue(cycle) ensures Eligible(row.value.brief) {
      assert row in multiset(Queue(cycle));
      assert row in multiset(rows);
      assert row in rows;
    }
  }

  lemma {:induction false} RunSourced(cycles: seq<Cycle>)
    ensures SuccessesSourced(Run(cycles).rows)
    decreases |cycles|
  {
    hide Work;
    hide Sourced;
    hide AllEligible;
    if cycles != [] {
      var before, cycle := Run(cycles[..|cycles| - 1]), cycles[|cycles| - 1];
      RunSourced(cycles[..|cycles| - 1]);
      QueueEligible(cycle);
      WorkSourced(cycle, Begin(before.rows, before.log), Queue(cycle));
    }
  }

  /** Whatever the worker has stored, reading a brief through the cache keeps its content key, eligibility, scores,
      relevance, priority and account scope, and reading it again changes nothing. */
  lemma ReadingKeepsGovernance(cycles: seq<Cycle>, b: Brief)
    ensures var cached := Cached(Run(cycles).rows, b); var shown := ApplyCached(b, cached);
            SameGovernance(shown, b) && ApplyCached(shown, Cached(Run(cycles).rows, shown)) == shown
  {
    hide Run;
    hide Governed;
    hide CacheKey;
    hide Eligible;
    hide WrittenFrom;
    RunSourced(cycles);
    var cached := Cached(Run(cycles).rows, b);
    if cached.Some? && cached.value.status == AVAILABLE {
      var row := cached.value;
      assert Sourced(row);
      var source, structured, answer :| WrittenFrom(row, source, structured, answer);
      ApplyingKeepsGovernance(b, row, source, structured, answer);
      ApplyingIsIdempotent(b, row, source, structured, answer);
    }
  }
}
