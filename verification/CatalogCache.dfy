/** The shared catalog: a composition of committed commercial records and durable public records, cached by revision. */
module CatalogCache {
  import opened Text

  datatype Account = Account(id: string, legalName: string, profile: string)

  /** Names are case-folded. */
  datatype Program = Program(id: string, name: string)

  datatype Catalog = Catalog(accounts: seq<Account>, programs: seq<Program>, identity: map<string, string>,
                             profiles: seq<string>, rest: string)

  datatype Environment = Environment(catalog: Catalog, revision: Option<string>)

  /** The durable public records. */
  datatype Durable = Durable(accounts: seq<Account>, programs: seq<Program>)

  const NOTHING := Durable([], [])

  type Mappings = map<string, string>

  /** The committed commercial records. A revision is a digest of the records, so it stands for them. */
  datatype Commit = Commit(revision: string, mappings: Mappings)

  /** The projection of committed records onto the original catalog; None when there are no records or they are
      invalid. */
  type Projection = Commit -> Option<Catalog>

  // ---- Composition ---------------------------------------------------------------------------------

  predicate Collides(curated: Catalog, durable: Durable) {
    || (exists a, d | a in curated.accounts && d in durable.accounts :: a.id == d.id)
    || (exists p, d | p in curated.programs && d in durable.programs :: p.id == d.id)
    || (exists p, d | p in curated.programs && d in durable.programs :: p.name == d.name)
  }

  function Profiles(accounts: seq<Account>): seq<string> {
    if accounts == [] then [] else [accounts[0].profile] + Profiles(accounts[1..])
  }

  function Identities(accounts: seq<Account>): map<string, string> {
    if accounts == [] then map[]
    else map["public:" + accounts[0].legalName := accounts[0].id] + Identities(accounts[1..])
  }

  function Compose(curated: Environment, durable: Durable): Environment {
    var c := curated.catalog;
    curated.(catalog := Catalog(c.accounts + durable.accounts, c.programs + durable.programs,
                                c.identity + Identities(durable.accounts),
                                c.profiles + Profiles(durable.accounts), c.rest))
  }

  lemma ComposeNothing(curated: Environment)
    ensures Compose(curated, NOTHING) == curated && !Collides(curated.catalog, NOTHING)
  {
    var c := curated.catalog;
    assert c.accounts + [] == c.accounts && c.programs + [] == c.programs && c.profiles + [] == c.profiles;
    assert c.identity + map[] == c.identity;
  }

  /** The composition determines the durable records in it. */
  lemma ComposeInjective(curated: Environment, a: Durable, b: Durable)
    requires Compose(curated, a) == Compose(curated, b)
    ensures a == b
  {
    var c := curated.catalog;
    assert (c.accounts + a.accounts)[|c.accounts|..] == a.accounts
           && (c.accounts + b.accounts)[|c.accounts|..] == b.accounts;
    assert (c.programs + a.programs)[|c.programs|..] == a.programs
           && (c.programs + b.programs)[|c.programs|..] == b.programs;
  }

  /** A composition keeps the curated accounts and programs, then lists the promoted ones, and watches each promoted
      account by its own profile, in their order. */
  lemma ComposeLists(curated: Environment, durable: Durable, k: nat)
    ensures var c, composed := curated.catalog, Compose(curated, durable);
            && composed.revision == curated.revision && composed.catalog.rest == c.rest
            && |composed.catalog.accounts| == |c.accounts| + |durable.accounts|
            && |composed.catalog.programs| == |c.programs| + |durable.programs|
            && |composed.catalog.profiles| == |c.profiles| + |durable.accounts|
            && (k < |c.accounts| ==> composed.catalog.accounts[k] == c.accounts[k])
            && (k < |c.programs| ==> composed.catalog.programs[k] == c.programs[k])
            && (k < |c.profiles| ==> composed.catalog.profiles[k] == c.profiles[k])
            && (k < |durable.accounts| ==>
                  && composed.catalog.accounts[|c.accounts| + k] == durable.accounts[k]
                  && composed.catalog.profiles[|c.profiles| + k] == durable.accounts[k].profile)
            && (k < |durable.programs| ==> composed.catalog.programs[|c.programs| + k] == durable.programs[k])
  {
    ProfilesAt(durable.accounts, k);
    hide Profiles;
  }

  lemma {:induction false} ProfilesAt(accounts: seq<Account>, k: nat)
    ensures |Profiles(accounts)| == |accounts|
    ensures k < |accounts| ==> Profiles(accounts)[k] == accounts[k].profile
  {
    if accounts != [] {
      ProfilesAt(accounts[1..], if k > 0 then k - 1 else 0);
      if k == 0 {
        assert Profiles(accounts)[0] == accounts[0].profile;
      }
    }
  }

  /** A public identity resolves to a promoted account of that name, the last one; every other identity as before. */
  lemma ComposeIdentity(curated: Environment, durable: Durable, key: string)
    ensures var before, after := curated.catalog.identity, Compose(curated, durable).catalog.identity;
            if exists a | a in durable.accounts :: key == "public:" + a.legalName
            then key in after && exists i | 0 <= i < |durable.accounts| ::
                   && key == "public:" + durable.accounts[i].legalName && after[key] == durable.accounts[i].id
                   && forall j | i < j < |durable.accounts| :: key != "public:" + durable.accounts[j].legalName
            else (key in after <==> key in before) && (key in after ==> after[key] == before[key])
  {
    IdentitiesAt(durable.accounts, key);
    hide Identities;
    hide Profiles;
  }

  lemma {:induction false} IdentitiesAt(accounts: seq<Account>, key: string)
    ensures key in Identities(accounts) <==> exists a | a in accounts :: key == "public:" + a.legalName
    ensures key in Identities(accounts) ==>
              exists i | 0 <= i < |accounts| ::
                && key == "public:" + accounts[i].legalName && Identities(accounts)[key] == accounts[i].id
                && forall j | i < j < |accounts| :: key != "public:" + accounts[j].legalName
  {
    if accounts != [] {
      var rest := accounts[1..];
      IdentitiesAt(rest, key);
      assert accounts == [accounts[0]] + rest;
      if key in Identities(rest) {
        var i :| 0 <= i < |rest| && key == "public:" + rest[i].legalName && Identities(rest)[key] == rest[i].id
                 && forall j | i < j < |rest| :: key != "public:" + rest[j].legalName;
        assert accounts[i + 1] == rest[i];
        forall j | i + 1 < j < |accounts| ensures key != "public:" + accounts[j].legalName {
          assert accounts[j] == rest[j - 1];
        }
      } else if key == "public:" + accounts[0].legalName {
        forall j | 0 < j < |accounts| ensures key != "public:" + accounts[j].legalName {
          assert accounts[j] in rest;
        }
      }
    }
  }

  // ---- The runtime ---------------------------------------------------------------------------------

  datatype Config = Config(original: Environment, commercial: bool, durable: bool, project: Projection)

  /** Storage, the cached fields and the catalog handed to the monitor. `applied` records, for the statements only,
      which durable records the cached sample contains. */
  datatype State = State(commit: Commit, stored: Durable, curated: Environment, lastMappings: Option<Mappings>,
                         sample: Environment, monitored: Environment, applied: Durable)

  datatype Reply = Shown(environment: Environment) | Unavailable

  /** `refresh_durable_catalog`: None for a collision. */
  function RefreshDurable(config: Config, s: State): Option<State> {
    if !config.durable then Some(s)
    else if Collides(s.curated.catalog, s.stored) then None
    else
      var sample := Compose(s.curated, s.stored);
      Some(s.(sample := sample, monitored := sample, applied := s.stored))
  }

  predicate Changed(s: State) {
    Some(s.commit.revision) != s.curated.revision || Some(s.commit.mappings) != s.lastMappings
  }

  /** The fields assigned before the durable records are looked at. */
  function Advance(config: Config, s: State): State
    requires config.project(s.commit).Some?
  {
    var curated := Environment(config.project(s.commit).value, Some(s.commit.revision));
    s.(curated := curated, lastMappings := Some(s.commit.mappings), sample := curated, applied := NOTHING)
  }

  /** `refresh_commercial_catalog`; `during` is a commit that lands between the revision check and the snapshot. */
  function RefreshCommercial(config: Config, s: State, during: Option<Commit>): (State, bool) {
    var later := if during.Some? then s.(commit := during.value) else s;
    if !config.commercial || !Changed(s) then (later, true)
    else if config.project(later.commit).None? then (later, false)
    else
      var advanced := Advance(config, later);
      match RefreshDurable(config, advanced)
      case None => (advanced, false)
      case Some(done) => (done.(monitored := done.sample), true)
  }

  datatype Step =
    | Import(commit: Commit)
    | Promote(records: Durable)
    | Refresh
    | Read(during: Option<Commit>)

  /** One step and, for a read, its reply. A failed refresh raises and leaves the state as it is. */
  function Apply(config: Config, s: State, step: Step): (State, Option<Reply>) {
    match step
    case Import(commit) => (s.(commit := commit), None)
    case Promote(records) => (s.(stored := records), None)
    case Refresh => (if RefreshDurable(config, s).Some? then RefreshDurable(config, s).value else s, None)
    case Read(during) =>
      var (next, ok) := RefreshCommercial(config, s, during);
      (next, Some(if ok then Shown(next.sample) else Unavailable))
  }

  function Run(config: Config, s: State, steps: seq<Step>): State
    decreases |steps|
  {
    if steps == [] then s else Run(config, Apply(config, s, steps[0]).0, steps[1..])
  }

  /** A runtime before its first refresh. */
  function Start(config: Config, commit: Commit, stored: Durable): State {
    State(commit, stored, config.original, None, config.original, config.original, NOTHING)
  }

  /** Construction: the commercial records are read before the durable ones are attached; any failure prevents it. */
  function StartUp(config: Config, commit: Commit, stored: Durable): Option<State> {
    var (read, ok) := RefreshCommercial(config.(durable := false), Start(config, commit, stored), None);
    if !ok || RefreshDurable(config, read).None? then None
    else
      var s := RefreshDurable(config, read).value;
      Some(s.(monitored := s.sample))
  }

  // ---- What the cache always holds -----------------------------------------------------------------

  predicate UniqueAccounts(accounts: seq<Account>) {
    forall i, j | 0 <= i < j < |accounts| :: accounts[i].id != accounts[j].id
  }

  predicate UniquePrograms(programs: seq<Program>) {
    forall i, j | 0 <= i < j < |programs| :: programs[i].id != programs[j].id
  }

  predicate UniqueIds(c: Catalog) { UniqueAccounts(c.accounts) && UniquePrograms(c.programs) }

  predicate UniqueRecords(d: Durable) { UniqueAccounts(d.accounts) && UniquePrograms(d.programs) }

  /** What the catalog's sources promise: unique ids in every projection and in the original. */
  ghost predicate Sound(config: Config) {
    && UniqueIds(config.original.catalog)
    && forall c: Commit :: config.project(c).Some? ==> UniqueIds(config.project(c).value)
  }

  /** The cached sample is a composition of the curated catalog without collision, and the curated catalog is the
      original one or the projection of the commit it was read from. */
  ghost predicate Consistent(config: Config, s: State) {
    && s.sample == Compose(s.curated, s.applied) && !Collides(s.curated.catalog, s.applied)
    && UniqueIds(s.curated.catalog) && UniqueRecords(s.applied) && UniqueRecords(s.stored)
    && (s.lastMappings.None? ==> s.curated == config.original)
    && (s.lastMappings.Some? ==>
          && s.curated.revision.Some?
          && config.project(Commit(s.curated.revision.value, s.lastMappings.value)) == Some(s.curated.catalog))
  }

  predicate GoodStep(step: Step) { step.Promote? ==> UniqueRecords(step.records) }

  lemma DurableKeepsConsistent(config: Config, s: State)
    requires Sound(config) && Consistent(config, s) && RefreshDurable(config, s).Some?
    ensures Consistent(config, RefreshDurable(config, s).value)
  {
    hide Compose;
    hide Collides;
    hide UniqueIds;
    hide UniqueRecords;
  }

  lemma AdvanceKeepsConsistent(config: Config, s: State)
    requires Sound(config) && Consistent(config, s) && config.project(s.commit).Some?
    ensures Consistent(config, Advance(config, s))
  {
    hide Compose;
    hide Collides;
    hide UniqueIds;
    ComposeNothing(Advance(config, s).curated);
  }

  lemma StepKeepsConsistent(config: Config, s: State, step: Step)
    requires Sound(config) && Consistent(config, s) && GoodStep(step)
    ensures Consistent(config, Apply(config, s, step).0)
  {
    hide Compose;
    hide Collides;
    hide UniqueIds;
    hide UniqueRecords;
    hide Sound;
    hide Advance;
    hide RefreshDurable;
    match step
    case Refresh =>
      if RefreshDurable(config, s).Some? {
        DurableKeepsConsistent(config, s);
      }
    case Read(during) =>
      var later := if during.Some? then s.(commit := during.value) else s;
      if config.commercial && Changed(s) && config.project(later.commit).Some? {
        AdvanceKeepsConsistent(config, later);
        var advanced := Advance(config, later);
        if RefreshDurable(config, advanced).Some? {
          DurableKeepsConsistent(config, advanced);
        }
      }
    case _ =>
  }

  lemma {:induction false} RunKeepsConsistent(config: Config, s: State, steps: seq<Step>)
    requires Sound(config) && Consistent(config, s)
    requires forall step | step in steps :: GoodStep(step)
    ensures Consistent(config, Run(config, s, steps))
    decreases |steps|
  {
    hide Sound;
    hide Consistent;
    hide Apply;
    if steps != [] {
      StepKeepsConsistent(config, s, steps[0]);
      RunKeepsConsistent(config, Apply(config, s, steps[0]).0, steps[1..]);
    }
  }

  lemma StartConsistent(config: Config, commit: Commit, stored: Durable)
    requires Sound(config) && UniqueRecords(stored)
    ensures Consistent(config, Start(config, commit, stored))
  {
    ComposeNothing(config.original);
  }

  lemma StartUpConsistent(config: Config, commit: Commit, stored: Durable)
    requires Sound(config) && UniqueRecords(stored) && StartUp(config, commit, stored).Some?
    ensures Consistent(config, StartUp(config, commit, stored).value)
  {
    hide Compose;
    hide Collides;
    hide UniqueIds;
    hide UniqueRecords;
    hide Sound;
    hide RefreshDurable;
    hide RefreshCommercial;
    var start, early := Start(config, commit, stored), config.(durable := false);
    StartConsistent(config, commit, stored);
    SoundEither(config, early);
    StepKeepsConsistent(early, start, Read(None));
    var read := RefreshCommercial(early, start, None).0;
    assert Apply(early, start, Read(None)).0 == read;
    DurableKeepsConsistent(config, read);
  }

  lemma SoundEither(a: Config, b: Config)
    requires Sound(a) && b == a.(durable := false)
    ensures Sound(b)
  {
  }

  lemma UniqueAccountsConcat(a: seq<Account>, b: seq<Account>)
    requires UniqueAccounts(a) && UniqueAccounts(b)
    requires forall x, y | x in a && y in b :: x.id != y.id
    ensures UniqueAccounts(a + b)
  {
    forall i, j | 0 <= i < j < |a + b| ensures (a + b)[i].id != (a + b)[j].id {
      if i < |a| <= j {
        assert a[i] in a && b[j - |a|] in b;
      }
    }
  }

  lemma UniqueProgramsConcat(a: seq<Program>, b: seq<Program>)
    requires UniquePrograms(a) && UniquePrograms(b)
    requires forall x, y | x in a && y in b :: x.id != y.id
    ensures UniquePrograms(a + b)
  {
    forall i, j | 0 <= i < j < |a + b| ensures (a + b)[i].id != (a + b)[j].id {
      if i < |a| <= j {
        assert a[i] in a && b[j - |a|] in b;
      }
    }
  }

  lemma ComposeUnique(curated: Environment, durable: Durable)
    requires UniqueIds(curated.catalog) && UniqueRecords(durable) && !Collides(curated.catalog, durable)
    ensures UniqueIds(Compose(curated, durable).catalog)
  {
    hide UniqueAccounts;
    hide UniquePrograms;
    UniqueAccountsConcat(curated.catalog.accounts, durable.accounts);
    UniqueProgramsConcat(curated.catalog.programs, durable.programs);
  }

  /** In every run, whatever is committed, promoted or refreshed and whatever collides, the environment shown has
      unique account and program ids. */
  lemma ShownIdsUnique(config: Config, commit: Commit, stored: Durable, steps: seq<Step>, during: Option<Commit>)
    requires Sound(config) && UniqueRecords(stored) && forall step | step in steps :: GoodStep(step)
    requires StartUp(config, commit, stored).Some?
    ensures var reply := Apply(config, Run(config, StartUp(config, commit, stored).value, steps), Read(during)).1.value;
            reply.Shown? ==> UniqueIds(reply.environment.catalog)
  {
    hide Sound;
    hide Compose;
    hide Collides;
    hide UniqueIds;
    hide UniqueRecords;
    hide Run;
    hide RefreshCommercial;
    hide StartUp;
    var start := StartUp(config, commit, stored).value;
    StartUpConsistent(config, commit, stored);
    var s := Run(config, start, steps);
    RunKeepsConsistent(config, start, steps);
    StepKeepsConsistent(config, s, Read(during));
    var next := Apply(config, s, Read(during)).0;
    ComposeUnique(next.curated, next.applied);
  }

  /** A refresh of the durable records fails exactly when a promoted account has the id of a curated one, or a promoted
      program the id or the name of a curated one. */
  lemma RefreshFailsIff(config: Config, s: State)
    ensures var c, d := s.curated.catalog, s.stored;
            RefreshDurable(config, s).None?
            <==> config.durable
                 && ((exists i, j | 0 <= i < |c.accounts| && 0 <= j < |d.accounts| ::
                        c.accounts[i].id == d.accounts[j].id)
                     || (exists i, j | 0 <= i < |c.programs| && 0 <= j < |d.programs| ::
                           c.programs[i].id == d.programs[j].id || c.programs[i].name == d.programs[j].name))
  {
    hide Compose;
    var c, d := s.curated.catalog, s.stored;
    if a, b :| a in c.accounts && b in d.accounts && a.id == b.id {
      var i :| 0 <= i < |c.accounts| && c.accounts[i] == a;
      var j :| 0 <= j < |d.accounts| && d.accounts[j] == b;
    }
    if p, q :| p in c.programs && q in d.programs && (p.id == q.id || p.name == q.name) {
      var i :| 0 <= i < |c.programs| && c.programs[i] == p;
      var j :| 0 <= j < |d.programs| && d.programs[j] == q;
    }
  }

  /** Nor does any environment shown hold a promoted program under the name of a curated one. */
  lemma ShownNamesApart(config: Config, commit: Commit, stored: Durable, steps: seq<Step>, during: Option<Commit>)
    requires Sound(config) && UniqueRecords(stored) && forall step | step in steps :: GoodStep(step)
    requires StartUp(config, commit, stored).Some?
    ensures var (next, reply) := Apply(config, Run(config, StartUp(config, commit, stored).value, steps), Read(during));
            var n := |next.curated.catalog.programs|;
            reply.value.Shown? ==>
              var programs := reply.value.environment.catalog.programs;
              n <= |programs| && programs[..n] == next.curated.catalog.programs
              && forall i, j | 0 <= i < n <= j < |programs| :: programs[i].name != programs[j].name
  {
    hide Sound;
    hide Run;
    hide RefreshCommercial;
    hide StartUp;
    hide UniqueIds;
    hide UniqueRecords;
    hide Identities;
    hide Profiles;
    var start := StartUp(config, commit, stored).value;
    StartUpConsistent(config, commit, stored);
    var s := Run(config, start, steps);
    RunKeepsConsistent(config, start, steps);
    StepKeepsConsistent(config, s, Read(during));
    var next := Apply(config, s, Read(during)).0;
    NamesApart(next.curated, next.applied);
  }

  lemma NamesApart(curated: Environment, durable: Durable)
    requires !Collides(curated.catalog, durable)
    ensures var n, programs := |curated.catalog.programs|, Compose(curated, durable).catalog.programs;
            && n <= |programs| && programs[..n] == curated.catalog.programs
            && forall i, j | 0 <= i < n <= j < |programs| :: programs[i].name != programs[j].name
  {
    hide Identities;
    hide Profiles;
    var n, programs := |curated.catalog.programs|, Compose(curated, durable).catalog.programs;
    forall i, j | 0 <= i < n <= j < |programs| ensures programs[i].name != programs[j].name {
      assert programs[i] in curated.catalog.programs;
      assert programs[j] == durable.programs[j - n] && durable.programs[j - n] in durable.programs;
    }
  }

  // ---- The cache against recomputation --------------------------------------------------------------

  /** What composing everything anew would reply. */
  function Recompose(config: Config, commit: Commit, stored: Durable): Reply {
    if config.commercial && config.project(commit).None? then Unavailable
    else
      var curated := if config.commercial then Environment(config.project(commit).value, Some(commit.revision))
                     else config.original;
      if !config.durable then Shown(curated)
      else if Collides(curated.catalog, stored) then Unavailable
      else Shown(Compose(curated, stored))
  }

  /** The commit a read answers for: the one seen by the revision check when nothing changed, else the one in force
      when the snapshot was taken. */
  function AnswersFor(s: State, during: Option<Commit>): Commit {
    if Changed(s) && during.Some? then during.value else s.commit
  }

  /** After a change the read is exactly the recomposition, in success and in failure. */
  lemma ChangedReadRecomposes(config: Config, s: State, during: Option<Commit>)
    requires config.commercial && Changed(s)
    ensures Apply(config, s, Read(during)).1 == Some(Recompose(config, AnswersFor(s, during), s.stored))
  {
    hide Collides;
    hide Compose;
  }

  /** Without a change the read shows the cached sample, which is the recomposition exactly when the durable records in
      it are the stored ones. */
  lemma UnchangedReadRecomposesIff(config: Config, s: State, during: Option<Commit>)
    requires Consistent(config, s) && (!config.commercial ==> s.lastMappings.None?)
    requires config.commercial ==> !Changed(s)
    requires !config.durable ==> s.applied == NOTHING
    ensures Apply(config, s, Read(during)).1 == Some(Recompose(config, s.commit, s.stored))
       <==> !config.durable || s.applied == s.stored
  {
    hide Collides;
    hide Compose;
    hide UniqueIds;
    hide UniqueRecords;
    ComposeNothing(s.curated);
    if Compose(s.curated, s.applied) == Compose(s.curated, s.stored) {
      ComposeInjective(s.curated, s.applied, s.stored);
    }
  }

  /** Fields that a configuration never touches. */
  predicate Configured(config: Config, s: State) {
    (!config.commercial ==> s.lastMappings.None?) && (!config.durable ==> s.applied == NOTHING)
  }

  lemma {:induction false} RunKeepsConfigured(config: Config, s: State, steps: seq<Step>)
    requires Configured(config, s)
    ensures Configured(config, Run(config, s, steps))
    decreases |steps|
  {
    hide Collides;
    hide Compose;
    if steps != [] {
      RunKeepsConfigured(config, Apply(config, s, steps[0]).0, steps[1..]);
    }
  }

  lemma StartUpReady(config: Config, commit: Commit, stored: Durable)
    requires StartUp(config, commit, stored).Some?
    ensures Configured(config, StartUp(config, commit, stored).value)
    ensures Holds(config, StartUp(config, commit, stored).value)
    ensures StartUp(config, commit, stored).value.monitored == StartUp(config, commit, stored).value.sample
  {
    hide Compose;
    hide Collides;
  }

  /** A read of any run equals recomputation exactly when the commercial revision or mappings changed since the last
      refresh, or the durable records in the cache are the stored ones. */
  lemma CachedReadRecomposesIff(config: Config, commit: Commit, stored: Durable, steps: seq<Step>,
                                during: Option<Commit>)
    requires Sound(config) && UniqueRecords(stored) && forall step | step in steps :: GoodStep(step)
    requires StartUp(config, commit, stored).Some?
    ensures var s := Run(config, StartUp(config, commit, stored).value, steps);
            && (ReadIsRecomputed(config, s, during)
                <==> (config.commercial && Changed(s)) || !config.durable || s.applied == s.stored)
  {
    hide Sound;
    hide Consistent;
    hide Run;
    hide StartUp;
    hide Apply;
    hide Recompose;
    var start := StartUp(config, commit, stored).value;
    var s := Run(config, start, steps);
    StartUpConsistent(config, commit, stored);
    StartUpReady(config, commit, stored);
    RunKeepsConsistent(config, start, steps);
    RunKeepsConfigured(config, start, steps);
    if config.commercial && Changed(s) {
      ChangedReadRecomposes(config, s, during);
    } else {
      UnchangedReadRecomposesIff(config, s, during);
    }
  }

  /** The next read replies what composing everything anew would. */
  predicate ReadIsRecomputed(config: Config, s: State, during: Option<Commit>) {
    var commit := if config.commercial then AnswersFor(s, during) else s.commit;
    Apply(config, s, Read(during)).1 == Some(Recompose(config, commit, s.stored))
  }

  // ---- What the steps alone say about the cache -----------------------------------------------------------

  /** Kept from the steps alone: what is committed and promoted, the commit that was projected last and the records that
      were composed with it last. */
  datatype Ledger = Ledger(commit: Commit, promoted: Durable, projected: Option<Commit>, composed: Durable)

  function Opening(config: Config, commit: Commit, stored: Durable): Ledger {
    Ledger(commit, stored, if config.commercial then Some(commit) else None, if config.durable then stored else NOTHING)
  }

  function Projected(config: Config, l: Ledger): Environment {
    if l.projected.None? || config.project(l.projected.value).None? then config.original
    else Environment(config.project(l.projected.value).value, Some(l.projected.value.revision))
  }

  function Noted(config: Config, l: Ledger, step: Step): Ledger {
    match step
    case Import(commit) => l.(commit := commit)
    case Promote(records) => l.(promoted := records)
    case Refresh =>
      if config.durable && !Collides(Projected(config, l).catalog, l.promoted) then l.(composed := l.promoted) else l
    case Read(during) =>
      var seen := if during.Some? then during.value else l.commit;
      if !config.commercial || l.projected == Some(l.commit) || config.project(seen).None? then l.(commit := seen)
      else
        var composes := config.durable && !Collides(config.project(seen).value, l.promoted);
        Ledger(seen, l.promoted, Some(seen), if composes then l.promoted else NOTHING)
  }

  function NotedAll(config: Config, l: Ledger, steps: seq<Step>): Ledger
    decreases |steps|
  {
    if steps == [] then l else NotedAll(config, Noted(config, l, steps[0]), steps[1..])
  }

  /** The ledger says what the state holds. */
  ghost predicate Tracks(config: Config, l: Ledger, s: State) {
    && s.commit == l.commit && s.stored == l.promoted && s.applied == l.composed
    && (config.commercial <==> l.projected.Some?)
    && s.curated == Projected(config, l)
    && (l.projected.None? ==> s.lastMappings.None?)
    && (l.projected.Some? ==>
          config.project(l.projected.value).Some? && s.lastMappings == Some(l.projected.value.mappings))
  }

  lemma TracksChange(config: Config, l: Ledger, s: State)
    requires config.commercial && Tracks(config, l, s)
    ensures Changed(s) <==> l.projected != Some(l.commit)
  {
  }

  lemma StepTracks(config: Config, l: Ledger, s: State, step: Step)
    requires Tracks(config, l, s)
    ensures Tracks(config, Noted(config, l, step), Apply(config, s, step).0)
  {
    hide Collides;
    hide Compose;
    if config.commercial {
      TracksChange(config, l, s);
    }
  }

  lemma {:induction false} RunTracks(config: Config, l: Ledger, s: State, steps: seq<Step>)
    requires Tracks(config, l, s)
    ensures Tracks(config, NotedAll(config, l, steps), Run(config, s, steps))
    decreases |steps|
  {
    hide Tracks;
    hide Noted;
    hide Apply;
    if steps != [] {
      StepTracks(config, l, s, steps[0]);
      RunTracks(config, Noted(config, l, steps[0]), Apply(config, s, steps[0]).0, steps[1..]);
    }
  }

  lemma StartUpTracks(config: Config, commit: Commit, stored: Durable)
    requires StartUp(config, commit, stored).Some?
    ensures Tracks(config, Opening(config, commit, stored), StartUp(config, commit, stored).value)
  {
    hide Collides;
    hide Compose;
  }

  /** The exact condition, on the steps alone, for a read of any run to equal recomputation: the commit in force is not
      the one projected last, or the records composed last are those promoted last. */
  lemma ReadEqualsRecomputationIff(config: Config, commit: Commit, stored: Durable, steps: seq<Step>,
                                   during: Option<Commit>)
    requires Sound(config) && UniqueRecords(stored) && forall step | step in steps :: GoodStep(step)
    requires StartUp(config, commit, stored).Some?
    ensures var l := NotedAll(config, Opening(config, commit, stored), steps);
            && (ReadIsRecomputed(config, Run(config, StartUp(config, commit, stored).value, steps), during)
                <==> || (config.commercial && l.projected != Some(l.commit))
                     || !config.durable || l.composed == l.promoted)
  {
    hide Sound;
    hide Run;
    hide StartUp;
    hide ReadIsRecomputed;
    hide UniqueRecords;
    hide Changed;
    hide NotedAll;
    var l, s := NotedAll(config, Opening(config, commit, stored), steps), StartUp(config, commit, stored).value;
    StartUpTracks(config, commit, stored);
    RunTracks(config, Opening(config, commit, stored), s, steps);
    if config.commercial {
      TracksChange(config, l, Run(config, s, steps));
    }
    CachedReadRecomposesIff(config, commit, stored, steps, during);
  }

  // ---- Runs without collisions ------------------------------------------------------------------------

  /** No refresh and no read in the run meets a collision. */
  predicate Clean(config: Config, s: State, steps: seq<Step>)
    decreases |steps|
  {
    steps == [] || (CleanStep(config, s, steps[0]) && Clean(config, Apply(config, s, steps[0]).0, steps[1..]))
  }

  predicate CleanStep(config: Config, s: State, step: Step) {
    match step
    case Refresh => RefreshDurable(config, s).Some?
    case Read(during) =>
      var commit := AnswersFor(s, during);
      config.commercial && Changed(s) && config.project(commit).Some? && config.durable ==>
        !Collides(config.project(commit).value, s.stored)
    case _ => true
  }

  /** Whether a promotion has not been followed by a refresh, somewhere later in the run. */
  predicate Pending(before: bool, steps: seq<Step>)
    decreases |steps|
  {
    if steps == [] then before else Pending(steps[0].Promote? || (before && !steps[0].Refresh?), steps[1..])
  }

  /** The cache holds the stored durable records. */
  predicate Holds(config: Config, s: State) { config.durable ==> s.applied == s.stored }

  lemma CleanStepHolds(config: Config, s: State, step: Step)
    requires s.monitored == s.sample && CleanStep(config, s, step)
    ensures Apply(config, s, step).0.monitored == Apply(config, s, step).0.sample
    ensures step.Refresh? || (Holds(config, s) && !step.Promote?) ==> Holds(config, Apply(config, s, step).0)
  {
    hide Compose;
    hide Collides;
  }

  /** Without a collision the monitor's catalog is the one shown, and the cache holds the stored durable records unless
      a promotion still waits for its refresh. */
  lemma {:induction false} CleanRunHolds(config: Config, s: State, steps: seq<Step>, before: bool)
    requires s.monitored == s.sample && (before || Holds(config, s)) && Clean(config, s, steps)
    ensures Run(config, s, steps).monitored == Run(config, s, steps).sample
    ensures Pending(before, steps) || Holds(config, Run(config, s, steps))
    decreases |steps|
  {
    hide Apply;
    hide Holds;
    hide CleanStep;
    if steps != [] {
      CleanStepHolds(config, s, steps[0]);
      CleanRunHolds(config, Apply(config, s, steps[0]).0, steps[1..],
                    steps[0].Promote? || (before && !steps[0].Refresh?));
    }
  }

  /** For every run without collisions, in whatever order imports, promotions, refreshes and reads come: once each
      promotion has been followed by a refresh, a read returns what recomposing the committed revision, its mappings and
      the durable records returns; and the monitor's catalog is the one shown throughout. */
  lemma CleanReadEqualsRecomputation(config: Config, commit: Commit, stored: Durable, steps: seq<Step>,
                                     during: Option<Commit>)
    requires Sound(config) && UniqueRecords(stored) && forall step | step in steps :: GoodStep(step)
    requires StartUp(config, commit, stored).Some? && Clean(config, StartUp(config, commit, stored).value, steps)
    ensures var s := Run(config, StartUp(config, commit, stored).value, steps);
            && s.monitored == s.sample
            && (!Pending(false, steps) ==> ReadIsRecomputed(config, s, during))
  {
    hide Sound;
    hide Run;
    hide StartUp;
    hide ReadIsRecomputed;
    hide UniqueRecords;
    hide Clean;
    hide Pending;
    StartUpReady(config, commit, stored);
    CleanRunHolds(config, StartUp(config, commit, stored).value, steps, false);
    CachedReadRecomposesIff(config, commit, stored, steps, during);
  }

  // ---- The boundary: a collision during a refresh ---------------------------------------------------------

  /** A read that meets a collision fails once, but has already advanced the revision: the next read succeeds and shows
      the new commercial catalog without any durable record, where recomposing would still fail; the monitor keeps the
      old catalog. */
  lemma CollisionAdvancesRevision(config: Config, s: State)
    requires config.commercial && config.durable && Changed(s) && config.project(s.commit).Some?
    requires Collides(config.project(s.commit).value, s.stored)
    ensures var first := Apply(config, s, Read(None)); var second := Apply(config, first.0, Read(None));
            && first.1 == Some(Unavailable)
            && second.1 == Some(Shown(Environment(config.project(s.commit).value, Some(s.commit.revision))))
            && Recompose(config, first.0.commit, first.0.stored) == Unavailable
            && second.0.monitored == s.monitored
  {
    hide Collides;
    hide Compose;
  }

  // ---- The runtime in place -----------------------------------------------------------------------------

  class PocRuntime {
    const settings: Config
    var attached: bool
    var curated: Environment
    var lastMappings: Option<Mappings>
    var sample: Environment
    var monitored: Environment
    ghost var applied: Durable

    /** The configuration as far as the durable repositories are attached. */
    function Current(): Config
      reads this
    {
      settings.(durable := attached)
    }

    ghost function Snapshot(commit: Commit, stored: Durable): State
      reads this
    {
      State(commit, stored, curated, lastMappings, sample, monitored, applied)
    }

    constructor (config: Config, ghost commit: Commit, ghost stored: Durable)
      ensures settings == config && !attached && Snapshot(commit, stored) == Start(config, commit, stored)
    {
      settings, attached := config, false;
      curated, lastMappings, sample, monitored, applied :=
        config.original, None, config.original, config.original, NOTHING;
    }

    /** The rest of the construction; `ok` is false when it raises. */
    method Initialize(commit: Commit, stored: Durable) returns (ok: bool)
      requires !attached && Snapshot(commit, stored) == Start(settings, commit, stored)
      modifies this
      ensures ok <==> StartUp(settings, commit, stored).Some?
      ensures ok ==> Current() == settings && Snapshot(commit, stored) == StartUp(settings, commit, stored).value
    {
      hide Compose;
      hide Collides;
      if settings.commercial {
        ok := RefreshCommercialCatalog(commit, commit, stored);
        if !ok {
          return;
        }
      }
      attached := settings.durable;
      var collided := RefreshDurableCatalog(commit, stored);
      monitored := sample;
      return !collided;
    }

    /** `collided` stands for the exception. */
    method RefreshDurableCatalog(commit: Commit, stored: Durable) returns (collided: bool)
      modifies this
      ensures attached == old(attached)
      ensures collided <==> RefreshDurable(Current(), old(Snapshot(commit, stored))).None?
      ensures Snapshot(commit, stored)
           == if collided then old(Snapshot(commit, stored))
              else RefreshDurable(Current(), old(Snapshot(commit, stored))).value
    {
      hide Compose;
      hide Collides;
      collided := false;
      if attached {
        if Collides(curated.catalog, stored) {
          return true;
        }
        sample := Compose(curated, stored);
        monitored, applied := sample, stored;
      }
    }

    /** `checked` is the commit the revision check sees, `commit` the one in force at the snapshot. */
    method RefreshCommercialCatalog(checked: Commit, commit: Commit, stored: Durable) returns (ok: bool)
      requires settings.commercial
      modifies this
      ensures attached == old(attached)
      ensures (Snapshot(commit, stored), ok) == RefreshCommercial(Current(), old(Snapshot(checked, stored)),
                                                                  Some(commit))
    {
      hide Compose;
      hide Collides;
      if Some(checked.revision) == curated.revision && Some(checked.mappings) == lastMappings {
        return true;
      }
      var projected := settings.project(commit);
      if projected.None? {
        return false;
      }
      curated := Environment(projected.value, Some(commit.revision));
      lastMappings := Some(commit.mappings);
      sample, applied := curated, NOTHING;
      var collided := RefreshDurableCatalog(commit, stored);
      if collided {
        return false;
      }
      monitored := sample;
      return true;
    }

    method ReadEnvironment(checked: Commit, commit: Commit, stored: Durable) returns (reply: Reply)
      modifies this
      ensures (Snapshot(commit, stored), Some(reply)) == Apply(Current(), old(Snapshot(checked, stored)),
                                                               Read(Some(commit)))
    {
      hide Compose;
      hide Collides;
      if settings.commercial {
        var ok := RefreshCommercialCatalog(checked, commit, stored);
        if !ok {
          return Unavailable;
        }
      }
      return Shown(sample);
    }
  }
}
