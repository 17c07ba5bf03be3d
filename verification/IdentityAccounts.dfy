/** Account assignment, the audit and facility merging. */
module IdentityAccounts {
  import opened Text
  import opened Ordering
  import opened UnionFind
  import opened IdentityLinks
  import opened IdentityRows
  import opened IdentityBuild

  // ---- Accounts ----------------------------------------------------------------------------------

  datatype Account = Account(id: string, root: string, existing: bool)

  /** How a cluster is named: the slug of its chosen display name, and the hash of its domains. */
  datatype Naming = Naming(slug: seq<Row> -> string, suffix: set<string> -> string)

  type Clusters = map<string, seq<Row>>

  type Existing = map<string, string>

  function Matches(rows: seq<Row>, existing: Existing): set<string> { ExistingIds(DomainsOf(rows), existing) }

  function Suffixed(rows: seq<Row>, naming: Naming): string { naming.slug(rows) + "-" + naming.suffix(DomainsOf(rows)) }

  function NewId(rows: seq<Row>, used: set<string>, naming: Naming): string {
    if naming.slug(rows) in used then Suffixed(rows, naming) else naming.slug(rows)
  }

  ghost function AccountFor(key: string, rows: seq<Row>, existing: Existing, used: set<string>,
                            naming: Naming): Account {
    if Matches(rows, existing) == {} then Account(NewId(rows, used, naming), key, false)
    else
      var id :| id in Matches(rows, existing);
      Account(id, key, true)
  }

  /** The accounts of the clusters in the order of `keys`; nothing when a cluster has two existing ids. */
  ghost function Assign(keys: seq<string>, clusters: Clusters, existing: Existing, used: set<string>,
                        naming: Naming): Option<seq<Account>>
    requires forall k | k in keys :: k in clusters
    decreases |keys|
  {
    if keys == [] then Some([])
    else if |Matches(clusters[keys[0]], existing)| > 1 then None
    else
      var account := AccountFor(keys[0], clusters[keys[0]], existing, used, naming);
      match Assign(keys[1..], clusters, existing, used + if account.existing then {} else {account.id}, naming)
      case None => None
      case Some(rest) => Some([account] + rest)
  }

  /** Every suffix that is needed gives an id that is not used yet. */
  ghost predicate FreshSuffixes(keys: seq<string>, clusters: Clusters, existing: Existing, used: set<string>,
                                naming: Naming)
    requires forall k | k in keys :: k in clusters
    decreases |keys|
  {
    keys == [] ||
    var rows := clusters[keys[0]];
    var account := AccountFor(keys[0], rows, existing, used, naming);
    && (!account.existing && naming.slug(rows) in used ==> Suffixed(rows, naming) !in used)
    && FreshSuffixes(keys[1..], clusters, existing, used + if account.existing then {} else {account.id}, naming)
  }

  /** New ids differ from each other and from every id used before. */
  predicate NewIdsFresh(accounts: seq<Account>, used: set<string>) {
    && (forall i | 0 <= i < |accounts| && !accounts[i].existing :: accounts[i].id !in used)
    && (forall i, j | 0 <= i < j < |accounts| && !accounts[i].existing && !accounts[j].existing ::
          accounts[i].id != accounts[j].id)
  }

  lemma NewIdsFreshStep(account: Account, rest: seq<Account>, used: set<string>)
    ensures NewIdsFresh([account] + rest, used) <==>
            if account.existing then NewIdsFresh(rest, used)
            else account.id !in used && NewIdsFresh(rest, used + {account.id})
  {
    var all := [account] + rest;
    assert forall i | 0 <= i < |rest| :: all[i + 1] == rest[i];
    assert all[0] == account;
  }

  /** The new ids are distinct and unused exactly when the suffixes are fresh. */
  lemma {:induction false} NewIdsFreshIffSuffixesFresh(keys: seq<string>, clusters: Clusters, existing: Existing,
                                                       used: set<string>, naming: Naming)
    requires (forall k | k in keys :: k in clusters) && Assign(keys, clusters, existing, used, naming).Some?
    ensures NewIdsFresh(Assign(keys, clusters, existing, used, naming).value, used)
       <==> FreshSuffixes(keys, clusters, existing, used, naming)
    decreases |keys|
  {
    hide Matches;
    hide NewIdsFresh;
    if keys == [] {
      NothingFresh(used);
    } else {
      var account := AccountFor(keys[0], clusters[keys[0]], existing, used, naming);
      var next := used + if account.existing then {} else {account.id};
      NewIdsFreshIffSuffixesFresh(keys[1..], clusters, existing, next, naming);
      NewIdsFreshStep(account, Assign(keys[1..], clusters, existing, next, naming).value, used);
      assert used + {} == used;
    }
  }

  lemma NothingFresh(used: set<string>)
    ensures NewIdsFresh([], used)
  {
  }

  /** The shape of an assignment: one account for each cluster, in order, matched ids from the cluster. */
  ghost predicate AssignedFrom(accounts: seq<Account>, keys: seq<string>, clusters: Clusters, existing: Existing)
    requires forall k | k in keys :: k in clusters
  {
    && |accounts| == |keys|
    && forall i | 0 <= i < |keys| ::
         && accounts[i].root == keys[i]
         && (accounts[i].existing <==> Matches(clusters[keys[i]], existing) != {})
         && (accounts[i].existing ==> accounts[i].id in Matches(clusters[keys[i]], existing))
         && |Matches(clusters[keys[i]], existing)| <= 1
  }

  lemma AccountShape(key: string, rows: seq<Row>, existing: Existing, used: set<string>, naming: Naming)
    ensures var account := AccountFor(key, rows, existing, used, naming);
            && account.root == key
            && (account.existing <==> Matches(rows, existing) != {})
            && (account.existing ==> account.id in Matches(rows, existing))
  {
    hide Matches;
    hide NewId;
  }

  lemma AssignedFirst(account: Account, rest: seq<Account>, keys: seq<string>, clusters: Clusters, existing: Existing)
    requires keys != [] && (forall k | k in keys :: k in clusters) && |Matches(clusters[keys[0]], existing)| <= 1
    requires AssignedFrom(rest, keys[1..], clusters, existing) && account.root == keys[0]
    requires account.existing <==> Matches(clusters[keys[0]], existing) != {}
    requires account.existing ==> account.id in Matches(clusters[keys[0]], existing)
    ensures AssignedFrom([account] + rest, keys, clusters, existing)
  {
    hide Matches;
    var all := [account] + rest;
    assert forall i | 0 < i < |keys| :: all[i] == rest[i - 1] && keys[i] == keys[1..][i - 1];
  }

  lemma NothingAssignedYet(clusters: Clusters, existing: Existing)
    ensures AssignedFrom([], [], clusters, existing)
  {
  }

  lemma {:induction false} AssignShape(keys: seq<string>, clusters: Clusters, existing: Existing, used: set<string>,
                                       naming: Naming)
    requires forall k | k in keys :: k in clusters
    ensures Assign(keys, clusters, existing, used, naming).None?
            <==> exists k | k in keys :: |Matches(clusters[k], existing)| > 1
    ensures Assign(keys, clusters, existing, used, naming).Some? ==>
              AssignedFrom(Assign(keys, clusters, existing, used, naming).value, keys, clusters, existing)
    decreases |keys|
  {
    hide Matches;
    hide AccountFor;
    hide AssignedFrom;
    if keys == [] {
      NothingAssignedYet(clusters, existing);
    } else if |Matches(clusters[keys[0]], existing)| <= 1 {
      var account := AccountFor(keys[0], clusters[keys[0]], existing, used, naming);
      var next := used + if account.existing then {} else {account.id};
      AssignShape(keys[1..], clusters, existing, next, naming);
      assert forall k | k in keys :: k == keys[0] || k in keys[1..];
      var rest := Assign(keys[1..], clusters, existing, next, naming);
      if rest.Some? {
        AccountShape(keys[0], clusters[keys[0]], existing, used, naming);
        AssignedFirst(account, rest.value, keys, clusters, existing);
      }
    }
  }

  /** Whether an earlier new account took an id. */
  predicate TakenBefore(accounts: seq<Account>, i: nat, id: string)
    requires i <= |accounts|
  {
    exists j | 0 <= j < i :: !accounts[j].existing && accounts[j].id == id
  }

  /** A new account is named by the slug of its cluster, and by slug, hyphen and hash suffix exactly when the slug is in
      use already. */
  lemma {:induction false} NewIdIff(keys: seq<string>, clusters: Clusters, existing: Existing, used: set<string>,
                                    naming: Naming, i: nat)
    requires (forall k | k in keys :: k in clusters) && Assign(keys, clusters, existing, used, naming).Some?
    requires i < |keys| == |Assign(keys, clusters, existing, used, naming).value|
    requires !Assign(keys, clusters, existing, used, naming).value[i].existing
    ensures var accounts, rows := Assign(keys, clusters, existing, used, naming).value, clusters[keys[i]];
            var slug := naming.slug(rows);
            accounts[i].id == if slug in used || TakenBefore(accounts, i, slug)
                              then slug + "-" + naming.suffix(DomainsOf(rows)) else slug
    decreases |keys|
  {
    hide Matches;
    hide DomainsOf;
    var account := AccountFor(keys[0], clusters[keys[0]], existing, used, naming);
    var next := used + if account.existing then {} else {account.id};
    var accounts, rest := Assign(keys, clusters, existing, used, naming).value,
                          Assign(keys[1..], clusters, existing, next, naming).value;
    assert accounts == [account] + rest;
    if i > 0 {
      NewIdIff(keys[1..], clusters, existing, next, naming, i - 1);
      var slug := naming.slug(clusters[keys[i]]);
      assert rest[i - 1] == accounts[i] && keys[1..][i - 1] == keys[i];
      TakenShift(account, rest, i, slug);
    }
  }

  lemma TakenShift(account: Account, rest: seq<Account>, i: nat, id: string)
    requires 0 < i <= |rest| + 1
    ensures TakenBefore([account] + rest, i, id)
            <==> (!account.existing && account.id == id) || TakenBefore(rest, i - 1, id)
  {
    var all := [account] + rest;
    if j :| 0 <= j < i && !all[j].existing && all[j].id == id {
      assert j > 0 ==> rest[j - 1] == all[j];
    }
    if j :| 0 <= j < i - 1 && !rest[j].existing && rest[j].id == id {
      assert all[j + 1] == rest[j];
    }
    assert all[0] == account;
  }

  /** No two domains of existing accounts share an account. */
  predicate Injective(existing: Existing) {
    forall a, b | a in existing && b in existing && existing[a] == existing[b] :: a == b
  }

  /** With distinct existing ids and fresh suffixes, no two accounts share an id. */
  lemma AccountIdsDistinct(keys: seq<string>, clusters: Clusters, existing: Existing, used: set<string>,
                           naming: Naming, roots: Labels)
    requires (forall k | k in keys :: k in clusters) && NoRepeats(keys)
    requires forall k, row | k in clusters && row in clusters[k] :: row.domain in roots && roots[row.domain] == k
    requires Injective(existing) && existing.Values <= used
    requires Assign(keys, clusters, existing, used, naming).Some?
             && FreshSuffixes(keys, clusters, existing, used, naming)
    ensures var accounts := Assign(keys, clusters, existing, used, naming).value;
            forall i, j | 0 <= i < j < |accounts| :: accounts[i].id != accounts[j].id
  {
    var accounts := Assign(keys, clusters, existing, used, naming).value;
    AssignShape(keys, clusters, existing, used, naming);
    NewIdsFreshIffSuffixesFresh(keys, clusters, existing, used, naming);
    forall i, j | 0 <= i < j < |accounts| ensures accounts[i].id != accounts[j].id {
      if accounts[i].existing {
        MatchedId(clusters[keys[i]], existing, accounts[i].id, roots, keys[i]);
      }
      if accounts[j].existing {
        MatchedId(clusters[keys[j]], existing, accounts[j].id, roots, keys[j]);
      }
    }
  }

  lemma MatchedId(rows: seq<Row>, existing: Existing, id: string, roots: Labels, key: string)
    requires id in Matches(rows, existing)
    requires forall row | row in rows :: row.domain in roots && roots[row.domain] == key
    ensures id in existing.Values
    ensures exists d | d in existing && d in roots :: existing[d] == id && roots[d] == key
  {
    var d :| d in DomainsOf(rows) && d in existing && existing[d] == id;
  }

  /** Two connected domains belong to different existing accounts. */
  ghost predicate Conflict(domains: set<string>, links: Links, existing: Existing) {
    exists a, b :: a in domains && b in domains && a in existing && b in existing
                   && existing[a] != existing[b] && Connected(links, a, b)
  }

  lemma ClusterRow(clusters: Clusters, rows: seq<Row>, order: seq<string>, roots: Labels, k: string, row: Row)
    requires ClustersFor(clusters, rows, order, roots) && k in clusters
    requires NoRepeats(order) && (forall d :: d in order <==> d in DomainsOf(rows))
    requires row in rows && row.domain in roots && roots[row.domain] == k
    ensures row in clusters[k]
  {
    hide Select;
    hide SelectAll;
    hide NoRepeats;
    var all := ByDomain(rows, order);
    SelectAllConserves(rows, Identity(DomainsOf(rows)), order);
    assert row in multiset(all);
    SelectCount(all, roots, k, row);
    assert row in multiset(clusters[k]);
  }

  lemma ClusterRowsOf(clusters: Clusters, rows: seq<Row>, order: seq<string>, roots: Labels, k: string)
    requires ClustersFor(clusters, rows, order, roots) && k in clusters
    ensures forall row | row in clusters[k] :: row.domain in roots && roots[row.domain] == k
  {
    SelectDomain(ByDomain(rows, order), roots, k);
  }

  /** The domains of a cluster are those of its root. */
  lemma ClusterDomains(clusters: Clusters, rows: seq<Row>, order: seq<string>, roots: Labels, k: string)
    requires ClustersFor(clusters, rows, order, roots) && k in clusters && roots.Keys == DomainsOf(rows)
    requires NoRepeats(order) && (forall d :: d in order <==> d in DomainsOf(rows))
    ensures DomainsOf(clusters[k]) == set d | d in roots && roots[d] == k
  {
    hide ClustersFor;
    hide NoRepeats;
    ClusterRowsOf(clusters, rows, order, roots, k);
    forall d | d in roots && roots[d] == k ensures d in DomainsOf(clusters[k]) {
      var row :| row in rows && row.domain == d;
      ClusterRow(clusters, rows, order, roots, k, row);
    }
  }

  ghost predicate ClustersByRoot(clusters: Clusters, p: Parents)
    requires Forest(p)
  {
    && (forall d | d in p :: Root(p, d) in clusters)
    && forall k | k in clusters :: DomainsOf(clusters[k]) == set d | d in p && Root(p, d) == k
  }

  lemma ClusterKeys(clusters: Clusters, rows: seq<Row>, order: seq<string>, roots: Labels, d: string)
    requires ClustersFor(clusters, rows, order, roots) && d in order && d in roots
    ensures roots[d] in clusters
  {
  }

  lemma RootsOfAt(p: Parents)
    requires Forest(p)
    ensures RootsOf(p).Keys == p.Keys && forall d | d in p :: RootsOf(p)[d] == Root(p, d)
  {
  }

  lemma RootSets(p: Parents, roots: Labels, k: string)
    requires Forest(p) && roots.Keys == p.Keys && forall d | d in p :: roots[d] == Root(p, d)
    ensures (set d | d in roots && roots[d] == k) == set d | d in p && Root(p, d) == k
  {
    hide Root;
    hide Forest;
  }

  lemma ClustersAreByRoot(clusters: Clusters, rows: seq<Row>, order: seq<string>, p: Parents)
    requires Forest(p) && p.Keys == DomainsOf(rows) && ClustersFor(clusters, rows, order, RootsOf(p))
    requires NoRepeats(order) && (forall d :: d in order <==> d in DomainsOf(rows))
    ensures ClustersByRoot(clusters, p)
  {
    hide Root;
    hide Forest;
    hide ClustersFor;
    hide NoRepeats;
    hide DomainsOf;
    hide RootsOf;
    var roots := RootsOf(p);
    RootsOfAt(p);
    forall d | d in p ensures Root(p, d) in clusters {
      ClusterKeys(clusters, rows, order, roots, d);
    }
    forall k | k in clusters ensures DomainsOf(clusters[k]) == set d | d in p && Root(p, d) == k {
      ClusterDomains(clusters, rows, order, roots, k);
      RootSets(p, roots, k);
    }
  }

  lemma ManyMatches(rows: seq<Row>, existing: Existing)
    ensures |Matches(rows, existing)| > 1 <==>
            exists a, b :: a in DomainsOf(rows) && b in DomainsOf(rows)
                           && a in existing && b in existing && existing[a] != existing[b]
  {
    ManyMeansTwo(Matches(rows, existing));
    if x, y :| x in Matches(rows, existing) && y in Matches(rows, existing) && x != y {
      var a :| a in DomainsOf(rows) && a in existing && existing[a] == x;
      var b :| b in DomainsOf(rows) && b in existing && existing[b] == y;
    }
    if a, b :| a in DomainsOf(rows) && b in DomainsOf(rows)
               && a in existing && b in existing && existing[a] != existing[b]
    {
      assert existing[a] in Matches(rows, existing) && existing[b] in Matches(rows, existing);
    }
  }

  /** A cluster's domains are exactly those connected to any of them. */
  lemma ClusterIsComponent(clusters: Clusters, p: Parents, links: Links, k: string, a: string, b: string)
    requires Represents(p, links) && ClustersByRoot(clusters, p) && k in clusters && a in DomainsOf(clusters[k])
    ensures a in p && (b in DomainsOf(clusters[k]) <==> b in p && Connected(links, a, b))
  {
    hide Root;
    hide Forest;
    hide Connected;
    hide DomainsOf;
    if b in p {
      assert Root(p, a) == Root(p, b) <==> Connected(links, a, b);
    }
  }

  lemma RootCluster(p: Parents, clusters: Clusters, d: string)
    requires Forest(p) && ClustersByRoot(clusters, p) && d in p
    ensures Root(p, d) in clusters && d in DomainsOf(clusters[Root(p, d)])
  {
    hide Root;
    hide Forest;
    hide DomainsOf;
  }

  /** A build is rejected for a cluster with two existing ids exactly when a chain of unambiguous groups
      connects domains of different existing accounts. */
  lemma RejectedIffConflict(clusters: Clusters, p: Parents, links: Links, existing: Existing)
    requires Represents(p, links) && ClustersByRoot(clusters, p)
    ensures (exists k | k in clusters :: |Matches(clusters[k], existing)| > 1) <==> Conflict(p.Keys, links, existing)
  {
    hide Root;
    hide Connected;
    hide Matches;
    hide DomainsOf;
    hide ClustersByRoot;
    hide Forest;
    if k :| k in clusters && |Matches(clusters[k], existing)| > 1 {
      ManyMatches(clusters[k], existing);
      var a, b :| a in DomainsOf(clusters[k]) && b in DomainsOf(clusters[k]) && a in existing && b in existing
                  && existing[a] != existing[b];
      ClusterIsComponent(clusters, p, links, k, a, b);
    }
    if Conflict(p.Keys, links, existing) {
      var a, b :| a in p && b in p && a in existing && b in existing
                  && existing[a] != existing[b] && Connected(links, a, b);
      RootCluster(p, clusters, a);
      ClusterIsComponent(clusters, p, links, Root(p, a), a, b);
      ManyMatches(clusters[Root(p, a)], existing);
    }
  }

  // ---- The audit ---------------------------------------------------------------------------------

  datatype Entry = Entry(row: Row, account: string)

  function EntriesFor(rows: seq<Row>, account: string): seq<Entry> {
    if rows == [] then [] else [Entry(rows[0], account)] + EntriesFor(rows[1..], account)
  }

  function Audited(audit: seq<Entry>): seq<Row> {
    if audit == [] then [] else [audit[0].row] + Audited(audit[1..])
  }

  lemma {:induction false} AuditedConcat(a: seq<Entry>, b: seq<Entry>)
    ensures Audited(a + b) == Audited(a) + Audited(b)
  {
    if a == [] {
      assert a + b == b;
    } else {
      assert (a + b)[1..] == a[1..] + b;
      AuditedConcat(a[1..], b);
    }
  }

  lemma {:induction false} AuditedEntries(rows: seq<Row>, account: string)
    ensures Audited(EntriesFor(rows, account)) == rows
    ensures forall e | e in EntriesFor(rows, account) :: e.account == account && e.row in rows
  {
    if rows != [] {
      AuditedEntries(rows[1..], account);
    }
  }

  // ---- Facilities --------------------------------------------------------------------------------

  datatype FacilityKey = FacilityKey(account: string, place: Place)

  type Facilities = map<FacilityKey, set<string>>

  /** The references of the rows at one place of one account. */
  function ReferencesAt(rows: seq<Row>, ids: Labels, key: FacilityKey): set<string> {
    set row | row in rows && row.place.At? && row.domain in ids && FacilityKey(ids[row.domain], row.place) == key ::
      row.reference
  }

  function ExcludedOf(rows: seq<Row>): seq<string> {
    if rows == [] then []
    else (if rows[0].place.NoCoordinates? then [rows[0].reference] else []) + ExcludedOf(rows[1..])
  }

  predicate UsablePlaces(rows: seq<Row>) { forall row | row in rows :: row.place.At? || row.place.NoCoordinates? }

  ghost predicate FacilitiesFor(facilities: Facilities, rows: seq<Row>, ids: Labels) {
    forall key :: (key in facilities <==> ReferencesAt(rows, ids, key) != {})
               && (key in facilities ==> facilities[key] == ReferencesAt(rows, ids, key))
  }

  lemma ReferencesSnoc(rows: seq<Row>, row: Row, ids: Labels, key: FacilityKey)
    requires row.domain in ids
    ensures ReferencesAt(rows + [row], ids, key)
         == ReferencesAt(rows, ids, key)
            + if row.place.At? && FacilityKey(ids[row.domain], row.place) == key then {row.reference} else {}
  {
  }

  lemma {:induction false} ExcludedSnoc(rows: seq<Row>, row: Row)
    ensures ExcludedOf(rows + [row]) == ExcludedOf(rows) + if row.place.NoCoordinates? then [row.reference] else []
  {
    if rows == [] {
      assert ([] + [row])[1..] == [];
    } else {
      assert (rows + [row])[1..] == rows[1..] + [row];
      ExcludedSnoc(rows[1..], row);
    }
  }

  lemma FacilitiesSkip(facilities: Facilities, rows: seq<Row>, ids: Labels, row: Row)
    requires FacilitiesFor(facilities, rows, ids) && row.domain in ids && !row.place.At?
    ensures FacilitiesFor(facilities, rows + [row], ids)
  {
    hide ReferencesAt;
    forall key ensures ReferencesAt(rows + [row], ids, key) == ReferencesAt(rows, ids, key) {
      ReferencesSnoc(rows, row, ids, key);
    }
  }

  lemma FacilitiesAdd(facilities: Facilities, rows: seq<Row>, ids: Labels, row: Row)
    requires FacilitiesFor(facilities, rows, ids) && row.domain in ids && row.place.At?
    ensures var key := FacilityKey(ids[row.domain], row.place);
            var known := if key in facilities then facilities[key] else {};
            FacilitiesFor(facilities[key := known + {row.reference}], rows + [row], ids)
  {
    hide ReferencesAt;
    forall key ensures ReferencesAt(rows + [row], ids, key)
        == ReferencesAt(rows, ids, key)
           + if FacilityKey(ids[row.domain], row.place) == key then {row.reference} else {}
    {
      ReferencesSnoc(rows, row, ids, key);
    }
  }

  lemma NoFacilities(ids: Labels)
    ensures FacilitiesFor(map[], [], ids)
  {
  }

  /** Merges located rows into facilities; stops at the first unusable coordinates. */
  method MergeFacilities(rows: seq<Row>, ids: Labels) returns (ok: bool, facilities: Facilities, excluded: seq<string>)
    requires DomainsOf(rows) <= ids.Keys
    ensures ok <==> UsablePlaces(rows)
    ensures ok ==> FacilitiesFor(facilities, rows, ids) && excluded == ExcludedOf(rows)
  {
    hide FacilitiesFor;
    hide ExcludedOf;
    facilities, excluded := map[], [];
    NoFacilities(ids);
    NothingExcluded();
    var i := 0;
    while i < |rows|
      invariant 0 <= i <= |rows|
      invariant UsablePlaces(rows[..i]) && FacilitiesFor(facilities, rows[..i], ids)
                && excluded == ExcludedOf(rows[..i])
    {
      var row := rows[i];
      assert row in rows && row.domain in DomainsOf(rows);
      assert rows[..i + 1] == rows[..i] + [row];
      ExcludedSnoc(rows[..i], row);
      match row.place {
        case NoCoordinates =>
          FacilitiesSkip(facilities, rows[..i], ids, row);
          excluded := excluded + [row.reference];
        case At(_, _, _, _) =>
          FacilitiesAdd(facilities, rows[..i], ids, row);
          var key := FacilityKey(ids[row.domain], row.place);
          facilities := facilities[key := (if key in facilities then facilities[key] else {}) + {row.reference}];
          assert excluded + [] == excluded;
        case _ =>
          ok := false;
          return;
      }
      i := i + 1;
    }
    assert rows[..i] == rows;
    ok := true;
  }

  lemma NothingExcluded()
    ensures ExcludedOf([]) == []
  {
  }

  predicate DistinctReferences(rows: seq<Row>) {
    forall i, j | 0 <= i < j < |rows| :: rows[i].reference != rows[j].reference
  }

  /** Every row is either excluded or referenced by exactly one facility, which is its own account's. */
  lemma RowInOneFacility(facilities: Facilities, rows: seq<Row>, ids: Labels, row: Row)
    requires FacilitiesFor(facilities, rows, ids) && UsablePlaces(rows) && DistinctReferences(rows)
    requires DomainsOf(rows) <= ids.Keys && row in rows
    ensures row.reference in ExcludedOf(rows) <==> row.place.NoCoordinates?
    ensures forall key | key in facilities ::
              row.reference in facilities[key] <==> row.place.At? && key == FacilityKey(ids[row.domain], row.place)
    ensures row.place.At? ==> FacilityKey(ids[row.domain], row.place) in facilities
  {
    assert row.domain in DomainsOf(rows);
    ExcludedReferences(rows);
    if row.place.At? {
      assert row.reference in ReferencesAt(rows, ids, FacilityKey(ids[row.domain], row.place));
    }
    forall other | other in rows && other.reference == row.reference ensures other == row {
      var i :| 0 <= i < |rows| && rows[i] == row;
      var j :| 0 <= j < |rows| && rows[j] == other;
    }
  }

  lemma {:induction false} ExcludedReferences(rows: seq<Row>)
    ensures forall r :: r in ExcludedOf(rows)
                        <==> exists row | row in rows :: row.place.NoCoordinates? && row.reference == r
  {
    if rows != [] {
      ExcludedReferences(rows[1..]);
      assert rows == [rows[0]] + rows[1..];
    }
  }
}
