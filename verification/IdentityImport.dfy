/** The build as it runs: dictionaries filled in loops, identifiers assigned cluster by cluster. */
module IdentityImport {
  import opened Text
  import opened Ordering
  import opened UnionFind
  import opened IdentityLinks
  import opened IdentityRows
  import opened IdentityBuild
  import opened IdentityAccounts

  // ---- Assigning accounts ------------------------------------------------------------------------

  function RowsOfAccounts(accounts: seq<Account>, clusters: Clusters): seq<Row>
    requires forall a | a in accounts :: a.root in clusters
  {
    if accounts == [] then [] else clusters[accounts[0].root] + RowsOfAccounts(accounts[1..], clusters)
  }

  lemma {:induction false} RowsOfAccountsSnoc(accounts: seq<Account>, clusters: Clusters, a: Account)
    requires (forall b | b in accounts :: b.root in clusters) && a.root in clusters
    ensures RowsOfAccounts(accounts + [a], clusters) == RowsOfAccounts(accounts, clusters) + clusters[a.root]
  {
    if accounts == [] {
      assert ([] + [a])[1..] == [];
    } else {
      assert (accounts + [a])[1..] == accounts[1..] + [a];
      RowsOfAccountsSnoc(accounts[1..], clusters, a);
    }
  }

  /** No domain has rows in two clusters. */
  predicate Disjoint(clusters: Clusters) {
    forall k, l | k in clusters && l in clusters && k != l :: DomainsOf(clusters[k]) !! DomainsOf(clusters[l])
  }

  /** The identifiers given so far are those of the accounts' domains. */
  predicate IdsFor(ids: Labels, accounts: seq<Account>, clusters: Clusters) {
    && (forall a | a in accounts :: a.root in clusters)
    && (forall a | a in accounts :: forall d | d in DomainsOf(clusters[a.root]) :: d in ids && ids[d] == a.id)
    && (forall d | d in ids :: exists a | a in accounts :: d in DomainsOf(clusters[a.root]))
  }

  /** The audit so far has one entry for each row of the accounts' clusters, with the row's identifier. */
  predicate AuditFor(audit: seq<Entry>, ids: Labels, accounts: seq<Account>, clusters: Clusters)
    requires forall a | a in accounts :: a.root in clusters
  {
    && Audited(audit) == RowsOfAccounts(accounts, clusters)
    && forall e | e in audit :: e.row.domain in ids && e.account == ids[e.row.domain]
  }

  function AddIds(ids: Labels, domains: set<string>, id: string): Labels {
    ids + map d | d in domains :: id
  }

  lemma IdsAdded(ids: Labels, accounts: seq<Account>, clusters: Clusters, a: Account)
    requires Disjoint(clusters) && IdsFor(ids, accounts, clusters)
    requires a.root in clusters && forall b | b in accounts :: b.root != a.root
    ensures var domains := DomainsOf(clusters[a.root]);
            && IdsFor(AddIds(ids, domains, a.id), accounts + [a], clusters)
            && forall d | d in ids :: d !in domains && AddIds(ids, domains, a.id)[d] == ids[d]
  {
    hide DomainsOf;
    var more := AddIds(ids, DomainsOf(clusters[a.root]), a.id);
    var all := accounts + [a];
    forall d | d in ids ensures d !in DomainsOf(clusters[a.root]) && more[d] == ids[d] {
      var b :| b in accounts && d in DomainsOf(clusters[b.root]);
    }
    forall d | d in more ensures exists b | b in all :: d in DomainsOf(clusters[b.root]) {
      if d in ids {
        var b :| b in accounts && d in DomainsOf(clusters[b.root]);
        assert b in all;
      } else {
        assert a in all && d in DomainsOf(clusters[a.root]);
      }
    }
  }

  lemma AuditAdded(ids: Labels, more: Labels, audit: seq<Entry>, accounts: seq<Account>, clusters: Clusters, a: Account)
    requires (forall b | b in accounts + [a] :: b.root in clusters) && AuditFor(audit, ids, accounts, clusters)
    requires forall d | d in ids :: d in more && more[d] == ids[d]
    requires forall d | d in DomainsOf(clusters[a.root]) :: d in more && more[d] == a.id
    ensures AuditFor(audit + EntriesFor(clusters[a.root], a.id), more, accounts + [a], clusters)
  {
    var rows := clusters[a.root];
    RowsOfAccountsSnoc(accounts, clusters, a);
    AuditedConcat(audit, EntriesFor(rows, a.id));
    AuditedEntries(rows, a.id);
    forall e | e in audit + EntriesFor(rows, a.id) ensures e.row.domain in more && e.account == more[e.row.domain] {
      if e in EntriesFor(rows, a.id) {
        assert e.row.domain in DomainsOf(rows);
      }
    }
  }

  lemma AccountAdded(ids: Labels, audit: seq<Entry>, accounts: seq<Account>, clusters: Clusters, a: Account)
    requires Disjoint(clusters) && IdsFor(ids, accounts, clusters) && AuditFor(audit, ids, accounts, clusters)
    requires a.root in clusters && forall b | b in accounts :: b.root != a.root
    ensures var rows := clusters[a.root];
            && IdsFor(AddIds(ids, DomainsOf(rows), a.id), accounts + [a], clusters)
            && AuditFor(audit + EntriesFor(rows, a.id), AddIds(ids, DomainsOf(rows), a.id), accounts + [a], clusters)
  {
    hide DomainsOf;
    hide Disjoint;
    hide AuditFor;
    IdsAdded(ids, accounts, clusters, a);
    AuditAdded(ids, AddIds(ids, DomainsOf(clusters[a.root]), a.id), audit, accounts, clusters, a);
  }

  /** What remains to be assigned completes what has been assigned. */
  ghost predicate Assigning(total: Option<seq<Account>>, accounts: seq<Account>, rest: Option<seq<Account>>) {
    match rest case None => total.None? case Some(more) => total == Some(accounts + more)
  }

  /** The next account of an assignment in key order. */
  ghost function NextAccount(left: set<string>, clusters: Clusters, existing: Existing, used: set<string>,
                             naming: Naming): Account
    requires left != {} && left <= clusters.Keys
  {
    AccountFor(Minimum(left), clusters[Minimum(left)], existing, used, naming)
  }

  lemma AssignNext(total: Option<seq<Account>>, accounts: seq<Account>, left: set<string>, clusters: Clusters,
                   existing: Existing, used: set<string>, naming: Naming)
    requires left != {} && left <= clusters.Keys
    requires Assigning(total, accounts, Assign(Sorted(left), clusters, existing, used, naming))
    ensures |Matches(clusters[Minimum(left)], existing)| > 1 ==> total.None?
    ensures var a := NextAccount(left, clusters, existing, used, naming);
            var next := if a.existing then used else used + {a.id};
            |Matches(clusters[Minimum(left)], existing)| <= 1 ==>
              Assigning(total, accounts + [a], Assign(Sorted(left - {Minimum(left)}), clusters, existing, next, naming))
  {
    hide Matches;
    hide AccountFor;
    var m := Minimum(left);
    assert Sorted(left) == [m] + Sorted(left - {m});
    assert Sorted(left)[1..] == Sorted(left - {m});
    var a := NextAccount(left, clusters, existing, used, naming);
    assert used + {} == used;
    var rest := Assign(Sorted(left - {m}), clusters, existing, if a.existing then used else used + {a.id}, naming);
    if rest.Some? {
      assert accounts + ([a] + rest.value) == accounts + [a] + rest.value;
    }
  }

  /** The identifier of one cluster, and the identifiers in use afterwards. */
  method NameCluster(left: set<string>, root: string, clusters: Clusters, existing: Existing, used: set<string>,
                     naming: Naming)
    returns (account: Account, next: set<string>)
    requires left != {} && left <= clusters.Keys && root == Minimum(left)
    requires |Matches(clusters[root], existing)| <= 1
    ensures account == NextAccount(left, clusters, existing, used, naming)
    ensures next == if account.existing then used else used + {account.id}
    ensures account.root == root
  {
    var rows := clusters[root];
    var matches := Matches(rows, existing);
    if matches != {} {
      var id :| id in matches;
      OnlyMatch(matches, id, NextAccount(left, clusters, existing, used, naming).id);
      account, next := Account(id, root, true), used;
    } else {
      account := Account(NewId(rows, used, naming), root, false);
      next := used + {account.id};
    }
  }

  method AssignAccounts(clusters: Clusters, existing: Existing, taken: set<string>, naming: Naming)
    returns (ok: bool, accounts: seq<Account>, audit: seq<Entry>, ids: Labels)
    requires Disjoint(clusters)
    ensures Assign(Sorted(clusters.Keys), clusters, existing, taken, naming) == if ok then Some(accounts) else None
    ensures ok ==> IdsFor(ids, accounts, clusters) && AuditFor(audit, ids, accounts, clusters)
  {
    hide IdsFor;
    hide Disjoint;
    hide Matches;
    hide Assign;
    hide NextAccount;
    hide AuditFor;
    hide Sorted;
    ghost var total := Assign(Sorted(clusters.Keys), clusters, existing, taken, naming);
    accounts, audit, ids := [], [], map[];
    var used, left := taken, clusters.Keys;
    NothingAssigned(clusters);
    assert total.Some? ==> [] + total.value == total.value;
    while left != {}
      invariant left <= clusters.Keys
      invariant forall a | a in accounts :: a.root in clusters && a.root !in left
      invariant Assigning(total, accounts, Assign(Sorted(left), clusters, existing, used, naming))
      invariant IdsFor(ids, accounts, clusters) && AuditFor(audit, ids, accounts, clusters)
      decreases |left|
    {
      var root := Least(left);
      AssignNext(total, accounts, left, clusters, existing, used, naming);
      if |Matches(clusters[root], existing)| > 1 {
        ok := false;
        return;
      }
      var account;
      account, used := NameCluster(left, root, clusters, existing, used, naming);
      AccountAdded(ids, audit, accounts, clusters, account);
      ids := AddIds(ids, DomainsOf(clusters[root]), account.id);
      audit := audit + EntriesFor(clusters[root], account.id);
      accounts := accounts + [account];
      left := left - {root};
    }
    NothingLeft(clusters, existing, used, naming);
    assert accounts + [] == accounts;
    ok := true;
  }

  lemma NothingLeft(clusters: Clusters, existing: Existing, used: set<string>, naming: Naming)
    ensures Assign(Sorted({}), clusters, existing, used, naming) == Some([])
  {
  }

  lemma NothingAssigned(clusters: Clusters)
    ensures IdsFor(map[], [], clusters) && AuditFor([], map[], [], clusters)
  {
  }

  lemma OnlyMatch(matches: set<string>, a: string, b: string)
    requires |matches| <= 1 && a in matches && b in matches
    ensures a == b
  {
    ManyMeansTwo(matches);
  }

  // ---- The whole build ---------------------------------------------------------------------------

  datatype Built =
    | Accepted(accounts: seq<Account>, audit: seq<Entry>, facilities: Facilities, excluded: seq<string>)
    | MissingWebsite
    | TwoCustomers
    | BadCoordinates

  predicate HasWebsites(rows: seq<Row>) { forall row | row in rows :: row.domain != "" }

  /** What an accepted build contains: each row once in the audit with the identifier of its domain,
      connected domains under one identifier, existing customers under their own, and the rows' places. */
  ghost predicate Complete(rows: seq<Row>, existing: Existing, built: Built, ids: Labels)
    requires built.Accepted?
  {
    && ids.Keys == DomainsOf(rows)
    && multiset(Audited(built.audit)) == multiset(rows)
    && (forall e | e in built.audit :: e.row.domain in ids && e.account == ids[e.row.domain])
    && (forall a, b | a in ids && b in ids && Connected(RowLinks(rows, existing), a, b) :: ids[a] == ids[b])
    && (forall d | d in ids && d in existing :: ids[d] == existing[d])
    && FacilitiesFor(built.facilities, rows, ids) && built.excluded == ExcludedOf(rows)
  }

  lemma SortedKeysOfClusters(clusters: Clusters)
    ensures NoRepeats(Sorted(clusters.Keys))
  {
    var keys := Sorted(clusters.Keys);
    forall i, j | 0 <= i < j < |keys| ensures keys[i] != keys[j] {
      LessIrreflexive(keys[i]);
      assert Less(keys[i], keys[j]);
    }
  }

  lemma {:induction false} AccountsSelectAll(accounts: seq<Account>, keys: seq<string>, clusters: Clusters,
                                             rows: seq<Row>, order: seq<string>, roots: Labels)
    requires ClustersFor(clusters, rows, order, roots) && |accounts| == |keys|
    requires forall i | 0 <= i < |keys| :: accounts[i].root == keys[i] && keys[i] in clusters
    ensures forall a | a in accounts :: a.root in clusters
    ensures RowsOfAccounts(accounts, clusters) == SelectAll(ByDomain(rows, order), roots, keys)
    decreases |keys|
  {
    if keys != [] {
      AccountsSelectAll(accounts[1..], keys[1..], clusters, rows, order, roots);
    }
  }

  lemma ClustersDisjoint(clusters: Clusters, p: Parents)
    requires Forest(p) && ClustersByRoot(clusters, p)
    ensures Disjoint(clusters)
  {
    hide Root;
    hide Forest;
    hide DomainsOf;
  }

  lemma AuditConserves(rows: seq<Row>, order: seq<string>, p: Parents, clusters: Clusters, existing: Existing,
                       taken: set<string>, naming: Naming, accounts: seq<Account>, audit: seq<Entry>, ids: Labels)
    requires Forest(p) && p.Keys == DomainsOf(rows) && ClustersFor(clusters, rows, order, RootsOf(p))
    requires NoRepeats(order) && (forall d :: d in order <==> d in DomainsOf(rows))
    requires Assign(Sorted(clusters.Keys), clusters, existing, taken, naming) == Some(accounts)
    requires IdsFor(ids, accounts, clusters) && AuditFor(audit, ids, accounts, clusters)
    ensures multiset(Audited(audit)) == multiset(rows)
  {
    hide Assign;
    hide IdsFor;
    hide Forest;
    hide ClustersFor;
    var keys := Sorted(clusters.Keys);
    SortedKeysOfClusters(clusters);
    AssignShape(keys, clusters, existing, taken, naming);
    AccountsSelectAll(accounts, keys, clusters, rows, order, RootsOf(p));
    ClustersConserve(clusters, rows, order, RootsOf(p), keys);
  }

  lemma AccountOfKey(accounts: seq<Account>, keys: seq<string>, clusters: Clusters, existing: Existing,
                     k: string)
    returns (a: Account)
    requires (forall l | l in keys :: l in clusters) && AssignedFrom(accounts, keys, clusters, existing) && k in keys
    ensures a in accounts && a.root == k && |Matches(clusters[k], existing)| <= 1
    ensures Matches(clusters[k], existing) != {} ==> a.id in Matches(clusters[k], existing)
  {
    hide Matches;
    var i :| 0 <= i < |keys| && keys[i] == k;
    a := accounts[i];
  }

  lemma IdFromAccount(ids: Labels, accounts: seq<Account>, clusters: Clusters, a: Account, d: string)
    requires IdsFor(ids, accounts, clusters) && a in accounts && d in DomainsOf(clusters[a.root])
    ensures d in ids && ids[d] == a.id
  {
    hide DomainsOf;
  }

  /** Every domain's identifier is that of the account of its cluster. */
  lemma IdOfDomain(p: Parents, clusters: Clusters, existing: Existing, keys: seq<string>, accounts: seq<Account>,
                   ids: Labels, d: string)
    returns (a: Account)
    requires Forest(p) && ClustersByRoot(clusters, p) && (forall k :: k in keys <==> k in clusters)
    requires AssignedFrom(accounts, keys, clusters, existing) && IdsFor(ids, accounts, clusters)
    requires d in p
    ensures a in accounts && a.root == Root(p, d)
    ensures d in ids && ids[d] == a.id
    ensures d in existing ==> ids[d] == existing[d]
  {
    hide Root;
    hide Forest;
    hide DomainsOf;
    hide ExistingIds;
    hide AssignedFrom;
    hide ClustersByRoot;
    hide IdsFor;
    RootCluster(p, clusters, d);
    a := AccountOfKey(accounts, keys, clusters, existing, Root(p, d));
    IdFromAccount(ids, accounts, clusters, a, d);
    if d in existing {
      MatchesContain(clusters[Root(p, d)], existing, d);
      OnlyMatch(Matches(clusters[Root(p, d)], existing), a.id, existing[d]);
    }
  }

  lemma MatchesContain(rows: seq<Row>, existing: Existing, d: string)
    requires d in DomainsOf(rows) && d in existing
    ensures existing[d] in Matches(rows, existing)
  {
  }

  lemma UniqueAccount(accounts: seq<Account>, keys: seq<string>, clusters: Clusters, existing: Existing, a: Account,
                      b: Account)
    requires (forall k | k in keys :: k in clusters) && AssignedFrom(accounts, keys, clusters, existing)
             && NoRepeats(keys)
    requires a in accounts && b in accounts && a.root == b.root
    ensures a == b
  {
    hide Matches;
    var i :| 0 <= i < |accounts| && accounts[i] == a;
    var j :| 0 <= j < |accounts| && accounts[j] == b;
    assert keys[i] == keys[j];
  }

  /** Connected domains have one identifier and existing customers keep theirs. */
  lemma IdsRespectLinks(p: Parents, links: Links, clusters: Clusters, existing: Existing, taken: set<string>,
                        naming: Naming, accounts: seq<Account>, ids: Labels)
    requires Represents(p, links) && ClustersByRoot(clusters, p)
    requires Assign(Sorted(clusters.Keys), clusters, existing, taken, naming) == Some(accounts)
             && IdsFor(ids, accounts, clusters)
    ensures ids.Keys == p.Keys
    ensures forall a, b | a in ids && b in ids && Connected(links, a, b) :: ids[a] == ids[b]
    ensures forall d | d in ids && d in existing :: ids[d] == existing[d]
  {
    hide Root;
    hide Assign;
    hide Connected;
    hide IdsFor;
    hide AssignedFrom;
    hide ClustersByRoot;
    hide Forest;
    hide NoRepeats;
    var keys := Sorted(clusters.Keys);
    SortedKeysOfClusters(clusters);
    AssignShape(keys, clusters, existing, taken, naming);
    forall d | d in p ensures d in ids && (d in existing ==> ids[d] == existing[d]) {
      var _ := IdOfDomain(p, clusters, existing, keys, accounts, ids, d);
    }
    IdsWithinForest(p, clusters, accounts, ids);
    forall a, b | a in ids && b in ids && Connected(links, a, b) ensures ids[a] == ids[b] {
      assert Root(p, a) == Root(p, b);
      var x := IdOfDomain(p, clusters, existing, keys, accounts, ids, a);
      var y := IdOfDomain(p, clusters, existing, keys, accounts, ids, b);
      UniqueAccount(accounts, keys, clusters, existing, x, y);
    }
  }

  lemma IdsWithinForest(p: Parents, clusters: Clusters, accounts: seq<Account>, ids: Labels)
    requires Forest(p) && ClustersByRoot(clusters, p) && IdsFor(ids, accounts, clusters)
    ensures forall d | d in ids :: d in p
  {
    hide Root;
    hide Forest;
    hide DomainsOf;
    forall d | d in ids ensures d in p {
      var a :| a in accounts && d in DomainsOf(clusters[a.root]);
    }
  }

  /** Rows that name at most one parent company are never rejected for two customers. */
  lemma OneParentNoConflict(rows: seq<Row>, existing: Existing)
    requires OneParent(rows)
    ensures !Conflict(DomainsOf(rows), RowLinks(rows, existing), existing)
  {
    hide Connected;
    hide RowLinks;
    hide OneParent;
    if Conflict(DomainsOf(rows), RowLinks(rows, existing), existing) {
      var a, b :| a in existing && b in existing && existing[a] != existing[b]
                  && Connected(RowLinks(rows, existing), a, b);
      OneParentOneCustomer(rows, existing, a, b);
    }
  }

  lemma AuditIds(audit: seq<Entry>, ids: Labels, accounts: seq<Account>, clusters: Clusters)
    requires IdsFor(ids, accounts, clusters) && AuditFor(audit, ids, accounts, clusters)
    ensures forall e | e in audit :: e.row.domain in ids && e.account == ids[e.row.domain]
  {
  }

  /** The parent structure of the rows' domains once all unambiguous groups are united. */
  method JoinDomains(rows: seq<Row>, domains: set<string>, existing: Existing) returns (parents: DomainParents)
    requires domains == DomainsOf(rows)
    ensures fresh(parents) && Forest(parents.parent) && parents.parent.Keys == domains
    ensures Represents(parents.parent, RowLinks(rows, existing))
  {
    hide Represents;
    hide Forest;
    hide RowLinks;
    var named := CollectParents(rows);
    var groups := ListGroups(named, rows);
    GroupLinks(groups, rows, existing);
    parents := new DomainParents(domains);
    var _ := UniteGroups(parents, groups, existing);
    RepresentsForest(parents.parent, RowLinks(rows, existing));
  }

  lemma RepresentsForest(p: Parents, links: Links)
    requires Represents(p, links)
    ensures Forest(p)
  {
  }

  /** `build` after the workbooks are read. The dictionaries are visited in any order; `taken` holds the
      identifiers of all existing accounts. */
  method Build(rows: seq<Row>, existing: Existing, taken: set<string>, naming: Naming)
    returns (built: Built, ids: Labels, ghost clusters: Clusters, ghost forest: Parents)
    ensures built.MissingWebsite? <==> !HasWebsites(rows)
    ensures HasWebsites(rows) ==>
      (built.TwoCustomers? <==> Conflict(DomainsOf(rows), RowLinks(rows, existing), existing))
    ensures OneParent(rows) ==> !built.TwoCustomers?
    ensures HasWebsites(rows) && !Conflict(DomainsOf(rows), RowLinks(rows, existing), existing) ==>
      (built.BadCoordinates? <==> !UsablePlaces(rows))
    ensures built.Accepted? ==> Complete(rows, existing, built, ids)
    ensures built.Accepted? ==>
      && Represents(forest, RowLinks(rows, existing)) && ClustersByRoot(clusters, forest)
      && forest.Keys == DomainsOf(rows)
      && Assign(Sorted(clusters.Keys), clusters, existing, taken, naming) == Some(built.accounts)
      && IdsFor(ids, built.accounts, clusters)
  {
    hide Represents;
    hide Forest;
    hide Assign;
    hide IdsFor;
    hide ClustersFor;
    hide ClustersByRoot;
    hide SameRoots;
    hide Conflict;
    hide RowLinks;
    hide UsablePlaces;
    hide FacilitiesFor;
    hide AssignedFrom;
    hide AuditFor;
    hide Disjoint;
    hide Matches;
    hide DomainsOf;
    hide Identity;
    hide Select;
    hide Sorted;
    hide RootsOf;
    hide NoRepeats;
    hide Audited;
    hide Connected;
    hide OneParent;
    if OneParent(rows) {
      OneParentNoConflict(rows, existing);
    }
    clusters, forest, ids := map[], map[], map[];
    if exists row | row in rows :: row.domain == "" {
      built := MissingWebsite;
      return;
    }
    var order, grouped := GroupByDomain(rows);
    var parents := JoinDomains(rows, grouped.Keys, existing);
    forest := parents.parent;
    var clustered := ClusterRows(parents, order, grouped, rows);
    clusters := clustered;
    ClustersAreByRoot(clusters, rows, order, forest);
    ClustersDisjoint(clusters, forest);
    RejectedIffConflict(clusters, forest, RowLinks(rows, existing), existing);
    var ok, accounts, audit, domainIds := AssignAccounts(clustered, existing, taken, naming);
    AssignShape(Sorted(clusters.Keys), clusters, existing, taken, naming);
    ids := domainIds;
    if !ok {
      built := TwoCustomers;
      return;
    }
    IdsRespectLinks(forest, RowLinks(rows, existing), clusters, existing, taken, naming, accounts, ids);
    AuditConserves(rows, order, forest, clusters, existing, taken, naming, accounts, audit, ids);
    AuditIds(audit, ids, accounts, clusters);
    var usable, facilities, excluded := MergeFacilities(rows, ids);
    built := if usable then Accepted(accounts, audit, facilities, excluded) else BadCoordinates;
  }

  lemma ClusterRoots(p: Parents, clusters: Clusters)
    requires Forest(p) && ClustersByRoot(clusters, p)
    ensures forall k, row | k in clusters && row in clusters[k] ::
              row.domain in RootsOf(p) && RootsOf(p)[row.domain] == k
  {
    hide Root;
    hide Forest;
    forall k, row | k in clusters && row in clusters[k]
      ensures row.domain in RootsOf(p) && RootsOf(p)[row.domain] == k
    {
      assert row.domain in DomainsOf(clusters[k]);
    }
  }

  /** In an accepted build whose existing ids are distinct and whose suffixes are fresh, no two accounts
      share an identifier. */
  lemma BuiltIdsDistinct(p: Parents, clusters: Clusters, existing: Existing, taken: set<string>, naming: Naming,
                         accounts: seq<Account>)
    requires Forest(p) && ClustersByRoot(clusters, p)
    requires Assign(Sorted(clusters.Keys), clusters, existing, taken, naming) == Some(accounts)
    requires Injective(existing) && existing.Values <= taken
    requires FreshSuffixes(Sorted(clusters.Keys), clusters, existing, taken, naming)
    ensures forall i, j | 0 <= i < j < |accounts| :: accounts[i].id != accounts[j].id
  {
    hide Root;
    hide Forest;
    hide Assign;
    hide FreshSuffixes;
    hide Injective;
    hide NoRepeats;
    hide Sorted;
    hide RootsOf;
    hide ClustersByRoot;
    hide StrictlyIncreasing;
    var roots := RootsOf(p);
    SortedKeysOfClusters(clusters);
    ClusterRoots(p, clusters);
    AccountIdsDistinct(Sorted(clusters.Keys), clusters, existing, taken, naming, roots);
  }

  lemma SameIdSameAccount(accounts: seq<Account>, a: Account, b: Account)
    requires a in accounts && b in accounts && a.id == b.id
    requires forall i, j | 0 <= i < j < |accounts| :: accounts[i].id != accounts[j].id
    ensures a == b
  {
    var i :| 0 <= i < |accounts| && accounts[i] == a;
    var j :| 0 <= j < |accounts| && accounts[j] == b;
  }

  /** In such a build two domains get one identifier exactly when parent companies that are not ambiguous connect
      them. */
  lemma SameIdIffConnected(p: Parents, links: Links, clusters: Clusters, existing: Existing, taken: set<string>,
                           naming: Naming, accounts: seq<Account>, ids: Labels, a: string, b: string)
    requires Represents(p, links) && ClustersByRoot(clusters, p) && a in p && b in p
    requires Assign(Sorted(clusters.Keys), clusters, existing, taken, naming) == Some(accounts)
             && IdsFor(ids, accounts, clusters)
    requires Injective(existing) && existing.Values <= taken
    requires FreshSuffixes(Sorted(clusters.Keys), clusters, existing, taken, naming)
    ensures a in ids && b in ids && (ids[a] == ids[b] <==> Connected(links, a, b))
  {
    hide Root;
    hide Forest;
    hide Assign;
    hide FreshSuffixes;
    hide IdsFor;
    hide ClustersByRoot;
    hide AssignedFrom;
    hide Connected;
    var keys := Sorted(clusters.Keys);
    AssignShape(keys, clusters, existing, taken, naming);
    var x := IdOfDomain(p, clusters, existing, keys, accounts, ids, a);
    var y := IdOfDomain(p, clusters, existing, keys, accounts, ids, b);
    BuiltIdsDistinct(p, clusters, existing, taken, naming, accounts);
    if ids[a] == ids[b] {
      SameIdSameAccount(accounts, x, y);
      assert Root(p, a) == Root(p, b);
    }
    IdsRespectLinks(p, links, clusters, existing, taken, naming, accounts, ids);
  }
}
