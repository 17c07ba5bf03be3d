/** From source rows to domains, groups and clusters.

    The dictionaries of the build are filled in loops; each is shown to hold exactly what the rows say, in the order of
    the rows. */
module IdentityBuild {
  import opened UnionFind
  import opened IdentityLinks
  import opened IdentityRows

  // ---- Rows by domain ----------------------------------------------------------------------------

  /** The domains of some rows in the order of their first row, and the rows of each. */
  ghost predicate Grouped(order: seq<string>, grouped: map<string, seq<Row>>, rows: seq<Row>, labels: Labels) {
    && NoRepeats(order) && (forall d :: d in order <==> d in grouped) && grouped.Keys == DomainsOf(rows)
    && (forall d | d in grouped :: grouped[d] == Select(rows, labels, d))
    && (forall d | d !in grouped :: Select(rows, labels, d) == [])
  }

  lemma SelectSnoc(rows: seq<Row>, row: Row, labels: Labels, d: string)
    requires row.domain in labels && labels[row.domain] == row.domain
    ensures Select(rows + [row], labels, d) == Select(rows, labels, d) + if d == row.domain then [row] else []
  {
    SelectConcat(rows, [row], labels, d);
    assert [row][1..] == [];
  }

  lemma SelectsSnoc(rows: seq<Row>, row: Row, labels: Labels)
    requires row.domain in labels && labels[row.domain] == row.domain
    ensures forall d :: Select(rows + [row], labels, d) ==
              if d == row.domain then Select(rows, labels, d) + [row] else Select(rows, labels, d)
  {
    hide Select;
    forall d ensures Select(rows + [row], labels, d) ==
                       if d == row.domain then Select(rows, labels, d) + [row] else Select(rows, labels, d)
    {
      SelectSnoc(rows, row, labels, d);
      assert Select(rows, labels, d) + [] == Select(rows, labels, d);
    }
  }

  lemma GroupedFirst(order: seq<string>, grouped: map<string, seq<Row>>, rows: seq<Row>, labels: Labels, row: Row)
    requires Grouped(order, grouped, rows, labels) && row.domain in labels && labels[row.domain] == row.domain
    requires row.domain !in grouped
    ensures Grouped(order + [row.domain], grouped[row.domain := [row]], rows + [row], labels)
  {
    hide Select;
    hide DomainsOf;
    SelectsSnoc(rows, row, labels);
    DomainsSnoc(rows, row);
    assert [] + [row] == [row];
  }

  lemma GroupedMore(order: seq<string>, grouped: map<string, seq<Row>>, rows: seq<Row>, labels: Labels, row: Row)
    requires Grouped(order, grouped, rows, labels) && row.domain in labels && labels[row.domain] == row.domain
    requires row.domain in grouped
    ensures Grouped(order, grouped[row.domain := grouped[row.domain] + [row]], rows + [row], labels)
  {
    hide Select;
    hide DomainsOf;
    SelectsSnoc(rows, row, labels);
    DomainsSnoc(rows, row);
  }

  lemma DomainsSnoc(rows: seq<Row>, row: Row)
    ensures DomainsOf(rows + [row]) == DomainsOf(rows) + {row.domain}
  {
  }

  lemma NothingGrouped(labels: Labels)
    ensures Grouped([], map[], [], labels)
  {
  }

  lemma IdentityAt(rows: seq<Row>, i: nat)
    requires i < |rows|
    ensures var labels := Identity(DomainsOf(rows));
            rows[i].domain in labels && labels[rows[i].domain] == rows[i].domain
  {
  }

  lemma GroupedMeans(order: seq<string>, grouped: map<string, seq<Row>>, rows: seq<Row>, labels: Labels)
    requires Grouped(order, grouped, rows, labels)
    ensures NoRepeats(order) && (forall d :: d in order <==> d in DomainsOf(rows)) && grouped.Keys == DomainsOf(rows)
    ensures forall d | d in grouped :: grouped[d] == Select(rows, labels, d)
  {
    hide Select;
  }

  /** The rows of each domain, and the domains in the order of their first row. */
  method GroupByDomain(rows: seq<Row>) returns (order: seq<string>, grouped: map<string, seq<Row>>)
    ensures NoRepeats(order) && (forall d :: d in order <==> d in DomainsOf(rows)) && grouped.Keys == DomainsOf(rows)
    ensures forall d | d in grouped :: grouped[d] == Select(rows, Identity(DomainsOf(rows)), d)
  {
    hide Grouped;
    hide DomainsOf;
    hide Select;
    hide NoRepeats;
    hide Identity;
    order, grouped := [], map[];
    ghost var labels := Identity(DomainsOf(rows));
    NothingGrouped(labels);
    var i := 0;
    while i < |rows|
      invariant 0 <= i <= |rows|
      invariant Grouped(order, grouped, rows[..i], labels)
    {
      var row := rows[i];
      assert rows[..i + 1] == rows[..i] + [row];
      IdentityAt(rows, i);
      if row.domain !in grouped {
        GroupedFirst(order, grouped, rows[..i], labels, row);
        order := order + [row.domain];
        grouped := grouped[row.domain := [row]];
      } else {
        GroupedMore(order, grouped, rows[..i], labels, row);
        grouped := grouped[row.domain := grouped[row.domain] + [row]];
      }
      i := i + 1;
    }
    assert rows[..i] == rows;
    GroupedMeans(order, grouped, rows, labels);
  }

  // ---- Rows by parent company --------------------------------------------------------------------

  function ParentDomains(rows: seq<Row>, parent: string): set<string> {
    set row | row in rows && row.parent == parent :: row.domain
  }

  function ParentsOf(rows: seq<Row>): set<string> { set row | row in rows && row.parent != "" :: row.parent }

  /** The links the rows establish: the domain sets of the parent companies that are not ambiguous. */
  function RowLinks(rows: seq<Row>, existing: map<string, string>): Links {
    set p | p in ParentsOf(rows) && !Ambiguous(ParentDomains(rows, p), existing) :: ParentDomains(rows, p)
  }

  lemma ParentDomainsSnoc(rows: seq<Row>, row: Row, p: string)
    ensures ParentDomains(rows + [row], p) == ParentDomains(rows, p) + if row.parent == p then {row.domain} else {}
    ensures ParentsOf(rows + [row]) == ParentsOf(rows) + if row.parent != "" then {row.parent} else {}
    ensures "" !in ParentsOf(rows)
  {
  }

  /** The dictionary from parent companies to the domains that name them. */
  method CollectParents(rows: seq<Row>) returns (named: map<string, set<string>>)
    ensures named.Keys == ParentsOf(rows)
    ensures forall p | p in named :: named[p] == ParentDomains(rows, p)
  {
    hide ParentDomains;
    hide ParentsOf;
    named := map[];
    NobodyNamed();
    var i := 0;
    while i < |rows|
      invariant 0 <= i <= |rows|
      invariant named.Keys == ParentsOf(rows[..i])
      invariant forall p | p in named :: named[p] == ParentDomains(rows[..i], p)
    {
      var row := rows[i];
      assert rows[..i + 1] == rows[..i] + [row];
      ParentsSnoc(rows[..i], row);
      if row.parent != "" {
        if row.parent !in named {
          NotNamed(rows[..i], row.parent);
        }
        named := named[row.parent := (if row.parent in named then named[row.parent] else {}) + {row.domain}];
      }
      i := i + 1;
    }
    assert rows[..i] == rows;
  }

  lemma NobodyNamed()
    ensures ParentsOf([]) == {}
  {
  }

  lemma ParentsSnoc(rows: seq<Row>, row: Row)
    ensures forall p :: ParentDomains(rows + [row], p)
                     == if row.parent == p then ParentDomains(rows, p) + {row.domain} else ParentDomains(rows, p)
    ensures ParentsOf(rows + [row]) == if row.parent != "" then ParentsOf(rows) + {row.parent} else ParentsOf(rows)
    ensures "" !in ParentsOf(rows)
  {
    hide ParentDomains;
    hide ParentsOf;
    ParentDomainsSnoc(rows, row, row.parent);
    forall p ensures ParentDomains(rows + [row], p)
                  == if row.parent == p then ParentDomains(rows, p) + {row.domain} else ParentDomains(rows, p)
    {
      ParentDomainsSnoc(rows, row, p);
    }
  }

  lemma NotNamed(rows: seq<Row>, p: string)
    requires p != "" && p !in ParentsOf(rows)
    ensures ParentDomains(rows, p) == {}
  {
  }

  /** A parent company links its domains exactly when those that belong to existing customers belong to one. */
  lemma ParentLinksIff(rows: seq<Row>, existing: map<string, string>, p: string)
    requires p in ParentsOf(rows)
    ensures ParentDomains(rows, p) in RowLinks(rows, existing)
            <==> forall a, b | a in ParentDomains(rows, p) && b in ParentDomains(rows, p)
                               && a in existing && b in existing :: existing[a] == existing[b]
  {
    hide Ambiguous;
    AmbiguousIff(ParentDomains(rows, p), existing);
  }

  /** The rows that name a parent company agree on the existing customer, as far as they have one. */
  predicate OneCustomer(rows: seq<Row>, existing: map<string, string>, parent: string) {
    forall x, y | x in rows && y in rows && x.parent == parent && y.parent == parent
                  && x.domain in existing && y.domain in existing ::
      existing[x.domain] == existing[y.domain]
  }

  lemma UnambiguousIff(rows: seq<Row>, existing: map<string, string>, p: string)
    ensures !Ambiguous(ParentDomains(rows, p), existing) <==> OneCustomer(rows, existing, p)
  {
    hide Ambiguous;
    var g := ParentDomains(rows, p);
    AmbiguousIff(g, existing);
    if Ambiguous(g, existing) {
      var a, b :| a in g && b in g && a in existing && b in existing && existing[a] != existing[b];
      var x :| x in rows && x.parent == p && x.domain == a;
      var y :| y in rows && y.parent == p && y.domain == b;
    } else {
      forall x, y | && x in rows && y in rows && x.parent == p && y.parent == p
                    && x.domain in existing && y.domain in existing
        ensures existing[x.domain] == existing[y.domain]
      {
        assert x.domain in g && y.domain in g;
      }
    }
  }

  /** Two domains are linked exactly when rows on them name one parent company whose rows agree on the customer. */
  lemma LinkedIff(rows: seq<Row>, existing: map<string, string>, a: string, b: string)
    ensures Linked(RowLinks(rows, existing), a, b)
            <==> exists x, y | x in rows && y in rows ::
                   && x.domain == a && y.domain == b && x.parent == y.parent != ""
                   && OneCustomer(rows, existing, x.parent)
  {
    hide Ambiguous;
    hide OneCustomer;
    if Linked(RowLinks(rows, existing), a, b) {
      var x, y := LinkingRows(rows, existing, a, b);
    }
    if x, y :| x in rows && y in rows && x.domain == a && y.domain == b && x.parent == y.parent != ""
               && OneCustomer(rows, existing, x.parent)
    {
      RowsLink(rows, existing, x, y);
    }
  }

  lemma LinkingRows(rows: seq<Row>, existing: map<string, string>, a: string, b: string) returns (x: Row, y: Row)
    requires Linked(RowLinks(rows, existing), a, b)
    ensures x in rows && y in rows && x.domain == a && y.domain == b && x.parent == y.parent != ""
    ensures OneCustomer(rows, existing, x.parent)
  {
    hide Ambiguous;
    hide OneCustomer;
    var g :| g in RowLinks(rows, existing) && a in g && b in g;
    var p :| p in ParentsOf(rows) && !Ambiguous(ParentDomains(rows, p), existing) && g == ParentDomains(rows, p);
    UnambiguousIff(rows, existing, p);
    x :| x in rows && x.parent == p && x.domain == a;
    y :| y in rows && y.parent == p && y.domain == b;
  }

  lemma RowsLink(rows: seq<Row>, existing: map<string, string>, x: Row, y: Row)
    requires x in rows && y in rows && x.parent == y.parent != "" && OneCustomer(rows, existing, x.parent)
    ensures Linked(RowLinks(rows, existing), x.domain, y.domain)
  {
    hide Ambiguous;
    hide OneCustomer;
    UnambiguousIff(rows, existing, x.parent);
    var g := ParentDomains(rows, x.parent);
    assert x.domain in g && y.domain in g;
    assert x.parent in ParentsOf(rows);
    assert g in RowLinks(rows, existing);
  }

  predicate OneParent(rows: seq<Row>) {
    forall x, y | x in rows && y in rows && x.parent != "" && y.parent != "" :: x.parent == y.parent
  }

  /** With one parent company connected domains are equal or directly linked. */
  lemma {:induction false} OneParentPath(rows: seq<Row>, existing: map<string, string>, path: seq<string>)
    requires OneParent(rows) && IsPath(RowLinks(rows, existing), path) && |path| > 1
    ensures Linked(RowLinks(rows, existing), path[0], path[|path| - 1])
    decreases |path|
  {
    hide RowLinks;
    var links := RowLinks(rows, existing);
    assert Linked(links, path[0], path[1]);
    if |path| > 2 {
      forall i | 0 <= i && i + 1 < |path[1..]| ensures Linked(links, path[1..][i], path[1..][i + 1]) {
        assert Linked(links, path[i + 1], path[i + 2]);
      }
      OneParentPath(rows, existing, path[1..]);
      LinkedIff(rows, existing, path[0], path[1]);
      LinkedIff(rows, existing, path[1], path[|path| - 1]);
      LinkedIff(rows, existing, path[0], path[|path| - 1]);
    }
  }

  /** Rows that name at most one parent company never connect two customers. */
  lemma OneParentOneCustomer(rows: seq<Row>, existing: map<string, string>, a: string, b: string)
    requires OneParent(rows) && Connected(RowLinks(rows, existing), a, b) && a in existing && b in existing
    ensures existing[a] == existing[b]
  {
    hide RowLinks;
    var path :| IsPath(RowLinks(rows, existing), path) && path[0] == a && path[|path| - 1] == b;
    if |path| > 1 {
      OneParentPath(rows, existing, path);
      LinkedIff(rows, existing, a, b);
    }
  }

  /** A list of groups in some order of the dictionary. */
  predicate GroupsFor(groups: seq<Group>, rows: seq<Row>) {
    && (forall g | g in groups :: g.parent in ParentsOf(rows) && g.domains == ParentDomains(rows, g.parent))
    && (forall p | p in ParentsOf(rows) :: Group(p, ParentDomains(rows, p)) in groups)
  }

  lemma GroupLinks(groups: seq<Group>, rows: seq<Row>, existing: map<string, string>)
    requires GroupsFor(groups, rows)
    ensures LinksOf(groups, existing) == RowLinks(rows, existing)
    ensures forall g | g in groups :: g.domains != {} && g.domains <= DomainsOf(rows)
  {
    hide Ambiguous;
    forall l | l in RowLinks(rows, existing) ensures l in LinksOf(groups, existing) {
      var p :| p in ParentsOf(rows) && !Ambiguous(ParentDomains(rows, p), existing) && l == ParentDomains(rows, p);
      assert Group(p, ParentDomains(rows, p)) in groups;
    }
    forall g | g in groups ensures g.domains != {} && g.domains <= DomainsOf(rows) {
      var row :| row in rows && row.parent != "" && row.parent == g.parent;
      assert row.domain in ParentDomains(rows, g.parent);
    }
  }

  /** The groups, visited in whatever order the dictionary gives. */
  method ListGroups(named: map<string, set<string>>, ghost rows: seq<Row>) returns (groups: seq<Group>)
    requires named.Keys == ParentsOf(rows) && forall p | p in named :: named[p] == ParentDomains(rows, p)
    ensures GroupsFor(groups, rows)
  {
    groups := [];
    var left := named.Keys;
    while left != {}
      invariant left <= named.Keys
      invariant forall g | g in groups :: g.parent in named && g.domains == named[g.parent]
      invariant forall p | p in named && p !in left :: Group(p, named[p]) in groups
      decreases |left|
    {
      var p :| p in left;
      groups := groups + [Group(p, named[p])];
      left := left - {p};
    }
  }

  // ---- Clusters ----------------------------------------------------------------------------------

  /** The root of every domain. */
  ghost function RootsOf(p: Parents): Labels
    requires Forest(p)
  {
    map d | d in p :: Root(p, d)
  }

  /** The rows domain by domain, in the order of their first rows. */
  function ByDomain(rows: seq<Row>, order: seq<string>): seq<Row> { SelectAll(rows, Identity(DomainsOf(rows)), order) }

  /** The clusters: for each root, the rows of its domains. */
  ghost predicate ClustersFor(clustered: map<string, seq<Row>>, rows: seq<Row>, order: seq<string>, roots: Labels) {
    && clustered.Keys == (set d | d in order && d in roots :: roots[d])
    && forall k | k in clustered :: clustered[k] == Select(ByDomain(rows, order), roots, k)
  }

  lemma ClusterStep(rows: seq<Row>, order: seq<string>, d: string, roots: Labels, key: string)
    requires d in roots && d in DomainsOf(rows)
    ensures Select(ByDomain(rows, order + [d]), roots, key)
         == Select(ByDomain(rows, order), roots, key)
            + if roots[d] == key then Select(rows, Identity(DomainsOf(rows)), d) else []
  {
    var ids := Identity(DomainsOf(rows));
    SelectAllSnoc(rows, ids, order, d);
    SelectConcat(ByDomain(rows, order), Select(rows, ids, d), roots, key);
    SelectDomain(rows, ids, d);
    SelectUniform(Select(rows, ids, d), roots, key, d);
  }

  lemma ClusterAdd(clustered: map<string, seq<Row>>, rows: seq<Row>, order: seq<string>, d: string, roots: Labels)
    requires ClustersFor(clustered, rows, order, roots) && d in roots && d in DomainsOf(rows) && d !in order
    ensures var more := Select(rows, Identity(DomainsOf(rows)), d);
            var earlier := if roots[d] in clustered then clustered[roots[d]] else [];
            ClustersFor(clustered[roots[d] := earlier + more], rows, order + [d], roots)
  {
    hide Select;
    hide ByDomain;
    hide Identity;
    forall key ensures Select(ByDomain(rows, order + [d]), roots, key)
         == Select(ByDomain(rows, order), roots, key)
            + if roots[d] == key then Select(rows, Identity(DomainsOf(rows)), d) else [] {
      ClusterStep(rows, order, d, roots, key);
    }
    RootsSnoc(order, d, roots);
    if roots[d] !in clustered {
      NoClusterYet(rows, order, roots, roots[d]);
    }
  }

  lemma RootsSnoc(order: seq<string>, d: string, roots: Labels)
    requires d in roots
    ensures (set x | x in order + [d] && x in roots :: roots[x])
            == (set x | x in order && x in roots :: roots[x]) + {roots[d]}
  {
    assert d in order + [d];
  }

  lemma NoClusterYet(rows: seq<Row>, order: seq<string>, roots: Labels, key: string)
    requires forall d | d in order && d in roots :: roots[d] != key
    ensures Select(ByDomain(rows, order), roots, key) == []
  {
    forall row | row in ByDomain(rows, order) ensures row.domain in order {
      SelectAllDomains(rows, Identity(DomainsOf(rows)), order);
    }
    SelectNone(ByDomain(rows, order), roots, key);
  }

  lemma {:induction false} SelectAllDomains(rows: seq<Row>, labels: Labels, keys: seq<string>)
    ensures forall row | row in SelectAll(rows, labels, keys) :: row.domain in labels && labels[row.domain] in keys
    decreases |keys|
  {
    if keys != [] {
      SelectDomain(rows, labels, keys[0]);
      SelectAllDomains(rows, labels, keys[1..]);
    }
  }

  lemma {:induction false} SelectNone(rows: seq<Row>, labels: Labels, key: string)
    requires forall row | row in rows && row.domain in labels :: labels[row.domain] != key
    ensures Select(rows, labels, key) == []
  {
    if rows != [] {
      assert rows[0] in rows;
      SelectNone(rows[1..], labels, key);
    }
  }

  lemma NotBefore(order: seq<string>, i: nat)
    requires NoRepeats(order) && i < |order|
    ensures order[i] in order && order[i] !in order[..i]
  {
  }

  lemma RootAgrees(start: Parents, p: Parents, d: string)
    requires SameRoots(start, p) && d in p
    ensures d in RootsOf(start) && RootsOf(start)[d] == Root(p, d)
  {
  }

  /** Puts the rows of each domain into the cluster of its root. */
  method ClusterRows(parents: DomainParents, order: seq<string>, grouped: map<string, seq<Row>>, ghost rows: seq<Row>)
    returns (clustered: map<string, seq<Row>>)
    requires Forest(parents.parent) && parents.parent.Keys == DomainsOf(rows) == grouped.Keys
    requires NoRepeats(order) && (forall d :: d in order <==> d in DomainsOf(rows))
    requires forall d | d in grouped :: grouped[d] == Select(rows, Identity(DomainsOf(rows)), d)
    modifies parents
    ensures SameRoots(old(parents.parent), parents.parent)
    ensures ClustersFor(clustered, rows, order, RootsOf(old(parents.parent)))
  {
    hide Root;
    hide ClustersFor;
    hide Forest;
    hide Select;
    hide NoRepeats;
    hide RootsOf;
    ghost var start := parents.parent;
    ghost var roots := RootsOf(start);
    clustered := map[];
    NoClusters(rows, roots);
    var i := 0;
    while i < |order|
      invariant 0 <= i <= |order|
      invariant Forest(parents.parent) && SameRoots(start, parents.parent)
      invariant ClustersFor(clustered, rows, order[..i], roots)
    {
      var d := order[i];
      assert order[..i + 1] == order[..i] + [d];
      NotBefore(order, i);
      ghost var before := parents.parent;
      var root := parents.Find(d);
      RootAgrees(start, before, d);
      SameRootsTransitive(start, before, parents.parent);
      ClusterAdd(clustered, rows, order[..i], d, roots);
      clustered := clustered[root := (if root in clustered then clustered[root] else []) + grouped[d]];
      i := i + 1;
    }
    assert order[..i] == order;
  }

  lemma NoClusters(rows: seq<Row>, roots: Labels)
    ensures ClustersFor(map[], rows, [], roots)
  {
  }

  /** The clusters, root by root, hold every row exactly once. */
  lemma ClustersConserve(clustered: map<string, seq<Row>>, rows: seq<Row>, order: seq<string>, roots: Labels,
                         keys: seq<string>)
    requires ClustersFor(clustered, rows, order, roots) && roots.Keys == DomainsOf(rows)
    requires NoRepeats(order) && (forall d :: d in order <==> d in DomainsOf(rows))
    requires NoRepeats(keys) && (forall k :: k in keys <==> k in clustered)
    ensures multiset(SelectAll(ByDomain(rows, order), roots, keys)) == multiset(rows)
  {
    var ids := Identity(DomainsOf(rows));
    SelectAllConserves(rows, ids, order);
    SelectAllDomains(rows, ids, order);
    SelectAllConserves(ByDomain(rows, order), roots, keys);
  }
}
