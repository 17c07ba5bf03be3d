/** The union-find over company domains: parents in a dictionary, path halving and linking the greater
    root below the lesser. */
module UnionFind {
  import opened Ordering

  type Parents = map<string, string>

  /** The parent is a domain and does not follow its child in domain order. */
  predicate Edge(p: Parents, d: string)
    requires d in p
  {
    p[d] in p && (p[d] == d || Less(p[d], d))
  }

  predicate Forest(p: Parents) {
    forall d {:trigger Edge(p, d)} | d in p :: Edge(p, d)
  }

  ghost function Below(p: Parents, d: string): nat { |set x | x in p && Less(x, d)| }

  /** A lesser domain has fewer domains below it: following parents ends. */
  lemma BelowDecreases(p: Parents, a: string, b: string)
    requires a in p && Less(a, b)
    ensures Below(p, a) < Below(p, b)
  {
    var lower, upper := set x | x in p && Less(x, a), set x | x in p && Less(x, b);
    forall x | x in lower ensures x in upper {
      LessTransitive(x, a, b);
    }
    LessIrreflexive(a);
    SubsetSize(lower + {a}, upper);
  }

  lemma {:induction false} SubsetSize(a: set<string>, b: set<string>)
    requires a <= b
    ensures |a| <= |b|
    decreases |b|
  {
    if x :| x in a {
      SubsetSize(a - {x}, b - {x});
    }
  }

  ghost function Root(p: Parents, d: string): (r: string)
    requires Forest(p) && d in p
    ensures r in p && p[r] == r && (r == d || Less(r, d))
    decreases Below(p, d)
  {
    assert Edge(p, d);
    if p[d] == d then d
    else
      BelowDecreases(p, p[d], d);
      var r := Root(p, p[d]);
      StillBelow(r, p[d], d);
      r
  }

  lemma StillBelow(a: string, b: string, c: string)
    requires (a == b || Less(a, b)) && Less(b, c)
    ensures Less(a, c)
  {
    if a != b {
      LessTransitive(a, b, c);
    }
  }

  lemma HalvingKeepsForest(p: Parents, d: string)
    requires Forest(p) && d in p && Edge(p, d)
    ensures Forest(p[d := p[p[d]]])
  {
    var q := p[d := p[p[d]]];
    assert Edge(p, p[d]);
    assert Edge(p, p[p[d]]);
    if p[d] != d && p[p[d]] != p[d] {
      LessTransitive(p[p[d]], p[d], d);
    }
    forall x | x in q ensures Edge(q, x) {
      assert Edge(p, x);
    }
  }

  /** Pointing a domain at its grandparent changes no root. */
  lemma {:induction false} HalvingKeepsRoot(p: Parents, d: string, x: string)
    requires Forest(p) && d in p && x in p && Edge(p, d) && Forest(p[d := p[p[d]]])
    ensures Root(p[d := p[p[d]]], x) == Root(p, x)
    decreases Below(p, x)
  {
    var q := p[d := p[p[d]]];
    assert Edge(p, x) && Edge(p, p[d]);
    if p[x] != x {
      BelowDecreases(p, p[x], x);
      HalvingKeepsRoot(p, d, p[x]);
      if x == d && p[p[d]] != p[d] {
        LessTransitive(p[p[d]], p[d], d);
        BelowDecreases(p, p[p[d]], d);
        HalvingKeepsRoot(p, d, p[p[d]]);
        LessIrreflexive(d);
      }
    }
  }

  /** Linking the root `b` below the lesser root `a` moves exactly the domains of `b`. */
  lemma {:induction false} LinkMovesRoots(p: Parents, a: string, b: string, x: string)
    requires Forest(p) && a in p && b in p && p[a] == a && p[b] == b && Less(a, b) && x in p
    ensures Forest(p[b := a])
    ensures Root(p[b := a], x) == if Root(p, x) == b then a else Root(p, x)
    decreases Below(p, x)
  {
    var q := p[b := a];
    LessIrreflexive(a);
    forall y | y in q ensures Edge(q, y) {
      assert Edge(p, y);
    }
    assert Edge(p, x);
    if x == b {
      assert Root(q, a) == a;
    } else if p[x] != x {
      BelowDecreases(p, p[x], x);
      LinkMovesRoots(p, a, b, p[x]);
    }
  }

  lemma SameBelow(p: Parents, q: Parents, d: string)
    requires p.Keys == q.Keys
    ensures Below(p, d) == Below(q, d)
  {
    assert (set x | x in p && Less(x, d)) == (set x | x in q && Less(x, d));
  }

  lemma GrandparentBelow(p: Parents, d: string)
    requires Forest(p) && d in p && p[d] != d && Edge(p, d)
    ensures Below(p, p[p[d]]) < Below(p, d)
  {
    assert Edge(p, p[d]);
    BelowDecreases(p, p[d], d);
    if p[p[d]] != p[d] {
      BelowDecreases(p, p[p[d]], p[d]);
    }
  }

  /** The roots after joining two domains: the greater of their roots gives way to the lesser. */
  ghost function Joined(p: Parents, left: string, right: string, x: string): string
    requires Forest(p) && left in p && right in p && x in p
  {
    var l, r := Root(p, left), Root(p, right);
    if Root(p, x) == l || Root(p, x) == r then (if Less(r, l) then r else l) else Root(p, x)
  }

  lemma {:induction false} RootOfRoot(p: Parents, d: string)
    requires Forest(p) && d in p
    ensures Root(p, Root(p, d)) == Root(p, d)
  {
    assert Edge(p, d);
  }

  /** Two forests over the same domains with the same roots. */
  ghost predicate SameRoots(p: Parents, q: Parents) {
    Forest(p) && Forest(q) && p.Keys == q.Keys && forall x {:trigger Root(q, x)} | x in p :: Root(q, x) == Root(p, x)
  }

  lemma SameRootsTransitive(p: Parents, q: Parents, r: Parents)
    requires SameRoots(p, q) && SameRoots(q, r)
    ensures SameRoots(p, r)
  {
    hide Root;
    hide Forest;
  }

  /** One turn of the path-halving loop. */
  lemma HalvingStep(p: Parents, d: string, q: Parents)
    requires Forest(p) && d in p && p[d] != d && Edge(p, d) && q == p[d := p[p[d]]]
    ensures SameRoots(p, q) && q[d] in q
    ensures Root(q, q[d]) == Root(p, d)
    ensures Below(q, q[d]) < Below(p, d)
  {
    assert Edge(p, p[d]);
    HalvingKeepsForest(p, d);
    forall x | x in p ensures Root(q, x) == Root(p, x) {
      HalvingKeepsRoot(p, d, x);
    }
    GrandparentBelow(p, d);
    SameBelow(p, q, q[d]);
  }

  /** One link between two different roots. */
  lemma LinkStep(p: Parents, left: string, right: string, lesser: string, greater: string)
    requires Forest(p) && left in p && right in p
    requires (lesser, greater) in {(Root(p, left), Root(p, right)), (Root(p, right), Root(p, left))}
             && Less(lesser, greater)
    ensures Forest(p[greater := lesser])
    ensures forall x {:trigger Root(p[greater := lesser], x)} | x in p ::
              Root(p[greater := lesser], x) == Joined(p, left, right, x)
  {
    LessTotal(lesser, greater);
    forall x | x in p
      ensures Forest(p[greater := lesser]) && Root(p[greater := lesser], x) == Joined(p, left, right, x)
    {
      LinkMovesRoots(p, lesser, greater, x);
    }
    LinkMovesRoots(p, lesser, greater, left);
  }

  /** `q` has the roots of `p` after joining two domains. */
  ghost predicate IsJoin(p: Parents, q: Parents, left: string, right: string)
    requires Forest(p) && left in p && right in p
  {
    Forest(q) && q.Keys == p.Keys && forall x {:trigger Root(q, x)} | x in p :: Root(q, x) == Joined(p, left, right, x)
  }

  function Max(a: string, b: string): string { if Less(a, b) then b else a }

  function Min(a: string, b: string): string { if Less(a, b) then a else b }

  lemma JoinStep(p: Parents, left: string, right: string)
    requires Forest(p) && left in p && right in p
    ensures var l, r := Root(p, left), Root(p, right);
            IsJoin(p, if l == r then p else p[Max(l, r) := Min(l, r)], left, right)
  {
    var l, r := Root(p, left), Root(p, right);
    LessTotal(l, r);
    hide Root;
    hide Forest;
    hide Less;
    if l != r {
      LinkStep(p, left, right, Min(l, r), Max(l, r));
    }
  }

  lemma JoinFrame(p: Parents, middle: Parents, q: Parents, left: string, right: string)
    requires SameRoots(p, middle) && left in p && right in p && IsJoin(middle, q, left, right)
    ensures IsJoin(p, q, left, right)
  {
    hide Root;
    hide Less;
    assert Root(middle, left) == Root(p, left) && Root(middle, right) == Root(p, right);
    forall x | x in p ensures Root(q, x) == Joined(p, left, right, x) {
      assert Root(middle, x) == Root(p, x);
      assert Root(q, x) == Joined(middle, left, right, x);
    }
  }

  // ---- The operations in place -------------------------------------------------------------------

  class DomainParents {
    var parent: Parents

    /** Every domain starts as its own root. */
    constructor (domains: set<string>)
      ensures Forest(parent) && parent.Keys == domains
      ensures forall d | d in domains :: parent[d] == d
    {
      parent := map d | d in domains :: d;
    }

    /** Path halving finds the root and changes no root. */
    method Find(domain: string) returns (root: string)
      requires Forest(parent) && domain in parent
      modifies this
      ensures SameRoots(old(parent), parent) && root == Root(old(parent), domain)
    {
      hide Root;
      hide Below;
      root := domain;
      while parent[root] != root
        invariant SameRoots(old(parent), parent) && root in parent
        invariant Root(parent, root) == Root(old(parent), domain)
        decreases Below(parent, root)
      {
        assert Edge(parent, root);
        HalvingStep(parent, root, parent[root := parent[parent[root]]]);
        parent := parent[root := parent[parent[root]]];
        root := parent[root];
      }
      RootOfSelf(parent, root);
    }

    /** The greater root is linked below the lesser. */
    method Union(left: string, right: string)
      requires Forest(parent) && left in parent && right in parent
      modifies this
      ensures IsJoin(old(parent), parent, left, right)
    {
      hide Root;
      hide Forest;
      hide IsJoin;
      hide Max;
      hide Min;
      var leftRoot := Find(left);
      ghost var middle := parent;
      var rightRoot := Find(right);
      SameRootsTransitive(old(parent), middle, parent);
      JoinStep(parent, left, right);
      ghost var before := parent;
      if leftRoot != rightRoot {
        parent := parent[Max(leftRoot, rightRoot) := Min(leftRoot, rightRoot)];
      }
      JoinFrame(old(parent), before, parent, left, right);
    }
  }

  lemma RootOfSelf(p: Parents, d: string)
    requires Forest(p) && d in p && p[d] == d
    ensures Root(p, d) == d
  {
  }
}
