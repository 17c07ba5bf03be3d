/** Parent-company groups link domains; united domains share a root exactly when unambiguous groups connect them. */
module IdentityLinks {
  import opened Ordering
  import opened UnionFind

  /** The domains that name one parent company. */
  datatype Group = Group(parent: string, domains: set<string>)

  type Links = set<set<string>>

  function ExistingIds(domains: set<string>, existing: map<string, string>): set<string> {
    set d | d in domains && d in existing :: existing[d]
  }

  /** A group that names domains of different existing accounts is left out. */
  predicate Ambiguous(domains: set<string>, existing: map<string, string>) {
    |ExistingIds(domains, existing)| > 1
  }

  lemma ManyMeansTwo(s: set<string>)
    ensures |s| > 1 <==> exists x, y | x in s && y in s :: x != y
  {
    if |s| > 1 {
      var x :| x in s;
      assert |s - {x}| == |s| - 1;
      var y :| y in s - {x};
    }
    if x, y :| x in s && y in s && x != y {
      assert |s - {x}| == |s| - 1;
      assert |s - {x} - {y}| == |s| - 2;
    }
  }

  /** A group is left out exactly when two of its domains belong to different existing accounts. */
  lemma AmbiguousIff(domains: set<string>, existing: map<string, string>)
    ensures Ambiguous(domains, existing)
            <==> exists a, b :: a in domains && b in domains
                                && a in existing && b in existing && existing[a] != existing[b]
  {
    var ids := ExistingIds(domains, existing);
    ManyMeansTwo(ids);
    if x, y :| x in ids && y in ids && x != y {
      var a :| a in domains && a in existing && existing[a] == x;
      var b :| b in domains && b in existing && existing[b] == y;
    }
    if a, b :| a in domains && b in domains && a in existing && b in existing && existing[a] != existing[b] {
      assert existing[a] in ids && existing[b] in ids;
    }
  }

  /** The domain sets that link: those of the unambiguous groups, in no order. */
  function LinksOf(groups: seq<Group>, existing: map<string, string>): Links {
    set g | g in groups && !Ambiguous(g.domains, existing) :: g.domains
  }

  // ---- Connection --------------------------------------------------------------------------------

  predicate Linked(links: Links, a: string, b: string) { exists g | g in links :: a in g && b in g }

  predicate IsPath(links: Links, path: seq<string>) {
    path != [] && forall i | 0 <= i && i + 1 < |path| :: Linked(links, path[i], path[i + 1])
  }

  /** A path through the links leads from `a` to `b`. */
  ghost predicate Connected(links: Links, a: string, b: string) {
    exists path :: IsPath(links, path) && path[0] == a && path[|path| - 1] == b
  }

  lemma ConnectedSelf(links: Links, a: string)
    ensures Connected(links, a, a)
  {
    assert IsPath(links, [a]);
  }

  lemma ConnectedLink(links: Links, a: string, b: string)
    requires Linked(links, a, b)
    ensures Connected(links, a, b)
  {
    assert IsPath(links, [a, b]);
  }

  lemma ConnectedTransitive(links: Links, a: string, b: string, c: string)
    requires Connected(links, a, b) && Connected(links, b, c)
    ensures Connected(links, a, c)
  {
    var p :| IsPath(links, p) && p[0] == a && p[|p| - 1] == b;
    var q :| IsPath(links, q) && q[0] == b && q[|q| - 1] == c;
    var r := p + q[1..];
    forall i | 0 <= i && i + 1 < |r| ensures Linked(links, r[i], r[i + 1]) {
      if i + 1 < |p| {
        assert r[i] == p[i] && r[i + 1] == p[i + 1];
      } else {
        var j := i + 1 - |p|;
        assert r[i] == q[j] && r[i + 1] == q[j + 1];
      }
    }
    assert IsPath(links, r);
  }

  function Reverse(path: seq<string>): (r: seq<string>)
    ensures |r| == |path| && forall i | 0 <= i < |path| :: r[i] == path[|path| - 1 - i]
  {
    if path == [] then [] else Reverse(path[1..]) + [path[0]]
  }

  lemma ConnectedSymmetric(links: Links, a: string, b: string)
    requires Connected(links, a, b)
    ensures Connected(links, b, a)
  {
    var p :| IsPath(links, p) && p[0] == a && p[|p| - 1] == b;
    var r := Reverse(p);
    forall i | 0 <= i && i + 1 < |r| ensures Linked(links, r[i], r[i + 1]) {
      var j := |p| - 2 - i;
      assert Linked(links, p[j], p[j + 1]);
      assert r[i] == p[j + 1] && r[i + 1] == p[j];
    }
    assert IsPath(links, r);
  }

  // ---- What the forest means ---------------------------------------------------------------------

  /** Every domain is connected to its root. */
  ghost predicate Sound(p: Parents, links: Links)
    requires Forest(p)
  {
    forall x {:trigger Root(p, x)} | x in p :: Connected(links, x, Root(p, x))
  }

  /** The domains of a link share a root. */
  ghost predicate OneRoot(p: Parents, g: set<string>)
    requires Forest(p) && g <= p.Keys
  {
    forall a, b {:trigger a in g, b in g} | a in g && b in g :: Root(p, a) == Root(p, b)
  }

  /** The forest is the partition into connected domains. */
  ghost predicate Represents(p: Parents, links: Links) {
    && Forest(p)
    && forall a, b {:trigger Connected(links, a, b)} | a in p && b in p ::
         Root(p, a) == Root(p, b) <==> Connected(links, a, b)
  }

  lemma {:induction false} PathOneRoot(p: Parents, links: Links, path: seq<string>)
    requires Forest(p) && (forall g | g in links :: g <= p.Keys && OneRoot(p, g))
    requires IsPath(links, path) && path[0] in p
    ensures path[|path| - 1] in p && Root(p, path[0]) == Root(p, path[|path| - 1])
    decreases |path|
  {
    hide Root;
    if |path| > 1 {
      assert Linked(links, path[0], path[1]);
      var g :| g in links && path[0] in g && path[1] in g;
      assert OneRoot(p, g);
      var rest := path[1..];
      forall i | 0 <= i && i + 1 < |rest| ensures Linked(links, rest[i], rest[i + 1]) {
        assert Linked(links, path[i + 1], path[i + 2]);
      }
      PathOneRoot(p, links, rest);
    }
  }

  lemma SoundAndComplete(p: Parents, links: Links)
    requires Forest(p) && Sound(p, links) && (forall g | g in links :: g <= p.Keys && OneRoot(p, g))
    ensures Represents(p, links)
  {
    hide Root;
    hide OneRoot;
    forall a, b | a in p && b in p ensures Root(p, a) == Root(p, b) <==> Connected(links, a, b) {
      if Root(p, a) == Root(p, b) {
        ConnectedSymmetric(links, b, Root(p, b));
        ConnectedTransitive(links, a, Root(p, a), b);
      }
      if Connected(links, a, b) {
        var path :| IsPath(links, path) && path[0] == a && path[|path| - 1] == b;
        PathOneRoot(p, links, path);
      }
    }
  }

  lemma JoinKeepsSound(p: Parents, q: Parents, links: Links, left: string, right: string)
    requires Forest(p) && left in p && right in p && IsJoin(p, q, left, right)
    requires Sound(p, links) && Linked(links, left, right)
    ensures Sound(q, links)
  {
    hide Root;
    hide Less;
    hide Connected;
    var l, r := Root(p, left), Root(p, right);
    ConnectedLink(links, left, right);
    ConnectedSymmetric(links, left, l);
    ConnectedTransitive(links, l, left, right);
    ConnectedTransitive(links, l, right, r);
    ConnectedSymmetric(links, l, r);
    forall x | x in q ensures Connected(links, x, Root(q, x)) {
      assert Connected(links, x, Root(p, x));
      if Root(p, x) == l && Root(q, x) == r {
        ConnectedTransitive(links, x, l, r);
      } else if Root(p, x) == r && Root(q, x) == l {
        ConnectedTransitive(links, x, r, l);
      }
    }
  }

  lemma JoinKeepsOneRoot(p: Parents, q: Parents, left: string, right: string, g: set<string>)
    requires Forest(p) && left in p && right in p && IsJoin(p, q, left, right)
    requires g <= p.Keys && OneRoot(p, g)
    ensures OneRoot(q, g)
  {
    hide Root;
    hide Less;
    forall a, b | a in g && b in g ensures Root(q, a) == Root(q, b) {
      assert Root(p, a) == Root(p, b);
    }
  }

  lemma JoinedShareRoot(p: Parents, q: Parents, left: string, right: string)
    requires Forest(p) && left in p && right in p && IsJoin(p, q, left, right)
    ensures Root(q, left) == Root(q, right)
  {
    hide Root;
  }

  // ---- Main results about the forest -------------------------------------------------------------

  /** Every root is the least domain of its component. */
  lemma RootIsLeast(p: Parents, links: Links, d: string)
    requires Represents(p, links) && d in p
    ensures Connected(links, d, Root(p, d))
    ensures forall x | x in p && Connected(links, d, x) :: x == Root(p, d) || Less(Root(p, d), x)
  {
    RootOfRoot(p, d);
    assert Connected(links, d, Root(p, d));
    forall x | x in p && Connected(links, d, x) ensures x == Root(p, d) || Less(Root(p, d), x) {
      assert Root(p, x) == Root(p, d);
    }
  }

  /** Two forests over the same domains that represent the same links have the same roots: the order in
      which groups are visited does not matter. */
  lemma RootsDependOnLinksOnly(p: Parents, q: Parents, links: Links)
    requires Represents(p, links) && Represents(q, links) && p.Keys == q.Keys
    ensures SameRoots(p, q)
  {
    forall x | x in p ensures Root(q, x) == Root(p, x) {
      RootIsLeast(p, links, x);
      RootIsLeast(q, links, x);
      LessTotal(Root(p, x), Root(q, x));
    }
  }

  // ---- Uniting the groups in place ---------------------------------------------------------------

  ghost predicate Progress(p: Parents, keys: set<string>, links: Links, done: Links) {
    && Forest(p) && p.Keys == keys && Sound(p, links)
    && forall g | g in done :: g <= keys && OneRoot(p, g)
  }

  lemma StartsSound(p: Parents, links: Links)
    requires Forest(p) && forall d | d in p :: p[d] == d
    ensures Progress(p, p.Keys, links, {})
  {
    forall x | x in p ensures Connected(links, x, Root(p, x)) {
      RootOfSelf(p, x);
      ConnectedSelf(links, x);
    }
  }

  lemma JoinKeepsProgress(p: Parents, q: Parents, keys: set<string>, links: Links, done: Links, left: string,
                          right: string)
    requires Progress(p, keys, links, done) && left in p && right in p && IsJoin(p, q, left, right)
    requires Linked(links, left, right)
    ensures Progress(q, keys, links, done)
  {
    hide OneRoot;
    hide Sound;
    JoinKeepsSound(p, q, links, left, right);
    forall g | g in done ensures g <= keys && OneRoot(q, g) {
      JoinKeepsOneRoot(p, q, left, right, g);
    }
  }

  /** Joins every domain of one group to its first. */
  method UniteGroup(parents: DomainParents, domains: set<string>, ghost links: Links, ghost done: Links)
    requires Progress(parents.parent, parents.parent.Keys, links, done)
    requires domains != {} && domains <= parents.parent.Keys && domains in links
    modifies parents
    ensures Progress(parents.parent, old(parents.parent.Keys), links, done + {domains})
  {
    hide Progress;
    hide IsJoin;
    hide OneRoot;
    hide Forest;
    hide Minimum;
    hide IsMinimum;
    ghost var keys := parents.parent.Keys;
    ProgressForest(parents.parent, keys, links, done);
    var first := Least(domains);
    var rest := domains - {first};
    ghost var joined := {first};
    OneRootSingle(parents.parent, first);
    while rest != {}
      invariant Progress(parents.parent, keys, links, done)
      invariant Forest(parents.parent) && parents.parent.Keys == keys
      invariant domains == joined + rest && first in joined
      invariant OneRoot(parents.parent, joined)
      decreases |rest|
    {
      var domain := Least(rest);
      ghost var before := parents.parent;
      parents.Union(first, domain);
      UniteStep(before, parents.parent, keys, links, done, domains, first, domain, joined);
      joined := joined + {domain};
      rest := rest - {domain};
    }
    assert joined == domains;
    ProgressAdd(parents.parent, keys, links, done, domains);
  }

  lemma UniteStep(p: Parents, q: Parents, keys: set<string>, links: Links, done: Links, domains: set<string>,
                  first: string, domain: string, joined: set<string>)
    requires Progress(p, keys, links, done) && domains in links && first in domains && domain in domains
    requires Forest(p) && first in p && domain in p && IsJoin(p, q, first, domain)
    requires joined <= keys && OneRoot(p, joined) && first in joined
    ensures Progress(q, keys, links, done) && Forest(q) && q.Keys == keys && OneRoot(q, joined + {domain})
  {
    hide Progress;
    hide OneRoot;
    ProgressForest(p, keys, links, done);
    assert Linked(links, first, domain);
    JoinKeepsProgress(p, q, keys, links, done, first, domain);
    JoinExtendsOneRoot(p, q, first, domain, joined);
  }

  lemma OneRootSingle(p: Parents, first: string)
    requires Forest(p) && first in p
    ensures OneRoot(p, {first})
  {
  }

  lemma ProgressForest(p: Parents, keys: set<string>, links: Links, done: Links)
    requires Progress(p, keys, links, done)
    ensures Forest(p) && p.Keys == keys
  {
  }

  lemma JoinExtendsOneRoot(p: Parents, q: Parents, first: string, domain: string, joined: set<string>)
    requires Forest(p) && first in p && domain in p && IsJoin(p, q, first, domain)
    requires joined <= p.Keys && OneRoot(p, joined) && first in joined
    ensures OneRoot(q, joined + {domain})
  {
    hide Root;
    JoinKeepsOneRoot(p, q, first, domain, joined);
    JoinedShareRoot(p, q, first, domain);
    forall a, b | a in joined + {domain} && b in joined + {domain} ensures Root(q, a) == Root(q, b) {
      assert a in joined ==> Root(q, a) == Root(q, first);
      assert b in joined ==> Root(q, b) == Root(q, first);
    }
  }

  lemma ProgressAdd(p: Parents, keys: set<string>, links: Links, done: Links, g: set<string>)
    requires Progress(p, keys, links, done) && g <= keys && OneRoot(p, g)
    ensures Progress(p, keys, links, done + {g})
  {
  }

  /** Unites the domains of every unambiguous group, in the order given, and collects the ambiguous ones. */
  method UniteGroups(parents: DomainParents, groups: seq<Group>, existing: map<string, string>)
    returns (ambiguous: set<string>)
    requires Forest(parents.parent) && forall d | d in parents.parent :: parents.parent[d] == d
    requires forall g | g in groups :: g.domains != {} && g.domains <= parents.parent.Keys
    modifies parents
    ensures Represents(parents.parent, LinksOf(groups, existing)) && parents.parent.Keys == old(parents.parent.Keys)
    ensures ambiguous == set g | g in groups && Ambiguous(g.domains, existing) :: g.parent
  {
    hide Progress;
    hide Ambiguous;
    ghost var links := LinksOf(groups, existing);
    ghost var keys := parents.parent.Keys;
    StartsSound(parents.parent, links);
    assert LinksOf(groups[..0], existing) == {};
    ambiguous := {};
    var i := 0;
    while i < |groups|
      invariant 0 <= i <= |groups| && parents.parent.Keys == keys
      invariant Progress(parents.parent, keys, links, LinksOf(groups[..i], existing))
      invariant ambiguous == set g | g in groups[..i] && Ambiguous(g.domains, existing) :: g.parent
    {
      var group := groups[i];
      assert groups[..i + 1] == groups[..i] + [group];
      if Ambiguous(group.domains, existing) {
        ambiguous := ambiguous + {group.parent};
        assert LinksOf(groups[..i + 1], existing) == LinksOf(groups[..i], existing);
      } else {
        assert LinksOf(groups[..i + 1], existing) == LinksOf(groups[..i], existing) + {group.domains};
        UniteGroup(parents, group.domains, links, LinksOf(groups[..i], existing));
        ProgressForest(parents.parent, keys, links, LinksOf(groups[..i + 1], existing));
      }
      i := i + 1;
    }
    assert groups[..i] == groups;
    AllUnited(parents.parent, keys, links);
  }

  lemma AllUnited(p: Parents, keys: set<string>, links: Links)
    requires Progress(p, keys, links, links)
    ensures Represents(p, links)
  {
    SoundAndComplete(p, links);
  }
}
