/** The code-point order of strings.

    A set of strings has exactly one list that is sorted in it; sorting the keys of a dictionary gives
    that list. */
module Ordering {

  predicate Less(a: string, b: string) {
    b != "" && (a == "" || a[0] < b[0] || (a[0] == b[0] && Less(a[1..], b[1..])))
  }

  lemma {:induction false} LessIrreflexive(a: string)
    ensures !Less(a, a)
  {
    if a != "" {
      LessIrreflexive(a[1..]);
    }
  }

  lemma {:induction false} LessTotal(a: string, b: string)
    ensures a == b || Less(a, b) || Less(b, a)
    ensures !(Less(a, b) && Less(b, a))
  {
    if a != "" && b != "" {
      LessTotal(a[1..], b[1..]);
      assert a == [a[0]] + a[1..] && b == [b[0]] + b[1..];
    }
  }

  lemma {:induction false} LessTransitive(a: string, b: string, c: string)
    requires Less(a, b) && Less(b, c)
    ensures Less(a, c)
  {
    if a != "" {
      if a[0] == b[0] == c[0] {
        LessTransitive(a[1..], b[1..], c[1..]);
      }
    }
  }

  predicate IsMinimum(m: string, s: set<string>) {
    m in s && forall x | x in s :: x == m || Less(m, x)
  }

  lemma {:induction false} MinimumExists(s: set<string>)
    requires s != {}
    ensures exists m :: IsMinimum(m, s)
    decreases |s|
  {
    var m :| m in s;
    var rest := s - {m};
    if rest == {} {
      assert s == {m};
      assert IsMinimum(m, s);
    } else {
      MinimumExists(rest);
      var n :| IsMinimum(n, rest);
      LessTotal(m, n);
      if Less(n, m) {
        assert IsMinimum(n, s);
      } else {
        forall x | x in s ensures x == m || Less(m, x) {
          if x != m && x != n {
            LessTransitive(m, n, x);
          }
        }
        assert IsMinimum(m, s);
      }
    }
  }

  lemma MinimumUnique(m: string, n: string, s: set<string>)
    requires IsMinimum(m, s) && IsMinimum(n, s)
    ensures m == n
  {
    LessTotal(m, n);
    LessIrreflexive(m);
  }

  ghost function Minimum(s: set<string>): (m: string)
    requires s != {}
    ensures IsMinimum(m, s)
  {
    MinimumExists(s);
    var m :| IsMinimum(m, s);
    m
  }

  method Least(s: set<string>) returns (m: string)
    requires s != {}
    ensures m in s && m == Minimum(s)
  {
    MinimumExists(s);
    m :| m in s && IsMinimum(m, s);
    MinimumUnique(m, Minimum(s), s);
  }

  predicate StrictlyIncreasing(list: seq<string>) {
    forall i, j | 0 <= i < j < |list| :: Less(list[i], list[j])
  }

  /** `sorted` on a set of distinct strings. */
  ghost function Sorted(s: set<string>): (list: seq<string>)
    ensures forall x :: x in list <==> x in s
    ensures StrictlyIncreasing(list)
    decreases |s|
  {
    if s == {} then []
    else
      var m := Minimum(s);
      [m] + Sorted(s - {m})
  }

  lemma IncreasingTail(a: seq<string>)
    requires StrictlyIncreasing(a) && a != []
    ensures StrictlyIncreasing(a[1..])
    ensures forall x :: x in a[1..] <==> x in a && x != a[0]
  {
    LessIrreflexive(a[0]);
    forall x | x in a && x != a[0] ensures x in a[1..] {
      var i :| 0 <= i < |a| && a[i] == x;
      assert a[1..][i - 1] == x;
    }
    forall x | x in a[1..] ensures x in a && x != a[0] {
      var i :| 0 <= i < |a[1..]| && a[1..][i] == x;
      assert Less(a[0], a[i + 1]);
    }
  }
}
