/** Strings as sequences of Unicode scalar values: splitting, joining and decimal numerals.

    JavaScript and Python agree on these operations for the strings that links, streams and
    imports are made of. */
module Text {

  datatype Option<+T> = None | Some(value: T)

  /** The first index of `c` in `s`, or `|s|` when it does not occur. */
  function IndexOf(s: string, c: char): (i: nat)
    ensures i <= |s|
    ensures forall k | 0 <= k < i :: s[k] != c
    ensures i < |s| ==> s[i] == c
  {
    if s == "" || s[0] == c then 0 else 1 + IndexOf(s[1..], c)
  }

  /** JavaScript's and Python's `split` on a one-character separator. */
  function Split(s: string, c: char): (parts: seq<string>)
    ensures |parts| >= 1
    ensures forall part | part in parts :: c !in part
    decreases |s|
  {
    var i := IndexOf(s, c);
    if i == |s| then [s] else [s[..i]] + Split(s[i + 1..], c)
  }

  lemma Reassociate<T>(a: seq<T>, b: seq<T>, c: seq<T>)
    ensures (a + b) + c == a + (b + c) && [] + c == c
  {
  }

  function Join(parts: seq<string>, separator: string): string {
    if parts == [] then ""
    else if |parts| == 1 then parts[0]
    else parts[0] + separator + Join(parts[1..], separator)
  }

  lemma IndexOfConcat(a: string, c: char, b: string)
    requires c !in a
    ensures IndexOf(a + [c] + b, c) == |a|
  {
    var s := a + [c] + b;
    assert s[|a|] == c;
    assert forall k | 0 <= k < |a| :: s[k] == a[k];
  }

  lemma IndexOfAbsent(s: string, c: char)
    requires c !in s
    ensures IndexOf(s, c) == |s|
  {
  }

  lemma SplitFirst(a: string, c: char, b: string)
    requires c !in a
    ensures Split(a + [c] + b, c) == [a] + Split(b, c)
  {
    hide IndexOf;
    IndexOfConcat(a, c, b);
    assert (a + [c] + b)[..|a|] == a;
    assert (a + [c] + b)[|a| + 1..] == b;
  }

  lemma {:induction false} SplitJoin(parts: seq<string>, c: char)
    requires |parts| >= 1
    requires forall part | part in parts :: c !in part
    ensures Split(Join(parts, [c]), c) == parts
    decreases |parts|
  {
    hide IndexOf;
    if |parts| == 1 {
      IndexOfAbsent(parts[0], c);
    } else {
      SplitFirst(parts[0], c, Join(parts[1..], [c]));
      hide Split;
      SplitJoin(parts[1..], c);
    }
  }

  /** Every character of `s` satisfies `p`. */
  predicate All(s: string, p: char -> bool) {
    forall c | c in s :: p(c)
  }

  predicate IsDigit(c: char) { '0' <= c <= '9' }

  predicate IsAlphanumeric(c: char) { 'A' <= c <= 'Z' || 'a' <= c <= 'z' || IsDigit(c) }

  /** Decimal numeral of a natural number, without leading zeros. */
  function Numeral(n: nat): (s: string)
    ensures |s| >= 1 && All(s, IsDigit)
  {
    if n < 10 then [(n + '0' as int) as char] else Numeral(n / 10) + [(n % 10 + '0' as int) as char]
  }

  /** The number a string of decimal digits denotes; leading zeros are allowed. */
  function NumeralValue(s: string): nat
    requires All(s, IsDigit)
  {
    if s == "" then 0
    else
      assert s[|s| - 1] in s;
      assert All(s[..|s| - 1], IsDigit);
      10 * NumeralValue(s[..|s| - 1]) + (s[|s| - 1] as int - '0' as int)
  }

  lemma {:induction false} NumeralRoundTrip(n: nat)
    ensures NumeralValue(Numeral(n)) == n
  {
    if n >= 10 {
      NumeralRoundTrip(n / 10);
      assert Numeral(n)[..|Numeral(n)| - 1] == Numeral(n / 10);
    } else {
      assert Numeral(n)[..0] == "";
    }
  }

  function Zeros(k: nat): (s: string)
    ensures |s| == k && All(s, IsDigit)
  {
    seq(k, _ => '0')
  }

  lemma {:induction false} ZeroValue(s: string)
    requires All(s, IsDigit) && NumeralValue(s) == 0
    ensures s == Zeros(|s|)
    decreases |s|
  {
    if s != "" {
      var init := s[..|s| - 1];
      assert s[|s| - 1] in s;
      ZeroValue(init);
      assert s == init + [s[|s| - 1]];
    }
  }

  lemma {:induction false} PaddedValue(k: nat, s: string)
    requires All(s, IsDigit)
    ensures All(Zeros(k) + s, IsDigit) && NumeralValue(Zeros(k) + s) == NumeralValue(s)
    decreases k + |s|
  {
    var all := Zeros(k) + s;
    if s != "" {
      assert s[|s| - 1] in s;
      assert all[..|all| - 1] == Zeros(k) + s[..|s| - 1];
      PaddedValue(k, s[..|s| - 1]);
    } else if k > 0 {
      assert all[..|all| - 1] == Zeros(k - 1) + s;
      PaddedValue(k - 1, s);
    }
  }

  lemma InitDigits(s: string)
    requires All(s, IsDigit) && s != ""
    ensures IsDigit(s[|s| - 1]) && All(s[..|s| - 1], IsDigit)
  {
    assert s[|s| - 1] in s;
  }

  lemma NumeralSnoc(s: string, init: string)
    requires s != "" && init == s[..|s| - 1] && All(s, IsDigit) && All(init, IsDigit) && NumeralValue(s) > 0
    ensures Numeral(NumeralValue(s)) == (if NumeralValue(init) > 0 then Numeral(NumeralValue(init)) else "")
            + [s[|s| - 1]]
  {
    hide All;
    InitDigits(s);
    NumeralDigit(NumeralValue(init), s[|s| - 1]);
  }

  lemma NumeralDigit(v: nat, c: char)
    requires IsDigit(c) && 10 * v + (c as int - '0' as int) > 0
    ensures Numeral(10 * v + (c as int - '0' as int)) == (if v > 0 then Numeral(v) else "") + [c]
  {
    hide All;
    LastDigit(v, c as int - '0' as int);
  }

  lemma LastDigit(v: nat, d: nat)
    requires d < 10
    ensures (10 * v + d) / 10 == v && (10 * v + d) % 10 == d
  {
  }

  /** A string of digits is the numeral of its positive value behind leading zeros. */
  lemma {:induction false} DigitsArePadded(s: string)
    requires All(s, IsDigit) && NumeralValue(s) > 0
    ensures exists k: nat | k <= |s| :: s == Zeros(k) + Numeral(NumeralValue(s))
    decreases |s|
  {
    assert s != "";
    hide NumeralValue;
    hide Numeral;
    hide All;
    InitDigits(s);
    var init, last := s[..|s| - 1], [s[|s| - 1]];
    NumeralSnoc(s, init);
    assert s == init + last;
    if NumeralValue(init) > 0 {
      DigitsArePadded(init);
      var k: nat :| k <= |init| && init == Zeros(k) + Numeral(NumeralValue(init));
      Reassociate(Zeros(k), Numeral(NumeralValue(init)), last);
    } else {
      ZeroValue(init);
      Reassociate(last, last, last);
      assert s == Zeros(|init|) + Numeral(NumeralValue(s));
    }
  }

  function Power10(k: nat): (p: nat)
    ensures p >= 1
  {
    if k == 0 then 1 else 10 * Power10(k - 1)
  }

  /** A numeral with at most `k` digits is exactly one below ten to the `k`. */
  lemma {:induction false} NumeralLength(n: nat, k: nat)
    requires k >= 1
    ensures |Numeral(n)| <= k <==> n < Power10(k)
  {
    assert Power10(k) == 10 * Power10(k - 1);
    if n >= 10 && k > 1 {
      NumeralLength(n / 10, k - 1);
    } else if n >= 10 {
      assert Power10(1) == 10;
    }
  }

  lemma {:induction false} NumeralValueBound(s: string)
    requires All(s, IsDigit)
    ensures NumeralValue(s) < Power10(|s|)
  {
    if s != "" {
      assert s[|s| - 1] in s;
      assert All(s[..|s| - 1], IsDigit);
      NumeralValueBound(s[..|s| - 1]);
    }
  }
}
