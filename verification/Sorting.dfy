/** Python's `sorted` with tuple keys.

    Tuples compare lexicographically and equal keys keep their input order. A comparison of a missing value with a
    present one raises. */
module Sorting {
  import opened Text
  import Ordering

  /** One component of a sort key. Truth values count as 0 and 1; a missing time counts as infinite; `Absent` is
      Python's None, which nothing else can be compared with. */
  datatype Part = Number(value: real) | Infinity | Word(text: string) | Absent

  type Key = seq<Part>

  function Flag(b: bool): Part { Number(if b then 1.0 else 0.0) }

  function Kind(p: Part): nat {
    match p case Number(_) => 0 case Infinity => 1 case Word(_) => 2 case Absent => 3
  }

  predicate PartLess(a: Part, b: Part) {
    match (a, b)
    case (Number(x), Number(y)) => x < y
    case (Word(x), Word(y)) => Ordering.Less(x, y)
    case _ => Kind(a) < Kind(b)
  }

  predicate KeyLess(a: Key, b: Key) {
    b != [] && (a == [] || PartLess(a[0], b[0]) || (a[0] == b[0] && KeyLess(a[1..], b[1..])))
  }

  lemma PartTotal(a: Part, b: Part)
    ensures a == b || PartLess(a, b) || PartLess(b, a)
    ensures !(PartLess(a, b) && PartLess(b, a))
    ensures !PartLess(a, a)
  {
    if a.Word? && b.Word? {
      Ordering.LessTotal(a.text, b.text);
    }
    if a.Word? {
      Ordering.LessIrreflexive(a.text);
    }
  }

  lemma PartTransitive(a: Part, b: Part, c: Part)
    requires PartLess(a, b) && PartLess(b, c)
    ensures PartLess(a, c)
  {
    if a.Word? && b.Word? && c.Word? {
      Ordering.LessTransitive(a.text, b.text, c.text);
    }
  }

  lemma {:induction false} KeyTotal(a: Key, b: Key)
    ensures a == b || KeyLess(a, b) || KeyLess(b, a)
    ensures !(KeyLess(a, b) && KeyLess(b, a))
  {
    hide PartLess;
    if a != [] && b != [] {
      PartTotal(a[0], b[0]);
      KeyTotal(a[1..], b[1..]);
      assert a == [a[0]] + a[1..] && b == [b[0]] + b[1..];
    }
  }

  lemma {:induction false} KeyIrreflexive(a: Key)
    ensures !KeyLess(a, a)
  {
    hide PartLess;
    if a != [] {
      PartTotal(a[0], a[0]);
      KeyIrreflexive(a[1..]);
    }
  }

  lemma {:induction false} KeyTransitive(a: Key, b: Key, c: Key)
    requires KeyLess(a, b) && KeyLess(b, c)
    ensures KeyLess(a, c)
  {
    hide PartLess;
    if a != [] {
      if PartLess(a[0], b[0]) && PartLess(b[0], c[0]) {
        PartTransitive(a[0], b[0], c[0]);
      } else if a[0] == b[0] == c[0] {
        KeyTransitive(a[1..], b[1..], c[1..]);
      }
    }
  }

  /** Numbers compare with numbers and infinity, text with text. */
  predicate SameKind(a: Part, b: Part) { (Kind(a) <= 1 && Kind(b) <= 1) || (a.Word? && b.Word?) }

  /** Whether comparing two tuples succeeds: only their first different components are compared. */
  predicate Comparable(a: Key, b: Key) {
    a != [] && b != [] ==> if a[0] == b[0] then Comparable(a[1..], b[1..]) else SameKind(a[0], b[0])
  }

  lemma {:induction false} ComparableSymmetric(a: Key, b: Key)
    ensures Comparable(a, b) <==> Comparable(b, a)
  {
    if a != [] && b != [] && a[0] == b[0] {
      ComparableSymmetric(a[1..], b[1..]);
    }
  }

  predicate KeyAtMost(a: Key, b: Key) { a == b || KeyLess(a, b) }

  /** Between keys in order, comparability is transitive. */
  lemma {:induction false} ComparableBetween(a: Key, b: Key, c: Key)
    requires KeyAtMost(a, b) && KeyAtMost(b, c) && Comparable(a, b) && Comparable(b, c)
    ensures Comparable(a, c)
  {
    hide PartLess;
    if a != [] && c != [] && a != b && b != c {
      PartTotal(a[0], b[0]);
      PartTotal(b[0], c[0]);
      if a[0] == c[0] && a[0] == b[0] {
        ComparableBetween(a[1..], b[1..], c[1..]);
      }
    }
  }

  /** Keys in order: the first components decide, and only if they are equal the others. */
  lemma KeyAtMostFirst(a: Key, b: Key)
    requires KeyAtMost(a, b) && a != [] && b != []
    ensures !PartLess(b[0], a[0])
    ensures a[0] == b[0] ==> KeyAtMost(a[1..], b[1..])
  {
    PartTotal(a[0], b[0]);
  }

  // ---- Stable sorting ----------------------------------------------------------------------------

  /** A value with its sort key and its place in the input. */
  datatype Row<T> = Row(key: Key, position: nat, value: T)

  function Insert<T>(row: Row<T>, rows: seq<Row<T>>): (r: seq<Row<T>>)
    ensures multiset(r) == multiset(rows) + multiset{row}
  {
    if rows == [] then [row]
    else if KeyLess(rows[0].key, row.key) then
      assert rows == [rows[0]] + rows[1..];
      [rows[0]] + Insert(row, rows[1..])
    else [row] + rows
  }

  function Sort<T>(rows: seq<Row<T>>): (r: seq<Row<T>>)
    ensures multiset(r) == multiset(rows)
  {
    if rows == [] then []
    else
      assert rows == [rows[0]] + rows[1..];
      Insert(rows[0], Sort(rows[1..]))
  }

  /** A sorted list has the members of its input. */
  lemma SortMembers<T>(rows: seq<Row<T>>)
    ensures |Sort(rows)| == |rows|
    ensures forall row :: row in Sort(rows) <==> row in rows
  {
    assert |multiset(Sort(rows))| == |multiset(rows)|;
    forall row ensures row in Sort(rows) <==> row in rows {
      assert row in multiset(Sort(rows)) <==> row in multiset(rows);
    }
  }

  predicate Before<T>(a: Row<T>, b: Row<T>) {
    KeyLess(a.key, b.key) || (a.key == b.key && a.position < b.position)
  }

  predicate Ranked<T>(rows: seq<Row<T>>) {
    forall i, j | 0 <= i < j < |rows| :: Before(rows[i], rows[j])
  }

  predicate InInputOrder<T>(rows: seq<Row<T>>) {
    forall i, j | 0 <= i < j < |rows| :: rows[i].position < rows[j].position
  }

  lemma BeforeTransitive<T>(a: Row<T>, b: Row<T>, c: Row<T>)
    requires Before(a, b) && Before(b, c)
    ensures Before(a, c)
  {
    hide KeyLess;
    if KeyLess(a.key, b.key) && KeyLess(b.key, c.key) {
      KeyTransitive(a.key, b.key, c.key);
    }
  }

  lemma BeforeIrreflexive<T>(a: Row<T>, b: Row<T>)
    requires Before(a, b)
    ensures a != b && !Before(b, a)
  {
    KeyIrreflexive(a.key);
    KeyTotal(a.key, b.key);
  }

  lemma RankedCons<T>(row: Row<T>, rest: seq<Row<T>>)
    requires Ranked(rest)
    requires rest != [] ==> Before(row, rest[0])
    ensures Ranked([row] + rest)
  {
    hide Before;
    var all := [row] + rest;
    forall i, j | 0 <= i < j < |all| ensures Before(all[i], all[j]) {
      if i == 0 && j > 1 {
        assert Before(rest[0], rest[j - 1]);
        BeforeTransitive(row, rest[0], rest[j - 1]);
      }
    }
  }

  lemma {:induction false} InsertRanks<T>(row: Row<T>, rows: seq<Row<T>>)
    requires Ranked(rows)
    requires forall other | other in rows :: row.position < other.position
    ensures Ranked(Insert(row, rows))
    ensures Insert(row, rows)[0] == row || (rows != [] && Insert(row, rows)[0] == rows[0])
  {
    hide KeyLess;
    if rows == [] {
    } else if KeyLess(rows[0].key, row.key) {
      InsertRanks(row, rows[1..]);
      RankedCons(rows[0], Insert(row, rows[1..]));
    } else {
      KeyTotal(rows[0].key, row.key);
      assert rows[0] in rows;
      RankedCons(row, rows);
    }
  }

  lemma NothingRanked<T>()
    ensures Ranked<T>([])
  {
  }

  /** Sorting puts every row before the rows with greater keys and before later rows with equal keys. */
  lemma {:induction false} SortRanks<T>(rows: seq<Row<T>>)
    requires InInputOrder(rows)
    ensures Ranked(Sort(rows))
  {
    hide Insert;
    hide Ranked;
    if rows == [] {
      assert Ranked(Sort(rows)) by { NothingRanked<T>(); }
    } else {
      var rest := rows[1..];
      SortRanks(rest);
      SortMembers(rest);
      forall other | other in Sort(rest) ensures rows[0].position < other.position {
        assert multiset(Sort(rest))[other] > 0;
        assert other in rest;
      }
      InsertRanks(rows[0], Sort(rest));
    }
  }

  lemma RankedTail<T>(rows: seq<Row<T>>)
    requires Ranked(rows) && rows != []
    ensures Ranked(rows[1..])
    ensures forall row :: row in rows[1..] <==> row in rows && row != rows[0]
  {
    hide Before;
    forall row | row in rows[1..] ensures row in rows && row != rows[0] {
      var i :| 0 <= i < |rows[1..]| && rows[1..][i] == row;
      assert Before(rows[0], rows[i + 1]);
      BeforeIrreflexive(rows[0], row);
    }
    forall row | row in rows && row != rows[0] ensures row in rows[1..] {
      var i :| 0 <= i < |rows| && rows[i] == row;
      assert rows[1..][i - 1] == row;
    }
  }

  lemma NoMembers<T>(a: seq<T>, b: seq<T>)
    requires forall x :: x in a <==> x in b
    ensures a == [] ==> b == []
  {
    if b != [] {
      assert b[0] in a;
    }
  }

  /** A ranked list is determined by its members. */
  lemma {:induction false} RankedUnique<T>(a: seq<Row<T>>, b: seq<Row<T>>)
    requires Ranked(a) && Ranked(b)
    requires forall row :: row in a <==> row in b
    ensures a == b
    decreases |a|
  {
    hide Before;
    NoMembers(a, b);
    NoMembers(b, a);
    if a != [] {
      assert a[0] in b && b[0] in a;
      var i :| 0 <= i < |b| && b[i] == a[0];
      var j :| 0 <= j < |a| && a[j] == b[0];
      if i > 0 && j > 0 {
        assert Before(b[0], b[i]) && Before(a[0], a[j]);
        BeforeIrreflexive(a[0], b[0]);
      }
      RankedTail(a);
      RankedTail(b);
      RankedUnique(a[1..], b[1..]);
    }
  }

  // ---- Sorting that can raise ------------------------------------------------------------------------

  /** Insertion that gives up at the first comparison that raises. */
  function TryInsert<T>(row: Row<T>, rows: seq<Row<T>>): Option<seq<Row<T>>> {
    if rows == [] then Some([row])
    else if !Comparable(rows[0].key, row.key) then None
    else if KeyLess(rows[0].key, row.key) then
      match TryInsert(row, rows[1..])
      case None => None
      case Some(rest) => Some([rows[0]] + rest)
    else Some([row] + rows)
  }

  function TrySort<T>(rows: seq<Row<T>>): Option<seq<Row<T>>> {
    if rows == [] then Some([])
    else
      match TrySort(rows[1..])
      case None => None
      case Some(rest) => TryInsert(rows[0], rest)
  }

  ghost predicate ComparesWith<T>(row: Row<T>, rows: seq<Row<T>>) {
    forall other | other in rows :: Comparable(other.key, row.key)
  }

  ghost predicate AllComparable<T>(rows: seq<Row<T>>) {
    forall a, b | a in rows && b in rows :: Comparable(a.key, b.key)
  }

  lemma {:induction false} TryInsertIff<T>(row: Row<T>, rows: seq<Row<T>>)
    requires Ranked(rows) && AllComparable(rows)
    ensures TryInsert(row, rows) == if ComparesWith(row, rows) then Some(Insert(row, rows)) else None
  {
    hide Comparable;
    hide KeyLess;
    if rows == [] {
    } else {
      assert rows[0] in rows;
      if Comparable(rows[0].key, row.key) {
        if KeyLess(rows[0].key, row.key) {
          ComparesTail(row, rows);
          TryInsertIff(row, rows[1..]);
        } else {
          ComparesWithHead(row, rows);
        }
      }
    }
  }

  lemma ComparesTail<T>(row: Row<T>, rows: seq<Row<T>>)
    requires rows != []
    ensures ComparesWith(row, rows) <==> Comparable(rows[0].key, row.key) && ComparesWith(row, rows[1..])
  {
    hide Comparable;
    assert rows == [rows[0]] + rows[1..];
  }

  /** A row that goes in front of a ranked list compares with all of it when it compares with its head. */
  lemma ComparesWithHead<T>(row: Row<T>, rows: seq<Row<T>>)
    requires Ranked(rows) && AllComparable(rows) && rows != []
    requires Comparable(rows[0].key, row.key) && !KeyLess(rows[0].key, row.key)
    ensures ComparesWith(row, rows)
  {
    hide Comparable;
    hide KeyLess;
    KeyTotal(rows[0].key, row.key);
    forall other | other in rows ensures Comparable(other.key, row.key) {
      var i :| 0 <= i < |rows| && rows[i] == other;
      assert i > 0 ==> Before(rows[0], rows[i]);
      ComparableSymmetric(rows[0].key, row.key);
      ComparableBetween(row.key, rows[0].key, other.key);
      ComparableSymmetric(row.key, other.key);
    }
  }

  /** Sorting raises exactly when some two keys cannot be compared, and otherwise sorts. */
  lemma {:induction false} TrySortIff<T>(rows: seq<Row<T>>)
    requires InInputOrder(rows)
    ensures TrySort(rows) == if AllComparable(rows) then Some(Sort(rows)) else None
  {
    hide Comparable;
    hide InInputOrder;
    hide Insert;
    hide Ranked;
    if rows != [] {
      var rest := rows[1..];
      LaterInOrder(rows);
      TrySortIff(rest);
      AllComparableFirst(rows);
      if AllComparable(rest) {
        SortRanks(rest);
        SameMembers(Sort(rest), rest);
        TryInsertIff(rows[0], Sort(rest));
      }
    }
  }

  lemma LaterInOrder<T>(rows: seq<Row<T>>)
    requires InInputOrder(rows) && rows != []
    ensures InInputOrder(rows[1..])
  {
  }

  lemma AllComparableFirst<T>(rows: seq<Row<T>>)
    requires rows != []
    ensures AllComparable(rows) <==> AllComparable(rows[1..]) && ComparesWith(rows[0], rows[1..])
  {
    hide Comparable;
    var first, rest := rows[0], rows[1..];
    assert rows == [first] + rest;
    ComparableSelf(first.key);
    if AllComparable(rest) && ComparesWith(first, rest) {
      forall a, b | a in rows && b in rows ensures Comparable(a.key, b.key) {
        ComparableSymmetric(a.key, b.key);
      }
    }
  }

  lemma {:induction false} ComparableSelf(a: Key)
    ensures Comparable(a, a)
  {
    if a != [] {
      ComparableSelf(a[1..]);
    }
  }

  lemma SameMembers<T>(a: seq<Row<T>>, b: seq<Row<T>>)
    requires multiset(a) == multiset(b)
    ensures AllComparable(a) <==> AllComparable(b)
    ensures forall row :: ComparesWith(row, a) <==> ComparesWith(row, b)
  {
    hide Comparable;
    forall x ensures x in a <==> x in b {
      assert x in multiset(a) <==> x in multiset(b);
    }
  }
}
