/** Federal awards and open opportunities aggregated by sector, recipient and fiscal quarter. Amounts are exact. */
module Procurement {
  import opened Text
  import opened Sorting
  import Ordering

  // ---- Sectors and fiscal quarters -----------------------------------------------------------------

  const MARKETS: seq<string> :=
    ["Commercial Aerospace", "Defense", "Space", "Semiconductor", "Medical", "Robotics", "Energy"]

  predicate StartsWith(s: string, prefix: string) { prefix <= s }

  predicate Contains(s: string, part: string) { exists i | 0 <= i <= |s| :: part <= s[i..] }

  /** `naics` and the lower-case `agency` are "" when missing. */
  function MarketFor(naics: string, agency: string): string {
    if StartsWith(naics, "3364") || StartsWith(naics, "3365") then "Commercial Aerospace"
    else if StartsWith(naics, "3344") then "Semiconductor"
    else if StartsWith(naics, "3391") then "Medical"
    else if StartsWith(naics, "335") then "Energy"
    else if Contains(agency, "nasa") || Contains(agency, "space") then "Space"
    else if Contains(agency, "defense") || Contains(agency, "army") || Contains(agency, "navy")
            || Contains(agency, "air force")
    then "Defense"
    else "UNRESOLVED"
  }

  datatype Fiscal = Fiscal(year: Option<int>, quarter: Option<int>)

  datatype Date = Date(year: int, month: int)

  function FiscalOf(d: Option<Date>): Fiscal {
    if d.None? then Fiscal(None, None)
    else
      var (year, month) := (d.value.year, d.value.month);
      Fiscal(Some(if month >= 10 then year + 1 else year), Some((month - 10) % 12 / 3 + 1))
  }

  /** Fiscal quarters are the calendar's quarters counted from October: consecutive quarters have consecutive indexes
      across year boundaries. */
  lemma FiscalQuarterIndex(d: Date)
    requires 1 <= d.month <= 12
    ensures var f := FiscalOf(Some(d));
            1 <= f.quarter.value <= 4 && 4 * f.year.value + f.quarter.value - 1 == (12 * d.year + d.month + 2) / 3
  {
    var m := d.month;
    assert (m - 10) % 12 == if m >= 10 then m - 10 else m + 2;
    assert (12 * d.year + m + 2) / 3 == 4 * d.year + (m + 2) / 3;
  }

  // ---- Sums and groups -----------------------------------------------------------------------------

  datatype Award = Award(date: Option<Date>, market: string, recipient: Option<string>, amount: Option<real>)

  function YearOf(a: Award): Option<int> { FiscalOf(a.date).year }

  function AmountOf(a: Award): real { if a.amount.Some? then a.amount.value else 0.0 }

  function Sum<T>(items: seq<T>, weight: T -> real): real {
    if items == [] then 0.0 else weight(items[0]) + Sum(items[1..], weight)
  }

  /** A dictionary of totals in insertion order. */
  datatype Entry<K> = Entry(key: K, amount: real)

  function Add<K(==)>(entries: seq<Entry<K>>, key: K, amount: real): seq<Entry<K>> {
    if entries == [] then [Entry(key, amount)]
    else if entries[0].key == key then [Entry(key, entries[0].amount + amount)] + entries[1..]
    else [entries[0]] + Add(entries[1..], key, amount)
  }

  /** The totals of the awards with an amount, by key. */
  function Group<K(==)>(awards: seq<Award>, keyOf: Award -> K): seq<Entry<K>>
    decreases |awards|
  {
    if awards == [] then []
    else
      var rest, last := Group(awards[..|awards| - 1], keyOf), awards[|awards| - 1];
      if last.amount.Some? then Add(rest, keyOf(last), last.amount.value) else rest
  }

  function Selected<K>(wanted: K -> bool): Entry<K> -> real { (e: Entry<K>) => if wanted(e.key) then e.amount else 0.0 }

  function Drawn<K>(keyOf: Award -> K, wanted: K -> bool): Award -> real {
    a => if wanted(keyOf(a)) then AmountOf(a) else 0.0
  }

  lemma {:induction false} SumConcat<T>(a: seq<T>, b: seq<T>, weight: T -> real)
    ensures Sum(a + b, weight) == Sum(a, weight) + Sum(b, weight)
  {
    if a == [] {
      assert a + b == b;
    } else {
      assert (a + b)[1..] == a[1..] + b;
      SumConcat(a[1..], b, weight);
    }
  }

  lemma SumOne<T>(x: T, weight: T -> real)
    ensures Sum([x], weight) == weight(x)
  {
    assert [x][1..] == [];
  }

  lemma SumLast<T>(items: seq<T>, weight: T -> real)
    requires items != []
    ensures Sum(items, weight) == Sum(items[..|items| - 1], weight) + weight(items[|items| - 1])
  {
    var init, last := items[..|items| - 1], items[|items| - 1];
    assert items == init + [last];
    SumConcat(init, [last], weight);
    SumOne(last, weight);
  }

  lemma {:induction false} AddConserves<K>(entries: seq<Entry<K>>, key: K, amount: real, wanted: K -> bool)
    ensures Sum(Add(entries, key, amount), Selected(wanted))
         == Sum(entries, Selected(wanted)) + if wanted(key) then amount else 0.0
  {
    var after := Add(entries, key, amount);
    if entries == [] {
      SumOne(Entry(key, amount), Selected(wanted));
    } else if entries[0].key == key {
      assert after[1..] == entries[1..];
    } else {
      assert after[1..] == Add(entries[1..], key, amount);
      AddConserves(entries[1..], key, amount, wanted);
    }
  }

  /** Grouping conserves money, whatever the key: the totals under any choice of keys sum to the amounts of the awards
      with those keys. */
  lemma {:induction false} GroupConserves<K>(awards: seq<Award>, keyOf: Award -> K, wanted: K -> bool)
    ensures Sum(Group(awards, keyOf), Selected(wanted)) == Sum(awards, Drawn(keyOf, wanted))
    decreases |awards|
  {
    if awards != [] {
      var init, last := awards[..|awards| - 1], awards[|awards| - 1];
      GroupConserves(init, keyOf, wanted);
      SumLast(awards, Drawn(keyOf, wanted));
      if last.amount.Some? {
        AddConserves(Group(init, keyOf), keyOf(last), last.amount.value, wanted);
      }
    }
  }

  predicate DistinctKeys<K(==)>(entries: seq<Entry<K>>) {
    forall i, j | 0 <= i < j < |entries| :: entries[i].key != entries[j].key
  }

  predicate HasKey<K(==)>(entries: seq<Entry<K>>, key: K) { exists i | 0 <= i < |entries| :: entries[i].key == key }

  lemma {:induction false} AddKeys<K>(entries: seq<Entry<K>>, key: K, amount: real)
    requires DistinctKeys(entries)
    ensures DistinctKeys(Add(entries, key, amount))
    ensures forall i | 0 <= i < |Add(entries, key, amount)| ::
              Add(entries, key, amount)[i].key == key || HasKey(entries, Add(entries, key, amount)[i].key)
  {
    if entries != [] && entries[0].key != key {
      AddKeys(entries[1..], key, amount);
      var after := Add(entries[1..], key, amount);
      forall i | 0 <= i < |after|
        ensures after[i].key != entries[0].key && (after[i].key == key || HasKey(entries, after[i].key))
      {
        if after[i].key != key {
          var j :| 0 <= j < |entries[1..]| && entries[1..][j].key == after[i].key;
          assert entries[j + 1].key == after[i].key;
        }
      }
    }
  }

  lemma {:induction false} GroupKeysDistinct<K>(awards: seq<Award>, keyOf: Award -> K)
    ensures DistinctKeys(Group(awards, keyOf))
    decreases |awards|
  {
    hide DistinctKeys;
    if awards == [] {
      NoKeys<K>();
    } else {
      var init, last := awards[..|awards| - 1], awards[|awards| - 1];
      GroupKeysDistinct(init, keyOf);
      if last.amount.Some? {
        AddKeys(Group(init, keyOf), keyOf(last), last.amount.value);
      }
    }
  }

  lemma NoKeys<K>()
    ensures DistinctKeys<K>([])
  {
  }

  // ---- Sorted lists of totals ------------------------------------------------------------------------

  function Ranks<K>(entries: seq<Entry<K>>, rank: Entry<K> -> Key, i: nat): (rows: seq<Row<Entry<K>>>)
    requires i <= |entries|
    ensures forall row | row in rows :: row.position >= i && row.key == rank(row.value)
    decreases |entries| - i
  {
    if i == |entries| then [] else [Row(rank(entries[i]), i, entries[i])] + Ranks(entries, rank, i + 1)
  }

  function Values<T>(rows: seq<Row<T>>): (r: seq<T>)
    ensures |r| == |rows| && forall i | 0 <= i < |r| :: r[i] == rows[i].value
  {
    if rows == [] then [] else [rows[0].value] + Values(rows[1..])
  }

  function Listed<K>(entries: seq<Entry<K>>, rank: Entry<K> -> Key): seq<Entry<K>> {
    Values(Sort(Ranks(entries, rank, 0)))
  }

  /** The same, raising where a comparison of two keys raises. */
  function TryListed<K>(entries: seq<Entry<K>>, rank: Entry<K> -> Key): Option<seq<Entry<K>>> {
    var sorted := TrySort(Ranks(entries, rank, 0));
    if sorted.None? then None else Some(Values(sorted.value))
  }

  lemma {:induction false} RanksSum<K>(entries: seq<Entry<K>>, rank: Entry<K> -> Key, i: nat, weight: Entry<K> -> real)
    requires i <= |entries|
    ensures Sum(Values(Ranks(entries, rank, i)), weight) == Sum(entries[i..], weight)
    ensures |Ranks(entries, rank, i)| == |entries| - i
    decreases |entries| - i
  {
    if i < |entries| {
      RanksSum(entries, rank, i + 1, weight);
      assert entries[i..][1..] == entries[i + 1..];
      assert Ranks(entries, rank, i)[1..] == Ranks(entries, rank, i + 1);
    }
  }

  lemma {:induction false} InsertSum<T>(row: Row<T>, rows: seq<Row<T>>, weight: T -> real)
    ensures Sum(Values(Insert(row, rows)), weight) == weight(row.value) + Sum(Values(rows), weight)
  {
    hide KeyLess;
    if rows != [] && KeyLess(rows[0].key, row.key) {
      InsertSum(row, rows[1..], weight);
      assert Insert(row, rows)[1..] == Insert(row, rows[1..]);
    } else {
      assert Insert(row, rows)[1..] == rows;
    }
  }

  lemma {:induction false} SortSum<T>(rows: seq<Row<T>>, weight: T -> real)
    ensures Sum(Values(Sort(rows)), weight) == Sum(Values(rows), weight)
    ensures |Sort(rows)| == |rows|
  {
    hide Insert;
    if rows != [] {
      SortSum(rows[1..], weight);
      InsertSum(rows[0], Sort(rows[1..]), weight);
      SortMembers(rows);
    }
  }

  lemma ListedSum<K>(entries: seq<Entry<K>>, rank: Entry<K> -> Key, weight: Entry<K> -> real)
    ensures Sum(Listed(entries, rank), weight) == Sum(entries, weight)
    ensures |Listed(entries, rank)| == |entries|
  {
    RanksSum(entries, rank, 0, weight);
    SortSum(Ranks(entries, rank, 0), weight);
    assert entries[0..] == entries;
  }

  lemma {:induction false} RanksInOrder<K>(entries: seq<Entry<K>>, rank: Entry<K> -> Key, i: nat)
    requires i <= |entries|
    ensures InInputOrder(Ranks(entries, rank, i))
    decreases |entries| - i
  {
    if i < |entries| {
      RanksInOrder(entries, rank, i + 1);
      var rest := Ranks(entries, rank, i + 1);
      assert forall j | 0 <= j < |rest| :: rest[j] in rest && rest[j].position > i;
    }
  }

  /** A listing follows its rank. */
  lemma ListedInOrder<K>(entries: seq<Entry<K>>, rank: Entry<K> -> Key, i: nat, j: nat)
    requires i < j < |Listed(entries, rank)|
    ensures var a, b := Listed(entries, rank)[i], Listed(entries, rank)[j];
            KeyLess(rank(a), rank(b)) || rank(a) == rank(b)
  {
    hide KeyLess;
    hide Sort;
    var rows := Ranks(entries, rank, 0);
    RanksInOrder(entries, rank, 0);
    SortRanks(rows);
    assert Before(Sort(rows)[i], Sort(rows)[j]);
    assert Sort(rows)[i] in multiset(rows) && Sort(rows)[j] in multiset(rows) by {
      assert Sort(rows)[i] in multiset(Sort(rows)) && Sort(rows)[j] in multiset(Sort(rows));
    }
    assert Sort(rows)[i] in rows && Sort(rows)[j] in rows;
  }

  lemma {:induction false} RanksMember<K>(entries: seq<Entry<K>>, rank: Entry<K> -> Key, i: nat, k: nat)
    requires i <= k < |entries|
    ensures Row(rank(entries[k]), k, entries[k]) in Ranks(entries, rank, i)
    decreases k - i
  {
    if i < k {
      RanksMember(entries, rank, i + 1, k);
    }
  }

  lemma {:induction false} RanksFrom<K>(entries: seq<Entry<K>>, rank: Entry<K> -> Key, i: nat, row: Row<Entry<K>>)
    requires i <= |entries| && row in Ranks(entries, rank, i)
    ensures i <= row.position < |entries| && row.value == entries[row.position]
    decreases |entries| - i
  {
    if row != Ranks(entries, rank, i)[0] {
      RanksFrom(entries, rank, i + 1, row);
    }
  }

  ghost predicate RanksCompare<K>(entries: seq<Entry<K>>, rank: Entry<K> -> Key) {
    forall i, j | 0 <= i < |entries| && 0 <= j < |entries| :: Comparable(rank(entries[i]), rank(entries[j]))
  }

  /** A listing raises exactly when the keys of some two entries cannot be compared. */
  lemma TryListedIff<K>(entries: seq<Entry<K>>, rank: Entry<K> -> Key)
    ensures TryListed(entries, rank) == if RanksCompare(entries, rank) then Some(Listed(entries, rank)) else None
  {
    hide Comparable;
    hide Sort;
    hide TrySort;
    var rows := Ranks(entries, rank, 0);
    RanksInOrder(entries, rank, 0);
    TrySortIff(rows);
    if AllComparable(rows) {
      forall i, j | 0 <= i < |entries| && 0 <= j < |entries| ensures Comparable(rank(entries[i]), rank(entries[j])) {
        RanksMember(entries, rank, 0, i);
        RanksMember(entries, rank, 0, j);
      }
    }
    if RanksCompare(entries, rank) {
      forall a, b | a in rows && b in rows ensures Comparable(a.key, b.key) {
        RanksFrom(entries, rank, 0, a);
        RanksFrom(entries, rank, 0, b);
      }
    }
  }

  // ---- The award report ------------------------------------------------------------------------------

  datatype Quarter = Quarter(fiscal: Fiscal, market: string)

  datatype SectorTotal = SectorTotal(sector: string, amount: real, share: Option<real>)

  /** The awarded part of the projection; `Raised` stands for the exception of an impossible comparison. */
  datatype Report =
    | Report(year: Option<int>, total: real, sectors: seq<SectorTotal>, quarterly: seq<Entry<Quarter>>,
             recipients: seq<Entry<Option<string>>>)
    | Raised

  function LatestYear(awards: seq<Award>): Option<int> {
    if awards == [] then None
    else
      var rest, year := LatestYear(awards[1..]), YearOf(awards[0]);
      if year.None? || year.value == 0 then rest
      else if rest.None? || year.value > rest.value then year
      else rest
  }

  function YearFor(awards: seq<Award>, requested: Option<int>): Option<int> {
    if requested.Some? && requested.value != 0 then requested else LatestYear(awards)
  }

  function Scope(awards: seq<Award>, year: Option<int>): seq<Award> {
    if awards == [] then []
    else (if YearOf(awards[0]) == year then [awards[0]] else []) + Scope(awards[1..], year)
  }

  function MarketOf(a: Award): string { a.market }

  function RecipientOf(a: Award): Option<string> { a.recipient }

  function QuarterOf(a: Award): Quarter { Quarter(FiscalOf(a.date), a.market) }

  function NumberPart(x: Option<int>): Part { if x.Some? then Number(x.value as real) else Absent }

  function SectorRank(e: Entry<string>): Key { [Word(e.key)] }

  function QuarterRank(e: Entry<Quarter>): Key {
    [NumberPart(e.key.fiscal.year), NumberPart(e.key.fiscal.quarter), Word(e.key.market)]
  }

  function RecipientRank(e: Entry<Option<string>>): Key {
    [Number(-e.amount), if e.key.Some? then Word(e.key.value) else Absent]
  }

  /** Rounding to hundredths, ties to the even hundredth. */
  function Rounded(x: real): real {
    var scaled := x * 100.0;
    var low := scaled.Floor;
    var excess := scaled - low as real;
    (if excess < 0.5 || (excess == 0.5 && low % 2 == 0) then low else low + 1) as real / 100.0
  }

  function Share(amount: real, total: real): real
    requires total != 0.0
  {
    amount / total * 100.0
  }

  function WithShares(entries: seq<Entry<string>>, total: real): (r: seq<SectorTotal>)
    ensures |r| == |entries|
  {
    if entries == [] then []
    else
      var e := entries[0];
      [SectorTotal(e.key, e.amount, if total != 0.0 then Some(Rounded(Share(e.amount, total))) else None)]
      + WithShares(entries[1..], total)
  }

  function Total(awards: seq<Award>): real { Sum(awards, AmountOf) }

  function ReportOf(awards: seq<Award>, requested: Option<int>): Report {
    var year := YearFor(awards, requested);
    var scope := Scope(awards, year);
    var quarters, recipients := Group(awards, QuarterOf), Group(scope, RecipientOf);
    var byQuarter, byAmount := TryListed(quarters, QuarterRank), TryListed(recipients, RecipientRank);
    if byQuarter.None? || byAmount.None? then Raised
    else Report(year, Total(scope), WithShares(Listed(Group(scope, MarketOf), SectorRank), Total(scope)),
                byQuarter.value, byAmount.value)
  }

  // ---- Conservation ------------------------------------------------------------------------------------

  function Always<K>(): K -> bool { k => true }

  function InYear(year: Option<int>): Quarter -> bool { (k: Quarter) => k.fiscal.year == year }

  function SectorAmount(s: SectorTotal): real { s.amount }

  function EntryAmount<K>(): Entry<K> -> real { (e: Entry<K>) => e.amount }

  lemma {:induction false} SumSame<T>(items: seq<T>, v: T -> real, w: T -> real)
    requires forall x | x in items :: v(x) == w(x)
    ensures Sum(items, v) == Sum(items, w)
  {
    if items != [] {
      assert items[0] in items;
      SumSame(items[1..], v, w);
    }
  }

  lemma GroupTotal<K>(awards: seq<Award>, keyOf: Award -> K)
    ensures Sum(Group(awards, keyOf), EntryAmount()) == Total(awards)
  {
    GroupConserves(awards, keyOf, Always());
    SumSame(Group(awards, keyOf), EntryAmount(), Selected(Always()));
    SumSame(awards, AmountOf, Drawn(keyOf, Always()));
  }

  lemma {:induction false} ScopeTotal(awards: seq<Award>, year: Option<int>)
    ensures Total(Scope(awards, year)) == Sum(awards, Drawn(QuarterOf, InYear(year)))
  {
    if awards != [] {
      ScopeTotal(awards[1..], year);
      assert QuarterOf(awards[0]).fiscal.year == YearOf(awards[0]);
      if YearOf(awards[0]) == year {
        SumConcat([awards[0]], Scope(awards[1..], year), AmountOf);
        SumOne(awards[0], AmountOf);
      } else {
        assert Scope(awards, year) == Scope(awards[1..], year);
      }
    }
  }

  lemma {:induction false} WithSharesAmounts(entries: seq<Entry<string>>, total: real)
    ensures Sum(WithShares(entries, total), SectorAmount) == Sum(entries, EntryAmount())
  {
    hide Rounded;
    if entries != [] {
      WithSharesAmounts(entries[1..], total);
      assert WithShares(entries, total)[1..] == WithShares(entries[1..], total);
    }
  }

  /** Whenever a report is produced, its sector totals, its recipient totals and the quarterly totals of its year each
      sum to its total. */
  lemma ReportConserves(awards: seq<Award>, requested: Option<int>)
    requires ReportOf(awards, requested).Report?
    ensures var r := ReportOf(awards, requested);
            && Sum(r.sectors, SectorAmount) == r.total
            && Sum(r.recipients, EntryAmount()) == r.total
            && Sum(r.quarterly, Selected(InYear(r.year))) == r.total
  {
    hide Listed;
    hide TryListed;
    hide Group;
    hide Sum;
    hide WithShares;
    ReportListed(awards, requested);
    var year := YearFor(awards, requested);
    var scope := Scope(awards, year);
    var sectors := Listed(Group(scope, MarketOf), SectorRank);
    GroupTotal(scope, MarketOf);
    ListedSum(Group(scope, MarketOf), SectorRank, EntryAmount());
    WithSharesAmounts(sectors, Total(scope));
    GroupTotal(scope, RecipientOf);
    ListedSum(Group(scope, RecipientOf), RecipientRank, EntryAmount());
    GroupConserves(awards, QuarterOf, InYear(year));
    ListedSum(Group(awards, QuarterOf), QuarterRank, Selected(InYear(year)));
    ScopeTotal(awards, year);
  }

  lemma {:induction false} AddHasKey<K>(entries: seq<Entry<K>>, key: K, amount: real, k: K)
    ensures HasKey(Add(entries, key, amount), k) <==> HasKey(entries, k) || k == key
  {
    var after := Add(entries, key, amount);
    if entries != [] {
      AddHasKey(entries[1..], key, amount, k);
      assert after[0].key == entries[0].key;
      HasKeyTail(entries, k);
      HasKeyTail(after, k);
    } else {
      assert after[0].key == key;
    }
  }

  lemma HasKeyTail<K>(entries: seq<Entry<K>>, k: K)
    requires entries != []
    ensures HasKey(entries, k) <==> entries[0].key == k || HasKey(entries[1..], k)
  {
    if HasKey(entries[1..], k) {
      var i :| 0 <= i < |entries[1..]| && entries[1..][i].key == k;
      assert entries[i + 1].key == k;
    }
    if HasKey(entries, k) && entries[0].key != k {
      var i :| 0 <= i < |entries| && entries[i].key == k;
      assert entries[1..][i - 1].key == k;
    }
  }

  lemma {:induction false} GroupHasKey<K>(awards: seq<Award>, keyOf: Award -> K, a: Award)
    requires a in awards && a.amount.Some?
    ensures HasKey(Group(awards, keyOf), keyOf(a))
    decreases |awards|
  {
    hide HasKey;
    var init, last := awards[..|awards| - 1], awards[|awards| - 1];
    if last.amount.Some? {
      AddHasKey(Group(init, keyOf), keyOf(last), last.amount.value, keyOf(a));
    }
    if a != last {
      assert a in init;
      GroupHasKey(init, keyOf, a);
    }
  }

  lemma {:induction false} GroupKeyFrom<K>(awards: seq<Award>, keyOf: Award -> K, k: K) returns (a: Award)
    requires HasKey(Group(awards, keyOf), k)
    ensures a in awards && a.amount.Some? && keyOf(a) == k
    decreases |awards|
  {
    hide HasKey;
    if awards == [] {
      assert HasKey(Group(awards, keyOf), k) && Group(awards, keyOf) == [];
      NoKeyAtAll(k);
      assert false;
    }
    var init, last := awards[..|awards| - 1], awards[|awards| - 1];
    if last.amount.Some? {
      AddHasKey(Group(init, keyOf), keyOf(last), last.amount.value, k);
    }
    if last.amount.Some? && keyOf(last) == k {
      a := last;
    } else {
      a := GroupKeyFrom(init, keyOf, k);
    }
  }

  lemma NoKeyAtAll<K>(k: K)
    ensures !HasKey<K>([], k)
  {
  }

  function Only<K(==)>(key: K): K -> bool { k => k == key }

  lemma {:induction false} AbsentSum<K>(entries: seq<Entry<K>>, key: K)
    requires !HasKey(entries, key)
    ensures Sum(entries, Selected(Only(key))) == 0.0
  {
    if entries != [] {
      HasKeyTail(entries, key);
      AbsentSum(entries[1..], key);
    }
  }

  lemma {:induction false} OnlyEntry<K>(entries: seq<Entry<K>>, i: nat)
    requires DistinctKeys(entries) && i < |entries|
    ensures Sum(entries, Selected(Only(entries[i].key))) == entries[i].amount
  {
    if i > 0 {
      assert entries[i] == entries[1..][i - 1];
      OnlyEntry(entries[1..], i - 1);
    } else {
      AbsentSum(entries[1..], entries[0].key);
    }
  }

  /** Each group's total is exactly the amounts of its own awards. */
  lemma GroupExact<K>(awards: seq<Award>, keyOf: Award -> K, i: nat)
    requires i < |Group(awards, keyOf)|
    ensures var e := Group(awards, keyOf)[i]; e.amount == Sum(awards, Drawn(keyOf, Only(e.key)))
  {
    hide Group;
    GroupKeysDistinct(awards, keyOf);
    OnlyEntry(Group(awards, keyOf), i);
    GroupConserves(awards, keyOf, Only(Group(awards, keyOf)[i].key));
  }

  /** Recipients are listed by falling amount. */
  lemma RecipientsFall(awards: seq<Award>, requested: Option<int>, i: nat, j: nat)
    requires ReportOf(awards, requested).Report? && i < j < |ReportOf(awards, requested).recipients|
    ensures ReportOf(awards, requested).recipients[i].amount >= ReportOf(awards, requested).recipients[j].amount
  {
    hide Listed;
    hide TryListed;
    hide Group;
    ReportListed(awards, requested);
    ListedInOrder(Group(Scope(awards, YearFor(awards, requested)), RecipientOf), RecipientRank, i, j);
  }

  // ---- When no report is produced ------------------------------------------------------------------------

  /** A dated and an undated award, both with an amount. */
  predicate MixedDates(awards: seq<Award>) {
    exists a, b | a in awards && b in awards ::
      a.amount.Some? && b.amount.Some? && a.date.Some? && b.date.None?
  }

  /** A named recipient whose awards come to the same amount as those without a recipient. */
  predicate TiedNameless(scope: seq<Award>) {
    exists a, b | a in scope && b in scope ::
      && a.amount.Some? && b.amount.Some? && a.recipient.Some? && b.recipient.None?
      && Sum(scope, Drawn(RecipientOf, Only(a.recipient))) == Sum(scope, Drawn(RecipientOf, Only(b.recipient)))
  }

  /** The award an entry of a grouping comes from, and the other way round. */
  lemma GroupSource<K>(awards: seq<Award>, keyOf: Award -> K, i: nat) returns (a: Award)
    requires i < |Group(awards, keyOf)|
    ensures a in awards && a.amount.Some? && keyOf(a) == Group(awards, keyOf)[i].key
  {
    hide Group;
    assert HasKey(Group(awards, keyOf), Group(awards, keyOf)[i].key);
    a := GroupKeyFrom(awards, keyOf, Group(awards, keyOf)[i].key);
  }

  lemma GroupIndex<K>(awards: seq<Award>, keyOf: Award -> K, a: Award) returns (i: nat)
    requires a in awards && a.amount.Some?
    ensures i < |Group(awards, keyOf)| && Group(awards, keyOf)[i].key == keyOf(a)
  {
    hide Group;
    GroupHasKey(awards, keyOf, a);
    i :| 0 <= i < |Group(awards, keyOf)| && Group(awards, keyOf)[i].key == keyOf(a);
  }

  lemma SingleComparable(x: Part, y: Part)
    ensures Comparable([x], [y]) <==> x == y || SameKind(x, y)
  {
    assert [x][1..] == [] && [y][1..] == [];
  }

  /** Two quarters compare exactly when both are dated or neither is. */
  lemma QuartersCompareIff(a: Award, b: Award, x: Entry<Quarter>, y: Entry<Quarter>)
    requires x.key == QuarterOf(a) && y.key == QuarterOf(b)
    ensures Comparable(QuarterRank(x), QuarterRank(y)) <==> (a.date.Some? <==> b.date.Some?)
  {
    var p, q := QuarterRank(x), QuarterRank(y);
    assert p[0] == NumberPart(YearOf(a)) && q[0] == NumberPart(YearOf(b));
    if p[0] == q[0] {
      assert Comparable(p, q) <==> Comparable(p[1..], q[1..]);
      assert p[1..][0] == p[1] && q[1..][0] == q[1];
      if p[1] == q[1] {
        assert Comparable(p[1..], q[1..]) <==> Comparable(p[1..][1..], q[1..][1..]);
        assert p[1..][1..] == [Word(a.market)] && q[1..][1..] == [Word(b.market)];
        SingleComparable(Word(a.market), Word(b.market));
      }
    }
  }

  /** Two recipients compare unless their amounts are equal and one has no name. */
  lemma RecipientsCompareIff(x: Entry<Option<string>>, y: Entry<Option<string>>)
    ensures Comparable(RecipientRank(x), RecipientRank(y))
            <==> (x.amount == y.amount ==> (x.key.Some? <==> y.key.Some?))
  {
    var p, q := RecipientRank(x), RecipientRank(y);
    if p[0] == q[0] {
      assert Comparable(p, q) <==> Comparable(p[1..], q[1..]);
      assert p[1..] == [p[1]] && q[1..] == [q[1]];
      SingleComparable(p[1], q[1]);
    }
  }

  lemma QuartersRaiseIff(awards: seq<Award>)
    ensures MixedDates(awards) <==> !RanksCompare(Group(awards, QuarterOf), QuarterRank)
  {
    hide Group;
    hide Comparable;
    hide QuarterRank;
    hide QuarterOf;
    var quarters := Group(awards, QuarterOf);
    if MixedDates(awards) {
      var a, b :| a in awards && b in awards && a.amount.Some? && b.amount.Some? && a.date.Some? && b.date.None?;
      var i := GroupIndex(awards, QuarterOf, a);
      var j := GroupIndex(awards, QuarterOf, b);
      QuartersCompareIff(a, b, quarters[i], quarters[j]);
    } else {
      forall i, j | 0 <= i < |quarters| && 0 <= j < |quarters|
        ensures Comparable(QuarterRank(quarters[i]), QuarterRank(quarters[j]))
      {
        var a := GroupSource(awards, QuarterOf, i);
        var b := GroupSource(awards, QuarterOf, j);
        QuartersCompareIff(a, b, quarters[i], quarters[j]);
      }
    }
  }

  lemma RecipientsRaiseIff(scope: seq<Award>)
    ensures TiedNameless(scope) <==> !RanksCompare(Group(scope, RecipientOf), RecipientRank)
  {
    hide Group;
    hide Comparable;
    hide RecipientRank;
    hide Sum;
    var recipients := Group(scope, RecipientOf);
    if TiedNameless(scope) {
      var a, b :| && a in scope && b in scope && a.amount.Some? && b.amount.Some?
                  && a.recipient.Some? && b.recipient.None?
                  && Sum(scope, Drawn(RecipientOf, Only(a.recipient)))
                     == Sum(scope, Drawn(RecipientOf, Only(b.recipient)));
      var i := GroupIndex(scope, RecipientOf, a);
      var j := GroupIndex(scope, RecipientOf, b);
      GroupExact(scope, RecipientOf, i);
      GroupExact(scope, RecipientOf, j);
      RecipientsCompareIff(recipients[i], recipients[j]);
    } else {
      forall i, j | 0 <= i < |recipients| && 0 <= j < |recipients|
        ensures Comparable(RecipientRank(recipients[i]), RecipientRank(recipients[j]))
      {
        var a := GroupSource(scope, RecipientOf, i);
        var b := GroupSource(scope, RecipientOf, j);
        GroupExact(scope, RecipientOf, i);
        GroupExact(scope, RecipientOf, j);
        RecipientsCompareIff(recipients[i], recipients[j]);
      }
    }
  }

  /** The sorts of the projection raise exactly when awards with an amount mix dated and undated ones, or when a named
      recipient of the year ties with the awards that name none. */
  lemma RaisedIff(awards: seq<Award>, requested: Option<int>)
    ensures ReportOf(awards, requested) == Raised
       <==> MixedDates(awards) || TiedNameless(Scope(awards, YearFor(awards, requested)))
  {
    hide Group;
    hide Sum;
    hide Listed;
    hide TryListed;
    hide MixedDates;
    hide TiedNameless;
    hide RanksCompare;
    var scope := Scope(awards, YearFor(awards, requested));
    QuartersRaiseIff(awards);
    RecipientsRaiseIff(scope);
    TryListedIff(Group(awards, QuarterOf), QuarterRank);
    TryListedIff(Group(scope, RecipientOf), RecipientRank);
  }

  /** One undated award beside a dated one raises. */
  lemma MixedDatesRaise(d: Date, market: string, recipient: Option<string>, amount: real, requested: Option<int>)
    ensures ReportOf([Award(Some(d), market, recipient, Some(amount)), Award(None, market, recipient, Some(amount))],
                     requested) == Raised
  {
    hide ReportOf;
    var dated, undated := Award(Some(d), market, recipient, Some(amount)), Award(None, market, recipient, Some(amount));
    var awards := [dated, undated];
    assert dated in awards && undated in awards;
    RaisedIff(awards, requested);
  }

  /** So does a named recipient whose one award equals the one that names none. */
  lemma EqualAmountsRaise(d: Date, market: string, name: string, amount: real)
    requires d.year >= 1
    ensures ReportOf([Award(Some(d), market, Some(name), Some(amount)), Award(Some(d), market, None, Some(amount))],
                     None) == Raised
  {
    hide ReportOf;
    var named, nameless := Award(Some(d), market, Some(name), Some(amount)), Award(Some(d), market, None, Some(amount));
    var awards := [named, nameless];
    RaisedIff(awards, None);
    assert awards[1..] == [nameless] && [nameless][1..] == [];
    assert LatestYear([nameless]) == YearOf(named) == LatestYear(awards);
    assert Scope(awards[1..], YearOf(named)) == [nameless] + Scope([], YearOf(named));
    assert Scope(awards, YearOf(named)) == awards;
    assert named in awards && nameless in awards;
    DrawnPair(named, nameless, named.recipient);
    DrawnPair(named, nameless, nameless.recipient);
  }

  lemma DrawnPair(a: Award, b: Award, recipient: Option<string>)
    ensures Sum([a, b], Drawn(RecipientOf, Only(recipient)))
         == (if a.recipient == recipient then AmountOf(a) else 0.0)
            + if b.recipient == recipient then AmountOf(b) else 0.0
  {
    var weight := Drawn(RecipientOf, Only(recipient));
    assert [a, b] == [a] + [b];
    SumConcat([a], [b], weight);
    SumOne(a, weight);
    SumOne(b, weight);
  }

  /** A report that is produced lists what sorting lists. */
  lemma ReportListed(awards: seq<Award>, requested: Option<int>)
    requires ReportOf(awards, requested).Report?
    ensures var r, scope := ReportOf(awards, requested), Scope(awards, YearFor(awards, requested));
            && r.quarterly == Listed(Group(awards, QuarterOf), QuarterRank)
            && r.recipients == Listed(Group(scope, RecipientOf), RecipientRank)
  {
    hide Group;
    hide Sum;
    hide Listed;
    hide TryListed;
    TryListedIff(Group(awards, QuarterOf), QuarterRank);
    TryListedIff(Group(Scope(awards, YearFor(awards, requested)), RecipientOf), RecipientRank);
  }

  // ---- What the report says ----------------------------------------------------------------------------

  /** The fiscal years there are; a year 0 counts as none. */
  predicate HasYear(a: Award, year: int) { YearOf(a) == Some(year) && year != 0 }

  lemma {:induction false} LatestYearIs(awards: seq<Award>)
    ensures LatestYear(awards).None? <==> forall a, y | a in awards :: !HasYear(a, y)
    ensures LatestYear(awards).Some? ==>
              && (exists a | a in awards :: HasYear(a, LatestYear(awards).value))
              && forall a, y | a in awards && HasYear(a, y) :: y <= LatestYear(awards).value
  {
    if awards != [] {
      LatestYearIs(awards[1..]);
      assert awards == [awards[0]] + awards[1..];
      if YearOf(awards[0]).Some? && YearOf(awards[0]).value != 0 {
        assert HasYear(awards[0], YearOf(awards[0]).value);
      }
      if LatestYear(awards[1..]).Some? {
        var a :| a in awards[1..] && HasYear(a, LatestYear(awards[1..]).value);
        assert a in awards;
      }
    }
  }

  /** The report is of the year asked for, else of the latest fiscal year of the awards, if they have one. */
  lemma ReportYear(awards: seq<Award>, requested: Option<int>)
    requires ReportOf(awards, requested).Report?
    ensures var year := ReportOf(awards, requested).year;
            && (requested.Some? && requested.value != 0 ==> year == requested)
            && (requested.None? || requested.value == 0 ==>
                  && (year.None? <==> forall a, y | a in awards :: !HasYear(a, y))
                  && (year.Some? ==>
                        && (exists a | a in awards :: HasYear(a, year.value))
                        && forall a, y | a in awards && HasYear(a, y) :: y <= year.value))
  {
    hide TryListed;
    hide LatestYear;
    hide HasYear;
    hide Group;
    hide Scope;
    LatestYearIs(awards);
  }

  /** The amounts of the awards of a year that satisfy a condition. */
  function OfYear(year: Option<int>, wanted: Award -> bool): Award -> real {
    a => if YearOf(a) == year && wanted(a) then AmountOf(a) else 0.0
  }

  function AnyAward(): Award -> bool { (a: Award) => true }

  function InMarket(sector: string): Award -> bool { (a: Award) => a.market == sector }

  function ForRecipient(recipient: Option<string>): Award -> bool { (a: Award) => a.recipient == recipient }

  function InQuarter(quarter: Quarter): Award -> real {
    (a: Award) => if FiscalOf(a.date) == quarter.fiscal && a.market == quarter.market then AmountOf(a) else 0.0
  }

  lemma {:induction false} ScopeSum(awards: seq<Award>, year: Option<int>, wanted: Award -> bool, weight: Award -> real)
    requires forall a | a in awards :: weight(a) == if wanted(a) then AmountOf(a) else 0.0
    ensures Sum(Scope(awards, year), weight) == Sum(awards, OfYear(year, wanted))
  {
    if awards != [] {
      ScopeSum(awards[1..], year, wanted, weight);
      assert awards[0] in awards;
      if YearOf(awards[0]) == year {
        SumConcat([awards[0]], Scope(awards[1..], year), weight);
        SumOne(awards[0], weight);
      } else {
        assert Scope(awards, year) == Scope(awards[1..], year);
      }
    }
  }

  function InSector(sector: string): SectorTotal -> real {
    (s: SectorTotal) => if s.sector == sector then s.amount else 0.0
  }

  lemma {:induction false} SharesSector(entries: seq<Entry<string>>, total: real, sector: string)
    ensures Sum(WithShares(entries, total), InSector(sector)) == Sum(entries, Selected(Only(sector)))
  {
    hide Rounded;
    if entries != [] {
      SharesSector(entries[1..], total, sector);
      assert WithShares(entries, total)[1..] == WithShares(entries[1..], total);
    }
  }

  /** Totals over the awards themselves: of the report's year for the whole, each sector and each recipient, and of
      every year for each fiscal quarter and sector. */
  lemma ReportExact(awards: seq<Award>, requested: Option<int>, sector: string, recipient: Option<string>,
                    quarter: Quarter)
    requires ReportOf(awards, requested).Report?
    ensures var r := ReportOf(awards, requested);
            && r.total == Sum(awards, OfYear(r.year, AnyAward()))
            && Sum(r.sectors, InSector(sector)) == Sum(awards, OfYear(r.year, InMarket(sector)))
            && Sum(r.recipients, Selected(Only(recipient))) == Sum(awards, OfYear(r.year, ForRecipient(recipient)))
            && Sum(r.quarterly, Selected(Only(quarter))) == Sum(awards, InQuarter(quarter))
  {
    hide Listed;
    hide TryListed;
    hide Group;
    hide Sum;
    hide WithShares;
    hide Scope;
    hide YearFor;
    ReportListed(awards, requested);
    var year := YearFor(awards, requested);
    var scope := Scope(awards, year);
    ScopeSum(awards, year, AnyAward(), AmountOf);
    GroupConserves(scope, MarketOf, Only(sector));
    ListedSum(Group(scope, MarketOf), SectorRank, Selected(Only(sector)));
    SharesSector(Listed(Group(scope, MarketOf), SectorRank), Total(scope), sector);
    SectorWeights(sector);
    ScopeSum(awards, year, InMarket(sector), Drawn(MarketOf, Only(sector)));
    GroupConserves(scope, RecipientOf, Only(recipient));
    ListedSum(Group(scope, RecipientOf), RecipientRank, Selected(Only(recipient)));
    RecipientWeights(recipient);
    ScopeSum(awards, year, ForRecipient(recipient), Drawn(RecipientOf, Only(recipient)));
    GroupConserves(awards, QuarterOf, Only(quarter));
    ListedSum(Group(awards, QuarterOf), QuarterRank, Selected(Only(quarter)));
    QuarterSum(awards, quarter);
  }

  lemma SectorWeights(sector: string)
    ensures forall a :: Drawn(MarketOf, Only(sector))(a) == if InMarket(sector)(a) then AmountOf(a) else 0.0
  {
    forall a: Award ensures Drawn(MarketOf, Only(sector))(a) == if InMarket(sector)(a) then AmountOf(a) else 0.0 {
      assert MarketOf(a) == a.market;
    }
  }

  lemma RecipientWeights(recipient: Option<string>)
    ensures forall a ::
              Drawn(RecipientOf, Only(recipient))(a) == if ForRecipient(recipient)(a) then AmountOf(a) else 0.0
  {
  }

  lemma QuarterSum(awards: seq<Award>, quarter: Quarter)
    ensures Sum(awards, Drawn(QuarterOf, Only(quarter))) == Sum(awards, InQuarter(quarter))
  {
    hide FiscalOf;
    SumSame(awards, Drawn(QuarterOf, Only(quarter)), InQuarter(quarter));
  }

  lemma ListedDistinct<K>(entries: seq<Entry<K>>, rank: Entry<K> -> Key, i: nat, j: nat)
    requires DistinctKeys(entries) && i < j < |Listed(entries, rank)|
    ensures Listed(entries, rank)[i].key != Listed(entries, rank)[j].key
  {
    hide KeyLess;
    hide Sort;
    var rows := Ranks(entries, rank, 0);
    RanksInOrder(entries, rank, 0);
    SortRanks(rows);
    SortMembers(rows);
    var a, b := Sort(rows)[i], Sort(rows)[j];
    assert Before(a, b) && a in rows && b in rows;
    RanksFrom(entries, rank, 0, a);
    RanksFrom(entries, rank, 0, b);
    if a.position == b.position {
      KeyIrreflexive(a.key);
      assert false;
    }
  }

  /** A fiscal quarter's total of a sector before another: by year, quarter and sector; of undated ones by sector. */
  predicate QuarterBefore(a: Quarter, b: Quarter) {
    match (a.fiscal.year, b.fiscal.year)
    case (Some(x), Some(y)) =>
      x < y || (x == y && a.fiscal.quarter.Some? && b.fiscal.quarter.Some?
                && (a.fiscal.quarter.value < b.fiscal.quarter.value
                    || (a.fiscal.quarter == b.fiscal.quarter && Ordering.Less(a.market, b.market))))
    case _ => a.fiscal.year.None? && b.fiscal.year.None? && Ordering.Less(a.market, b.market)
  }

  lemma QuarterRanks(a: Entry<Quarter>, b: Entry<Quarter>, x: Option<Date>, y: Option<Date>)
    requires a.key.fiscal == FiscalOf(x) && b.key.fiscal == FiscalOf(y) && (x.Some? <==> y.Some?)
    requires KeyAtMost(QuarterRank(a), QuarterRank(b)) && a.key != b.key
    ensures QuarterBefore(a.key, b.key)
  {
    var k, l := QuarterRank(a), QuarterRank(b);
    KeyAtMostFirst(k, l);
    if k[0] == l[0] {
      assert k[1..] == [k[1], k[2]] && l[1..] == [l[1], l[2]];
      KeyAtMostFirst(k[1..], l[1..]);
      if k[1] == l[1] {
        assert k[1..][1..] == [k[2]] && l[1..][1..] == [l[2]];
        KeyAtMostFirst(k[1..][1..], l[1..][1..]);
        Ordering.LessTotal(a.key.market, b.key.market);
      }
    }
  }

  lemma SectorsRise(entries: seq<Entry<string>>, i: nat, j: nat)
    requires DistinctKeys(entries) && i < j < |Listed(entries, SectorRank)|
    ensures Ordering.Less(Listed(entries, SectorRank)[i].key, Listed(entries, SectorRank)[j].key)
  {
    hide Listed;
    var a, b := Listed(entries, SectorRank)[i], Listed(entries, SectorRank)[j];
    ListedInOrder(entries, SectorRank, i, j);
    ListedDistinct(entries, SectorRank, i, j);
    KeyAtMostFirst(SectorRank(a), SectorRank(b));
    Ordering.LessTotal(a.key, b.key);
  }

  lemma {:induction false} ShareAt(entries: seq<Entry<string>>, total: real, i: nat)
    requires i < |entries|
    ensures var s := WithShares(entries, total)[i];
            && s.sector == entries[i].key && s.amount == entries[i].amount
            && (s.share.Some? <==> total != 0.0)
            && (s.share.Some? ==> -0.005 <= s.share.value - s.amount / total * 100.0 <= 0.005
                                  && IsHundredths(s.share.value))
  {
    hide Rounded;
    if i == 0 {
      if total != 0.0 {
        RoundedNear(Share(entries[0].amount, total));
        RoundedHundredths(Share(entries[0].amount, total));
      }
    } else {
      ShareAt(entries[1..], total, i - 1);
    }
  }

  predicate IsHundredths(x: real) { (x * 100.0).Floor as real == x * 100.0 }

  lemma WholeHundredths(n: int)
    ensures IsHundredths(n as real / 100.0)
  {
    var x := n as real / 100.0;
    assert x * 100.0 == n as real;
  }

  lemma RoundedHundredths(x: real)
    ensures IsHundredths(Rounded(x))
  {
    hide IsHundredths;
    var low := (x * 100.0).Floor;
    WholeHundredths(low);
    WholeHundredths(low + 1);
  }

  /** Sectors are listed once each, by name, with their share of the total to the nearest hundredth; recipients once;
      quarters once, by year, quarter and sector. */
  lemma ReportOrder(awards: seq<Award>, requested: Option<int>, i: nat, j: nat)
    requires ReportOf(awards, requested).Report?
    ensures var r := ReportOf(awards, requested);
            && (i < j < |r.sectors| ==> Ordering.Less(r.sectors[i].sector, r.sectors[j].sector))
            && (i < |r.sectors| ==>
                  var s := r.sectors[i];
                  && (s.share.Some? <==> r.total != 0.0)
                  && (s.share.Some? ==> -0.005 <= s.share.value - s.amount / r.total * 100.0 <= 0.005
                                        && IsHundredths(s.share.value)))
            && (i < j < |r.recipients| ==> r.recipients[i].key != r.recipients[j].key)
            && (i < j < |r.quarterly| ==> QuarterBefore(r.quarterly[i].key, r.quarterly[j].key))
  {
    hide Listed;
    hide TryListed;
    hide Group;
    hide Sum;
    hide Scope;
    hide YearFor;
    hide WithShares;
    hide IsHundredths;
    hide QuarterBefore;
    hide DistinctKeys;
    ReportListed(awards, requested);
    var scope := Scope(awards, YearFor(awards, requested));
    GroupKeysDistinct(scope, MarketOf);
    GroupKeysDistinct(scope, RecipientOf);
    var sectors := Listed(Group(scope, MarketOf), SectorRank);
    if i < |sectors| {
      ShareAt(sectors, Total(scope), i);
    }
    if i < j < |sectors| {
      ShareAt(sectors, Total(scope), j);
      SectorsRise(Group(scope, MarketOf), i, j);
    }
    if i < j < |Listed(Group(scope, RecipientOf), RecipientRank)| {
      ListedDistinct(Group(scope, RecipientOf), RecipientRank, i, j);
    }
    if i < j < |Listed(Group(awards, QuarterOf), QuarterRank)| {
      QuartersRise(awards, requested, i, j);
    }
  }

  lemma QuartersRise(awards: seq<Award>, requested: Option<int>, i: nat, j: nat)
    requires ReportOf(awards, requested).Report? && i < j < |Listed(Group(awards, QuarterOf), QuarterRank)|
    ensures var quarters := Listed(Group(awards, QuarterOf), QuarterRank);
            QuarterBefore(quarters[i].key, quarters[j].key)
  {
    hide Listed;
    hide TryListed;
    hide Group;
    hide ReportOf;
    hide QuarterBefore;
    hide QuarterRank;
    var groups := Group(awards, QuarterOf);
    var a, b := Listed(groups, QuarterRank)[i], Listed(groups, QuarterRank)[j];
    GroupKeysDistinct(awards, QuarterOf);
    ListedInOrder(groups, QuarterRank, i, j);
    ListedDistinct(groups, QuarterRank, i, j);
    RaisedIff(awards, requested);
    var p := ListedMember(groups, QuarterRank, i);
    var q := ListedMember(groups, QuarterRank, j);
    var x := GroupSource(awards, QuarterOf, p);
    var y := GroupSource(awards, QuarterOf, q);
    QuarterRanks(a, b, x.date, y.date);
  }

  lemma ListedMember<K>(entries: seq<Entry<K>>, rank: Entry<K> -> Key, i: nat) returns (p: nat)
    requires i < |Listed(entries, rank)|
    ensures p < |entries| && entries[p] == Listed(entries, rank)[i]
  {
    hide Sort;
    var rows := Ranks(entries, rank, 0);
    SortMembers(rows);
    var row := Sort(rows)[i];
    assert row in multiset(Sort(rows));
    assert row in multiset(rows);
    assert row in rows;
    RanksFrom(entries, rank, 0, row);
    p := row.position;
  }

  // ---- Rounded shares ----------------------------------------------------------------------------------

  function ShareValue(s: SectorTotal): real { if s.share.Some? then s.share.value else 0.0 }

  lemma RoundedNear(x: real)
    ensures -0.005 <= Rounded(x) - x <= 0.005
  {
  }

  lemma ShareAdds(a: real, b: real, total: real)
    requires total != 0.0
    ensures Share(a + b, total) == Share(a, total) + Share(b, total)
  {
  }

  lemma {:induction false} SharesNear(entries: seq<Entry<string>>, total: real)
    requires total != 0.0
    ensures var n, off := |entries| as real,
              Sum(WithShares(entries, total), ShareValue) - Share(Sum(entries, EntryAmount()), total);
            -0.005 * n <= off <= 0.005 * n
  {
    hide Rounded;
    hide Share;
    if entries == [] {
      assert Share(0.0, total) == 0.0 by { ShareAdds(0.0, 0.0, total); }
    } else {
      SharesNear(entries[1..], total);
      assert WithShares(entries, total)[1..] == WithShares(entries[1..], total);
      RoundedNear(Share(entries[0].amount, total));
      ShareAdds(entries[0].amount, Sum(entries[1..], EntryAmount()), total);
    }
  }

  /** With a nonzero total the rounded shares of n sectors sum to within 0.005 n of 100. */
  lemma SharesSumNearHundred(awards: seq<Award>, requested: Option<int>)
    requires ReportOf(awards, requested).Report? && ReportOf(awards, requested).total != 0.0
    ensures var r := ReportOf(awards, requested); var n := |r.sectors| as real;
            100.0 - 0.005 * n <= Sum(r.sectors, ShareValue) <= 100.0 + 0.005 * n
  {
    hide Listed;
    hide TryListed;
    hide Group;
    hide Sum;
    hide Rounded;
    hide Share;
    var scope := Scope(awards, YearFor(awards, requested));
    var sectors := Listed(Group(scope, MarketOf), SectorRank);
    GroupTotal(scope, MarketOf);
    ListedSum(Group(scope, MarketOf), SectorRank, EntryAmount());
    SharesNear(sectors, Total(scope));
    WholeShare(Total(scope));
  }

  lemma WholeShare(total: real)
    requires total != 0.0
    ensures Share(total, total) == 100.0
  {
  }

  // ---- Open opportunities per sector -------------------------------------------------------------------

  datatype Opportunity = Opportunity(id: string, naics: string, agency: string)

  function SectorOf(o: Opportunity): string { MarketFor(o.naics, o.agency) }

  function CountIn(open: seq<Opportunity>, sector: string): nat {
    if open == [] then 0 else (if SectorOf(open[0]) == sector then 1 else 0) + CountIn(open[1..], sector)
  }

  function Counts(open: seq<Opportunity>, sectors: seq<string>): nat {
    if sectors == [] then 0 else CountIn(open, sectors[0]) + Counts(open, sectors[1..])
  }

  lemma {:induction false} OneSector(o: Opportunity, rest: seq<Opportunity>, sectors: seq<string>)
    requires forall i, j | 0 <= i < j < |sectors| :: sectors[i] != sectors[j]
    ensures Counts([o] + rest, sectors) == Counts(rest, sectors) + if SectorOf(o) in sectors then 1 else 0
  {
    assert ([o] + rest)[1..] == rest;
    if sectors != [] {
      OneSector(o, rest, sectors[1..]);
    }
  }

  lemma EverySectorListed(o: Opportunity)
    ensures SectorOf(o) in MARKETS + ["UNRESOLVED"]
  {
    hide StartsWith;
    hide Contains;
    var sectors := MARKETS + ["UNRESOLVED"];
    assert sectors[0] == "Commercial Aerospace" && sectors[1] == "Defense" && sectors[2] == "Space"
           && sectors[3] == "Semiconductor";
    assert sectors[4] == "Medical" && sectors[6] == "Energy" && sectors[7] == "UNRESOLVED";
  }

  lemma SectorsDistinct()
    ensures var sectors := MARKETS + ["UNRESOLVED"];
            forall i, j | 0 <= i < j < |sectors| :: sectors[i] != sectors[j]
  {
    var sectors := MARKETS + ["UNRESOLVED"];
    assert sectors == ["Commercial Aerospace", "Defense", "Space", "Semiconductor", "Medical", "Robotics", "Energy",
                       "UNRESOLVED"];
    assert |sectors[0]| == 20 && |sectors[1]| == 7 && |sectors[2]| == 5 && |sectors[3]| == 13;
    assert |sectors[4]| == 7 && |sectors[5]| == 8 && |sectors[6]| == 6 && |sectors[7]| == 10;
    assert sectors[1][0] == 'D' && sectors[4][0] == 'M';
  }

  /** Every open opportunity is counted in exactly one listed sector. */
  lemma {:induction false} SectorCountsSumToOpen(open: seq<Opportunity>)
    ensures Counts(open, MARKETS + ["UNRESOLVED"]) == |open|
  {
    hide SectorOf;
    var sectors := MARKETS + ["UNRESOLVED"];
    if open == [] {
      NoneOpen(sectors);
    } else {
      SectorCountsSumToOpen(open[1..]);
      SectorsDistinct();
      EverySectorListed(open[0]);
      OneSector(open[0], open[1..], sectors);
      assert open == [open[0]] + open[1..];
    }
  }

  lemma {:induction false} NoneOpen(sectors: seq<string>)
    ensures Counts([], sectors) == 0
  {
    if sectors != [] {
      NoneOpen(sectors[1..]);
    }
  }

  // ---- The program ---------------------------------------------------------------------------------------

  lemma GroupNext<K>(awards: seq<Award>, i: nat, keyOf: Award -> K)
    requires i < |awards|
    ensures Group(awards[..i + 1], keyOf) ==
            if awards[i].amount.Some? then Add(Group(awards[..i], keyOf), keyOf(awards[i]), awards[i].amount.value)
            else Group(awards[..i], keyOf)
  {
    assert awards[..i + 1][..i] == awards[..i];
  }

  lemma NothingGrouped()
    ensures Total([]) == 0.0 && Group([], MarketOf) == [] && Group([], RecipientOf) == [] && Group([], QuarterOf) == []
  {
  }

  lemma TotalNext(awards: seq<Award>, i: nat)
    requires i < |awards|
    ensures Total(awards[..i + 1]) == Total(awards[..i]) + AmountOf(awards[i])
  {
    SumLast(awards[..i + 1], AmountOf);
    assert awards[..i + 1][..i] == awards[..i];
  }

  method ProjectAwards(awards: seq<Award>, requested: Option<int>) returns (report: Report)
    ensures report == ReportOf(awards, requested)
  {
    hide Listed;
    hide TryListed;
    hide WithShares;
    hide Group;
    hide Add;
    hide Sum;
    hide YearFor;
    hide Scope;
    var year := YearFor(awards, requested);
    var scope := Scope(awards, year);
    var total := 0.0;
    var sectors: seq<Entry<string>>, recipients: seq<Entry<Option<string>>>, quarters: seq<Entry<Quarter>> :=
      [], [], [];
    var i := 0;
    NothingGrouped();
    while i < |scope|
      invariant i <= |scope|
      invariant total == Total(scope[..i])
      invariant sectors == Group(scope[..i], MarketOf) && recipients == Group(scope[..i], RecipientOf)
    {
      var award := scope[i];
      TotalNext(scope, i);
      GroupNext(scope, i, MarketOf);
      GroupNext(scope, i, RecipientOf);
      if award.amount.Some? {
        total := total + award.amount.value;
        sectors := Add(sectors, award.market, award.amount.value);
        recipients := Add(recipients, award.recipient, award.amount.value);
      }
      i := i + 1;
    }
    assert scope[..i] == scope;
    i := 0;
    while i < |awards|
      invariant i <= |awards|
      invariant quarters == Group(awards[..i], QuarterOf)
    {
      var award := awards[i];
      GroupNext(awards, i, QuarterOf);
      if award.amount.Some? {
        quarters := Add(quarters, QuarterOf(award), award.amount.value);
      }
      i := i + 1;
    }
    assert awards[..i] == awards;
    var byQuarter := TryListed(quarters, QuarterRank);
    if byQuarter.None? {
      return Raised;
    }
    var byAmount := TryListed(recipients, RecipientRank);
    if byAmount.None? {
      return Raised;
    }
    report := Report(year, total, WithShares(Listed(sectors, SectorRank), total), byQuarter.value, byAmount.value);
  }
}
