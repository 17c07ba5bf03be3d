/** Source rows of the identity import and their grouping by a label.

    A label stands for a domain or for the root of its cluster. Nothing is lost in grouping and nothing is
    repeated. */
module IdentityRows {

  /** Coordinates as the workbook gives them, rounded to millionths of a degree when usable. */
  datatype Place =
    | NoCoordinates | Unreadable | OutOfRange
    | At(latitude: int, longitude: int, city: string, region: string)

  /** One source row; `parent` is the normalized parent company, empty when there is none. */
  datatype Row = Row(reference: string, domain: string, company: string, parent: string, place: Place)

  type Labels = map<string, string>

  function Select(rows: seq<Row>, labels: Labels, key: string): seq<Row> {
    if rows == [] then []
    else
      (if rows[0].domain in labels && labels[rows[0].domain] == key then [rows[0]] else [])
      + Select(rows[1..], labels, key)
  }

  function SelectAll(rows: seq<Row>, labels: Labels, keys: seq<string>): seq<Row> {
    if keys == [] then [] else Select(rows, labels, keys[0]) + SelectAll(rows, labels, keys[1..])
  }

  predicate NoRepeats(list: seq<string>) {
    forall i, j | 0 <= i < j < |list| :: list[i] != list[j]
  }

  function DomainsOf(rows: seq<Row>): set<string> { set row | row in rows :: row.domain }

  lemma {:induction false} SelectCount(rows: seq<Row>, labels: Labels, key: string, row: Row)
    ensures multiset(Select(rows, labels, key))[row]
         == if row.domain in labels && labels[row.domain] == key then multiset(rows)[row] else 0
  {
    if rows != [] {
      SelectCount(rows[1..], labels, key, row);
      assert rows == [rows[0]] + rows[1..];
    }
  }

  lemma {:induction false} SelectAllCount(rows: seq<Row>, labels: Labels, keys: seq<string>, row: Row)
    requires NoRepeats(keys)
    ensures multiset(SelectAll(rows, labels, keys))[row]
         == if row.domain in labels && labels[row.domain] in keys then multiset(rows)[row] else 0
    decreases |keys|
  {
    if keys != [] {
      SelectCount(rows, labels, keys[0], row);
      SelectAllCount(rows, labels, keys[1..], row);
      assert keys == [keys[0]] + keys[1..];
      if row.domain in labels && labels[row.domain] == keys[0] {
        assert labels[row.domain] !in keys[1..];
      }
    }
  }

  /** Grouping by a label that has a place for every row conserves the rows. */
  lemma SelectAllConserves(rows: seq<Row>, labels: Labels, keys: seq<string>)
    requires NoRepeats(keys) && forall row | row in rows :: row.domain in labels && labels[row.domain] in keys
    ensures multiset(SelectAll(rows, labels, keys)) == multiset(rows)
  {
    forall row ensures multiset(SelectAll(rows, labels, keys))[row] == multiset(rows)[row] {
      SelectAllCount(rows, labels, keys, row);
      if row !in multiset(rows) {
        assert multiset(rows)[row] == 0;
      }
    }
  }

  lemma {:induction false} SelectConcat(a: seq<Row>, b: seq<Row>, labels: Labels, key: string)
    ensures Select(a + b, labels, key) == Select(a, labels, key) + Select(b, labels, key)
  {
    if a == [] {
      assert a + b == b;
    } else {
      assert (a + b)[1..] == a[1..] + b;
      SelectConcat(a[1..], b, labels, key);
    }
  }

  lemma {:induction false} SelectUniform(rows: seq<Row>, labels: Labels, key: string, domain: string)
    requires domain in labels && forall row | row in rows :: row.domain == domain
    ensures Select(rows, labels, key) == if labels[domain] == key then rows else []
  {
    if rows != [] {
      assert rows[0] in rows;
      SelectUniform(rows[1..], labels, key, domain);
    }
  }

  lemma {:induction false} SelectDomain(rows: seq<Row>, labels: Labels, key: string)
    ensures forall row | row in Select(rows, labels, key) ::
              row in rows && row.domain in labels && labels[row.domain] == key
  {
    if rows != [] {
      SelectDomain(rows[1..], labels, key);
    }
  }

  lemma {:induction false} SelectAllSnoc(rows: seq<Row>, labels: Labels, keys: seq<string>, key: string)
    ensures SelectAll(rows, labels, keys + [key]) == SelectAll(rows, labels, keys) + Select(rows, labels, key)
    decreases |keys|
  {
    if keys == [] {
      assert ([] + [key])[1..] == [];
    } else {
      assert (keys + [key])[1..] == keys[1..] + [key];
      SelectAllSnoc(rows, labels, keys[1..], key);
    }
  }

  function Identity(domains: set<string>): Labels { map d | d in domains :: d }
}
