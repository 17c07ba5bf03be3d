/** Column letters of spreadsheet cell references as indexes. */
module WorkbookColumns {
  import opened Text

  predicate IsLetter(c: char) { 'A' <= c <= 'Z' }

  predicate Letters(s: string) { forall c | c in s :: IsLetter(c) }

  /** The letters a reference starts with. */
  function Leading(reference: string): (s: string)
    ensures s <= reference && Letters(s)
    ensures |s| < |reference| ==> !IsLetter(reference[|s|])
  {
    if reference == "" || !IsLetter(reference[0]) then "" else [reference[0]] + Leading(reference[1..])
  }

  /** The number the letters denote, counting columns from one. */
  function Number(letters: string): nat
    requires Letters(letters)
    decreases |letters|
  {
    if letters == "" then 0
    else
      var init, last := letters[..|letters| - 1], letters[|letters| - 1];
      assert IsLetter(last);
      Number(init) * 26 + (last as int - 64)
  }

  /** The letters of a column. */
  function NameOf(column: nat): (s: string)
    ensures Letters(s)
  {
    if column == 0 then "" else NameOf((column - 1) / 26) + [(65 + (column - 1) % 26) as char]
  }

  lemma DivisionUnique(q: nat, r: nat)
    requires r < 26
    ensures (26 * q + r) / 26 == q && (26 * q + r) % 26 == r
  {
  }

  /** Every column has letters, and reading them gives the column back. */
  lemma {:induction false} NumberOfName(column: nat)
    ensures Number(NameOf(column)) == column
  {
    if column > 0 {
      NumberOfName((column - 1) / 26);
      var init := NameOf((column - 1) / 26);
      assert NameOf(column)[..|init|] == init;
    }
  }

  /** Different letters denote different columns: the letters are determined by the column. */
  lemma {:induction false} NameOfNumber(letters: string)
    requires Letters(letters)
    ensures NameOf(Number(letters)) == letters
    decreases |letters|
  {
    if letters != "" {
      var init, last := letters[..|letters| - 1], letters[|letters| - 1];
      assert IsLetter(last);
      NameOfNumber(init);
      DivisionUnique(Number(init), last as int - 65);
      assert letters == init + [last];
    }
  }

  /** `column_index`; None stands for the exception when the reference has no leading letter. */
  method ColumnIndex(reference: string) returns (index: Option<nat>)
    ensures index.None? <==> Leading(reference) == ""
    ensures index.Some? ==> Leading(reference) == NameOf(index.value + 1)
  {
    var letters := Leading(reference);
    if letters == "" {
      return None;
    }
    var result := 0;
    var i := 0;
    while i < |letters|
      invariant 0 <= i <= |letters|
      invariant result == Number(letters[..i])
    {
      assert letters[..i + 1][..i] == letters[..i];
      result := result * 26 + (letters[i] as int - 64);
      i := i + 1;
    }
    assert letters[..i] == letters;
    NameOfNumber(letters);
    assert result > 0 by {
      assert IsLetter(letters[|letters| - 1]);
    }
    return Some(result - 1);
  }
}
