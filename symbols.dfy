/**
 * The Sabian symbol table: a map from degree index to a text label, built
 * from the parsed rows of a CSV file or, when the file is missing or cannot
 * be read, synthesised as a placeholder for every degree 1..360; and the
 * lookup that falls back to a short placeholder on a miss.
 *
 * Reading the file, the two text encodings and pandas' parsing are not
 * modelled: the parsed rows are the input.
 */
module Symbols {

  // ---------------------------------------------------------------------
  // Decimal rendering of integers, as Python's f"{n}" does it.
  // ---------------------------------------------------------------------

  const DIGITS: string := "0123456789"

  predicate IsDigit(c: char) {
    '0' <= c <= '9'
  }

  function DigitValue(c: char): (v: nat)
    requires IsDigit(c)
    ensures v < 10 && DIGITS[v] == c
  {
    (c - '0') as nat
  }

  /** The shortest decimal numeral of `n`: digits only, no leading zero. */
  function NatToString(n: nat): (s: string)
    ensures |s| >= 1
    ensures forall i :: 0 <= i < |s| ==> IsDigit(s[i])
    ensures s[0] == '0' ==> n == 0 && s == "0"
  {
    if n < 10 then [DIGITS[n]] else NatToString(n / 10) + [DIGITS[n % 10]]
  }

  /** The value of a string of decimal digits. */
  function ParseDigits(s: string): nat
    requires forall i :: 0 <= i < |s| ==> IsDigit(s[i])
  {
    if s == [] then 0 else ParseDigits(s[..|s| - 1]) * 10 + DigitValue(s[|s| - 1])
  }

  /** Reading the numeral back gives the number: rendering loses nothing,
      so different degrees get different placeholder labels. */
  lemma {:induction false} NatToStringRoundTrip(n: nat)
    ensures ParseDigits(NatToString(n)) == n
  {
    var s := NatToString(n);
    if n >= 10 {
      NatToStringRoundTrip(n / 10);
      assert s[..|s| - 1] == NatToString(n / 10);
    }
  }

  /** The numeral of any integer, with a minus sign for negatives. */
  function IntToString(n: int): (s: string)
    ensures |s| >= 1
    ensures n < 0 <==> s[0] == '-'
  {
    if n < 0 then "-" + NatToString(-n) else NatToString(n)
  }

  lemma NatToStringInjective(m: nat, n: nat)
    requires NatToString(m) == NatToString(n)
    ensures m == n
  {
    NatToStringRoundTrip(m);
    NatToStringRoundTrip(n);
  }

  /** After the minus sign, a negative number's numeral is that of its magnitude. */
  lemma NegativeDigits(n: int)
    requires n < 0
    ensures IntToString(n)[1..] == NatToString(-n)
  {
  }

  /** Different integers are rendered differently. */
  lemma IntToStringInjective(m: int, n: int)
    requires IntToString(m) == IntToString(n)
    ensures m == n
  {
    if m < 0 {
      NegativeDigits(m);
      NegativeDigits(n);
      NatToStringInjective(-m, -n);
    } else {
      NatToStringInjective(m, n);
    }
  }

  // ---------------------------------------------------------------------
  // The table and its construction.
  // ---------------------------------------------------------------------

  type SymbolTable = map<int, string>

  /** The label the placeholder table holds for degree `i`. */
  function PlaceholderLabel(i: int): string {
    "Degree " + IntToString(i) + " Symbol"
  }

  /** The table used when the CSV file is missing or unreadable: every
      degree 1..360 and nothing else, each with its placeholder label. */
  function PlaceholderTable(): (t: SymbolTable)
    ensures forall i :: i in t <==> 1 <= i <= 360
    ensures forall i :: i in t ==> t[i] == PlaceholderLabel(i)
  {
    map i | 1 <= i <= 360 :: PlaceholderLabel(i)
  }

  /** One parsed CSV row: the `degree` column as an integer, the `symbol`
      column and the `meaning` column as text. The meaning is read only when
      the file has a `meaning` column at all. */
  datatype CsvRow = CsvRow(degree: int, symbol: string, meaning: string)

  /** The label stored for a row: the symbol in corner brackets, a space,
      then the meaning, or nothing after the space without a meaning column. */
  function RowLabel(row: CsvRow, hasMeaning: bool): (text: string)
    ensures |text| >= |row.symbol| + 3
    ensures text[..1] == "【" && text[|row.symbol| + 1..|row.symbol| + 3] == "】 "
    ensures text[1..|row.symbol| + 1] == row.symbol
    ensures text[|row.symbol| + 3..] == if hasMeaning then row.meaning else ""
  {
    "【" + row.symbol + "】 " + (if hasMeaning then row.meaning else "")
  }

  /** The table the rows build when inserted in order, each row overwriting
      any earlier row for the same degree. */
  function TableOf(rows: seq<CsvRow>, hasMeaning: bool): SymbolTable {
    if rows == [] then map[]
    else
      var last := rows[|rows| - 1];
      TableOf(rows[..|rows| - 1], hasMeaning)[last.degree := RowLabel(last, hasMeaning)]
  }

  /** The loop of `load_sabian` that fills the table row by row. */
  method BuildTable(rows: seq<CsvRow>, hasMeaning: bool) returns (table: SymbolTable)
    ensures table == TableOf(rows, hasMeaning)
    ensures forall d :: d in table <==> exists k :: 0 <= k < |rows| && rows[k].degree == d
  {
    table := map[];
    for i := 0 to |rows|
      invariant table == TableOf(rows[..i], hasMeaning)
    {
      assert rows[..i + 1][..i] == rows[..i];
      table := table[rows[i].degree := RowLabel(rows[i], hasMeaning)];
    }
    assert rows[..|rows|] == rows;
    forall d ensures d in table <==> exists k :: 0 <= k < |rows| && rows[k].degree == d {
      TableOfKeys(rows, hasMeaning, d);
    }
  }

  /** A degree is in the table exactly when some row has it. */
  lemma {:induction false} TableOfKeys(rows: seq<CsvRow>, hasMeaning: bool, d: int)
    ensures d in TableOf(rows, hasMeaning) <==> exists k :: 0 <= k < |rows| && rows[k].degree == d
  {
    if rows != [] {
      var init := rows[..|rows| - 1];
      TableOfKeys(init, hasMeaning, d);
      if d in TableOf(init, hasMeaning) {
        var k :| 0 <= k < |init| && init[k].degree == d;
        assert rows[k].degree == d;
      }
      if exists k :: 0 <= k < |rows| && rows[k].degree == d {
        var k :| 0 <= k < |rows| && rows[k].degree == d;
        if k < |init| {
          assert init[k].degree == d;
        }
      }
    }
  }

  /** The label stored for a degree is that of the LAST row with that degree:
      a later row overwrites an earlier one. */
  lemma {:induction false} TableOfLastWins(rows: seq<CsvRow>, hasMeaning: bool, k: nat)
    requires k < |rows|
    requires forall l :: k < l < |rows| ==> rows[l].degree != rows[k].degree
    ensures rows[k].degree in TableOf(rows, hasMeaning)
    ensures TableOf(rows, hasMeaning)[rows[k].degree] == RowLabel(rows[k], hasMeaning)
  {
    if k < |rows| - 1 {
      var init := rows[..|rows| - 1];
      TableOfLastWins(init, hasMeaning, k);
    }
  }

  /** What `load_sabian` gets from the file system and pandas: no file, a file
      that fails to parse (in both encodings, or that lacks the `degree` or
      `symbol` column, or has a degree that is not an integer), or the
      parsed rows together with whether a `meaning` column is present. */
  datatype CsvSource =
    | Missing
    | Unreadable
    | Parsed(rows: seq<CsvRow>, hasMeaning: bool)

  /** `load_sabian`: the table from the rows, or the placeholder table when
      the file is missing or unreadable. Loading never fails. */
  method LoadSabian(source: CsvSource) returns (table: SymbolTable)
    ensures source.Parsed? ==> table == TableOf(source.rows, source.hasMeaning)
    ensures !source.Parsed? ==> table == PlaceholderTable()
  {
    match source {
      case Missing =>
        table := PlaceholderTable();
      case Unreadable =>
        table := PlaceholderTable();
      case Parsed(rows, hasMeaning) =>
        table := BuildTable(rows, hasMeaning);
    }
  }

  /** The label shown for a degree: the stored one, or "Degree n" on a miss. */
  function Lookup(table: SymbolTable, n: int): (text: string)
    ensures n in table ==> text == table[n]
    ensures n !in table ==> text == "Degree " + IntToString(n)
  {
    if n in table then table[n] else "Degree " + IntToString(n)
  }

  /** With the placeholder table every valid degree finds its placeholder,
      and different degrees get different labels. */
  lemma {:induction false} LookupPlaceholder(m: int, n: int)
    requires 1 <= m <= 360 && 1 <= n <= 360
    ensures Lookup(PlaceholderTable(), n) == PlaceholderLabel(n)
    ensures Lookup(PlaceholderTable(), m) == Lookup(PlaceholderTable(), n) ==> m == n
  {
    var lm, ln := PlaceholderLabel(m), PlaceholderLabel(n);
    if lm == ln {
      var sm, sn := IntToString(m), IntToString(n);
      assert |sm| == |lm| - 14 == |sn|;
      assert lm[7..|lm| - 7] == sm;
      assert ln[7..|ln| - 7] == sn;
      IntToStringInjective(m, n);
    }
  }

  /** A miss never fails and always yields the short placeholder; with a
      table loaded from rows, a degree no row mentions is such a miss. */
  lemma {:induction false} LookupMiss(rows: seq<CsvRow>, hasMeaning: bool, n: int)
    requires forall k :: 0 <= k < |rows| ==> rows[k].degree != n
    ensures Lookup(TableOf(rows, hasMeaning), n) == "Degree " + IntToString(n)
  {
    TableOfKeys(rows, hasMeaning, n);
  }
}
