/**
 The payment-history index (`pembayaran_bulan`): for every row, the months
 of its payment columns holding a positive amount, keyed by the taxpayer's
 name (`NAMA OP`) with the last row of a name winning.
 */
module History {
  import opened Wrappers
  import opened Calendar
  import opened Tmt

  /** A spreadsheet cell under a payment column. */
  datatype Cell =
    | Blank                  // NaN: an empty cell
    | Number(amount: real)   // a numeric amount (booleans read as 1 and 0)
    | Text(text: string)     // a string, which Python will not compare with 0

  /** One spreadsheet row: the taxpayer's name, its raw TMT cell and its cells by column. */
  datatype Row = Row(name: string, tmt: RawTmt, cells: map<string, Cell>)

  /** Every column name beginning with this is a payment column. */
  const PaymentPrefix := "PEMBAYARAN"

  /** The text removed from a payment column's name to leave its month label. */
  const LabelPrefix := "PEMBAYARAN "

  /** The day appended to a month label before parsing it. */
  const DaySuffix := " 01"

  predicate StartsWith(s: string, prefix: string) {
    |prefix| <= |s| && s[..|prefix|] == prefix
  }

  /** The payment columns, in their spreadsheet order. */
  function PaymentColumns(columns: seq<string>): (r: seq<string>)
    ensures forall c :: c in r <==> c in columns && StartsWith(c, PaymentPrefix)
    ensures forall c :: multiset(r)[c] == if StartsWith(c, PaymentPrefix) then multiset(columns)[c] else 0
    ensures |r| <= |columns|
  {
    if |columns| == 0 then []
    else
      var rest := PaymentColumns(columns[..|columns| - 1]);
      var c := columns[|columns| - 1];
      assert columns == columns[..|columns| - 1] + [c];
      if StartsWith(c, PaymentPrefix) then rest + [c] else rest
  }

  /** `pat` occurs in `s` starting at position `i`. */
  predicate OccursAt(s: string, pat: string, i: int) {
    0 <= i && i + |pat| <= |s| && s[i..i + |pat|] == pat
  }

  /** `pat` occurs nowhere in `s`. */
  ghost predicate NoOccurrence(s: string, pat: string) {
    forall i :: !OccursAt(s, pat, i)
  }

  /** An occurrence in the tail of `s` is an occurrence in `s`, one position later. */
  lemma OccurrenceInTail(s: string, pat: string, i: int)
    requires |s| > 0 && OccursAt(s[1..], pat, i)
    ensures OccursAt(s, pat, i + 1)
  {
    assert s[1..][i..i + |pat|] == s[i + 1..i + 1 + |pat|];
  }

  /** An occurrence in `s` after its first position is an occurrence in the tail, one position earlier. */
  lemma OccurrenceFromTail(s: string, pat: string, i: int)
    requires i > 0 && OccursAt(s, pat, i)
    ensures OccursAt(s[1..], pat, i - 1)
  {
    assert s[1..][i - 1..i - 1 + |pat|] == s[i..i + |pat|];
  }

  /** If `pat` is absent from `s`, it is absent from the tail of `s`. */
  lemma NoOccurrenceTail(s: string, pat: string)
    requires |s| > 0
    ensures NoOccurrence(s, pat) ==> NoOccurrence(s[1..], pat)
  {
    forall i | OccursAt(s[1..], pat, i) ensures OccursAt(s, pat, i + 1) {
      OccurrenceInTail(s, pat, i);
    }
  }

  /** Python's `s.replace(pat, "")`: removes the occurrences of `pat` found scanning left to right. */
  function RemoveAll(s: string, pat: string): (r: string)
    requires |pat| > 0
    ensures |r| <= |s|
    ensures NoOccurrence(s, pat) ==> r == s
    ensures (exists i :: OccursAt(s, pat, i)) ==> |r| <= |s| - |pat|
    decreases |s|
  {
    if |s| < |pat| then s
    else if s[..|pat|] == pat then
      assert OccursAt(s, pat, 0);
      RemoveAll(s[|pat|..], pat)
    else
      NoOccurrenceTail(s, pat);
      assert s == [s[0]] + s[1..];
      assert (exists i :: OccursAt(s, pat, i)) ==> exists j :: OccursAt(s[1..], pat, j) by {
        if i :| OccursAt(s, pat, i) {
          assert i != 0;
          OccurrenceFromTail(s, pat, i);
        }
      }
      [s[0]] + RemoveAll(s[1..], pat)
  }

  /**
   The text handed to the month-label parser for a column: the column name
   with "PEMBAYARAN " removed, followed by " 01".
   */
  function LabelText(column: string): (t: string)
    ensures |t| >= |DaySuffix| && t[|t| - |DaySuffix|..] == DaySuffix
    ensures |t| <= |column| + |DaySuffix|
    ensures NoOccurrence(column, LabelPrefix) ==> t == column + DaySuffix
  {
    RemoveAll(column, LabelPrefix) + DaySuffix
  }

  /** A column named "PEMBAYARAN " + label, with no further prefix inside the label, yields that label. */
  lemma LabelTextOfPrefixed(monthLabel: string)
    requires NoOccurrence(monthLabel, LabelPrefix)
    ensures LabelText(LabelPrefix + monthLabel) == monthLabel + DaySuffix
  {
    var s := LabelPrefix + monthLabel;
    assert s[..|LabelPrefix|] == LabelPrefix;
    assert s[|LabelPrefix|..] == monthLabel;
  }

  /** The value of a cell; a column absent from the row reads as an empty cell. */
  function CellAt(cells: map<string, Cell>, column: string): Cell {
    if column in cells then cells[column] else Blank
  }

  /**
   `row[col] > 0` for a column that occurs once: only a positive number
   passes. NaN compares false, and a string raises a `TypeError` that the
   bare `except` swallows.
   */
  predicate IsPositive(c: Cell)
    ensures c == Blank ==> !IsPositive(c)
    ensures c.Text? ==> !IsPositive(c)
    ensures c.Number? ==> (IsPositive(c) <==> c.amount > 0.0)
  {
    c.Number? && c.amount > 0.0
  }

  /**
   Whether payment column `c` appends to the row's history. A column name
   that occurs more than once makes `row[col]` a Series, whose truth test
   raises a `ValueError` that the bare `except` swallows, so such a column
   never appends.
   */
  predicate Appends(columns: seq<string>, cells: map<string, Cell>, c: string) {
    multiset(columns)[c] == 1 && IsPositive(CellAt(cells, c))
  }

  /** The entries `visited`, a prefix of the payment columns, contributes to the history. */
  function HistoryOver(visited: seq<string>, columns: seq<string>, cells: map<string, Cell>, parseLabel: string -> Option<Month>): (h: seq<Option<Month>>)
    ensures |h| <= |visited|
    ensures h == [] <==> forall c :: c in visited ==> !Appends(columns, cells, c)
    ensures forall k :: 0 <= k < |h| ==> exists c :: c in visited && Appends(columns, cells, c) && h[k] == parseLabel(LabelText(c))
    ensures forall c :: c in visited && Appends(columns, cells, c) ==> parseLabel(LabelText(c)) in h
  {
    if |visited| == 0 then []
    else
      var init := visited[..|visited| - 1];
      var c := visited[|visited| - 1];
      assert visited == init + [c];
      var rest := HistoryOver(init, columns, cells, parseLabel);
      if Appends(columns, cells, c) then rest + [parseLabel(LabelText(c))] else rest
  }

  /**
   The `histori` list of one row. Each payment column that appends adds its
   parsed label, `None` (`NaT`) when the label does not parse;
   `errors='coerce'` keeps that parse from raising.
   */
  function RowHistory(columns: seq<string>, cells: map<string, Cell>, parseLabel: string -> Option<Month>): (h: seq<Option<Month>>)
    ensures |h| <= |columns|
    ensures h == [] <==> forall c :: c in columns ==> !Appends(columns, cells, c)
    ensures forall k :: 0 <= k < |h| ==> exists c :: c in columns && Appends(columns, cells, c) && h[k] == parseLabel(LabelText(c))
    ensures forall c :: c in columns && Appends(columns, cells, c) ==> parseLabel(LabelText(c)) in h
  {
    HistoryOver(columns, columns, cells, parseLabel)
  }

  /**
   A payment column present twice never registers, however large its amount:
   the row's history stays empty.
   */
  lemma DuplicateColumnIgnored(column: string, amount: real, parseLabel: string -> Option<Month>)
    ensures RowHistory([column, column], map[column := Number(amount)], parseLabel) == []
  {
    assert multiset([column, column])[column] == 2;
  }

  /**
   For a column that occurs once, an amount of exactly 0 registers nothing
   and any positive amount registers its parsed label.
   */
  lemma SingleColumnAmount(column: string, amount: real, parseLabel: string -> Option<Month>)
    ensures RowHistory([column], map[column := Number(amount)], parseLabel)
      == if amount > 0.0 then [parseLabel(LabelText(column))] else []
  {
    assert [column][..0] == [];
    assert multiset([column])[column] == 1;
  }

  /** Last-write-wins lookup: no later row carries the same name as row `i`. */
  ghost predicate IsLastWithName(rows: seq<Row>, i: int)
    requires 0 <= i < |rows|
  {
    forall j :: i < j < |rows| ==> rows[j].name != rows[i].name
  }

  /**
   `pembayaran_bulan`: rows are visited in order and each assigns its own
   history to its name, replacing whatever an earlier row of that name left.
   */
  function BuildIndex(rows: seq<Row>, columns: seq<string>, parseLabel: string -> Option<Month>): (index: map<string, seq<Option<Month>>>)
    ensures forall n :: n in index <==> exists i :: 0 <= i < |rows| && rows[i].name == n
  {
    if |rows| == 0 then map[]
    else
      var init := rows[..|rows| - 1];
      var row := rows[|rows| - 1];
      assert rows == init + [row];
      BuildIndex(init, columns, parseLabel)[row.name := RowHistory(columns, row.cells, parseLabel)]
  }

  /** Last write wins: a name maps to the history of the last row that carries it. */
  lemma {:induction false} IndexIsLastWrite(rows: seq<Row>, columns: seq<string>, parseLabel: string -> Option<Month>, i: int)
    requires 0 <= i < |rows| && IsLastWithName(rows, i)
    ensures rows[i].name in BuildIndex(rows, columns, parseLabel)
    ensures BuildIndex(rows, columns, parseLabel)[rows[i].name] == RowHistory(columns, rows[i].cells, parseLabel)
  {
    var init := rows[..|rows| - 1];
    var last := rows[|rows| - 1];
    assert BuildIndex(rows, columns, parseLabel)
      == BuildIndex(init, columns, parseLabel)[last.name := RowHistory(columns, last.cells, parseLabel)];
    if i < |rows| - 1 {
      assert IsLastWithName(init, i);
      IndexIsLastWrite(init, columns, parseLabel, i);
      assert last.name != rows[i].name;
    }
  }

  /** `pembayaran_bulan.get(name, [])`: a name missing from the index has no payments. */
  function Lookup(index: map<string, seq<Option<Month>>>, name: string): (h: seq<Option<Month>>)
    ensures name in index ==> h == index[name]
    ensures name !in index ==> h == []
  {
    if name in index then index[name] else []
  }

  /**
   Histories are never merged: every row of a name reads back the history of
   the last row carrying that name, whatever the earlier rows paid.
   */
  lemma DuplicateNameReplaced(rows: seq<Row>, columns: seq<string>, parseLabel: string -> Option<Month>, i: int, j: int)
    requires 0 <= i <= j < |rows|
    requires rows[i].name == rows[j].name
    requires IsLastWithName(rows, j)
    ensures Lookup(BuildIndex(rows, columns, parseLabel), rows[i].name) == RowHistory(columns, rows[j].cells, parseLabel)
  {
    IndexIsLastWrite(rows, columns, parseLabel, j);
  }

  /**
   Two rows named "A", the first paying in one column and the second in none:
   the index keeps the second row's empty history.
   */
  lemma LaterEmptyRowErasesPayments(column: string, parseLabel: string -> Option<Month>)
    ensures var rows := [Row("A", Missing, map[column := Number(1.0)]), Row("A", Missing, map[])];
      Lookup(BuildIndex(rows, [column], parseLabel), "A") == []
  {
    var rows := [Row("A", Missing, map[column := Number(1.0)]), Row("A", Missing, map[])];
    IndexIsLastWrite(rows, [column], parseLabel, 1);
    assert !Appends([column], rows[1].cells, column);
  }
}
