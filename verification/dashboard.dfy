/**
 The compliance column of the dashboard (`KEPATUHAN (%)`): parse every
 row's TMT, derive its tax year, build the payment-history index over all
 rows, then score each row against the history its name reads back.
 */
module Dashboard {
  import opened Wrappers
  import opened Calendar
  import opened Window
  import opened Gaps
  import opened Tmt
  import opened History
  import opened Kepatuhan

  /** The pandas parsers the dashboard relies on, which this model leaves abstract. */
  datatype Parsers = Parsers(
    dayFirst: string -> Option<Date>,     // pd.to_datetime(text, dayfirst=True)
    coerce: real -> Option<Date>,         // pd.to_datetime(value, errors='coerce')
    monthLabel: string -> Option<Month>)  // pd.to_datetime(label, format="%B %Y %d", errors='coerce')

  /** The parsed start date of a row. */
  function StartOf(row: Row, parsers: Parsers): Option<Date> {
    ParseTmt(row.tmt, parsers.dayFirst, parsers.coerce)
  }

  /** `calculate_kepatuhan(row, pembayaran_bulan)` with `TAHUN` derived from the row's own TMT. */
  function RowVerdict(row: Row, index: map<string, seq<Option<Month>>>, parsers: Parsers, currentYear: int): (r: int)
    ensures r == NonCompliant || r == Compliant
    ensures StartOf(row, parsers) == None ==> r == NonCompliant
    ensures Lookup(index, row.name) == [] ==> r == NonCompliant
    ensures StartOf(row, parsers) != None && row.name in index && index[row.name] != [] ==>
      var start := StartOf(row, parsers).value;
      (r == Compliant <==> !ThreeConsecutiveMisses(ActiveMonths(start, start.year), PaidMonths(index[row.name])))
  {
    var start := StartOf(row, parsers);
    Verdict(start, TaxYear(start, currentYear), Lookup(index, row.name))
  }

  /** The verdict of every row, in row order. */
  function Evaluate(columns: seq<string>, rows: seq<Row>, parsers: Parsers, currentYear: int): (verdicts: seq<int>)
    ensures |verdicts| == |rows|
    ensures forall i :: 0 <= i < |rows| ==> verdicts[i] == NonCompliant || verdicts[i] == Compliant
    ensures forall i :: 0 <= i < |rows| && StartOf(rows[i], parsers) == None ==> verdicts[i] == NonCompliant
  {
    var index := BuildIndex(rows, PaymentColumns(columns), parsers.monthLabel);
    seq(|rows|, i requires 0 <= i < |rows| => RowVerdict(rows[i], index, parsers, currentYear))
  }

  /**
   A month is paid in a row exactly when some payment column that occurs
   once, with a positive amount, has that month as its parsed label.
   */
  lemma RowPaidMonths(columns: seq<string>, cells: map<string, Cell>, parseLabel: string -> Option<Month>, m: Month)
    ensures m in PaidMonths(RowHistory(columns, cells, parseLabel)) <==>
      exists c :: c in columns && Appends(columns, cells, c) && parseLabel(LabelText(c)) == Some(m)
  {
    var h := RowHistory(columns, cells, parseLabel);
    if m in PaidMonths(h) {
      var k :| 0 <= k < |h| && h[k] == Some(m);
      var c :| c in columns && Appends(columns, cells, c) && h[k] == parseLabel(LabelText(c));
    } else {
      forall c | c in columns && Appends(columns, cells, c) ensures parseLabel(LabelText(c)) != Some(m) {
        assert parseLabel(LabelText(c)) in h;
      }
    }
  }

  /**
   A missing or unparseable TMT gives verdict 0 whatever the payments: the
   `pd.isna` test comes before anything else in `calculate_kepatuhan`.
   */
  lemma UnparsedStartFails(columns: seq<string>, rows: seq<Row>, parsers: Parsers, currentYear: int, i: int)
    requires 0 <= i < |rows|
    requires rows[i].tmt.Missing? || (rows[i].tmt.TextTmt? && parsers.dayFirst(rows[i].tmt.text) == None)
      || (rows[i].tmt.NumberTmt? && parsers.coerce(rows[i].tmt.number) == None)
    ensures Evaluate(columns, rows, parsers, currentYear)[i] == NonCompliant
  {
  }

  /**
   A row whose name's last row registers no payment (no column that occurs
   once holds a positive amount) is non-compliant, however long its window.
   */
  lemma NoPaymentFails(columns: seq<string>, rows: seq<Row>, parsers: Parsers, currentYear: int, i: int, j: int)
    requires 0 <= i <= j < |rows|
    requires rows[i].name == rows[j].name && IsLastWithName(rows, j)
    requires forall c :: c in PaymentColumns(columns) ==> !Appends(PaymentColumns(columns), rows[j].cells, c)
    ensures Evaluate(columns, rows, parsers, currentYear)[i] == NonCompliant
  {
    var cols := PaymentColumns(columns);
    DuplicateNameReplaced(rows, cols, parsers.monthLabel, i, j);
  }

  /**
   Because the tax year is the start's own year, a scored row's window runs
   from its rolled-forward start month through December of that year: at
   most twelve months.
   */
  lemma WindowAtMostTwelve(row: Row, parsers: Parsers, currentYear: int)
    requires StartOf(row, parsers) != None
    ensures var start := StartOf(row, parsers).value;
      |ActiveMonths(start, TaxYear(Some(start), currentYear))| <= 12
  {
    WindowInOwnYear(StartOf(row, parsers).value);
  }

  /**
   A start date in December after the 1st gives an empty window, so the row
   is compliant as soon as its name's history is not empty, even if no
   payment month parsed.
   */
  lemma LateDecemberStartPasses(columns: seq<string>, rows: seq<Row>, parsers: Parsers, currentYear: int, i: int, j: int)
    requires 0 <= i <= j < |rows|
    requires rows[i].name == rows[j].name && IsLastWithName(rows, j)
    requires StartOf(rows[i], parsers).Some?
    requires StartOf(rows[i], parsers).value.month == 12 && StartOf(rows[i], parsers).value.day > 1
    requires exists c :: c in PaymentColumns(columns) && Appends(PaymentColumns(columns), rows[j].cells, c)
    ensures Evaluate(columns, rows, parsers, currentYear)[i] == Compliant
  {
    var cols := PaymentColumns(columns);
    DuplicateNameReplaced(rows, cols, parsers.monthLabel, i, j);
    var start := StartOf(rows[i], parsers).value;
    EmptyWindowCompliant(start, start.year, RowHistory(cols, rows[j].cells, parsers.monthLabel));
  }

  /**
   Rows sharing a name and a start date share a verdict, since they read back
   the same history.
   */
  lemma SameNameSameVerdict(columns: seq<string>, rows: seq<Row>, parsers: Parsers, currentYear: int, i: int, j: int)
    requires 0 <= i < |rows| && 0 <= j < |rows|
    requires rows[i].name == rows[j].name && StartOf(rows[i], parsers) == StartOf(rows[j], parsers)
    ensures Evaluate(columns, rows, parsers, currentYear)[i] == Evaluate(columns, rows, parsers, currentYear)[j]
  {
  }

  /**
   Positive amounts under labels that never parse leave a history of `NaT`
   entries only. It is not empty, so the short-circuit does not fire, yet it
   pays no month: the row passes exactly when its window is shorter than three.
   */
  lemma UnparsedLabelsOnly(columns: seq<string>, rows: seq<Row>, parsers: Parsers, currentYear: int, i: int, j: int)
    requires 0 <= i <= j < |rows|
    requires rows[i].name == rows[j].name && IsLastWithName(rows, j)
    requires StartOf(rows[i], parsers).Some?
    requires exists c :: c in PaymentColumns(columns) && Appends(PaymentColumns(columns), rows[j].cells, c)
    requires forall c :: c in PaymentColumns(columns) && Appends(PaymentColumns(columns), rows[j].cells, c) ==> parsers.monthLabel(LabelText(c)) == None
    ensures var start := StartOf(rows[i], parsers).value;
      Evaluate(columns, rows, parsers, currentYear)[i] == Compliant <==> |ActiveMonths(start, start.year)| < 3
  {
    var cols := PaymentColumns(columns);
    DuplicateNameReplaced(rows, cols, parsers.monthLabel, i, j);
    var h := RowHistory(cols, rows[j].cells, parsers.monthLabel);
    forall k | 0 <= k < |h| ensures h[k] == None {
      var c :| c in cols && Appends(cols, rows[j].cells, c) && h[k] == parsers.monthLabel(LabelText(c));
    }
    var start := StartOf(rows[i], parsers).value;
    UnparsedHistoryVerdict(start, start.year, h);
  }

  /**
   The general case: a row with a parsed start date whose name's last row
   registers some payment is compliant exactly when no three consecutive
   months of its window, up to December of the start's own year, are unpaid
   by that last row.
   */
  lemma RowCompliantIff(columns: seq<string>, rows: seq<Row>, parsers: Parsers, currentYear: int, i: int, j: int)
    requires 0 <= i <= j < |rows|
    requires rows[i].name == rows[j].name && IsLastWithName(rows, j)
    requires StartOf(rows[i], parsers).Some?
    requires exists c :: c in PaymentColumns(columns) && Appends(PaymentColumns(columns), rows[j].cells, c)
    ensures var start := StartOf(rows[i], parsers).value;
      Evaluate(columns, rows, parsers, currentYear)[i] == Compliant <==>
        !ThreeConsecutiveMisses(ActiveMonths(start, start.year), PaidMonths(RowHistory(PaymentColumns(columns), rows[j].cells, parsers.monthLabel)))
  {
    DuplicateNameReplaced(rows, PaymentColumns(columns), parsers.monthLabel, i, j);
  }
}
