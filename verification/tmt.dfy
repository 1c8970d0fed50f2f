/**
 Start-date ("TMT") parsing (`parse_tmt`). The pandas parsers themselves are
 not modelled: they are parameters, `dayFirst` for text cells
 (`pd.to_datetime(tmt, dayfirst=True)`, whose exception or `NaT` gives
 `None`) and `coerce` for numeric cells (`pd.to_datetime(tmt,
 errors='coerce')`).
 */
module Tmt {
  import opened Wrappers
  import opened Calendar

  /** A raw TMT cell as a spreadsheet delivers it. */
  datatype RawTmt =
    | Missing                  // NaN, None or NaT: `pd.isna(tmt)` holds
    | TextTmt(text: string)    // a string cell
    | StampTmt(stamp: Date)    // a cell already read as a timestamp
    | NumberTmt(number: real)  // any other (numeric) cell

  /**
   `parse_tmt`: a missing cell is absent whatever the parsers do, a timestamp
   is kept as it is, text goes to the day-first parser and anything else to
   the coercing parser.
   */
  function ParseTmt(raw: RawTmt, dayFirst: string -> Option<Date>, coerce: real -> Option<Date>): (r: Option<Date>)
    ensures raw.Missing? ==> r == None
    ensures raw.StampTmt? ==> r == Some(raw.stamp)
    ensures raw.TextTmt? ==> r == dayFirst(raw.text)
    ensures raw.NumberTmt? ==> r == coerce(raw.number)
  {
    match raw
    case Missing => None
    case TextTmt(s) => dayFirst(s)
    case StampTmt(d) => Some(d)
    case NumberTmt(x) => coerce(x)
  }

  /**
   The `TAHUN` column: the year of the parsed start date, or the current
   year (a parameter, since it comes from the clock) when there is none.
   */
  function TaxYear(start: Option<Date>, currentYear: int): (y: int)
    ensures start.Some? ==> y == start.value.year
    ensures start.None? ==> y == currentYear
  {
    match start
    case Some(d) => d.year
    case None => currentYear
  }
}
