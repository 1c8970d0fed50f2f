# Tax-payment compliance rule of the "Dashboard Kepatuhan Pajak"

This project models, in Dafny, the compliance rule of the tax-compliance
dashboard (`dashboard_kepatuhan.py`). For each taxpayer (object of tax,
`NAMA OP`) the dashboard reads a start-of-obligation date (`TMT`) and a row
of monthly payment columns (`PEMBAYARAN <month> <year>`). From these it computes a
compliance score `KEPATUHAN (%)`, which is always 0 or 100:

- `parse_tmt` turns the raw TMT cell into a date or "absent" (`tmt.dfy`);
- the tax year `TAHUN` is the start date's own year (`tmt.dfy`);
- the payment-history index `pembayaran_bulan` maps each name to the months
  whose column holds a positive amount, last row of a name winning
  (`history.dfy`);
- the obligation window is `pd.date_range(start, 1 December of the tax year,
  freq='MS')` (`calendar.dfy`, `window.dfy`);
- `calculate_kepatuhan` returns 0 for an absent start or an empty history,
  and otherwise 0 exactly when the window holds three or more consecutive
  unpaid months (`gaps.dfy`, `kepatuhan.dfy`);
- the whole column is assembled in `dashboard.dfy`.

Months are `Calendar.Month` values, which model pandas monthly periods. Dates are
`Calendar.Date` values, which model timestamps at midnight. A `NaT` timestamp is
`None` of `Wrappers.Option`. The pandas parsers are parameters (the
`Dashboard.Parsers` record), and so is the current year.

Behaviour worth knowing, all proved below:
- a start date after 1 December of its own year gives an empty window, and
  the row is then compliant once its history is non-empty;
- a positive amount under a column whose label does not parse still adds
  an entry (`NaT`) to the history. That entry pays no month, but it does
  defeat the empty-history short-circuit;
- rows sharing a name all read back the history of the last such row;
  earlier rows' payments are dropped, not merged.

A month label that does not parse is not skipped: with `errors='coerce'`
it becomes `NaT` and is appended (`History.RowHistory`). The window starts at
the first month-start on or after the start date: a start on the 15th
begins with the following month (`Calendar.FirstMonthStart`). A payment
column whose name occurs twice never registers a payment: `row[col]` is then
a Series whose truth test raises, and the bare `except` swallows the error
(`History.Appends`).

## Model

| member | source | states |
|---|---|---|
| Tmt.ParseTmt | dashboard_kepatuhan.py:14-21 | a missing cell is absent whatever the parsers say; a timestamp cell is kept unchanged; text uses the day-first parser and other values use the coercing parser |
| Calendar.Next | dashboard_kepatuhan.py:23-24 | one step of the month-start frequency moves exactly one month forward in the month numbering |
| Calendar.FirstMonthStart | dashboard_kepatuhan.py:23-24 | the first month of a range starting at a date is the earliest month whose 1st is on or after that date: the date's own month on the 1st, the next month otherwise |
| Window.MonthRange | dashboard_kepatuhan.py:23-24 | a range from `first` to `last` has `last - first + 1` months (none when `first` is later) and its i-th month is `first + i` |
| Window.MonthRangeShape | dashboard_kepatuhan.py:23-24 | a month range holds exactly the months between its ends, each one month after the previous, starting at `first` and ending at `last` |
| Window.DecemberFirst | dashboard_kepatuhan.py:32 | the window's end is the 1st of December of the tax year |
| Window.ActiveMonths | dashboard_kepatuhan.py:31-33 | the window holds exactly the months whose 1st lies between the start date and 1 December of the tax year. They come in increasing order, one month apart, from the start's rolled-forward month to December. The window is empty exactly when the start is after 1 December |
| Tmt.TaxYear | dashboard_kepatuhan.py:100 | the tax year is the parsed start date's year, and the current year for a row without one |
| Window.WindowInOwnYear | dashboard_kepatuhan.py:31-33 | with the tax year equal to the start's year, the window has `13 - month` months for a start on the 1st and `12 - month` otherwise, so never more than 12 |
| Gaps.TrailingMisses | dashboard_kepatuhan.py:42-47 | the loop's `gap`: the last `n` months are all unpaid and the month before them, if any, is paid |
| Gaps.MaxMissRun | dashboard_kepatuhan.py:40-47 | the loop's `max_gap` is bounded by the window's length and is at least the current `gap` |
| Gaps.TrailingMissesSnoc | dashboard_kepatuhan.py:43-47 | visiting one more month resets `gap` to 0 on a paid month and increments it on an unpaid one |
| Gaps.MaxMissRunSnoc | dashboard_kepatuhan.py:44-45 | visiting one more month sets `max_gap` to the larger of its old value and the new `gap` |
| Gaps.MissRunBounded | dashboard_kepatuhan.py:40-47 | every run of consecutive unpaid months is at most `max_gap` long |
| Gaps.MissRunAttained | dashboard_kepatuhan.py:40-47 | some run of consecutive unpaid months is exactly `max_gap` long |
| Gaps.ThreeMissesIff | dashboard_kepatuhan.py:40-48 | `max_gap >= 3` holds exactly when three consecutive months of the window are unpaid |
| Gaps.MaxMissRunMonotone | dashboard_kepatuhan.py:45 | `max_gap` never decreases as the loop advances |
| Kepatuhan.PaidMonths | dashboard_kepatuhan.py:39 | a month is in the paid set exactly when the history holds it; `NaT` entries pay no month |
| Kepatuhan.Verdict | dashboard_kepatuhan.py:26-48 | the verdict is 0 or 100. It is 0 for an absent start and 0 for an empty history. Otherwise it is 100 exactly when no three consecutive window months are unpaid |
| Kepatuhan.LongestGap | dashboard_kepatuhan.py:40-47 | the `gap`/`max_gap` loop returns the longest run of consecutive unpaid window months: some run attains it and no run exceeds it |
| Kepatuhan.CalculateKepatuhan | dashboard_kepatuhan.py:26-48 | the function with its two short-circuits and its loop computes the verdict above |
| Kepatuhan.EmptyWindowCompliant | dashboard_kepatuhan.py:33-48 | a start after 1 December of the tax year gives verdict 100 for any non-empty history |
| Kepatuhan.UnparsedHistoryVerdict | dashboard_kepatuhan.py:36-48 | a non-empty history of `NaT` entries only gives 100 exactly when the window is shorter than three months |
| Kepatuhan.ThreeTrailingMissesFail | dashboard_kepatuhan.py:40-48 | window Jul-Dec with only Sep paid (miss, miss, hit, miss, miss, miss) gives 0 |
| Kepatuhan.TwoTrailingMissesPass | dashboard_kepatuhan.py:40-48 | window Aug-Dec with only Oct paid (miss, miss, hit, miss, miss) gives 100 |
| History.PaymentColumns | dashboard_kepatuhan.py:102 | the payment columns are exactly the columns whose name starts with `PEMBAYARAN`, each kept as many times as it occurs among the columns |
| History.RemoveAll | dashboard_kepatuhan.py:111 | removing a pattern never lengthens a name, leaves a name without the pattern unchanged, and shortens a name containing the pattern by at least the pattern's length |
| History.LabelTextOfPrefixed | dashboard_kepatuhan.py:111-113 | column `PEMBAYARAN <label>` is parsed as `<label> 01` |
| History.IsPositive | dashboard_kepatuhan.py:114-117 | an empty (NaN) cell and a text cell never pass `row[col] > 0`; a number passes exactly when it is above 0 |
| History.LabelText | dashboard_kepatuhan.py:111-113 | the parsed text always ends in " 01", is no longer than the column name plus " 01", and is the name plus " 01" when the name has no "PEMBAYARAN " in it |
| History.RowHistory | dashboard_kepatuhan.py:109-117 | a row's history is empty exactly when no payment column appends, that is, no column occurring once holds a positive amount. Each entry is the parsed label of an appending column, and every appending column's parsed label (`NaT` included) is in it |
| History.DuplicateColumnIgnored | dashboard_kepatuhan.py:110-117 | a payment column present twice adds nothing, however large its amount |
| History.SingleColumnAmount | dashboard_kepatuhan.py:114-115 | an amount of exactly 0 registers nothing; any positive amount registers the column's parsed label |
| History.BuildIndex | dashboard_kepatuhan.py:106-118 | the index has exactly the names of the rows as keys |
| History.IndexIsLastWrite | dashboard_kepatuhan.py:107-118 | each name maps to the history of the last row with that name |
| History.Lookup | dashboard_kepatuhan.py:34 | a name present in the index reads back its history; a missing name reads back the empty history |
| History.DuplicateNameReplaced | dashboard_kepatuhan.py:107-118 | every row of a name reads back the history of the last row with that name |
| History.LaterEmptyRowErasesPayments | dashboard_kepatuhan.py:107-118 | a paying row followed by a non-paying row of the same name leaves an empty history: histories are not merged |
| Dashboard.Evaluate | dashboard_kepatuhan.py:120 | one verdict per row, each 0 or 100, and 0 for every row without a parsed start date |
| Dashboard.RowVerdict | dashboard_kepatuhan.py:26-48 | a row's verdict is 0 or 100; it is 0 without a parsed start date and 0 when its name reads back an empty history (missing from the index or present with no payment); otherwise, with its history non-empty, it is 100 exactly when no three consecutive months of the window up to December of the start's own year are unpaid |
| Dashboard.RowPaidMonths | dashboard_kepatuhan.py:110-115 | a month is paid for a row exactly when some payment column that occurs once, with a positive amount, has that month as its parsed label |
| Dashboard.UnparsedStartFails | dashboard_kepatuhan.py:14-29 | a missing TMT, or one the parser rejects, gives verdict 0 whatever the payments |
| Dashboard.NoPaymentFails | dashboard_kepatuhan.py:34-37 | a row whose name's last row registers no payment gets 0 |
| Dashboard.WindowAtMostTwelve | dashboard_kepatuhan.py:28-33 | with the tax year taken from the start date, every window has at most 12 months |
| Dashboard.LateDecemberStartPasses | dashboard_kepatuhan.py:31-48 | a start on 2-31 December gives an empty window and verdict 100 once the name's last row registers any payment |
| Dashboard.RowCompliantIff | dashboard_kepatuhan.py:107-120 | a row with a parsed start whose name's last row registers some payment is scored 100 exactly when no three consecutive months of its window, up to December of the start's year, are left unpaid by that last row |
| Dashboard.SameNameSameVerdict | dashboard_kepatuhan.py:120 | rows with the same name and start date get the same verdict |
| Dashboard.UnparsedLabelsOnly | dashboard_kepatuhan.py:111-115 | registered payments whose labels never parse give 100 exactly when the window is shorter than three months |

## Left out

- Streamlit page, file upload, sheet choice, filters, error banners and charts (lines 1-12, 53-61, 126-154): user interface and I/O.
- Column-name upper-casing and alias resolution (lines 63-97): configuration that halts the page on failure. The model starts from columns that are already normalised.
- The pandas parsers (day-first text, numeric coercion, `%B %Y %d` month labels): these are the function parameters of `Dashboard.Parsers`, not models of pandas.
- Time of day: start dates are taken at midnight. With a later time, pandas keeps a start on the 1st as it is and rolls a later start to the next 1st keeping the time; every window month then carries that time, so 1 December falls after the midnight end of line 32 and December drops out of the window.
- Dashboard.Evaluate: the timestamp range limits of pandas are not modelled. A start date in 2262 is representable, but `pd.Timestamp("2262-12-01")` at line 32 is not, so such a row raises instead of scoring; the model scores it as any other year.
- Dashboard.Evaluate: a batch in which no TMT parses is not modelled as failing. Then `df['TMT'].apply(parse_tmt)` holds only `None` and stays of object type, `.dt.year` at line 100 raises, and no compliance column is produced; the model gives every row 0.
- `TOTAL PEMBAYARAN`, `format_number` and the `"%.2f%"` rendering of the verdict (lines 50-51, 103, 123-124, 142): floating point and display.
- The current-year fallback of line 28 cannot be reached, since line 100 always adds `TAHUN`. The fallback of line 100 only applies to rows with no start date, which score 0 anyway. The current year is a parameter.
- Names (`NAMA OP`) are strings; NaN names and Python's identity rules for NaN dictionary keys are not modelled.
- Re-running on the same input gives the same result because every function here is pure; no separate lemma states this.
