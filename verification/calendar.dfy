/**
 Calendar arithmetic at the granularity the compliance rule needs: calendar
 dates (pandas timestamps at midnight) and calendar months (pandas monthly
 periods). Months are numbered consecutively by `MonthIndex`, which turns
 "one calendar month later" into "+1".
 */
module Calendar {

  /** A (year, month) pair; the model of a pandas `Period` with frequency "M". */
  datatype YearMonth = YearMonth(year: int, month: int)

  /** A well-formed calendar month. */
  type Month = m: YearMonth | 1 <= m.month <= 12 witness YearMonth(1970, 1)

  /** A (year, month, day) triple; the model of a pandas `Timestamp` at midnight. */
  datatype CalendarDate = CalendarDate(year: int, month: int, day: int)

  /** Gregorian leap years, as pandas uses (proleptic Gregorian calendar). */
  predicate IsLeapYear(y: int) {
    y % 4 == 0 && (y % 100 != 0 || y % 400 == 0)
  }

  function DaysInMonth(y: int, m: int): (n: int)
    ensures 28 <= n <= 31
  {
    if m == 2 then (if IsLeapYear(y) then 29 else 28)
    else if m == 4 || m == 6 || m == 9 || m == 11 then 30
    else 31
  }

  /** A date that exists in the calendar. */
  type Date = d: CalendarDate | 1 <= d.month <= 12 && 1 <= d.day <= DaysInMonth(d.year, d.month)
    witness CalendarDate(1970, 1, 1)

  /** Chronological order on dates. */
  predicate DateLe(a: CalendarDate, b: CalendarDate) {
    a.year < b.year || (a.year == b.year && (a.month < b.month || (a.month == b.month && a.day <= b.day)))
  }

  /** Months counted from January of year 0. */
  function MonthIndex(m: YearMonth): int {
    m.year * 12 + m.month - 1
  }

  /** Distinct well-formed months have distinct indices. */
  lemma MonthIndexInjective(a: Month, b: Month)
    ensures MonthIndex(a) == MonthIndex(b) <==> a == b
  {
    if MonthIndex(a) == MonthIndex(b) {
      assert (a.year - b.year) * 12 == b.month - a.month;
    }
  }

  /** The following calendar month: one step of pandas' month-start offset. */
  function Next(m: Month): (n: Month)
    ensures MonthIndex(n) == MonthIndex(m) + 1
  {
    if m.month == 12 then YearMonth(m.year + 1, 1) else YearMonth(m.year, m.month + 1)
  }

  /** The first day of a month, the timestamp pandas produces for it under freq='MS'. */
  function MonthStart(m: Month): (d: Date)
    ensures d.year == m.year && d.month == m.month && d.day == 1
  {
    CalendarDate(m.year, m.month, 1)
  }

  /** The month a date falls in: `Timestamp.to_period("M")`. */
  function MonthOf(d: Date): (m: Month)
    ensures DateLe(MonthStart(m), d)
    ensures !DateLe(MonthStart(Next(m)), d)
  {
    YearMonth(d.year, d.month)
  }

  /**
   The earliest month whose first day is on or after `d`: the first
   timestamp of a monthly ('MS') date range that starts at `d`. A date that is
   not the 1st of its month rolls forward to the following month.
   */
  function FirstMonthStart(d: Date): (m: Month)
    ensures DateLe(d, MonthStart(m))
    ensures forall m': Month :: DateLe(d, MonthStart(m')) ==> MonthIndex(m) <= MonthIndex(m')
    ensures d.day == 1 ==> m == MonthOf(d)
    ensures d.day != 1 ==> m == Next(MonthOf(d))
  {
    var here := MonthOf(d);
    if d.day == 1 then here else Next(here)
  }

  /** Month-start dates are ordered exactly as their month indices. */
  lemma MonthStartOrder(a: Month, b: Month)
    ensures DateLe(MonthStart(a), MonthStart(b)) <==> MonthIndex(a) <= MonthIndex(b)
  {
  }
}
