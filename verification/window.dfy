/**
 The obligation window of one taxpayer: the month-start timestamps of
 `pd.date_range(start, end, freq='MS')` with `end` the 1st of December of the
 tax year (dashboard_kepatuhan.py `generate_month_range` and its caller).
 */
module Window {
  import opened Calendar

  /** 1 December of a year, the end of every obligation window. */
  function DecemberFirst(year: int): (d: Date)
    ensures MonthOf(d) == YearMonth(year, 12) && d.day == 1
  {
    CalendarDate(year, 12, 1)
  }

  /** Every month from `first` through `last`, in order, one month apart. */
  function MonthRange(first: Month, last: Month): (r: seq<Month>)
    ensures |r| == if MonthIndex(first) <= MonthIndex(last) then MonthIndex(last) - MonthIndex(first) + 1 else 0
    ensures forall i :: 0 <= i < |r| ==> MonthIndex(r[i]) == MonthIndex(first) + i
    decreases MonthIndex(last) - MonthIndex(first)
  {
    if MonthIndex(first) > MonthIndex(last) then [] else [first] + MonthRange(Next(first), last)
  }

  /** A month belongs to a range exactly when its index lies between the ends. */
  lemma MonthRangeMembers(first: Month, last: Month, m: Month)
    ensures m in MonthRange(first, last) <==> MonthIndex(first) <= MonthIndex(m) <= MonthIndex(last)
  {
    var r := MonthRange(first, last);
    if m in r {
      var i :| 0 <= i < |r| && r[i] == m;
    } else if MonthIndex(first) <= MonthIndex(m) <= MonthIndex(last) {
      var i := MonthIndex(m) - MonthIndex(first);
      MonthIndexInjective(r[i], m);
      assert false;
    }
  }

  /**
   What a month range is, stated without its recursion: consecutive months,
   from `first` to `last`, containing exactly the months between them.
   */
  lemma MonthRangeShape(first: Month, last: Month)
    ensures var r := MonthRange(first, last);
      && (forall m: Month :: m in r <==> DateLe(MonthStart(first), MonthStart(m)) && DateLe(MonthStart(m), MonthStart(last)))
      && (forall i :: 0 < i < |r| ==> r[i] == Next(r[i - 1]))
      && (|r| > 0 ==> r[0] == first && r[|r| - 1] == last)
  {
    var r := MonthRange(first, last);
    forall m: Month
      ensures m in r <==> DateLe(MonthStart(first), MonthStart(m)) && DateLe(MonthStart(m), MonthStart(last))
    {
      MonthRangeMembers(first, last, m);
      MonthStartOrder(first, m);
      MonthStartOrder(m, last);
    }
    forall i | 0 < i < |r|
      ensures r[i] == Next(r[i - 1])
    {
      MonthIndexInjective(r[i], Next(r[i - 1]));
    }
    if |r| > 0 {
      MonthIndexInjective(r[0], first);
      MonthIndexInjective(r[|r| - 1], last);
    }
  }

  /** A date is on or before a month's first day exactly when its rolled-forward month is not later. */
  lemma FirstMonthStartOrder(start: Date, m: Month)
    ensures DateLe(start, MonthStart(m)) <==> DateLe(MonthStart(FirstMonthStart(start)), MonthStart(m))
  {
    MonthStartOrder(FirstMonthStart(start), m);
  }

  /**
   The months of `pd.date_range(start, DecemberFirst(taxYear), freq='MS')`,
   each given as its monthly period. Its contract is the meaning of such a
   range: exactly the months whose first day lies between the two bounds,
   in increasing order, one calendar month apart.
   */
  function ActiveMonths(start: Date, taxYear: int): (r: seq<Month>)
    ensures forall m: Month :: m in r <==> DateLe(start, MonthStart(m)) && DateLe(MonthStart(m), DecemberFirst(taxYear))
    ensures forall i :: 0 < i < |r| ==> r[i] == Next(r[i - 1])
    ensures |r| > 0 ==> r[0] == FirstMonthStart(start) && r[|r| - 1] == YearMonth(taxYear, 12)
    ensures |r| == 0 <==> !DateLe(start, DecemberFirst(taxYear))
  {
    var first := FirstMonthStart(start);
    var last: Month := YearMonth(taxYear, 12);
    MonthRangeShape(first, last);
    assert forall m: Month :: DateLe(start, MonthStart(m)) <==> DateLe(MonthStart(first), MonthStart(m)) by {
      forall m: Month ensures DateLe(start, MonthStart(m)) <==> DateLe(MonthStart(first), MonthStart(m)) {
        FirstMonthStartOrder(start, m);
      }
    }
    MonthRange(first, last)
  }

  /**
   When the tax year is the start date's own year, as the dashboard derives
   it, the window runs from the start's rolled-forward month to December:
   never more than twelve months, and empty for a start after 1 December.
   */
  lemma WindowInOwnYear(start: Date)
    ensures |ActiveMonths(start, start.year)| == if start.day == 1 then 13 - start.month else 12 - start.month
    ensures |ActiveMonths(start, start.year)| <= 12
  {
    var first := FirstMonthStart(start);
    assert ActiveMonths(start, start.year) == MonthRange(first, YearMonth(start.year, 12));
  }
}
