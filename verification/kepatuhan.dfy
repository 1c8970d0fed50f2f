/**
 The compliance verdict of one taxpayer (`calculate_kepatuhan`): 0 for an
 absent start date or an empty payment history, otherwise 0 when the
 obligation window holds three or more consecutive unpaid months and 100
 when it does not.
 */
module Kepatuhan {
  import opened Wrappers
  import opened Calendar
  import opened Window
  import opened Gaps

  /** Verdict values; the source returns plain integers read as percentages. */
  const NonCompliant := 0
  const Compliant := 100

  /** Run length from which a taxpayer is non-compliant. */
  const MaxAllowedGap := 3

  /**
   The months of a payment history (`bayar_set`). A `None` entry is a `NaT`
   timestamp; its period is `NaT`, which equals no month, so it contributes
   nothing here.
   */
  function PaidMonths(history: seq<Option<Month>>): (paid: set<Month>)
    ensures forall m: Month :: m in paid <==> Some(m) in history
  {
    set i | 0 <= i < |history| && history[i].Some? :: history[i].value
  }

  /**
   The verdict of `calculate_kepatuhan` for a start date (`None` when absent),
   a tax year and the taxpayer's payment history (`[]` when the taxpayer is
   not in the index).
   */
  function Verdict(start: Option<Date>, taxYear: int, history: seq<Option<Month>>): (r: int)
    ensures r == NonCompliant || r == Compliant
    ensures start == None ==> r == NonCompliant
    ensures history == [] ==> r == NonCompliant
    ensures start != None && history != [] ==>
      (r == Compliant <==> !ThreeConsecutiveMisses(ActiveMonths(start.value, taxYear), PaidMonths(history)))
  {
    if start.None? then NonCompliant
    else
      var window := ActiveMonths(start.value, taxYear);
      if history == [] then NonCompliant
      else
        ThreeMissesIff(window, PaidMonths(history));
        if MaxMissRun(window, PaidMonths(history)) >= MaxAllowedGap then NonCompliant else Compliant
  }

  /**
   The `gap`/`max_gap` loop of `calculate_kepatuhan`: `gap` counts the
   current run of unpaid months and resets on a paid one, `max_gap` keeps
   the longest run seen so far.
   */
  method LongestGap(window: seq<Month>, paid: set<Month>) returns (maxGap: int)
    ensures maxGap == MaxMissRun(window, paid)
    ensures exists i :: MissRunAt(window, paid, i, maxGap)
    ensures forall i, n :: MissRunAt(window, paid, i, n) ==> n <= maxGap
  {
    var gap := 0;
    maxGap := 0;
    var i := 0;
    while i < |window|
      invariant 0 <= i <= |window|
      invariant gap == TrailingMisses(window[..i], paid)
      invariant maxGap == MaxMissRun(window[..i], paid)
    {
      assert window[..i + 1] == window[..i] + [window[i]];
      TrailingMissesSnoc(window[..i], paid, window[i]);
      MaxMissRunSnoc(window[..i], paid, window[i]);
      if window[i] !in paid {
        gap := gap + 1;
        maxGap := Max(maxGap, gap);
      } else {
        gap := 0;
      }
      i := i + 1;
    }
    assert window[..i] == window;
    MissRunAttained(window, paid);
    forall i, n | MissRunAt(window, paid, i, n)
      ensures n <= maxGap
    {
      MissRunBounded(window, paid, i, n);
    }
  }

  /** `calculate_kepatuhan` as written, with its two short-circuits before the loop. */
  method CalculateKepatuhan(start: Option<Date>, taxYear: int, history: seq<Option<Month>>) returns (r: int)
    ensures r == Verdict(start, taxYear, history)
  {
    if start.None? {
      return NonCompliant;
    }
    var window := ActiveMonths(start.value, taxYear);
    if history == [] {
      return NonCompliant;
    }
    var maxGap := LongestGap(window, PaidMonths(history));
    r := if maxGap >= MaxAllowedGap then NonCompliant else Compliant;
  }

  /**
   An obligation window that is empty (start after 1 December of the tax
   year) never enters the loop: any non-empty history is compliant.
   */
  lemma EmptyWindowCompliant(start: Date, taxYear: int, history: seq<Option<Month>>)
    requires !DateLe(start, DecemberFirst(taxYear))
    requires history != []
    ensures Verdict(Some(start), taxYear, history) == Compliant
  {
  }

  /**
   A history whose entries are all `NaT` is not empty, so it passes the
   short-circuit, yet pays no month: the verdict then depends on the window's
   length alone.
   */
  lemma UnparsedHistoryVerdict(start: Date, taxYear: int, history: seq<Option<Month>>)
    requires history != []
    requires forall k :: 0 <= k < |history| ==> history[k] == None
    ensures Verdict(Some(start), taxYear, history) == Compliant <==> |ActiveMonths(start, taxYear)| < 3
  {
    var window := ActiveMonths(start, taxYear);
    assert PaidMonths(history) == {};
    if |window| >= 3 {
      assert window[0] !in PaidMonths(history);
    }
  }

  /**
   Window July to December 2024 with only September paid: miss, miss, hit,
   miss, miss, miss. The final run of three makes the taxpayer non-compliant.
   */
  lemma ThreeTrailingMissesFail()
    ensures Verdict(Some(CalendarDate(2024, 7, 1)), 2024, [Some(YearMonth(2024, 9))]) == NonCompliant
  {
    var window := ActiveMonths(CalendarDate(2024, 7, 1), 2024);
    var paid := PaidMonths([Some(YearMonth(2024, 9))]);
    assert window == MonthRange(YearMonth(2024, 7), YearMonth(2024, 12));
    assert |window| == 6;
    forall k | 3 <= k < 6
      ensures window[k] !in paid
    {
      assert MonthIndex(window[k]) != MonthIndex(YearMonth(2024, 9));
    }
    assert window[3] !in paid && window[4] !in paid && window[5] !in paid;
  }

  /**
   Window August to December 2024 with only October paid: miss, miss, hit,
   miss, miss. No run reaches three, so the taxpayer is compliant.
   */
  lemma TwoTrailingMissesPass()
    ensures Verdict(Some(CalendarDate(2024, 8, 1)), 2024, [Some(YearMonth(2024, 10))]) == Compliant
  {
    var window := ActiveMonths(CalendarDate(2024, 8, 1), 2024);
    var paid := PaidMonths([Some(YearMonth(2024, 10))]);
    assert window == MonthRange(YearMonth(2024, 8), YearMonth(2024, 12));
    assert |window| == 5;
    MonthIndexInjective(window[2], YearMonth(2024, 10));
    assert window[2] in paid;
  }
}
