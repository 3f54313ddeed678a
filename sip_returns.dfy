/** `calculate_sip_returns` (src/cagrx/return_metrics.py): every contribution
    buys units at the first NAV dated on or after it; the units are valued at
    the last NAV and the totals are compared with what was invested. */
module SipReturns {
  import opened Wrappers
  import opened Errors
  import opened Numerics
  import opened TimeSeries

  /** The column of the cash-flow frame holding the amounts. */
  const AmountColumn: string := "amount"
  /** Days per year in the annualised return. */
  const DaysPerYear: real := 365.25

  /** The figures before rounding. */
  datatype SipFigures = SipFigures(
    totalInvested: real, currentValue: real, absoluteReturns: real,
    returnPercentage: real, annualizedReturn: real, totalUnits: real,
    currentNav: real, investmentPeriodDays: int)

  /** The NAV a contribution buys at: the first NAV dated on or after its
      date; None after the last NAV date (merge_asof leaves NaN there). */
  function PurchaseNav(nav: Series, c: (Day, real)): Option<real>
  {
    match AsOf(nav, c.0, Forward)
    case None => None
    case Some(j) => Some(nav[j].1)
  }

  /** Units bought by a contribution: amount / NAV, and nothing when there is
      no NAV to buy at (the NaN is skipped by the sum). */
  function Units(nav: Series, c: (Day, real)): real
    requires Positive(nav)
  {
    match PurchaseNav(nav, c)
    case None => 0.0
    case Some(p) => c.1 / p
  }

  /** Sum of the units bought by all contributions. */
  function TotalUnits(nav: Series, cs: Series): real
    requires Positive(nav)
  {
    if cs == [] then 0.0 else Units(nav, cs[0]) + TotalUnits(nav, cs[1..])
  }

  /** On a sorted NAV series the purchase NAV is the one at the earliest NAV
      date on or after the contribution, and there is one exactly when the
      contribution is not after the last NAV date. */
  lemma PurchaseNavForward(nav: Series, c: (Day, real))
    requires Ascending(nav) && |nav| > 0
    ensures PurchaseNav(nav, c).Some? <==> c.0 <= nav[|nav| - 1].0
    ensures PurchaseNav(nav, c).Some? ==>
      exists j :: 0 <= j < |nav| && nav[j].0 >= c.0 && PurchaseNav(nav, c).value == nav[j].1 &&
        forall k :: 0 <= k < |nav| && nav[k].0 >= c.0 ==> nav[j].0 <= nav[k].0
  {
    AsOfNearest(nav, c.0, Forward);
    if AsOf(nav, c.0, Forward).None? {
      assert !Admits(Forward, nav[|nav| - 1].0, c.0);
    } else {
      assert nav[AsOf(nav, c.0, Forward).value].0 <= nav[|nav| - 1].0;
    }
  }

  /** A contribution dated after the last NAV buys no units. */
  lemma {:induction false} LateContributionsBuyNothing(nav: Series, cs: Series)
    requires Ascending(nav) && |nav| > 0 && Positive(nav)
    requires forall k :: 0 <= k < |cs| ==> cs[k].0 > nav[|nav| - 1].0
    ensures TotalUnits(nav, cs) == 0.0
  {
    if cs != [] {
      PurchaseNavForward(nav, cs[0]);
      LateContributionsBuyNothing(nav, cs[1..]);
    }
  }

  /** Non-negative contributions buy a non-negative number of units. */
  lemma {:induction false} UnitsNonNegative(nav: Series, cs: Series)
    requires Positive(nav)
    requires forall k :: 0 <= k < |cs| ==> cs[k].1 >= 0.0
    ensures TotalUnits(nav, cs) >= 0.0
  {
    if cs != [] {
      UnitsNonNegative(nav, cs[1..]);
      match AsOf(nav, cs[0].0, Forward) {
        case None =>
        case Some(j) => assert nav[j].1 > 0.0;
      }
    }
  }

  /** The figures of `calculate_sip_returns` before rounding, on the sorted
      contributions and the sorted, non-empty NAV series. */
  function Figures(num: NumericOps, cs: Series, nav: Series): (f: SipFigures)
    requires |nav| > 0 && Positive(nav)
    ensures f.totalInvested == Total(cs)
    ensures f.absoluteReturns == f.currentValue - f.totalInvested
    ensures f.currentValue == f.totalUnits * nav[|nav| - 1].1
    ensures f.totalInvested <= 0.0 ==> f.returnPercentage == 0.0
    ensures f.totalInvested > 0.0 ==> f.returnPercentage == f.absoluteReturns / f.totalInvested * 100.0
    ensures (|cs| <= 1 || f.investmentPeriodDays <= 0 || f.totalInvested <= 0.0) ==> f.annualizedReturn == 0.0
    ensures (|cs| > 1 && f.investmentPeriodDays > 0 && f.totalInvested > 0.0) ==>
      f.annualizedReturn ==
        (num.pow(f.currentValue / f.totalInvested, 1.0 / (f.investmentPeriodDays as real / DaysPerYear)) - 1.0) * 100.0
    ensures f.totalUnits == TotalUnits(nav, cs) && f.currentNav == nav[|nav| - 1].1
    ensures f.investmentPeriodDays == if |cs| > 0 then nav[|nav| - 1].0 - cs[0].0 else 0
  {
    var invested := Total(cs);
    var units := TotalUnits(nav, cs);
    var navNow := nav[|nav| - 1].1;
    var value := units * navNow;
    var absolute := value - invested;
    var percentage := if invested > 0.0 then absolute / invested * 100.0 else 0.0;
    var annualized :=
      if |cs| > 1 then
        var years := (nav[|nav| - 1].0 - cs[0].0) as real / DaysPerYear;
        if years > 0.0 && invested > 0.0 then (num.pow(value / invested, 1.0 / years) - 1.0) * 100.0
        else 0.0
      else 0.0;
    var periodDays := if |cs| > 0 then nav[|nav| - 1].0 - cs[0].0 else 0;
    SipFigures(invested, value, absolute, percentage, annualized, units, navNow, periodDays)
  }

  /** The reported figures: money and percentages to 2 places, units to 4,
      the period in whole days. */
  function Rounded(num: NumericOps, f: SipFigures): SipFigures
  {
    SipFigures(num.round(f.totalInvested, 2), num.round(f.currentValue, 2),
               num.round(f.absoluteReturns, 2), num.round(f.returnPercentage, 2),
               num.round(f.annualizedReturn, 2), num.round(f.totalUnits, 4),
               num.round(f.currentNav, 2), f.investmentPeriodDays)
  }

  /** `calculate_sip_returns`: no 'amount' column, then no NAV column, is
      refused; when the contributions also hold a column named like the NAV
      column, the as-of merge renames both copies with the suffixes `_x` and
      `_y` and the unit computation cannot find `column` (or, for
      `column == "amount"`, the amounts); an empty NAV series has no last NAV;
      otherwise the rounded figures of the date-sorted contributions against
      the date-sorted NAVs. */
  function CalculateSipReturns(num: NumericOps, sip: Frame, navFrame: Frame, column: string)
    : (r: Result<SipFigures, Error>)
    requires column in navFrame ==> Positive(navFrame[column])
    ensures AmountColumn !in sip ==> r == Err(MissingAmountColumn)
    ensures AmountColumn in sip && column !in navFrame ==> r == Err(MissingColumn(column))
    ensures AmountColumn in sip && column in navFrame && column in sip ==> r == Err(KeyNotFound(column))
    ensures AmountColumn in sip && column in navFrame && column !in sip ==>
      (r.Err? <==> |navFrame[column]| == 0)
    ensures AmountColumn in sip && column in navFrame && column !in sip && r.Err? ==> r.error == EmptySeries
    ensures r.Ok? ==>
      (SortedPositive(navFrame[column]);
       r.value == Rounded(num, Figures(num, SortByDay(sip[AmountColumn]), SortByDay(navFrame[column]))))
  {
    if AmountColumn !in sip then Err(MissingAmountColumn)
    else if column !in navFrame then Err(MissingColumn(column))
    else if column in sip then Err(KeyNotFound(column))
    else
      var cs := SortByDay(sip[AmountColumn]);
      var nav := SortByDay(navFrame[column]);
      SortedPositive(navFrame[column]);
      if |nav| == 0 then Err(EmptySeries)
      else Ok(Rounded(num, Figures(num, cs, nav)))
  }

  // ------------------------------------------------------------- properties

  /** The total invested is the rounded sum of every contribution as given,
      matched to a NAV or not. */
  lemma SipTotalInvested(num: NumericOps, sip: Frame, navFrame: Frame, column: string)
    requires column in navFrame ==> Positive(navFrame[column])
    requires CalculateSipReturns(num, sip, navFrame, column).Ok?
    ensures CalculateSipReturns(num, sip, navFrame, column).value.totalInvested
         == num.round(Total(sip[AmountColumn]), 2)
  {
    TotalPermutation(SortByDay(sip[AmountColumn]), sip[AmountColumn]);
  }

  /** The total invested does not depend on the NAVs at all. */
  lemma SipInvestedIgnoresNav(num: NumericOps, sip: Frame, navA: Frame, navB: Frame, column: string)
    requires column in navA ==> Positive(navA[column])
    requires column in navB ==> Positive(navB[column])
    requires CalculateSipReturns(num, sip, navA, column).Ok?
    requires CalculateSipReturns(num, sip, navB, column).Ok?
    ensures CalculateSipReturns(num, sip, navA, column).value.totalInvested
         == CalculateSipReturns(num, sip, navB, column).value.totalInvested
  {
    SipTotalInvested(num, sip, navA, column);
    SipTotalInvested(num, sip, navB, column);
  }

  /** A series whose every value is v totals |s| * v. */
  lemma {:induction false} TotalConstant(s: Series, v: real)
    requires forall k :: 0 <= k < |s| ==> s[k].1 == v
    ensures Total(s) == |s| as real * v
  {
    if s != [] {
      TotalConstant(s[1..], v);
      TotalCons(s);
      assert |s| as real * v == v + (|s| - 1) as real * v;
    }
  }

  /** Twelve monthly contributions of 1000 report 12000 invested, for any
      rounding that keeps whole numbers. */
  lemma SipTwelveThousand(num: NumericOps, sip: Frame, navFrame: Frame, column: string)
    requires column in navFrame ==> Positive(navFrame[column])
    requires RoundKeepsIntegers(num.round)
    requires AmountColumn in sip && |sip[AmountColumn]| == 12
    requires forall k :: 0 <= k < 12 ==> sip[AmountColumn][k].1 == 1000.0
    requires CalculateSipReturns(num, sip, navFrame, column).Ok?
    ensures CalculateSipReturns(num, sip, navFrame, column).value.totalInvested == 12000.0
  {
    SipTotalInvested(num, sip, navFrame, column);
    TotalConstant(sip[AmountColumn], 1000.0);
    assert (12000.0).Floor as real == 12000.0;
  }

  /** Breaking even reports a return percentage of 0. */
  lemma SipBreakEven(num: NumericOps, cs: Series, nav: Series)
    requires |nav| > 0 && Positive(nav)
    requires Figures(num, cs, nav).currentValue == Figures(num, cs, nav).totalInvested
    ensures Figures(num, cs, nav).absoluteReturns == 0.0
    ensures Figures(num, cs, nav).returnPercentage == 0.0
  {
  }

  /** At break-even the reported figures show an absolute return and a return
      percentage of 0, for a rounding that keeps 0. */
  lemma SipReportedBreakEven(num: NumericOps, sip: Frame, navFrame: Frame, column: string)
    requires AmountColumn in sip && column in navFrame && column !in sip
    requires |navFrame[column]| > 0 && Positive(navFrame[column])
    requires num.round(0.0, 2) == 0.0
    requires (SortedPositive(navFrame[column]);
              var f := Figures(num, SortByDay(sip[AmountColumn]), SortByDay(navFrame[column]));
              f.currentValue == f.totalInvested)
    ensures CalculateSipReturns(num, sip, navFrame, column).Ok?
    ensures CalculateSipReturns(num, sip, navFrame, column).value.absoluteReturns == 0.0
    ensures CalculateSipReturns(num, sip, navFrame, column).value.returnPercentage == 0.0
  {
    SortedPositive(navFrame[column]);
    SipBreakEven(num, SortByDay(sip[AmountColumn]), SortByDay(navFrame[column]));
  }

  /** With non-negative contributions the units held and their value are
      non-negative, so the loss is at most what was invested. */
  lemma SipLossBounded(num: NumericOps, cs: Series, nav: Series)
    requires |nav| > 0 && Positive(nav)
    requires forall k :: 0 <= k < |cs| ==> cs[k].1 >= 0.0
    ensures Figures(num, cs, nav).totalUnits >= 0.0
    ensures Figures(num, cs, nav).currentValue >= 0.0
    ensures Figures(num, cs, nav).absoluteReturns >= -Figures(num, cs, nav).totalInvested
  {
    UnitsNonNegative(nav, cs);
    assert nav[|nav| - 1].1 > 0.0;
  }
}
