/** `xirr` (src/cagrx/return_metrics.py): sorts the cash flows by date,
    turns dates into day offsets from the first one, and runs a bounded
    Newton-Raphson iteration on the NPV with three distinct failure exits. */
module Xirr {
  import opened Wrappers
  import opened Errors
  import opened Numerics
  import opened TimeSeries

  /** Below this absolute derivative the step is refused. */
  const DerivativeFloor: real := 0.0000000001
  /** The accepted range of an updated rate: -99% to 1000%. */
  const RateLow: real := -0.99
  const RateHigh: real := 10.0

  /** Pairs each date with its cash flow, as (day, amount) rows. */
  function Zip(dates: seq<Day>, cashflows: seq<real>): Series
    requires |dates| == |cashflows|
  {
    seq(|dates|, k requires 0 <= k < |dates| => (dates[k], cashflows[k]))
  }

  /** The cash-flow column of the sorted flows. */
  function Amounts(f: Series): seq<real>
  {
    seq(|f|, k requires 0 <= k < |f| => f[k].1)
  }

  /** `(date - start_date).days` for every flow, start_date being the first. */
  function DayOffsets(f: Series): seq<int>
    requires |f| > 0
  {
    seq(|f|, k requires 0 <= k < |f| => f[k].0 - f[0].0)
  }

  /** On date-sorted flows the offsets start at 0, are never negative, never
      decrease, and keep the distance between any two dates. */
  lemma DayOffsetsShape(f: Series)
    requires |f| > 0 && Ascending(f)
    ensures DayOffsets(f)[0] == 0
    ensures forall k :: 0 <= k < |f| ==> DayOffsets(f)[k] >= 0
    ensures forall j, k :: 0 <= j <= k < |f| ==> DayOffsets(f)[j] <= DayOffsets(f)[k]
    ensures forall j, k :: 0 <= j < |f| && 0 <= k < |f| ==>
      DayOffsets(f)[k] - DayOffsets(f)[j] == f[k].0 - f[j].0
  {
  }

  /** The flows as the iteration sees them: sorted jointly by date, keeping
      every (date, amount) pair. */
  function SortedFlows(dates: seq<Day>, cashflows: seq<real>): (f: Series)
    requires |dates| == |cashflows|
    ensures Ascending(f) && |f| == |dates|
    ensures multiset(f) == multiset(Zip(dates, cashflows))
  {
    SortByDay(Zip(dates, cashflows))
  }

  /** The Newton-Raphson loop with `n` iterations left, from `rate`: each
      iteration either accepts `rate` (|NPV| below tolerance), refuses a
      near-zero derivative, or steps and refuses a rate outside the range.
      With no iteration left the loop has not converged. */
  function Newton(num: NumericOps, amounts: seq<real>, days: seq<int>, tol: real, rate: real, n: nat)
    : Result<real, Error>
    decreases n
  {
    if n == 0 then Err(NoConvergence)
    else
      var v := num.npv(amounts, days, rate);
      var d := num.dnpv(amounts, days, rate);
      if Abs(v) < tol then Ok(num.round(rate, 6))
      else if Abs(d) < DerivativeFloor then Err(DerivativeTooSmall)
      else
        var next := rate - v / d;
        if next < RateLow || next > RateHigh then Err(RateOutOfBounds)
        else Newton(num, amounts, days, tol, next, n - 1)
  }

  // ----------------------------------------------- the reference iteration

  /** One Newton step from `rate` (left in place on a zero derivative, where
      the loop never steps). */
  function Step(num: NumericOps, amounts: seq<real>, days: seq<int>, rate: real): real
  {
    var d := num.dnpv(amounts, days, rate);
    if d == 0.0 then rate else rate - num.npv(amounts, days, rate) / d
  }

  /** The k-th Newton iterate from `guess`. */
  function Iterate(num: NumericOps, amounts: seq<real>, days: seq<int>, guess: real, k: nat): real
  {
    if k == 0 then guess else Step(num, amounts, days, Iterate(num, amounts, days, guess, k - 1))
  }

  /** The loop goes on past iteration k: the k-th iterate is not accepted,
      its derivative is large enough, and the next iterate is in range. */
  ghost predicate Continues(num: NumericOps, amounts: seq<real>, days: seq<int>, tol: real, guess: real, k: nat)
  {
    var x := Iterate(num, amounts, days, guess, k);
    && Abs(num.npv(amounts, days, x)) >= tol
    && Abs(num.dnpv(amounts, days, x)) >= DerivativeFloor
    && RateLow <= Iterate(num, amounts, days, guess, k + 1) <= RateHigh
  }

  /** Newton from the k-th iterate with n iterations left: if the loop goes on
      past iterations k .. k+m-1 and stops at k+m (or runs out there), the
      outcome is decided by iterate k+m. */
  lemma {:induction false} NewtonFrom(num: NumericOps, amounts: seq<real>, days: seq<int>, tol: real,
                                      guess: real, k: nat, n: nat, m: nat)
    requires m <= n
    requires forall j :: k <= j < k + m ==> Continues(num, amounts, days, tol, guess, j)
    requires m < n ==> !Continues(num, amounts, days, tol, guess, k + m)
    ensures var x := Iterate(num, amounts, days, guess, k + m);
      var out := Newton(num, amounts, days, tol, Iterate(num, amounts, days, guess, k), n);
      && (m == n ==> out == Err(NoConvergence))
      && (m < n && Abs(num.npv(amounts, days, x)) < tol ==> out == Ok(num.round(x, 6)))
      && ((m < n && Abs(num.npv(amounts, days, x)) >= tol && Abs(num.dnpv(amounts, days, x)) < DerivativeFloor)
            ==> out == Err(DerivativeTooSmall))
      && ((m < n && Abs(num.npv(amounts, days, x)) >= tol && Abs(num.dnpv(amounts, days, x)) >= DerivativeFloor)
            ==> out == Err(RateOutOfBounds))
    decreases m
  {
    var x := Iterate(num, amounts, days, guess, k);
    if m > 0 {
      assert Continues(num, amounts, days, tol, guess, k);
      assert Iterate(num, amounts, days, guess, k + 1) == x - num.npv(amounts, days, x) / num.dnpv(amounts, days, x);
      NewtonFrom(num, amounts, days, tol, guess, k + 1, n - 1, m - 1);
    } else if n > 0 {
      if Abs(num.npv(amounts, days, x)) >= tol && Abs(num.dnpv(amounts, days, x)) >= DerivativeFloor {
        assert !(RateLow <= Iterate(num, amounts, days, guess, k + 1) <= RateHigh);
      }
    }
  }

  /** The outcome of n iterations from `guess`, where m is the first iteration
      at which the loop does not go on (m == n when it goes on through all of
      them): no convergence when it always goes on; otherwise success, with
      the rounded m-th iterate, exactly when that iterate's |NPV| is below
      the tolerance, else the derivative or the range failure. */
  lemma NewtonOutcome(num: NumericOps, amounts: seq<real>, days: seq<int>, tol: real,
                      guess: real, n: nat, m: nat)
    requires m <= n
    requires forall j :: 0 <= j < m ==> Continues(num, amounts, days, tol, guess, j)
    requires m < n ==> !Continues(num, amounts, days, tol, guess, m)
    ensures var x := Iterate(num, amounts, days, guess, m);
      var out := Newton(num, amounts, days, tol, guess, n);
      && (out == Err(NoConvergence) <==> m == n)
      && (out.Ok? <==> m < n && Abs(num.npv(amounts, days, x)) < tol)
      && (out.Ok? ==> out.value == num.round(x, 6))
      && (out == Err(DerivativeTooSmall) <==>
            m < n && Abs(num.npv(amounts, days, x)) >= tol && Abs(num.dnpv(amounts, days, x)) < DerivativeFloor)
      && (out == Err(RateOutOfBounds) <==>
            m < n && Abs(num.npv(amounts, days, x)) >= tol && Abs(num.dnpv(amounts, days, x)) >= DerivativeFloor)
  {
    NewtonFrom(num, amounts, days, tol, guess, 0, n, m);
  }

  /** Every run of n iterations has a first iteration at which the loop
      stops, or goes on through all n. */
  lemma {:induction false} FirstStop(num: NumericOps, amounts: seq<real>, days: seq<int>, tol: real,
                                     guess: real, n: nat) returns (m: nat)
    ensures m <= n
    ensures forall j :: 0 <= j < m ==> Continues(num, amounts, days, tol, guess, j)
    ensures m < n ==> !Continues(num, amounts, days, tol, guess, m)
  {
    if n == 0 {
      m := 0;
    } else {
      m := FirstStop(num, amounts, days, tol, guess, n - 1);
      if m == n - 1 && Continues(num, amounts, days, tol, guess, n - 1) {
        m := n;
      }
    }
  }

  /** The loop returns only an accepted iterate: a success is the rounding of
      some iterate k < n whose |NPV| is below the tolerance, reached through
      iterations that all went on. */
  lemma NewtonSuccess(num: NumericOps, amounts: seq<real>, days: seq<int>, tol: real, guess: real, n: nat)
    returns (k: nat)
    requires Newton(num, amounts, days, tol, guess, n).Ok?
    ensures k < n
    ensures forall j :: 0 <= j < k ==> Continues(num, amounts, days, tol, guess, j)
    ensures Abs(num.npv(amounts, days, Iterate(num, amounts, days, guess, k))) < tol
    ensures Newton(num, amounts, days, tol, guess, n).value ==
            num.round(Iterate(num, amounts, days, guess, k), 6)
  {
    k := FirstStop(num, amounts, days, tol, guess, n);
    NewtonOutcome(num, amounts, days, tol, guess, n, k);
  }

  /** More iterations change nothing once the loop has stopped within n:
      every outcome except exhaustion is final. */
  lemma {:induction false} NewtonStable(num: NumericOps, amounts: seq<real>, days: seq<int>, tol: real,
                                        rate: real, n: nat, n': nat)
    requires n <= n'
    requires Newton(num, amounts, days, tol, rate, n) != Err(NoConvergence)
    ensures Newton(num, amounts, days, tol, rate, n') == Newton(num, amounts, days, tol, rate, n)
    decreases n
  {
    var v := num.npv(amounts, days, rate);
    var d := num.dnpv(amounts, days, rate);
    if !(Abs(v) < tol) && !(Abs(d) < DerivativeFloor) {
      var next := rate - v / d;
      if !(next < RateLow || next > RateHigh) {
        NewtonStable(num, amounts, days, tol, next, n - 1, n' - 1);
      }
    }
  }

  /** The initial guess is never range-checked: an accepted guess is
      returned, rounded, however far outside [-0.99, 10] it lies. */
  lemma GuessUnchecked(num: NumericOps, amounts: seq<real>, days: seq<int>, tol: real, guess: real, n: nat)
    requires n >= 1 && Abs(num.npv(amounts, days, guess)) < tol
    ensures Newton(num, amounts, days, tol, guess, n) == Ok(num.round(guess, 6))
  {
  }

  // --------------------------------------------------------------- the method

  /** `xirr`: mismatched lengths are refused before too few flows; otherwise
      the result is the Newton loop with `max(max_iterations, 0)` iterations
      on the date-sorted flows and their day offsets. */
  method CalculateXirr(num: NumericOps, cashflows: seq<real>, dates: seq<Day>, guess: real,
                       maxIterations: int, tolerance: real)
    returns (r: Result<real, Error>)
    ensures |cashflows| != |dates| ==> r == Err(LengthMismatch)
    ensures |cashflows| == |dates| && |cashflows| < 2 ==> r == Err(TooFewCashflows)
    ensures |cashflows| == |dates| && |cashflows| >= 2 ==>
      var f := SortedFlows(dates, cashflows);
      r == Newton(num, Amounts(f), DayOffsets(f), tolerance, guess,
                  if maxIterations < 0 then 0 else maxIterations)
  {
    if |cashflows| != |dates| {
      return Err(LengthMismatch);
    }
    if |cashflows| < 2 {
      return Err(TooFewCashflows);
    }
    var f := SortedFlows(dates, cashflows);
    var amounts := Amounts(f);
    var days := DayOffsets(f);
    ghost var n: nat := if maxIterations < 0 then 0 else maxIterations;
    var rate := guess;
    var iteration := 0;
    while iteration < maxIterations
      invariant 0 <= iteration <= n
      invariant Newton(num, amounts, days, tolerance, guess, n)
             == Newton(num, amounts, days, tolerance, rate, n - iteration)
      decreases maxIterations - iteration
    {
      var npv := num.npv(amounts, days, rate);
      var dnpv := num.dnpv(amounts, days, rate);
      if Abs(npv) < tolerance {
        return Ok(num.round(rate, 6));
      }
      if Abs(dnpv) < DerivativeFloor {
        return Err(DerivativeTooSmall);
      }
      rate := rate - npv / dnpv;
      if rate < RateLow || rate > RateHigh {
        return Err(RateOutOfBounds);
      }
      iteration := iteration + 1;
    }
    return Err(NoConvergence);
  }
}
