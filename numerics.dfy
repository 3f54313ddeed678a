/** The floating-point operations the metrics use, kept abstract, and the
    exact real arithmetic (sums, absolute value) the model does itself. */
module Numerics {

  /** The operations Dafny cannot compute exactly. They are supplied by the
      caller, so every theorem about the metrics holds for any choice of them. */
  datatype NumericOps = NumericOps(
    pow: (real, real) -> real,                       // x ** y
    round: (real, nat) -> real,                      // round(x, k)
    npv: (seq<real>, seq<int>, real) -> real,        // sum of cf / (1 + rate) ** (day / 365)
    dnpv: (seq<real>, seq<int>, real) -> real)       // its derivative with respect to rate

  /** Rounding never reverses the order of two numbers. */
  ghost predicate RoundMonotone(round: (real, nat) -> real)
  {
    forall x, y, k :: x <= y ==> round(x, k) <= round(y, k)
  }

  /** Rounding an already rounded number changes nothing. */
  ghost predicate RoundIdempotent(round: (real, nat) -> real)
  {
    forall x, k :: round(round(x, k), k) == round(x, k)
  }

  /** Whole numbers are rounded to themselves. */
  ghost predicate RoundKeepsIntegers(round: (real, nat) -> real)
  {
    forall x: real, k :: x.Floor as real == x ==> round(x, k) == x
  }

  function Abs(x: real): (r: real)
    ensures r >= 0.0 && (r == x || r == -x)
  {
    if x < 0.0 then -x else x
  }

  /** Sum of a sequence of reals (pandas' Series.sum). */
  function Sum(xs: seq<real>): real
  {
    if xs == [] then 0.0 else xs[0] + Sum(xs[1..])
  }

  /** Every element within [lo, hi] puts the sum within [n * lo, n * hi]. */
  lemma {:induction false} SumBounds(xs: seq<real>, lo: real, hi: real)
    requires forall i :: 0 <= i < |xs| ==> lo <= xs[i] <= hi
    ensures |xs| as real * lo <= Sum(xs) <= |xs| as real * hi
  {
    if xs != [] {
      SumBounds(xs[1..], lo, hi);
      assert |xs| as real * lo == (|xs| - 1) as real * lo + lo;
      assert |xs| as real * hi == (|xs| - 1) as real * hi + hi;
    }
  }

  /** Arithmetic mean (pandas' Series.mean) of a non-empty sequence. */
  function Mean(xs: seq<real>): real
    requires |xs| > 0
  {
    Sum(xs) / |xs| as real
  }

  /** The mean lies between any lower and upper bound of the elements. */
  lemma MeanBetween(xs: seq<real>, lo: real, hi: real)
    requires |xs| > 0
    requires forall i :: 0 <= i < |xs| ==> lo <= xs[i] <= hi
    ensures lo <= Mean(xs) <= hi
  {
    SumBounds(xs, lo, hi);
    var n := |xs| as real;
    assert n * lo <= Sum(xs) <= n * hi;
    assert Sum(xs) / n >= lo by { assert Sum(xs) >= n * lo; }
    assert Sum(xs) / n <= hi by { assert Sum(xs) <= n * hi; }
  }
}
