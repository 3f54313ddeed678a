/** `cagr` (src/cagrx/return_metrics.py): the compound annual growth rate
    between the first and the last row of a series, on a flat 365-day year. */
module GrowthRate {
  import opened Wrappers
  import opened Errors
  import opened Numerics
  import opened TimeSeries

  /** Elapsed years between two days: `.days / 365`. */
  function Years(from: Day, to: Day): real
  {
    (to - from) as real / 365.0
  }

  /** CAGR of a series as given (it is not sorted here): reads only the first
      and the last row. An empty series has no first row (IndexError); a
      non-positive start value or a non-positive span is rejected. */
  function Cagr(num: NumericOps, s: Series): (r: Result<real, Error>)
    ensures |s| == 0 ==> r == Err(EmptySeries)
    ensures |s| > 0 ==> (r.Ok? <==> s[0].1 > 0.0 && s[0].0 < s[|s| - 1].0)
    ensures |s| > 0 && r.Err? ==> r.error == InvalidCagrData
    ensures r.Ok? ==> r.value == num.round(num.pow(s[|s| - 1].1 / s[0].1, 1.0 / Years(s[0].0, s[|s| - 1].0)) - 1.0, 3)
  {
    if |s| == 0 then Err(EmptySeries)
    else
      var startValue := s[0].1;
      var endValue := s[|s| - 1].1;
      var numYears := Years(s[0].0, s[|s| - 1].0);
      if startValue <= 0.0 || numYears <= 0.0 then Err(InvalidCagrData)
      else Ok(num.round(num.pow(endValue / startValue, 1.0 / numYears) - 1.0, 3))
  }

  /** `cagr(df, column)`: looks the column up without checking for it first,
      so a missing column is pandas' KeyError; otherwise the CAGR of the
      column exactly as given, even when its dates are not sorted. */
  function CagrOfFrame(num: NumericOps, df: Frame, column: string): (r: Result<real, Error>)
    ensures column !in df ==> r == Err(KeyNotFound(column))
    ensures column in df ==> r == Cagr(num, df[column])
    ensures column in df && |df[column]| > 0 ==>
      (r.Ok? <==> df[column][0].1 > 0.0 && df[column][0].0 < df[column][|df[column]| - 1].0)
  {
    if column !in df then Err(KeyNotFound(column)) else Cagr(num, df[column])
  }

  /** A series that grows by the factor 1 + g over exactly one 365-day year
      has CAGR g, for a power that fixes its base at exponent 1 and a
      rounding that leaves g as it is. */
  lemma CagrOfOneYearGrowth(num: NumericOps, s: Series, g: real)
    requires |s| > 0 && s[0].1 > 0.0
    requires s[|s| - 1].0 == s[0].0 + 365
    requires s[|s| - 1].1 == (1.0 + g) * s[0].1
    requires forall x :: num.pow(x, 1.0) == x
    requires num.round(g, 3) == g
    ensures Cagr(num, s) == Ok(g)
  {
    assert Years(s[0].0, s[|s| - 1].0) == 1.0;
    var v, w := s[0].1, s[|s| - 1].1;
    assert v != 0.0;
    assert w / v * v == w;
    var d := w / v - (1.0 + g);
    assert d * v == 0.0;
    if d != 0.0 {
      // d * v == 0 with v > 0 leaves d no value but 0
      assert false;
    }
  }

  /** Two series with the same first and last rows have the same CAGR,
      whatever lies between them. */
  lemma CagrReadsEndpoints(num: NumericOps, s: Series, t: Series)
    requires |s| > 0 && |t| > 0
    requires s[0] == t[0] && s[|s| - 1] == t[|t| - 1]
    ensures Cagr(num, s) == Cagr(num, t)
  {
  }
}
