/** `calculate_rolling_returns` (src/cagrx/return_metrics.py): for every date,
    the return against the value as of `date - period`, reduced to the
    maximum, the minimum and the average. */
module RollingReturns {
  import opened Wrappers
  import opened Errors
  import opened Numerics
  import opened TimeSeries

  /** One surviving row of the merged frame: the offset date `date - period`,
      the row's own date, the current and the matched past value, and the
      rounded return. */
  datatype RollingRow = RollingRow(pastDate: Day, date: Day, current: real, past: real, ret: real)

  /** The reported metrics; each period is (pastDate, date) of the row
      attaining the extreme. */
  datatype RollingMetrics = RollingMetrics(
    maxReturns: real, maxReturnPeriod: (Day, Day),
    minReturns: real, minReturnPeriod: (Day, Day),
    avgReturn: real)

  /** The merged row for s[i]: its past value is the one found by the
      backward as-of match of `minusPeriod(date)`; None when nothing matches
      (merge_asof yields NaN there, and dropna drops the row). */
  function Roll(num: NumericOps, minusPeriod: Day -> Day, s: Series, i: nat): Option<RollingRow>
    requires i < |s| && Positive(s)
  {
    var pastDate := minusPeriod(s[i].0);
    match AsOf(s, pastDate, Backward)
    case None => None
    case Some(j) =>
      var past := s[j].1;
      Some(RollingRow(pastDate, s[i].0, s[i].1, past, num.round((s[i].1 - past) / past, 3)))
  }

  /** s[i] finds a past value. */
  ghost predicate Survives(num: NumericOps, minusPeriod: Day -> Day, s: Series, i: int)
    requires Positive(s)
  {
    0 <= i < |s| && Roll(num, minusPeriod, s, i).Some?
  }

  /** A date survives exactly when some series date lies on or before its
      offset date; its past value is then the value at the latest such date,
      and its return is the rounded (current - past) / past. */
  lemma RollMatchesBackward(num: NumericOps, minusPeriod: Day -> Day, s: Series, i: nat)
    requires StrictlyAscending(s) && Positive(s) && i < |s|
    ensures Survives(num, minusPeriod, s, i) <==> s[0].0 <= minusPeriod(s[i].0)
    ensures Survives(num, minusPeriod, s, i) ==>
      var x := Roll(num, minusPeriod, s, i).value;
      && x.pastDate == minusPeriod(s[i].0) && x.date == s[i].0 && x.current == s[i].1
      && (exists j :: 0 <= j < |s| && s[j].0 <= x.pastDate && x.past == s[j].1 &&
                      forall k :: 0 <= k < |s| && s[k].0 <= x.pastDate ==> s[k].0 <= s[j].0)
      && x.ret == num.round((x.current - x.past) / x.past, 3)
  {
    var key := minusPeriod(s[i].0);
    var m := AsOf(s, key, Backward);
    if m.Some? {
      assert s[0].0 <= s[m.value].0;
      AsOfNearest(s, key, Backward);
    } else {
      assert !Admits(Backward, s[0].0, key);
    }
  }

  /** The merged row of every series row, in series order. */
  function Rolls(num: NumericOps, minusPeriod: Day -> Day, s: Series): seq<Option<RollingRow>>
    requires Positive(s)
  {
    seq(|s|, i requires 0 <= i < |s| => Roll(num, minusPeriod, s, i))
  }

  /** `dropna` from position i on: the present entries, each with its index. */
  function Keep<T>(xs: seq<Option<T>>, i: nat): seq<(nat, T)>
    requires i <= |xs|
    decreases |xs| - i
  {
    if i == |xs| then []
    else if xs[i].Some? then [(i, xs[i].value)] + Keep(xs, i + 1)
    else Keep(xs, i + 1)
  }

  /** Keep returns exactly the present entries from i on, in increasing
      order of their index. */
  lemma {:induction false} KeepPresent<T>(xs: seq<Option<T>>, i: nat)
    requires i <= |xs|
    ensures forall k :: 0 <= k < |Keep(xs, i)| ==>
      i <= Keep(xs, i)[k].0 < |xs| && xs[Keep(xs, i)[k].0] == Some(Keep(xs, i)[k].1)
    ensures forall k, l :: 0 <= k < l < |Keep(xs, i)| ==> Keep(xs, i)[k].0 < Keep(xs, i)[l].0
    ensures forall j :: i <= j < |xs| && xs[j].Some? ==>
      exists k :: 0 <= k < |Keep(xs, i)| && Keep(xs, i)[k].0 == j
    decreases |xs| - i
  {
    if i < |xs| {
      KeepPresent(xs, i + 1);
      var rest := Keep(xs, i + 1);
      var p := Keep(xs, i);
      if xs[i].Some? {
        assert p == [(i, xs[i].value)] + rest;
        forall j | i <= j < |xs| && xs[j].Some?
          ensures exists k :: 0 <= k < |p| && p[k].0 == j
        {
          if j == i {
            assert p[0].0 == j;
          } else {
            var k :| 0 <= k < |rest| && rest[k].0 == j;
            assert p[k + 1].0 == j;
          }
        }
      }
    }
  }

  /** The merged frame after dropna: each surviving row with the index of
      the series row it came from. */
  function RollAll(num: NumericOps, minusPeriod: Day -> Day, s: Series): seq<(nat, RollingRow)>
    requires Positive(s)
  {
    Keep(Rolls(num, minusPeriod, s), 0)
  }

  /** RollAll keeps exactly the surviving rows, in series order. */
  lemma RollAllSurvivors(num: NumericOps, minusPeriod: Day -> Day, s: Series)
    requires Positive(s)
    ensures var p := RollAll(num, minusPeriod, s);
      && (forall k :: 0 <= k < |p| ==> p[k].0 < |s| && Roll(num, minusPeriod, s, p[k].0) == Some(p[k].1))
      && (forall k, l :: 0 <= k < l < |p| ==> p[k].0 < p[l].0)
      && (forall j :: Survives(num, minusPeriod, s, j) ==> exists k :: 0 <= k < |p| && p[k].0 == j)
  {
    var xs := Rolls(num, minusPeriod, s);
    KeepPresent(xs, 0);
    var p := RollAll(num, minusPeriod, s);
    forall j | Survives(num, minusPeriod, s, j)
      ensures exists k :: 0 <= k < |p| && p[k].0 == j
    {
      assert xs[j].Some?;
    }
  }

  /** The returns column. */
  function Returns(p: seq<(nat, RollingRow)>): seq<real>
  {
    seq(|p|, k requires 0 <= k < |p| => p[k].1.ret)
  }

  /** `idxmax`: the first position of the largest element. */
  function ArgMax(xs: seq<real>): (k: nat)
    requires |xs| > 0
    ensures k < |xs|
    ensures forall j :: 0 <= j < |xs| ==> xs[j] <= xs[k]
    ensures forall j :: 0 <= j < k ==> xs[j] < xs[k]
  {
    if |xs| == 1 then 0
    else
      var k := ArgMax(xs[..|xs| - 1]);
      if xs[|xs| - 1] > xs[k] then |xs| - 1 else k
  }

  /** `idxmin`: the first position of the smallest element. */
  function ArgMin(xs: seq<real>): (k: nat)
    requires |xs| > 0
    ensures k < |xs|
    ensures forall j :: 0 <= j < |xs| ==> xs[k] <= xs[j]
    ensures forall j :: 0 <= j < k ==> xs[k] < xs[j]
  {
    if |xs| == 1 then 0
    else
      var k := ArgMin(xs[..|xs| - 1]);
      if xs[|xs| - 1] < xs[k] then |xs| - 1 else k
  }

  /** The row's (pastDate, date) period. */
  function Period(x: RollingRow): (Day, Day)
  {
    (x.pastDate, x.date)
  }

  /** `calculate_rolling_returns` on a series sorted by strictly increasing
      date with positive values: an error exactly when no date finds a past
      value (idxmax of an empty column). */
  function CalculateRollingReturns(num: NumericOps, minusPeriod: Day -> Day, s: Series)
    : (r: Result<RollingMetrics, Error>)
    requires StrictlyAscending(s) && Positive(s)
    ensures r.Err? <==> forall i :: 0 <= i < |s| ==> !Survives(num, minusPeriod, s, i)
    ensures r.Err? ==> r.error == NoRollingReturns
  {
    var p := RollAll(num, minusPeriod, s);
    RollAllSurvivors(num, minusPeriod, s);
    if |p| == 0 then
      Err(NoRollingReturns)
    else
      assert Survives(num, minusPeriod, s, p[0].0);
      var rets := Returns(p);
      var hi := ArgMax(rets);
      var lo := ArgMin(rets);
      Ok(RollingMetrics(rets[hi], Period(p[hi].1), rets[lo], Period(p[lo].1),
                        num.round(Mean(rets), 3)))
  }

  /** A surviving date has its row in RollAll. */
  lemma SurvivorKept(num: NumericOps, minusPeriod: Day -> Day, s: Series, i: int) returns (k: nat)
    requires Positive(s) && Survives(num, minusPeriod, s, i)
    ensures k < |RollAll(num, minusPeriod, s)|
    ensures RollAll(num, minusPeriod, s)[k].0 == i
    ensures RollAll(num, minusPeriod, s)[k].1 == Roll(num, minusPeriod, s, i).value
  {
    RollAllSurvivors(num, minusPeriod, s);
    var p := RollAll(num, minusPeriod, s);
    k :| 0 <= k < |p| && p[k].0 == i;
  }

  /** Over rows listed in increasing index order, idxmax's row bounds every
      row and beats every row of a smaller index; idxmin's likewise. */
  lemma ExtremesInOrder(p: seq<(nat, RollingRow)>)
    requires |p| > 0
    requires forall k, l :: 0 <= k < l < |p| ==> p[k].0 < p[l].0
    ensures forall k :: 0 <= k < |p| ==> p[k].1.ret <= Returns(p)[ArgMax(Returns(p))]
    ensures forall k :: 0 <= k < |p| && p[k].0 < p[ArgMax(Returns(p))].0 ==>
      p[k].1.ret < Returns(p)[ArgMax(Returns(p))]
    ensures forall k :: 0 <= k < |p| ==> Returns(p)[ArgMin(Returns(p))] <= p[k].1.ret
    ensures forall k :: 0 <= k < |p| && p[k].0 < p[ArgMin(Returns(p))].0 ==>
      Returns(p)[ArgMin(Returns(p))] < p[k].1.ret
  {
    var rets := Returns(p);
    assert |rets| == |p| && forall k :: 0 <= k < |p| ==> rets[k] == p[k].1.ret;
    var hi, lo := ArgMax(rets), ArgMin(rets);
    forall k | 0 <= k < |p|
      ensures p[k].0 < p[hi].0 ==> k < hi
      ensures p[k].0 < p[lo].0 ==> k < lo
    {
      assert hi < k ==> p[hi].0 < p[k].0;
      assert lo < k ==> p[lo].0 < p[k].0;
    }
  }

  /** The maximum is the return of the surviving date `iMax`, no surviving
      date does better and none before `iMax` does as well, and the reported
      period is (date - period, date) of `iMax`. */
  lemma RollingMax(num: NumericOps, minusPeriod: Day -> Day, s: Series) returns (iMax: nat)
    requires StrictlyAscending(s) && Positive(s)
    requires CalculateRollingReturns(num, minusPeriod, s).Ok?
    ensures var m := CalculateRollingReturns(num, minusPeriod, s).value;
      && Survives(num, minusPeriod, s, iMax)
      && Roll(num, minusPeriod, s, iMax).value.ret == m.maxReturns
      && m.maxReturnPeriod == (minusPeriod(s[iMax].0), s[iMax].0)
      && (forall i :: Survives(num, minusPeriod, s, i) ==>
            Roll(num, minusPeriod, s, i).value.ret <= m.maxReturns)
      && (forall i :: 0 <= i < iMax && Survives(num, minusPeriod, s, i) ==>
            Roll(num, minusPeriod, s, i).value.ret < m.maxReturns)
  {
    var p := RollAll(num, minusPeriod, s);
    RollAllSurvivors(num, minusPeriod, s);
    ExtremesInOrder(p);
    var hi := ArgMax(Returns(p));
    iMax := p[hi].0;
    forall i | Survives(num, minusPeriod, s, i)
      ensures Roll(num, minusPeriod, s, i).value.ret <= Returns(p)[hi]
      ensures i < iMax ==> Roll(num, minusPeriod, s, i).value.ret < Returns(p)[hi]
    {
      var k := SurvivorKept(num, minusPeriod, s, i);
    }
  }

  /** The minimum is the return of the surviving date `iMin`, no surviving
      date does worse and none before `iMin` does as badly, and the reported
      period is (date - period, date) of `iMin`. */
  lemma RollingMin(num: NumericOps, minusPeriod: Day -> Day, s: Series) returns (iMin: nat)
    requires StrictlyAscending(s) && Positive(s)
    requires CalculateRollingReturns(num, minusPeriod, s).Ok?
    ensures var m := CalculateRollingReturns(num, minusPeriod, s).value;
      && Survives(num, minusPeriod, s, iMin)
      && Roll(num, minusPeriod, s, iMin).value.ret == m.minReturns
      && m.minReturnPeriod == (minusPeriod(s[iMin].0), s[iMin].0)
      && (forall i :: Survives(num, minusPeriod, s, i) ==>
            m.minReturns <= Roll(num, minusPeriod, s, i).value.ret)
      && (forall i :: 0 <= i < iMin && Survives(num, minusPeriod, s, i) ==>
            m.minReturns < Roll(num, minusPeriod, s, i).value.ret)
  {
    var p := RollAll(num, minusPeriod, s);
    RollAllSurvivors(num, minusPeriod, s);
    ExtremesInOrder(p);
    var lo := ArgMin(Returns(p));
    iMin := p[lo].0;
    forall i | Survives(num, minusPeriod, s, i)
      ensures Returns(p)[lo] <= Roll(num, minusPeriod, s, i).value.ret
      ensures i < iMin ==> Returns(p)[lo] < Roll(num, minusPeriod, s, i).value.ret
    {
      var k := SurvivorKept(num, minusPeriod, s, i);
    }
  }

  /** With a rounding that is monotone and idempotent, the average lies
      between the minimum and the maximum. */
  lemma RollingAverageBetween(num: NumericOps, minusPeriod: Day -> Day, s: Series)
    requires StrictlyAscending(s) && Positive(s)
    requires RoundMonotone(num.round) && RoundIdempotent(num.round)
    requires CalculateRollingReturns(num, minusPeriod, s).Ok?
    ensures var m := CalculateRollingReturns(num, minusPeriod, s).value;
      m.minReturns <= m.avgReturn <= m.maxReturns
  {
    var p := RollAll(num, minusPeriod, s);
    RollAllSurvivors(num, minusPeriod, s);
    var rets := Returns(p);
    var hi := ArgMax(rets);
    var lo := ArgMin(rets);
    MeanBetween(rets, rets[lo], rets[hi]);
    // Every return is itself rounded to three places, so rounding fixes the extremes.
    var xh, xl := p[hi].1, p[lo].1;
    assert Roll(num, minusPeriod, s, p[hi].0) == Some(xh);
    assert Roll(num, minusPeriod, s, p[lo].0) == Some(xl);
    assert num.round(rets[hi], 3) == rets[hi];
    assert num.round(rets[lo], 3) == rets[lo];
    assert num.round(rets[lo], 3) <= num.round(Mean(rets), 3) <= num.round(rets[hi], 3);
  }

  /** The average is the mean of the surviving dates' returns, rounded to
      three places: the frame it is taken over holds one row per surviving
      date, in date order, each carrying that date's return. */
  lemma RollingAverageIsMean(num: NumericOps, minusPeriod: Day -> Day, s: Series)
    requires StrictlyAscending(s) && Positive(s)
    requires CalculateRollingReturns(num, minusPeriod, s).Ok?
    ensures CalculateRollingReturns(num, minusPeriod, s).value.avgReturn
         == num.round(Mean(Returns(RollAll(num, minusPeriod, s))), 3)
    ensures |Returns(RollAll(num, minusPeriod, s))| == |RollAll(num, minusPeriod, s)| > 0
    ensures forall k :: 0 <= k < |RollAll(num, minusPeriod, s)| ==>
      && Survives(num, minusPeriod, s, RollAll(num, minusPeriod, s)[k].0)
      && Returns(RollAll(num, minusPeriod, s))[k]
           == Roll(num, minusPeriod, s, RollAll(num, minusPeriod, s)[k].0).value.ret
    ensures forall k, l :: 0 <= k < l < |RollAll(num, minusPeriod, s)| ==>
      RollAll(num, minusPeriod, s)[k].0 < RollAll(num, minusPeriod, s)[l].0
    ensures forall i :: Survives(num, minusPeriod, s, i) ==>
      exists k :: 0 <= k < |RollAll(num, minusPeriod, s)| && RollAll(num, minusPeriod, s)[k].0 == i
  {
    RollAllSurvivors(num, minusPeriod, s);
    var p := RollAll(num, minusPeriod, s);
    assert |Returns(p)| == |p|;
  }

  /** Each reported period is (date - period, date) for a series date, and
      that offset date is never before the first date of the series. */
  lemma RollingPeriodsInRange(num: NumericOps, minusPeriod: Day -> Day, s: Series)
    requires StrictlyAscending(s) && Positive(s)
    requires CalculateRollingReturns(num, minusPeriod, s).Ok?
    ensures var m := CalculateRollingReturns(num, minusPeriod, s).value;
      && m.maxReturnPeriod.0 == minusPeriod(m.maxReturnPeriod.1)
      && m.minReturnPeriod.0 == minusPeriod(m.minReturnPeriod.1)
      && s[0].0 <= m.maxReturnPeriod.0 && s[0].0 <= m.minReturnPeriod.0
  {
    var iMax := RollingMax(num, minusPeriod, s);
    var iMin := RollingMin(num, minusPeriod, s);
    RollMatchesBackward(num, minusPeriod, s, iMax);
    RollMatchesBackward(num, minusPeriod, s, iMin);
  }
}
