/** `calculate_trailing_cagr` (src/cagrx/return_metrics.py): CAGR over a
    family of lookback windows anchored at the last date of the series. */
module TrailingCagr {
  import opened Wrappers
  import opened Errors
  import opened Numerics
  import opened TimeSeries
  import opened GrowthRate

  // ------------------------------------------------------- result labels

  function DigitChar(d: nat): char
    requires d < 10
  {
    "0123456789"[d]
  }

  predicate IsDigit(c: char)
  {
    '0' <= c <= '9'
  }

  /** Decimal notation of a natural number. */
  function NatToString(n: nat): (r: string)
    ensures |r| > 0 && forall k :: 0 <= k < |r| ==> IsDigit(r[k])
    ensures n >= 10 ==> |r| >= 2
  {
    if n < 10 then [DigitChar(n)]
    else NatToString(n / 10) + [DigitChar(n % 10)]
  }

  /** Python's `str` of an int. */
  function IntToString(i: int): string
  {
    if i < 0 then "-" + NatToString(-i) else NatToString(i)
  }

  /** The key under which a period is reported: `Max_CAGR` for -1,
      `{p}Y_CAGR` otherwise. */
  function Label(p: int): string
  {
    if p == -1 then "Max_CAGR" else IntToString(p) + "Y_CAGR"
  }

  lemma {:induction false} NatToStringInjective(a: nat, b: nat)
    requires NatToString(a) == NatToString(b)
    ensures a == b
  {
    var s := NatToString(a);
    if a >= 10 && b >= 10 {
      assert NatToString(a / 10) == s[..|s| - 1] == NatToString(b / 10);
      NatToStringInjective(a / 10, b / 10);
      assert DigitChar(a % 10) == s[|s| - 1] == DigitChar(b % 10);
    } else if a < 10 && b < 10 {
      assert DigitChar(a) == s[0] == DigitChar(b);
    }
  }

  /** The sign is visible in the first character. */
  lemma IntToStringSign(a: int)
    ensures |IntToString(a)| > 0
    ensures (IntToString(a)[0] == '-') == (a < 0)
  {
    if a >= 0 {
      assert IsDigit(NatToString(a)[0]);
    }
  }

  lemma IntToStringInjective(a: int, b: int)
    requires IntToString(a) == IntToString(b)
    ensures a == b
  {
    IntToStringSign(a);
    IntToStringSign(b);
    var s := IntToString(a);
    if a < 0 {
      assert NatToString(-a) == s[1..] == NatToString(-b);
      NatToStringInjective(-a, -b);
    } else {
      NatToStringInjective(a, b);
    }
  }

  /** No period other than -1 is reported under `Max_CAGR`. */
  lemma LabelNotMax(p: int)
    requires p != -1
    ensures Label(p) != "Max_CAGR"
  {
    var s := Label(p);
    assert s[|s| - 6] == 'Y';
    assert |s| == 8 ==> s[2] == 'Y';
  }

  /** Distinct periods are reported under distinct keys. */
  lemma LabelInjective(p: int, q: int)
    ensures Label(p) == Label(q) ==> p == q
  {
    if p != -1 && q != -1 {
      if Label(p) == Label(q) {
        var s := Label(p);
        assert IntToString(p) == s[..|s| - 6] == IntToString(q);
        IntToStringInjective(p, q);
      }
    } else if p != -1 {
      LabelNotMax(p);
    } else if q != -1 {
      LabelNotMax(q);
    }
  }

  // ---------------------------------------------------------- one period

  function Lift(r: Result<real, Error>): Result<Option<real>, Error>
  {
    match r
    case Ok(v) => Ok(Some(v))
    case Err(e) => Err(e)
  }

  /** What the loop records for one period of the sorted series `s`, or the
      error it raises there. `minusYears(d, p)` is `d - DateOffset(years=p)`. */
  function PeriodEntry(num: NumericOps, minusYears: (Day, int) -> Day, s: Series, p: int)
    : Result<Option<real>, Error>
    requires Ascending(s)
  {
    if p == -1 then Lift(Cagr(num, s))
    else if |s| == 0 then Err(EmptySeries)
    else
      var startDate := minusYears(s[|s| - 1].0, p);
      if startDate < s[0].0 then Ok(None)
      else Lift(Cagr(num, RowsFrom(s, startDate)))
  }

  /** `Max_CAGR` is the CAGR of the whole sorted series. */
  lemma MaxEntryIsWholeCagr(num: NumericOps, minusYears: (Day, int) -> Day, s: Series)
    requires Ascending(s)
    ensures Cagr(num, s).Ok? ==> PeriodEntry(num, minusYears, s, -1) == Ok(Some(Cagr(num, s).value))
    ensures Cagr(num, s).Err? ==> PeriodEntry(num, minusYears, s, -1) == Err(Cagr(num, s).error)
  {
  }

  /** For a period other than -1 on a non-empty series, the entry is None
      exactly when the window would start before the first date; otherwise it
      is the CAGR of the rows from the window start, which end at the last row
      and start no earlier than the window start. */
  lemma TrailingEntryAbsentIff(num: NumericOps, minusYears: (Day, int) -> Day, s: Series, p: int)
    requires Ascending(s) && |s| > 0 && p != -1
    ensures (PeriodEntry(num, minusYears, s, p) == Ok(None))
              <==> (minusYears(s[|s| - 1].0, p) < s[0].0)
    ensures minusYears(s[|s| - 1].0, p) >= s[0].0 ==>
              var window := RowsFrom(s, minusYears(s[|s| - 1].0, p));
              PeriodEntry(num, minusYears, s, p) == Lift(Cagr(num, window)) &&
              (|window| > 0 ==> window[|window| - 1] == s[|s| - 1] &&
                                window[0].0 >= minusYears(s[|s| - 1].0, p))
  {
  }

  /** A period whose window holds, besides the last row, some earlier row
      gets a value (on positive data): the window then spans at least two
      distinct dates. */
  lemma TrailingEntryPresent(num: NumericOps, minusYears: (Day, int) -> Day, s: Series, p: int, j: nat)
    requires StrictlyAscending(s) && Positive(s) && p != -1
    requires j < |s| - 1
    requires s[0].0 <= minusYears(s[|s| - 1].0, p) <= s[j].0
    ensures PeriodEntry(num, minusYears, s, p).Ok?
    ensures PeriodEntry(num, minusYears, s, p).value.Some?
  {
    var last := |s| - 1;
    var start := minusYears(s[last].0, p);
    var k := WindowStart(s, start, j);
    var w := RowsFrom(s, start);
    assert s[k].1 > 0.0;
    assert s[k].0 <= s[j].0 < s[last].0;
    assert Cagr(num, w).Ok?;
  }

  /** A row j dated on or after `start` lies in the window `RowsFrom(s, start)`,
      which then begins at some row k <= j and ends at the last row. */
  lemma WindowStart(s: Series, start: Day, j: nat) returns (k: nat)
    requires Ascending(s) && j < |s| && s[j].0 >= start
    ensures k <= j && |RowsFrom(s, start)| == |s| - k
    ensures RowsFrom(s, start)[0] == s[k]
    ensures RowsFrom(s, start)[|s| - k - 1] == s[|s| - 1]
  {
    var w := RowsFrom(s, start);
    k := |s| - |w|;
    assert w == s[k..];
  }

  // ----------------------------------------------------------- the loop

  /** The dictionary the loop builds over `periods`, in order: each period
      writes its entry under its label; the first failing period stops it. */
  function Trailing(num: NumericOps, minusYears: (Day, int) -> Day, s: Series, periods: seq<int>)
    : Result<map<string, Option<real>>, Error>
    requires Ascending(s)
  {
    if periods == [] then Ok(map[])
    else
      match Trailing(num, minusYears, s, periods[..|periods| - 1])
      case Err(e) => Err(e)
      case Ok(m) =>
        match PeriodEntry(num, minusYears, s, periods[|periods| - 1])
        case Err(e) => Err(e)
        case Ok(v) => Ok(m[Label(periods[|periods| - 1]) := v])
  }

  /** Every period before index i gets an entry, and the one at i raises e. */
  ghost predicate FailsFirstAt(num: NumericOps, minusYears: (Day, int) -> Day, s: Series,
                               periods: seq<int>, i: int, e: Error)
    requires Ascending(s)
  {
    && 0 <= i < |periods|
    && (forall j :: 0 <= j < i ==> PeriodEntry(num, minusYears, s, periods[j]).Ok?)
    && PeriodEntry(num, minusYears, s, periods[i]) == Err(e)
  }

  /** The dictionary has exactly one key per requested period, Label(p),
      holding that period's entry; it fails exactly when some period fails,
      and then with the error of the first one that does. */
  lemma {:induction false} TrailingReport(num: NumericOps, minusYears: (Day, int) -> Day,
                                          s: Series, periods: seq<int>)
    requires Ascending(s)
    ensures (Trailing(num, minusYears, s, periods).Ok?)
              <==> (forall i :: 0 <= i < |periods| ==> PeriodEntry(num, minusYears, s, periods[i]).Ok?)
    ensures Trailing(num, minusYears, s, periods).Ok? ==>
              Trailing(num, minusYears, s, periods).value.Keys == (set p | p in periods :: Label(p))
    ensures Trailing(num, minusYears, s, periods).Ok? ==>
              forall i :: 0 <= i < |periods| ==>
                Trailing(num, minusYears, s, periods).value[Label(periods[i])]
                  == PeriodEntry(num, minusYears, s, periods[i]).value
    ensures Trailing(num, minusYears, s, periods).Err? ==>
              exists i :: FailsFirstAt(num, minusYears, s, periods, i, Trailing(num, minusYears, s, periods).error)
  {
    if periods != [] {
      var n := |periods| - 1;
      var front := periods[..n];
      var last := periods[n];
      assert periods == front + [last];
      TrailingReport(num, minusYears, s, front);
      var t := Trailing(num, minusYears, s, front);
      if t.Err? {
        var i :| FailsFirstAt(num, minusYears, s, front, i, t.error);
        assert FailsFirstAt(num, minusYears, s, periods, i, t.error);
      } else if PeriodEntry(num, minusYears, s, last).Err? {
        assert FailsFirstAt(num, minusYears, s, periods, n, PeriodEntry(num, minusYears, s, last).error);
      } else {
        var m := Trailing(num, minusYears, s, periods).value;
        assert m == t.value[Label(last) := PeriodEntry(num, minusYears, s, last).value];
        forall i | 0 <= i < |periods|
          ensures m[Label(periods[i])] == PeriodEntry(num, minusYears, s, periods[i]).value
        {
          LabelInjective(periods[i], last);
          if i < n {
            assert periods[i] == front[i];
          }
        }
        assert m.Keys == (set p | p in front :: Label(p)) + {Label(last)};
      }
    }
  }

  /** Once a prefix of the periods fails, the whole loop has failed with the
      same error: later periods are never evaluated. */
  lemma {:induction false} TrailingStops(num: NumericOps, minusYears: (Day, int) -> Day,
                                         s: Series, periods: seq<int>, i: nat)
    requires Ascending(s) && i <= |periods|
    requires Trailing(num, minusYears, s, periods[..i]).Err?
    ensures Trailing(num, minusYears, s, periods) == Trailing(num, minusYears, s, periods[..i])
    decreases |periods| - i
  {
    if i < |periods| {
      assert periods[..i + 1][..i] == periods[..i];
      TrailingStops(num, minusYears, s, periods, i + 1);
    } else {
      assert periods[..i] == periods;
    }
  }

  /** Extending the periods by one: the prefix's dictionary gains that
      period's entry, or the first error stays. */
  lemma TrailingStep(num: NumericOps, minusYears: (Day, int) -> Day, s: Series,
                     periods: seq<int>, i: nat, m: map<string, Option<real>>)
    requires Ascending(s) && i < |periods|
    requires Trailing(num, minusYears, s, periods[..i]) == Ok(m)
    ensures PeriodEntry(num, minusYears, s, periods[i]).Err? ==>
      Trailing(num, minusYears, s, periods[..i + 1]) == Err(PeriodEntry(num, minusYears, s, periods[i]).error)
    ensures PeriodEntry(num, minusYears, s, periods[i]).Ok? ==>
      Trailing(num, minusYears, s, periods[..i + 1])
        == Ok(m[Label(periods[i]) := PeriodEntry(num, minusYears, s, periods[i]).value])
  {
    assert periods[..i + 1][..i] == periods[..i];
  }

  /** One iteration of the loop: the entry for `period`, or the error that
      ends the loop. */
  method TrailingEntry(num: NumericOps, minusYears: (Day, int) -> Day, s: Series, period: int)
    returns (e: Result<Option<real>, Error>)
    requires Ascending(s)
    ensures e == PeriodEntry(num, minusYears, s, period)
  {
    if period == -1 {
      var c := Cagr(num, s);
      if c.Err? {
        return Err(c.error);
      }
      return Ok(Some(c.value));
    }
    if |s| == 0 {
      return Err(EmptySeries);
    }
    var startDate := minusYears(s[|s| - 1].0, period);
    if startDate < s[0].0 {
      return Ok(None);
    }
    var c := Cagr(num, RowsFrom(s, startDate));
    if c.Err? {
      return Err(c.error);
    }
    return Ok(Some(c.value));
  }

  /** The loop of `calculate_trailing_cagr` over the sorted series. */
  method TrailingLoop(num: NumericOps, minusYears: (Day, int) -> Day, s: Series, periods: seq<int>)
    returns (r: Result<map<string, Option<real>>, Error>)
    requires Ascending(s)
    ensures r == Trailing(num, minusYears, s, periods)
  {
    var metrics: map<string, Option<real>> := map[];
    for i := 0 to |periods|
      invariant Trailing(num, minusYears, s, periods[..i]) == Ok(metrics)
    {
      var period := periods[i];
      var entry := TrailingEntry(num, minusYears, s, period);
      TrailingStep(num, minusYears, s, periods, i, metrics);
      if entry.Err? {
        TrailingStops(num, minusYears, s, periods, i + 1);
        return Err(entry.error);
      }
      metrics := metrics[Label(period) := entry.value];
    }
    assert periods[..|periods|] == periods;
    return Ok(metrics);
  }

  /** `calculate_trailing_cagr`: the dictionary Trailing describes, built over
      the column sorted by date; a missing column is an error. */
  method CalculateTrailingCagr(num: NumericOps, minusYears: (Day, int) -> Day,
                               df: Frame, column: string, periods: Option<seq<int>>)
    returns (r: Result<map<string, Option<real>>, Error>)
    ensures column !in df ==> r == Err(MissingColumn(column))
    ensures column in df && periods.None? ==> r == Err(NotIterable)
    ensures column in df && periods.Some? ==>
      r == Trailing(num, minusYears, SortByDay(df[column]), periods.value)
  {
    if column !in df {
      return Err(MissingColumn(column));
    }
    var s := SortByDay(df[column]);
    if periods.None? {
      return Err(NotIterable);
    }
    r := TrailingLoop(num, minusYears, s, periods.value);
  }

  /** On a column already in strictly increasing date order, `Max_CAGR` is
      the `cagr` of the column as given. */
  lemma MaxCagrOfSortedColumn(num: NumericOps, minusYears: (Day, int) -> Day, s: Series, periods: seq<int>)
    requires StrictlyAscending(s) && -1 in periods
    requires Trailing(num, minusYears, SortByDay(s), periods).Ok?
    ensures Cagr(num, s).Ok?
    ensures Label(-1) in Trailing(num, minusYears, SortByDay(s), periods).value
    ensures Trailing(num, minusYears, SortByDay(s), periods).value[Label(-1)] == Some(Cagr(num, s).value)
  {
    SortedIdentity(s);
    TrailingReport(num, minusYears, s, periods);
    var i :| 0 <= i < |periods| && periods[i] == -1;
    assert PeriodEntry(num, minusYears, s, periods[i]).Ok?;
  }
}
