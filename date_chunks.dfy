/** `split_into_date_pairs` (src/cagrx/utils.py): cuts the days from `start`
    up to `end` into consecutive (first, last) windows of at most `n` days,
    dates being day numbers. */
module DateChunks {
  import opened TimeSeries

  /** A pair's last day, given its first: `min(first + n - 1, end)`. */
  function WindowEnd(first: Day, end: Day, n: int): Day
  {
    if first + n - 1 < end then first + n - 1 else end
  }

  /** The pairs the loop produces, as written: while the window start is
      before `end`, emit (start, min(start + n - 1, end)) and continue the day
      after. With `n` <= 0 and a non-empty range the loop never ends. */
  function Chunks(start: Day, end: Day, n: int): (r: seq<(Day, Day)>)
    requires start < end ==> n >= 1
    ensures |r| == 0 <==> start >= end
    ensures |r| > 0 ==> r[0] == (start, WindowEnd(start, end, n))
    decreases end - start
  {
    if start >= end then []
    else [(start, WindowEnd(start, end, n))] + Chunks(WindowEnd(start, end, n) + 1, end, n)
  }

  /** Every pair lies within [start, end], spans at most n days, and spans
      exactly n days unless it is the last; each pair begins the day after
      the previous one ends. */
  ghost predicate Tiled(r: seq<(Day, Day)>, start: Day, end: Day, n: int)
  {
    && (forall k :: 0 <= k < |r| ==> start <= r[k].0 <= r[k].1 <= end)
    && (forall k :: 0 <= k < |r| ==> r[k].1 - r[k].0 + 1 <= n)
    && (forall k :: 0 <= k < |r| - 1 ==> r[k + 1].0 == r[k].1 + 1)
    && (forall k :: 0 <= k < |r| - 1 ==> r[k].1 - r[k].0 + 1 == n)
  }

  /** The written split is tiled. */
  lemma {:induction false} ChunksShape(start: Day, end: Day, n: int)
    requires start < end ==> n >= 1
    ensures Tiled(Chunks(start, end, n), start, end, n)
    decreases end - start
  {
    if start < end {
      var next := WindowEnd(start, end, n) + 1;
      ChunksShape(next, end, n);
      var r, rest := Chunks(start, end, n), Chunks(next, end, n);
      assert r == [r[0]] + rest;
      forall k | 0 < k < |r| ensures r[k] == rest[k - 1] { }
    }
  }

  /** The last pair ends at `end`, except when the range `end - start` is
      exactly as many windows as there are pairs: then it ends the day before. */
  lemma {:induction false} ChunksLastEnd(start: Day, end: Day, n: int)
    requires start < end && n >= 1
    ensures var r := Chunks(start, end, n);
      r[|r| - 1].1 == if end - start == |r| * n then end - 1 else end
    decreases end - start
  {
    var r := Chunks(start, end, n);
    var next := WindowEnd(start, end, n) + 1;
    var rest := Chunks(next, end, n);
    assert r == [r[0]] + rest;
    if next < end {
      ChunksLastEnd(next, end, n);
      assert r[|r| - 1] == rest[|rest| - 1];
      assert |r| * n == |rest| * n + n;
    }
  }

  /** The window start strictly increases, so (with n >= 1) the loop
      terminates; the method yields exactly `Chunks`. */
  method SplitIntoDatePairs(start: Day, end: Day, n: int) returns (pairs: seq<(Day, Day)>)
    requires start < end ==> n >= 1
    ensures pairs == Chunks(start, end, n)
  {
    pairs := [];
    var current := start;
    while current < end
      invariant start <= current
      invariant pairs + Chunks(current, end, n) == Chunks(start, end, n)
      decreases end - current
    {
      var currentEnd := if current + n - 1 < end then current + n - 1 else end;
      assert Chunks(current, end, n) == [(current, currentEnd)] + Chunks(currentEnd + 1, end, n);
      pairs := pairs + [(current, currentEnd)];
      current := currentEnd + 1;
    }
  }

  // ------------------------------------------------- the end date is dropped

  /** The evidently intended split of the inclusive range [start, end]. */
  function ChunksInclusive(start: Day, end: Day, n: int): (r: seq<(Day, Day)>)
    requires start <= end ==> n >= 1
    ensures |r| == 0 <==> start > end
    ensures |r| > 0 ==> r[0] == (start, WindowEnd(start, end, n)) && r[|r| - 1].1 == end
    decreases end - start
  {
    if start > end then []
    else [(start, WindowEnd(start, end, n))] + ChunksInclusive(WindowEnd(start, end, n) + 1, end, n)
  }

  /** The intended split is tiled too. */
  lemma {:induction false} ChunksInclusiveShape(start: Day, end: Day, n: int)
    requires start <= end ==> n >= 1
    ensures Tiled(ChunksInclusive(start, end, n), start, end, n)
    decreases end - start
  {
    if start <= end {
      var next := WindowEnd(start, end, n) + 1;
      ChunksInclusiveShape(next, end, n);
      var r, rest := ChunksInclusive(start, end, n), ChunksInclusive(next, end, n);
      assert r == [r[0]] + rest;
      forall k | 0 < k < |r| ensures r[k] == rest[k - 1] { }
    }
  }

  /** The written split misses the end day: it is empty or its last pair ends
      before `end`. */
  predicate StopsShort(r: seq<(Day, Day)>, end: Day)
  {
    r == [] || r[|r| - 1].1 < end
  }

  /** The intended split is the written one plus a last one-day pair
      (end, end) exactly when the written one stops short of the end day. */
  lemma {:induction false} ChunksInclusiveExtends(start: Day, end: Day, n: int)
    requires start <= end && n >= 1
    ensures ChunksInclusive(start, end, n) == Chunks(start, end, n) +
      (if StopsShort(Chunks(start, end, n), end) then [(end, end)] else [])
    decreases end - start
  {
    if start < end {
      var next := WindowEnd(start, end, n) + 1;
      var c, rest := Chunks(start, end, n), Chunks(next, end, n);
      assert c == [(start, next - 1)] + rest;
      if next <= end {
        ChunksInclusiveExtends(next, end, n);
        assert ChunksInclusive(start, end, n) == [(start, next - 1)] + ChunksInclusive(next, end, n);
        if rest != [] {
          assert c[|c| - 1] == rest[|rest| - 1];
        }
      } else {
        assert ChunksInclusive(start, end, n) == [(start, end)];
      }
    }
  }

  /** The written split stops short exactly when the range is a whole number
      of windows, start == end included. */
  lemma StopsShortIffWhole(start: Day, end: Day, n: int)
    requires start <= end && n >= 1
    ensures StopsShort(Chunks(start, end, n), end) <==> end - start == |Chunks(start, end, n)| * n
  {
    if start < end {
      ChunksLastEnd(start, end, n);
    }
  }

  /** A later pair of the intended split starts after an earlier one ends. */
  lemma {:induction false} ChunksInclusiveOrdered(start: Day, end: Day, n: int, k: nat, l: nat)
    requires start <= end ==> n >= 1
    requires k < l < |ChunksInclusive(start, end, n)|
    ensures ChunksInclusive(start, end, n)[k].1 < ChunksInclusive(start, end, n)[l].0
    decreases end - start
  {
    var r := ChunksInclusive(start, end, n);
    var next := WindowEnd(start, end, n) + 1;
    var rest := ChunksInclusive(next, end, n);
    assert r == [r[0]] + rest;
    if k == 0 {
      assert rest[l - 1].0 >= next by { ChunksInclusiveFrom(next, end, n, l - 1); }
    } else {
      ChunksInclusiveOrdered(next, end, n, k - 1, l - 1);
    }
  }

  /** Every pair of the intended split starts on or after `start`. */
  lemma {:induction false} ChunksInclusiveFrom(start: Day, end: Day, n: int, k: nat)
    requires start <= end ==> n >= 1
    requires k < |ChunksInclusive(start, end, n)|
    ensures ChunksInclusive(start, end, n)[k].0 >= start
    decreases end - start
  {
    if k > 0 {
      ChunksInclusiveFrom(WindowEnd(start, end, n) + 1, end, n, k - 1);
    }
  }

  /** The intended split covers [start, end]: every day of it lies in a pair,
      and (pairs being ordered) in no other. */
  lemma {:induction false} ChunksInclusiveCover(start: Day, end: Day, n: int, d: Day) returns (k: nat)
    requires start <= end && n >= 1 && start <= d <= end
    ensures k < |ChunksInclusive(start, end, n)|
    ensures ChunksInclusive(start, end, n)[k].0 <= d <= ChunksInclusive(start, end, n)[k].1
    decreases end - start
  {
    var r := ChunksInclusive(start, end, n);
    var next := WindowEnd(start, end, n) + 1;
    var rest := ChunksInclusive(next, end, n);
    assert r == [r[0]] + rest;
    if d < next {
      k := 0;
    } else {
      var j := ChunksInclusiveCover(next, end, n, d);
      k := j + 1;
      assert r[k] == rest[j];
    }
  }

  /** No day lies in two pairs of the intended split. */
  lemma ChunksInclusiveDisjoint(start: Day, end: Day, n: int, d: Day, k: nat, l: nat)
    requires start <= end ==> n >= 1
    requires k < |ChunksInclusive(start, end, n)| && l < |ChunksInclusive(start, end, n)|
    requires ChunksInclusive(start, end, n)[k].0 <= d <= ChunksInclusive(start, end, n)[k].1
    requires ChunksInclusive(start, end, n)[l].0 <= d <= ChunksInclusive(start, end, n)[l].1
    ensures k == l
  {
    if k < l {
      ChunksInclusiveOrdered(start, end, n, k, l);
    } else if l < k {
      ChunksInclusiveOrdered(start, end, n, l, k);
    }
  }

  /** A non-empty range needs one pair per started window: more than
      |r| - 1 whole windows and at most |r| of them. */
  lemma {:induction false} ChunksCount(start: Day, end: Day, n: int)
    requires start < end && n >= 1
    ensures (|Chunks(start, end, n)| - 1) * n < end - start <= |Chunks(start, end, n)| * n
    decreases end - start
  {
    var r := Chunks(start, end, n);
    var next := WindowEnd(start, end, n) + 1;
    var rest := Chunks(next, end, n);
    assert r == [r[0]] + rest;
    if next < end {
      ChunksCount(next, end, n);
      assert next == start + n;
      assert |r| * n == |rest| * n + n;
    }
  }

  /** A non-zero multiple of n is at least n away from 0. */
  lemma {:induction false} MulStep(k: int, n: int)
    requires n >= 1
    ensures k >= 1 ==> k * n >= n
    ensures k <= -1 ==> k * n <= -n
    decreases if k < 0 then -k else k
  {
    if k > 1 {
      MulStep(k - 1, n);
      assert k * n == (k - 1) * n + n;
    } else if k < -1 {
      MulStep(k + 1, n);
      assert k * n == (k + 1) * n - n;
    }
  }

  /** x is a multiple of n exactly when it is q * n for the q with
      (q - 1) * n < x <= q * n. */
  lemma DividesIff(x: int, n: int, q: int)
    requires n >= 1 && (q - 1) * n < x <= q * n
    ensures x % n == 0 <==> x == q * n
  {
    var d, r := x / n, x % n;
    assert x == d * n + r && 0 <= r < n;
    if r == 0 {
      MulStep(q - 1 - d, n);
      MulStep(d - q, n);
      assert (q - 1 - d) * n == (q - 1) * n - d * n;
      assert (d - q) * n == d * n - q * n;
    }
    if x == q * n {
      MulStep(q - d, n);
      assert (q - d) * n == r;
    }
  }

  /** The range is a whole number of windows exactly when it spans as many
      windows as the written split has pairs. */
  lemma WholeWindows(start: Day, end: Day, n: int)
    requires start <= end && n >= 1
    ensures (end - start) % n == 0 <==> end - start == |Chunks(start, end, n)| * n
  {
    if start < end {
      ChunksCount(start, end, n);
      DividesIff(end - start, n, |Chunks(start, end, n)|);
    }
  }

  /** As written, whenever the range is a whole number of windows the end date
      lies in no pair. */
  lemma ChunksMissEndDay(start: Day, end: Day, n: int)
    requires n >= 1 && start <= end && (end - start) % n == 0
    ensures forall k :: 0 <= k < |Chunks(start, end, n)| ==> Chunks(start, end, n)[k].1 < end
  {
    WholeWindows(start, end, n);
    StopsShortIffWhole(start, end, n);
    ChunksInclusiveExtends(start, end, n);
    var r, c := Chunks(start, end, n), ChunksInclusive(start, end, n);
    forall k | 0 <= k < |r| ensures r[k].1 < end {
      ChunksInclusiveOrdered(start, end, n, k, |r|);
      assert c[k] == r[k] && c[|r|] == (end, end);
    }
  }

  /** A one-day request asks for nothing, and a range ending exactly one
      window after its start misses its end date. */
  lemma ChunksMissEndDayExample()
    ensures Chunks(0, 0, 1825) == [] && ChunksInclusive(0, 0, 1825) == [(0, 0)]
    ensures Chunks(0, 1825, 1825) == [(0, 1824)]
    ensures ChunksInclusive(0, 1825, 1825) == [(0, 1824), (1825, 1825)]
  {
  }
}
