/** Date-indexed series: days are integer day numbers, a series is a sequence
    of (day, value) rows. Holds the one directional as-of lookup that both
    rolling returns (backward) and SIP returns (forward) use, and the sort
    that `sort_index` / `argsort` perform. */
module TimeSeries {
  import opened Wrappers
  import opened Numerics

  /** A calendar date as a day number. */
  type Day = int

  /** Rows of (day, value): one column of a pandas frame with its date index. */
  type Series = seq<(Day, real)>

  /** A pandas frame, seen one column at a time: column name to its rows. */
  type Frame = map<string, Series>

  /** Days never decrease (the state after `sort_index`). */
  ghost predicate Ascending(s: Series)
  {
    forall i, j :: 0 <= i < j < |s| ==> s[i].0 <= s[j].0
  }

  /** Days strictly increase: sorted and without duplicate dates. */
  ghost predicate StrictlyAscending(s: Series)
  {
    forall i, j :: 0 <= i < j < |s| ==> s[i].0 < s[j].0
  }

  /** Every value is positive (NAVs are). */
  ghost predicate Positive(s: Series)
  {
    forall i :: 0 <= i < |s| ==> s[i].1 > 0.0
  }

  /** The value column of a series, in row order. */
  function Values(s: Series): (v: seq<real>)
    ensures |v| == |s| && forall i :: 0 <= i < |s| ==> v[i] == s[i].1
  {
    if s == [] then [] else [s[0].1] + Values(s[1..])
  }

  /** Sum of the values of a series (`.sum()` of one column). */
  function Total(s: Series): real
  {
    Sum(Values(s))
  }

  /** The total is the first value plus the total of the remaining rows. */
  lemma TotalCons(s: Series)
    requires |s| > 0
    ensures Total(s) == s[0].1 + Total(s[1..])
  {
    assert Values(s)[1..] == Values(s[1..]);
  }

  // ---------------------------------------------------------------- sorting

  function Insert(x: (Day, real), s: Series): (r: Series)
    requires Ascending(s)
    ensures Ascending(r)
    ensures multiset(r) == multiset(s) + multiset{x}
    ensures |r| == |s| + 1
    ensures r[0] == if s == [] || x.0 <= s[0].0 then x else s[0]
  {
    if s == [] then [x]
    else if x.0 <= s[0].0 then [x] + s
    else
      var rest := Insert(x, s[1..]);
      assert s == [s[0]] + s[1..];
      [s[0]] + rest
  }

  /** Sorts rows by day: the result is ascending and a permutation of the input. */
  function SortByDay(s: Series): (r: Series)
    ensures Ascending(r)
    ensures multiset(r) == multiset(s)
    ensures |r| == |s|
  {
    if s == [] then []
    else
      assert s == [s[0]] + s[1..];
      Insert(s[0], SortByDay(s[1..]))
  }

  /** Two date-sorted arrangements of the same rows are equal when one of
      them has no repeated date: without ties there is only one sorted order. */
  lemma {:induction false} SortedUnique(a: Series, b: Series)
    requires StrictlyAscending(a) && Ascending(b) && multiset(a) == multiset(b)
    ensures a == b
    decreases |a|
  {
    assert |a| == |multiset(a)| == |multiset(b)| == |b|;
    if a != [] {
      SameHead(a, b);
      DropHead(a, b);
      SortedUnique(a[1..], b[1..]);
      assert a == [a[0]] + a[1..] && b == [b[0]] + b[1..];
    }
  }

  /** Dropping a shared first row keeps both orders and the equal contents. */
  lemma DropHead(a: Series, b: Series)
    requires StrictlyAscending(a) && Ascending(b) && multiset(a) == multiset(b)
    requires |a| > 0 && |b| > 0 && a[0] == b[0]
    ensures StrictlyAscending(a[1..]) && Ascending(b[1..])
    ensures multiset(a[1..]) == multiset(b[1..])
  {
    MultisetTail(a);
    MultisetTail(b);
    forall i, j | 0 <= i < j < |a| - 1 ensures a[1..][i].0 < a[1..][j].0 {
      assert a[1..][i] == a[i + 1] && a[1..][j] == a[j + 1];
    }
    forall i, j | 0 <= i < j < |b| - 1 ensures b[1..][i].0 <= b[1..][j].0 {
      assert b[1..][i] == b[i + 1] && b[1..][j] == b[j + 1];
    }
  }

  /** Both arrangements start with the earliest row, which the strict one
      holds only once. */
  lemma SameHead(a: Series, b: Series)
    requires StrictlyAscending(a) && Ascending(b) && multiset(a) == multiset(b)
    requires |a| > 0 && |b| > 0
    ensures a[0] == b[0]
  {
    assert b[0] in multiset(a) && a[0] in multiset(b);
    var k :| 0 <= k < |a| && a[k] == b[0];
    var j :| 0 <= j < |b| && b[j] == a[0];
    assert a[0].0 <= a[k].0;
    assert b[0].0 <= b[j].0;
    assert k == 0;
  }

  /** Sorting a series already in strictly increasing date order changes nothing. */
  lemma SortedIdentity(s: Series)
    requires StrictlyAscending(s)
    ensures SortByDay(s) == s
  {
    SortedUnique(s, SortByDay(s));
  }

  /** When the rows' dates are all distinct, every date-sorted arrangement of
      them is SortByDay's: the order SortByDay picks matters only for ties. */
  lemma SortIsUnique(s: Series, t: Series)
    requires StrictlyAscending(SortByDay(s))
    requires Ascending(t) && multiset(t) == multiset(s)
    ensures t == SortByDay(s)
  {
    SortedUnique(SortByDay(s), t);
  }

  /** Sorting keeps every row, so a positive series stays positive. */
  lemma SortedPositive(s: Series)
    requires Positive(s)
    ensures Positive(SortByDay(s))
  {
    var r := SortByDay(s);
    forall k | 0 <= k < |r| ensures r[k].1 > 0.0 {
      assert r[k] in multiset(r);
      assert r[k] in multiset(s);
      assert r[k] in s;
    }
  }

  /** Sorting keeps every row, so it keeps the total (sum of values). */
  lemma {:induction false} TotalPermutation(a: Series, b: Series)
    requires multiset(a) == multiset(b)
    ensures Total(a) == Total(b)
    decreases |a|
  {
    if a == [] {
      assert |b| == |multiset(b)| == 0;
    } else {
      assert a[0] in multiset(b);
      var k :| 0 <= k < |b| && b[k] == a[0];
      var b' := b[..k] + b[k+1..];
      MultisetRemove(b, k);
      MultisetTail(a);
      TotalPermutation(a[1..], b');
      TotalRemove(b, k);
      TotalCons(a);
    }
  }

  /** A series' rows are its first row and the rows after it. */
  lemma MultisetTail(s: Series)
    requires |s| > 0
    ensures multiset(s[1..]) == multiset(s) - multiset{s[0]}
  {
    assert s == [s[0]] + s[1..];
  }

  /** Taking row k out of a series takes exactly that row out of its multiset. */
  lemma MultisetRemove(b: Series, k: nat)
    requires k < |b|
    ensures multiset(b[..k] + b[k+1..]) == multiset(b) - multiset{b[k]}
  {
    assert b == b[..k] + [b[k]] + b[k+1..];
    assert multiset(b) == multiset(b[..k]) + multiset{b[k]} + multiset(b[k+1..]);
  }

  /** Taking row k out of a series takes its value out of the total. */
  lemma {:induction false} TotalRemove(b: Series, k: nat)
    requires k < |b|
    ensures Total(b) == b[k].1 + Total(b[..k] + b[k+1..])
  {
    TotalCons(b);
    if k > 0 {
      TotalRemove(b[1..], k - 1);
      assert b[1..][..k-1] + b[1..][k..] == (b[..k] + b[k+1..])[1..];
      TotalCons(b[..k] + b[k+1..]);
    } else {
      assert b[..k] + b[k+1..] == b[1..];
    }
  }

  // ------------------------------------------------------- as-of alignment

  /** merge_asof's two directions. */
  datatype Direction = Backward | Forward

  /** Whether a row dated `day` may be matched to `key` in direction `dir`
      (exact matches allowed, as merge_asof does by default). */
  predicate Admits(dir: Direction, day: Day, key: Day)
  {
    match dir
    case Backward => day <= key
    case Forward => day >= key
  }

  /** The as-of match of `key` in `s`: the index of the last row dated on or
      before `key` (Backward), or of the first row dated on or after it
      (Forward); None when no row qualifies. */
  function AsOf(s: Series, key: Day, dir: Direction): (r: Option<nat>)
    ensures r.Some? ==> r.value < |s| && Admits(dir, s[r.value].0, key)
    ensures r.None? <==> forall i :: 0 <= i < |s| ==> !Admits(dir, s[i].0, key)
    ensures r.Some? && dir == Backward ==> forall j :: r.value < j < |s| ==> s[j].0 > key
    ensures r.Some? && dir == Forward ==> forall j :: 0 <= j < r.value ==> s[j].0 < key
    decreases |s|
  {
    if s == [] then None
    else
      match dir
      case Backward =>
        if s[|s| - 1].0 <= key then Some(|s| - 1)
        else AsOf(s[..|s| - 1], key, dir)
      case Forward =>
        if s[0].0 >= key then Some(0)
        else
          match AsOf(s[1..], key, dir)
          case None => None
          case Some(i) => Some(i + 1)
  }

  /** On a sorted series the match is the nearest qualifying date: the latest
      one on or before the key (Backward), the earliest on or after it (Forward). */
  lemma AsOfNearest(s: Series, key: Day, dir: Direction)
    requires Ascending(s)
    ensures AsOf(s, key, dir).Some? ==>
      forall j :: 0 <= j < |s| && Admits(dir, s[j].0, key) ==>
        if dir == Backward then s[j].0 <= s[AsOf(s, key, dir).value].0
        else s[AsOf(s, key, dir).value].0 <= s[j].0
  {
  }

  /** `df.loc[start:]` on a sorted frame: the rows dated on or after `start`.
      They form a suffix of `s`, and a non-empty one ends at `s`'s last row. */
  function RowsFrom(s: Series, start: Day): (r: Series)
    requires Ascending(s)
    ensures |r| <= |s| && r == s[|s| - |r|..]
    ensures forall k :: 0 <= k < |r| ==> r[k].0 >= start
    ensures forall k :: 0 <= k < |s| - |r| ==> s[k].0 < start
    ensures |r| > 0 ==> r[|r| - 1] == s[|s| - 1]
  {
    match AsOf(s, start, Forward)
    case None => []
    case Some(i) =>
      SuffixFrom(s, start, i);
      s[i..]
  }

  /** The rows from the first one dated on or after `start` are all dated on
      or after it and end at the last row. */
  lemma SuffixFrom(s: Series, start: Day, i: nat)
    requires Ascending(s) && i < |s| && s[i].0 >= start
    ensures forall k :: 0 <= k < |s| - i ==> s[i..][k].0 >= start
    ensures s[i..][|s| - i - 1] == s[|s| - 1]
  {
    forall k | 0 <= k < |s| - i
      ensures s[i..][k].0 >= start
    {
      assert s[i..][k] == s[i + k];
      assert s[i].0 <= s[i + k].0;
    }
  }
}
