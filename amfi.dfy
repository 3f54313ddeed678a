/** The scheme-list parser and queries of `Amfi` (src/cagrx/amfi.py), over
    lines already fetched, and the chunked NAV-history download over a
    caller-supplied fetch. */
module Amfi {
  import opened Wrappers
  import opened Errors
  import opened TimeSeries
  import opened DateChunks

  // ------------------------------------------------------ string primitives

  /** The characters Python's `str.strip()` removes (those `isspace` accepts). */
  predicate IsSpace(c: char)
  {
    || c == ' ' || ('\t' <= c <= '\r') || ('\U{1c}' <= c <= '\U{1f}')
    || c == '\U{85}' || c == '\U{a0}' || c == '\U{1680}' || ('\U{2000}' <= c <= '\U{200a}')
    || c == '\U{2028}' || c == '\U{2029}' || c == '\U{202f}' || c == '\U{205f}' || c == '\U{3000}'
  }

  /** Drops leading whitespace. */
  function TrimStart(s: string): (r: string)
    ensures |r| <= |s| && r == s[|s| - |r|..]
    ensures forall k :: 0 <= k < |s| - |r| ==> IsSpace(s[k])
    ensures |r| > 0 ==> !IsSpace(r[0])
  {
    if s == [] || !IsSpace(s[0]) then s else TrimStart(s[1..])
  }

  /** Drops trailing whitespace. */
  function TrimEnd(s: string): (r: string)
    ensures |r| <= |s| && r == s[..|r|]
    ensures forall k :: |r| <= k < |s| ==> IsSpace(s[k])
    ensures |r| > 0 ==> !IsSpace(r[|r| - 1])
  {
    if s == [] || !IsSpace(s[|s| - 1]) then s else TrimEnd(s[..|s| - 1])
  }

  /** `str.strip()`: the slice of `s` left after removing whitespace at both
      ends; it neither starts nor ends with whitespace. */
  function Strip(s: string): (r: string)
    ensures |r| > 0 ==> !IsSpace(r[0]) && !IsSpace(r[|r| - 1])
    ensures LeadingSpaces(s) + |r| <= |s| && r == s[LeadingSpaces(s)..LeadingSpaces(s) + |r|]
    ensures forall k :: 0 <= k < LeadingSpaces(s) ==> IsSpace(s[k])
    ensures forall k :: LeadingSpaces(s) + |r| <= k < |s| ==> IsSpace(s[k])
  {
    var t := TrimStart(s);
    var r := TrimEnd(t);
    PrefixOfSuffix(s, t, r);
    r
  }

  /** A prefix r of a suffix t of s is the slice of s after |s| - |t|, and
      each character of s after it is the matching character of t. */
  lemma PrefixOfSuffix<T>(s: seq<T>, t: seq<T>, r: seq<T>)
    requires |t| <= |s| && t == s[|s| - |t|..]
    requires |r| <= |t| && r == t[..|r|]
    ensures r == s[|s| - |t|..|s| - |t| + |r|]
    ensures forall k :: |s| - |t| + |r| <= k < |s| ==> s[k] == t[k - (|s| - |t|)]
  {
  }

  /** How many characters `str.strip()` drops at the front. */
  function LeadingSpaces(s: string): nat
  {
    |s| - |TrimStart(s)|
  }

  /** Stripping twice is stripping once. */
  lemma StripIdempotent(s: string)
    ensures Strip(Strip(s)) == Strip(s)
  {
    var r := Strip(s);
    if r != [] {
      assert TrimStart(r) == r;
      assert TrimEnd(r) == r;
    }
  }

  /** `str.endswith`. */
  predicate EndsWith(s: string, suffix: string)
  {
    |suffix| <= |s| && s[|s| - |suffix|..] == suffix
  }

  /** `str.split(";")`: the fields between separators; an empty string is
      one empty field. */
  function Split(s: string): (r: seq<string>)
    ensures |r| >= 1
    ensures forall k :: 0 <= k < |r| ==> ';' !in r[k]
  {
    if s == [] then [""]
    else
      var rest := Split(s[1..]);
      if s[0] == ';' then [""] + rest
      else [[s[0]] + rest[0]] + rest[1..]
  }

  /** `";".join(fields)`. */
  function Join(fields: seq<string>): string
    requires |fields| >= 1
  {
    if |fields| == 1 then fields[0] else fields[0] + ";" + Join(fields[1..])
  }

  /** Joining the fields of a split gives back the line. */
  lemma {:induction false} JoinSplit(s: string)
    ensures Join(Split(s)) == s
  {
    if s != [] {
      JoinSplit(s[1..]);
      var rest := Split(s[1..]);
      if s[0] == ';' {
        assert Split(s) == [""] + rest;
        assert Split(s)[1..] == rest;
      } else {
        var r := Split(s);
        assert r == [[s[0]] + rest[0]] + rest[1..];
        if |rest| > 1 {
          assert r[1..] == rest[1..];
          assert Join(r) == [s[0]] + (rest[0] + ";" + Join(rest[1..]));
        }
        assert s == [s[0]] + s[1..];
      }
    }
  }

  /** A separator-free prefix extends the first field. */
  lemma {:induction false} SplitPrefix(a: string, t: string)
    requires ';' !in a
    ensures Split(a + t) == [a + Split(t)[0]] + Split(t)[1..]
  {
    if a != [] {
      SplitPrefix(a[1..], t);
      assert (a + t)[1..] == a[1..] + t;
      assert (a + t)[0] == a[0];
      assert [a[0]] + (a[1..] + Split(t)[0]) == a + Split(t)[0];
    } else {
      assert a + t == t;
      assert Split(t) == [Split(t)[0]] + Split(t)[1..];
      assert a + Split(t)[0] == Split(t)[0];
    }
  }

  /** Splitting separator-free fields joined by ';' gives back the fields. */
  lemma {:induction false} SplitJoin(fields: seq<string>)
    requires |fields| >= 1
    requires forall k :: 0 <= k < |fields| ==> ';' !in fields[k]
    ensures Split(Join(fields)) == fields
  {
    if |fields| > 1 {
      SplitJoin(fields[1..]);
      var tail := ";" + Join(fields[1..]);
      assert fields[0] + ";" + Join(fields[1..]) == fields[0] + tail;
      SplitPrefix(fields[0], tail);
      assert tail[0] == ';' && tail[1..] == Join(fields[1..]);
      assert Split(tail) == [""] + fields[1..];
      assert Split(tail)[0] == "" && Split(tail)[1..] == fields[1..];
      assert fields[0] + "" == fields[0];
      assert fields == [fields[0]] + fields[1..];
    } else {
      SplitPrefix(fields[0], "");
      assert fields[0] + "" == fields[0];
    }
  }

  // ---------------------------------------------------------------- parsing

  /** A line ending in this names the fund house of the lines after it. */
  const FundHouseSuffix: string := "Mutual Fund"
  /** Rows with fewer fields are skipped. */
  const MinFields: nat := 5

  /** One parsed line: its fields and the fund house current at that point. */
  datatype SchemeRow = SchemeRow(fields: seq<string>, fundHouse: Option<string>)

  /** The row one line emits: none for a fund-house line or a line of fewer
      than five fields, else its fields tagged with the current fund house. */
  function Emitted(line: string, current: Option<string>): seq<SchemeRow>
  {
    var s := Strip(line);
    if EndsWith(s, FundHouseSuffix) || |Split(s)| < MinFields then []
    else [SchemeRow(Split(s), current)]
  }

  /** The fund house after one line: the stripped line itself if it ends in
      "Mutual Fund", else unchanged. */
  function NextFundHouse(line: string, current: Option<string>): Option<string>
  {
    var s := Strip(line);
    if EndsWith(s, FundHouseSuffix) then Some(s) else current
  }

  /** A left-to-right pass over `lines` carrying a state: each line emits
      rows computed from the state before it, then moves the state on. */
  function Scan<L, S, R>(lines: seq<L>, st: S, emit: (L, S) -> seq<R>, next: (L, S) -> S): seq<R>
    decreases |lines|
  {
    if lines == [] then []
    else emit(lines[0], st) + Scan(lines[1..], next(lines[0], st), emit, next)
  }

  /** The state a pass leaves after `lines`. */
  function ScanState<L, S>(lines: seq<L>, st: S, next: (L, S) -> S): S
    decreases |lines|
  {
    if lines == [] then st else ScanState(lines[1..], next(lines[0], st), next)
  }

  /** A pass over `a + b` is the pass over `a`, then the pass over `b` from
      the state `a` leaves. */
  lemma {:induction false} ScanAppend<L, S, R>(a: seq<L>, b: seq<L>, st: S,
                                               emit: (L, S) -> seq<R>, next: (L, S) -> S)
    ensures Scan(a + b, st, emit, next) == Scan(a, st, emit, next) + Scan(b, ScanState(a, st, next), emit, next)
    ensures ScanState(a + b, st, next) == ScanState(b, ScanState(a, st, next), next)
    decreases |a|
  {
    if a == [] {
      assert a + b == b;
    } else {
      assert (a + b)[0] == a[0] && (a + b)[1..] == a[1..] + b;
      ScanAppend(a[1..], b, next(a[0], st), emit, next);
    }
  }

  /** What the parsing loop appends for the lines `lines`, starting with
      `current` as the fund house. */
  function Parse(lines: seq<string>, current: Option<string>): seq<SchemeRow>
  {
    Scan(lines, current, Emitted, NextFundHouse)
  }

  /** The fund house current after the lines `lines`. */
  function FundHouseAfter(lines: seq<string>, current: Option<string>): Option<string>
  {
    ScanState(lines, current, NextFundHouse)
  }

  /** Parsing lines: the first line's row, then the rest under the fund
      house it leaves. */
  lemma ParseUnfold(lines: seq<string>, current: Option<string>)
    requires lines != []
    ensures Parse(lines, current)
         == Emitted(lines[0], current) + Parse(lines[1..], NextFundHouse(lines[0], current))
    ensures FundHouseAfter(lines, current) == FundHouseAfter(lines[1..], NextFundHouse(lines[0], current))
  {
  }

  /** One line handled by the loop: a fund-house line emits nothing and
      becomes the current fund house; a short line emits nothing and keeps
      it; any other line emits its fields tagged with it. */
  lemma ParseLine(line: string, current: Option<string>)
    ensures EndsWith(Strip(line), FundHouseSuffix) ==>
      Parse([line], current) == [] && FundHouseAfter([line], current) == Some(Strip(line))
    ensures !EndsWith(Strip(line), FundHouseSuffix) && |Split(Strip(line))| < MinFields ==>
      Parse([line], current) == [] && FundHouseAfter([line], current) == current
    ensures !EndsWith(Strip(line), FundHouseSuffix) && |Split(Strip(line))| >= MinFields ==>
      Parse([line], current) == [SchemeRow(Split(Strip(line)), current)] && FundHouseAfter([line], current) == current
  {
    ParseUnfold([line], current);
    assert [line][1..] == [];
  }

  /** The fund house after `a + b` is the one `b` leaves, starting from the
      one `a` leaves. */
  lemma FundHouseAfterAppend(a: seq<string>, b: seq<string>, current: Option<string>)
    ensures FundHouseAfter(a + b, current) == FundHouseAfter(b, FundHouseAfter(a, current))
  {
    ScanAppend(a, b, current, Emitted, NextFundHouse);
  }

  /** The loop works line by line: parsing `a + b` is parsing `a`, then
      parsing `b` under the fund house `a` ends with. Rows keep input order. */
  lemma ParseAppend(a: seq<string>, b: seq<string>, current: Option<string>)
    ensures Parse(a + b, current) == Parse(a, current) + Parse(b, FundHouseAfter(a, current))
  {
    ScanAppend(a, b, current, Emitted, NextFundHouse);
  }

  /** Every emitted row has at least five fields, none containing ';', and
      is the split of some stripped input line. */
  lemma {:induction false} ParseRows(lines: seq<string>, current: Option<string>)
    ensures forall row :: row in Parse(lines, current) ==>
      && |row.fields| >= MinFields
      && (forall f :: 0 <= f < |row.fields| ==> ';' !in row.fields[f])
      && (exists line :: line in lines && row.fields == Split(Strip(line)))
    decreases |lines|
  {
    if lines != [] {
      ParseRows(lines[1..], NextFundHouse(lines[0], current));
      forall x | x in lines[1..] ensures x in lines { }
      assert lines[0] in lines;
    }
  }

  /** The lines after the header line. */
  function Body(rawLines: seq<string>): seq<string>
  {
    if |rawLines| == 0 then [] else rawLines[1..]
  }

  /** The header line is never parsed. */
  lemma HeaderIgnored(h1: string, h2: string, body: seq<string>)
    ensures Parse(Body([h1] + body), None) == Parse(Body([h2] + body), None)
  {
    assert ([h1] + body)[1..] == body == ([h2] + body)[1..];
  }

  /** The parsing loop of `_get_schemes_from_amfi`: skip the header, then
      handle each line in order. */
  method ParseSchemeLines(rawLines: seq<string>) returns (rows: seq<SchemeRow>)
    ensures rows == Parse(Body(rawLines), None)
  {
    var body := Body(rawLines);
    var current: Option<string> := None;
    rows := [];
    var i := 0;
    while i < |body|
      invariant 0 <= i <= |body|
      invariant rows + Parse(body[i..], current) == Parse(body, None)
    {
      ParseStep(body, i, current, rows);
      var line := Strip(body[i]);
      if EndsWith(line, FundHouseSuffix) {
        assert Emitted(body[i], current) == [] && NextFundHouse(body[i], current) == Some(line);
        assert rows + Emitted(body[i], current) == rows;
        current := Some(line);
        i := i + 1;
        continue;
      }
      var row := Split(line);
      if |row| < MinFields {
        assert Emitted(body[i], current) == [] && NextFundHouse(body[i], current) == current;
        assert rows + Emitted(body[i], current) == rows;
        i := i + 1;
        continue;
      }
      assert Emitted(body[i], current) == [SchemeRow(row, current)] && NextFundHouse(body[i], current) == current;
      rows := rows + [SchemeRow(row, current)];
      i := i + 1;
    }
    assert body[i..] == [];
  }

  /** One iteration of the loop: the rows so far, then line i's row, then the rest. */
  lemma ParseStep(lines: seq<string>, i: nat, current: Option<string>, rows: seq<SchemeRow>)
    requires i < |lines|
    ensures rows + Parse(lines[i..], current) ==
      (rows + Emitted(lines[i], current)) + Parse(lines[i + 1..], NextFundHouse(lines[i], current))
  {
    assert lines[i..][0] == lines[i] && lines[i..][1..] == lines[i + 1..];
  }

  // -------------------------------------------------------- the scheme table

  /** A row of the schemes frame; cells a parsed row does not reach are None. */
  datatype Scheme = Scheme(
    schemeCode: Option<string>, isinGrowth: Option<string>, isinReinv: Option<string>,
    schemeName: Option<string>, nav: Option<string>, date: Option<string>,
    fundHouse: Option<string>)

  /** The frame's seven column names. */
  const ColumnCount: nat := 7

  /** A parsed row's cells: its fields, then its fund house. */
  function Width(row: SchemeRow): nat
  {
    |row.fields| + 1
  }

  /** The k-th cell of a parsed row, None past its end. */
  function Cell(row: SchemeRow, k: nat): Option<string>
  {
    if k < |row.fields| then Some(row.fields[k])
    else if k == |row.fields| then row.fundHouse
    else None
  }

  /** The widest row. */
  function MaxWidth(rows: seq<SchemeRow>): (w: nat)
    ensures forall k :: 0 <= k < |rows| ==> Width(rows[k]) <= w
    ensures |rows| > 0 ==> exists k :: 0 <= k < |rows| && Width(rows[k]) == w
  {
    if rows == [] then 0
    else
      var w := MaxWidth(rows[1..]);
      if Width(rows[0]) >= w then Width(rows[0]) else w
  }

  /** A row of parsed cells laid out by position in the seven columns. */
  function ToScheme(row: SchemeRow): Scheme
  {
    Scheme(Cell(row, 0), Cell(row, 1), Cell(row, 2), Cell(row, 3), Cell(row, 4), Cell(row, 5), Cell(row, 6))
  }

  /** `pd.DataFrame(lines, columns=columns)`: positional, padding short rows;
      refused when the widest row does not have exactly seven cells. */
  function SchemeTable(rows: seq<SchemeRow>): (r: Result<seq<Scheme>, Error>)
    ensures r.Err? <==> |rows| > 0 && MaxWidth(rows) != ColumnCount
    ensures r.Err? ==> r.error == ColumnCountMismatch
    ensures r.Ok? ==> |r.value| == |rows| && forall k :: 0 <= k < |rows| ==> r.value[k] == ToScheme(rows[k])
  {
    if |rows| > 0 && MaxWidth(rows) != ColumnCount then Err(ColumnCountMismatch)
    else Ok(seq(|rows|, k requires 0 <= k < |rows| => ToScheme(rows[k])))
  }

  /** A six-field line (the scheme list's own format) has its fund house in
      the fund_house column; a five-field line puts it under date instead. */
  lemma SchemeColumns(row: SchemeRow)
    ensures |row.fields| == 6 ==> ToScheme(row).fundHouse == row.fundHouse && ToScheme(row).date == Some(row.fields[5])
    ensures |row.fields| == 5 ==> ToScheme(row).fundHouse == None && ToScheme(row).date == row.fundHouse
  {
  }

  // ---------------------------------------------------------------- queries

  /** `get_fund_houses`: the distinct non-missing fund houses. */
  function FundHouses(table: seq<Scheme>): (r: set<string>)
    ensures forall h :: h in r <==> exists k :: 0 <= k < |table| && table[k].fundHouse == Some(h)
  {
    set k | 0 <= k < |table| && table[k].fundHouse.Some? :: table[k].fundHouse.value
  }

  /** `get_schemes_by_fund_house`: the (scheme_code, scheme_name) of the rows
      of fund house `fundHouse`, in table order. */
  function SchemesByFundHouse(table: seq<Scheme>, fundHouse: string): (r: seq<(Option<string>, Option<string>)>)
    ensures |r| <= |table|
    ensures forall x :: x in r <==>
      exists k :: 0 <= k < |table| && table[k].fundHouse == Some(fundHouse) &&
        x == (table[k].schemeCode, table[k].schemeName)
  {
    if table == [] then []
    else
      var rest := SchemesByFundHouse(table[1..], fundHouse);
      var t := table[0];
      assert forall k :: 0 < k < |table| ==> table[k] == table[1..][k - 1];
      if t.fundHouse == Some(fundHouse) then
        var r := [(t.schemeCode, t.schemeName)] + rest;
        assert forall k :: 0 <= k < |table[1..]| ==> table[1..][k] == table[k + 1];
        r
      else
        assert forall k :: 0 <= k < |table[1..]| ==> table[1..][k] == table[k + 1];
        rest
  }

  /** The query distributes over the table, so the order of rows is kept. */
  lemma {:induction false} SchemesByFundHouseAppend(a: seq<Scheme>, b: seq<Scheme>, fundHouse: string)
    ensures SchemesByFundHouse(a + b, fundHouse) == SchemesByFundHouse(a, fundHouse) + SchemesByFundHouse(b, fundHouse)
    decreases |a|
  {
    if a == [] {
      assert a + b == b;
    } else {
      assert (a + b)[0] == a[0] && (a + b)[1..] == a[1..] + b;
      SchemesByFundHouseAppend(a[1..], b, fundHouse);
    }
  }

  /** A fund house has schemes exactly when it is one of the fund houses. */
  lemma SchemesExactlyForFundHouses(table: seq<Scheme>, fundHouse: string)
    ensures SchemesByFundHouse(table, fundHouse) != [] <==> fundHouse in FundHouses(table)
  {
    var r := SchemesByFundHouse(table, fundHouse);
    if r != [] {
      assert r[0] in r;
    }
    if fundHouse in FundHouses(table) {
      var k :| 0 <= k < |table| && table[k].fundHouse == Some(fundHouse);
      assert (table[k].schemeCode, table[k].schemeName) in r;
    }
  }

  // ------------------------------------------------------------ NAV history

  /** AMFI serves at most five years per request. */
  const NavChunkDays: int := 365 * 5

  /** The records of every chunk, concatenated in chunk order; the first
      failing request's error ends the download. A `fetch` that the endpoint
      answers with an error reports `ProviderError`, and any other `Error`
      it returns is passed on unchanged. */
  function FetchAll<R>(fetch: (string, Day, Day) -> Result<seq<R>, Error>, schemeId: string,
                       pairs: seq<(Day, Day)>): Result<seq<R>, Error>
    decreases |pairs|
  {
    if pairs == [] then Ok([])
    else
      match FetchAll(fetch, schemeId, pairs[..|pairs| - 1])
      case Err(e) => Err(e)
      case Ok(xs) =>
        var last := pairs[|pairs| - 1];
        match fetch(schemeId, last.0, last.1)
        case Err(e) => Err(e)
        case Ok(ys) => Ok(xs + ys)
  }

  /** Once a prefix of the chunks fails, the download has that outcome. */
  lemma {:induction false} FetchAllStops<R>(fetch: (string, Day, Day) -> Result<seq<R>, Error>,
                                            schemeId: string, pairs: seq<(Day, Day)>, i: nat)
    requires i <= |pairs| && FetchAll(fetch, schemeId, pairs[..i]).Err?
    ensures FetchAll(fetch, schemeId, pairs) == FetchAll(fetch, schemeId, pairs[..i])
    decreases |pairs| - i
  {
    if i < |pairs| {
      assert pairs[..|pairs| - 1][..i] == pairs[..i];
      FetchAllStops(fetch, schemeId, pairs[..|pairs| - 1], i);
    } else {
      assert pairs[..i] == pairs;
    }
  }

  /** The download succeeds exactly when every chunk's request does, and its
      records are those of the first chunks followed by those of the rest. */
  lemma {:induction false} FetchAllAppend<R>(fetch: (string, Day, Day) -> Result<seq<R>, Error>,
                                             schemeId: string, a: seq<(Day, Day)>, b: seq<(Day, Day)>)
    ensures FetchAll(fetch, schemeId, a + b).Ok? <==>
      FetchAll(fetch, schemeId, a).Ok? && FetchAll(fetch, schemeId, b).Ok?
    ensures FetchAll(fetch, schemeId, a + b).Ok? ==>
      FetchAll(fetch, schemeId, a + b).value == FetchAll(fetch, schemeId, a).value + FetchAll(fetch, schemeId, b).value
    decreases |b|
  {
    if b == [] {
      assert a + b == a;
    } else {
      var b' := b[..|b| - 1];
      var last := b[|b| - 1];
      FetchAllAppend(fetch, schemeId, a, b');
      assert (a + b)[..|a + b| - 1] == a + b';
      assert (a + b)[|a + b| - 1] == last;
      var whole, front, back := FetchAll(fetch, schemeId, a + b'), FetchAll(fetch, schemeId, a), FetchAll(fetch, schemeId, b');
      var step := fetch(schemeId, last.0, last.1);
      if whole.Ok? && step.Ok? {
        assert whole.value + step.value == front.value + (back.value + step.value);
      }
    }
  }

  /** `get_nav_history`, up to building the frame: request the five-year
      chunks of `split_into_date_pairs` in order and collect their records. */
  method GetNavHistory<R>(fetch: (string, Day, Day) -> Result<seq<R>, Error>, schemeId: string,
                          start: Day, end: Day)
    returns (r: Result<seq<R>, Error>)
    ensures r == FetchAll(fetch, schemeId, Chunks(start, end, NavChunkDays))
  {
    var dateRanges := SplitIntoDatePairs(start, end, NavChunkDays);
    var navRecords: seq<R> := [];
    for i := 0 to |dateRanges|
      invariant FetchAll(fetch, schemeId, dateRanges[..i]) == Ok(navRecords)
    {
      assert dateRanges[..i + 1][..i] == dateRanges[..i];
      var records := fetch(schemeId, dateRanges[i].0, dateRanges[i].1);
      if records.Err? {
        FetchAllStops(fetch, schemeId, dateRanges, i + 1);
        return Err(records.error);
      }
      navRecords := navRecords + records.value;
    }
    assert dateRanges[..|dateRanges|] == dateRanges;
    return Ok(navRecords);
  }
}
