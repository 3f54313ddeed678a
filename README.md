# cagrx return metrics and AMFI scheme parsing, in Dafny

This project models the computational core of cagrx, a small Python library
for mutual-fund analytics on NAV (net asset value) series:

- `src/cagrx/return_metrics.py` covers five metrics:
  - `cagr`, the compound annual growth rate between a series' first and last rows;
  - `calculate_trailing_cagr`, the CAGR over lookback windows of whole years, labelled `"{p}Y_CAGR"` or `"Max_CAGR"`;
  - `calculate_rolling_returns`, the return of every date against the value as of `date - period`, reduced to max, min and average;
  - `xirr`, a bounded Newton–Raphson solve with three distinct failure exits;
  - `calculate_sip_returns`: each contribution buys units at the first NAV on or after its date, and the holding is valued at the last NAV.
- `src/cagrx/utils.py`: `split_into_date_pairs`, which cuts a date range into windows of at most `n_days` days.
- `src/cagrx/amfi.py`, with the network replaced by values:
  - the line parser of `_get_schemes_from_amfi`, which tracks the current "... Mutual Fund" header and splits scheme lines on `;`;
  - the scheme table it builds;
  - the `get_fund_houses` and `get_schemes_by_fund_house` queries;
  - the five-year chunked download loop of `get_nav_history`.

Modelling choices:

- **Dates and series.** Dates are integer day numbers (`TimeSeries.Day`). A column of a pandas frame is a `Series = seq<(Day, real)>`, and a frame is a `map` from column name to series, so a missing column is a real branch.
- **Sorting and as-of matching.** `sort_index` / `argsort` is the insertion sort `TimeSeries.SortByDay`. Its result is ascending and has the same multiset as the input. The backward and forward as-of match (`pd.merge_asof`) is written once, as `TimeSeries.AsOf`.
- **Errors.** Python exceptions are `Err` values of `Errors.Error`, one constructor per distinct raise. Python's `None` is `Wrappers.Option`.
- **Floating point.** Exponentiation, `round(x, k)`, and the NPV and its derivative are supplied by the caller in a `Numerics.NumericOps` record. Every theorem holds for any choice of them. Where a property needs a fact about rounding (monotone, idempotent, keeps whole numbers), the lemma takes it as a precondition.
- **Calendar offsets.** `pd.DateOffset(years=p)` and the rolling `period` are caller-supplied functions on day numbers (`minusYears`, `minusPeriod`).
- **Imperative code.** The loops of the source stay loops, each proved against a specification function:
  - `TrailingCagr.TrailingLoop` against `Trailing`;
  - `Xirr.CalculateXirr` against `Newton`;
  - `DateChunks.SplitIntoDatePairs` against `Chunks`;
  - `Amfi.ParseSchemeLines` against `Parse`;
  - `Amfi.GetNavHistory` against `FetchAll`.

  The frame-reducing code (rolling and SIP returns, the queries) is functions over sequences.

Two behaviours of the code that the model keeps as written:

- `total_invested` sums every amount, including contributions dated after the last NAV (`merged['amount'].sum()`, src/cagrx/return_metrics.py:202). `SipReturns.Figures` does the same.
- The chunker's `while current_start < end_date` (src/cagrx/utils.py:15) skips the end day of a range that is a whole number of windows; see Findings.

## Model

| member | source | states |
|---|---|---|
| TimeSeries.SortByDay | src/cagrx/return_metrics.py:39 | `sort_index`: the result is ascending by date, has the same length, and is a permutation (same multiset) of the input |
| TimeSeries.Insert | src/cagrx/return_metrics.py:39 | inserting a row into an ascending series keeps it ascending, adds exactly that row to the multiset, and puts the smaller-dated of the row and the old head first |
| TimeSeries.SortedIdentity | src/cagrx/return_metrics.py:39 | sorting a series already in strictly increasing date order leaves it unchanged |
| TimeSeries.SortIsUnique | src/cagrx/return_metrics.py:39 | when no two rows share a date, every date-sorted arrangement of the rows is the one `SortByDay` gives: its order matters only for ties |
| TimeSeries.SortedPositive | src/cagrx/return_metrics.py:182-183 | sorting a series of positive values leaves every value positive |
| TimeSeries.TotalPermutation | src/cagrx/return_metrics.py:202 | two series with the same rows in any order have the same total, so sorting does not change a sum |
| TimeSeries.TotalRemove | src/cagrx/return_metrics.py:202 | removing row k from a series removes exactly its value from the total |
| TimeSeries.AsOf | src/cagrx/return_metrics.py:189-195 | the as-of match: any returned index is in range and admitted (on or before the key backward, on or after it forward); None exactly when no row is admitted; no later row is admitted backward and no earlier row forward |
| TimeSeries.AsOfNearest | src/cagrx/return_metrics.py:72 | on a sorted series the match is the nearest admitted date: the latest one on or before the key, or the earliest one on or after it |
| TimeSeries.RowsFrom | src/cagrx/return_metrics.py:55 | `df.loc[start:]` is the suffix of rows dated on or after `start`; every row before it is earlier than `start`; a non-empty suffix ends at the last row |
| Numerics.Abs | src/cagrx/return_metrics.py:140 | the absolute value is non-negative and equals x or -x |
| Numerics.SumBounds | src/cagrx/return_metrics.py:87 | elements within [lo, hi] put the sum of n of them within [n*lo, n*hi] |
| Numerics.MeanBetween | src/cagrx/return_metrics.py:87 | the mean of a non-empty sequence lies between any lower and upper bound of its elements |
| GrowthRate.Cagr | src/cagrx/return_metrics.py:14-23 | an empty series fails (no first row); otherwise succeeds exactly when the first value is positive and the last date is after the first; every other failure is the invalid-data error; a success is `round((last / first) ** (1 / years) - 1, 3)` with years = days / 365 |
| GrowthRate.CagrOfOneYearGrowth | src/cagrx/return_metrics.py:17-23 | a series whose last value is (1 + g) times its first, exactly 365 days later, has CAGR g (for a power with `x ** 1 == x` and a rounding that keeps g) |
| GrowthRate.CagrOfFrame | src/cagrx/return_metrics.py:4-23 | `cagr(df, column)`: a missing column is pandas' KeyError; otherwise the CAGR of the column as given, unsorted; on a non-empty column it succeeds exactly when the first value is positive and the last date is after the first |
| GrowthRate.CagrReadsEndpoints | src/cagrx/return_metrics.py:14-15 | two series with the same first and last rows have the same CAGR, whatever lies between them |
| TrailingCagr.NatToString | src/cagrx/return_metrics.py:51 | the decimal notation of a natural number is non-empty and all digits, with at least two digits from 10 on |
| TrailingCagr.NatToStringInjective | src/cagrx/return_metrics.py:51 | distinct naturals have distinct decimal notations |
| TrailingCagr.IntToStringSign | src/cagrx/return_metrics.py:51 | an int's notation starts with '-' exactly when it is negative |
| TrailingCagr.IntToStringInjective | src/cagrx/return_metrics.py:51 | distinct ints have distinct notations |
| TrailingCagr.LabelNotMax | src/cagrx/return_metrics.py:44-55 | no period other than -1 is labelled `Max_CAGR` |
| TrailingCagr.LabelInjective | src/cagrx/return_metrics.py:44-55 | distinct periods get distinct dictionary keys |
| TrailingCagr.MaxEntryIsWholeCagr | src/cagrx/return_metrics.py:43-45 | period -1 records the CAGR of the whole sorted series, or fails with its error |
| TrailingCagr.TrailingEntryAbsentIff | src/cagrx/return_metrics.py:47-55 | for p ≠ -1 on a non-empty series, the entry is None exactly when `last - p years` is before the first date; otherwise it is the CAGR of the rows from that start, which end at the last row and start no earlier than the window start |
| TrailingCagr.TrailingEntryPresent | src/cagrx/return_metrics.py:47-55 | on positive, strictly dated data, a window that starts within the series on or before some row other than the last gets a value |
| TrailingCagr.TrailingReport | src/cagrx/return_metrics.py:40-57 | the loop succeeds exactly when every period's entry does; it has exactly one key `Label(p)` per requested period, holding that period's entry; on failure it fails with the error of the first failing period |
| TrailingCagr.TrailingStops | src/cagrx/return_metrics.py:42-55 | once a prefix of the periods fails, the result is that failure: later periods are never evaluated |
| TrailingCagr.TrailingStep | src/cagrx/return_metrics.py:42-55 | one more period either adds its entry under its label to the prefix's dictionary or fails with that period's error |
| TrailingCagr.TrailingEntry | src/cagrx/return_metrics.py:43-55 | the loop body computes exactly that period's entry or error |
| TrailingCagr.TrailingLoop | src/cagrx/return_metrics.py:40-57 | the for loop over the periods builds exactly the dictionary `Trailing` describes, or its first error |
| TrailingCagr.CalculateTrailingCagr | src/cagrx/return_metrics.py:26-57 | a missing column is refused; then the column is sorted by date; the default `periods=None` fails as not iterable; otherwise the result is the trailing dictionary of the date-sorted column |
| TrailingCagr.MaxCagrOfSortedColumn | tests/test_cagrx.py:22-34 | on a column already in strictly increasing date order, a successful report that requests -1 holds `Max_CAGR` equal to the `cagr` of the column as given |
| RollingReturns.RollMatchesBackward | src/cagrx/return_metrics.py:69-78 | a date survives exactly when some series date lies on or before its offset date `date - period`; its past value is then the value at the latest such date; its return is `round((cur - past) / past, 3)` |
| RollingReturns.KeepPresent | src/cagrx/return_metrics.py:77 | `dropna` keeps exactly the present rows, each with its original index, in increasing index order |
| RollingReturns.RollAllSurvivors | src/cagrx/return_metrics.py:69-77 | the merged frame (one row per series row, in series order) after `dropna` holds exactly the surviving dates' rows, in date order |
| RollingReturns.SurvivorKept | src/cagrx/return_metrics.py:77 | every surviving date's row is in the frame after `dropna` |
| RollingReturns.ArgMax | src/cagrx/return_metrics.py:80 | `idxmax` gives a position holding a largest element, and every earlier position holds a strictly smaller one (first occurrence) |
| RollingReturns.ArgMin | src/cagrx/return_metrics.py:81 | `idxmin` gives a position holding a smallest element, and every earlier position holds a strictly larger one |
| RollingReturns.ExtremesInOrder | src/cagrx/return_metrics.py:78-81 | over rows in increasing index order, the idxmax row bounds every row and beats every row of smaller index; likewise for idxmin |
| RollingReturns.CalculateRollingReturns | src/cagrx/return_metrics.py:68-88 | fails exactly when no date finds a past value, and then with the no-rolling-returns error |
| RollingReturns.RollingMax | src/cagrx/return_metrics.py:78-84 | the maximum is the return of a surviving date that no surviving date exceeds and no earlier one equals; its period is `(date - period, date)` of that date |
| RollingReturns.RollingMin | src/cagrx/return_metrics.py:78-86 | the minimum is the return of a surviving date that no surviving date undercuts and no earlier one equals; its period is `(date - period, date)` of that date |
| RollingReturns.RollingAverageBetween | src/cagrx/return_metrics.py:78-88 | with a monotone, idempotent rounding, `min_returns <= avg_return <= max_returns` |
| RollingReturns.RollingAverageIsMean | src/cagrx/return_metrics.py:69-87 | `avg_return` is the mean of the returns column rounded to 3 places, and that column holds exactly one return per surviving date, in date order, each that date's `round((cur - past) / past, 3)` |
| RollingReturns.RollingPeriodsInRange | src/cagrx/return_metrics.py:84-86 | each reported period is `(date - period, date)` of a series date, and its offset date is never before the series' first date |
| Xirr.DayOffsetsShape | src/cagrx/return_metrics.py:120-127 | on date-sorted flows the offsets (each flow's date minus the first flow's date) start at 0, are non-negative and nondecreasing, and keep the distance between any two dates |
| Xirr.SortedFlows | src/cagrx/return_metrics.py:120-123 | the joint sort by date is ascending and keeps every (date, amount) pair, as a multiset: the order of equal dates is not fixed |
| Xirr.NewtonFrom | src/cagrx/return_metrics.py:132-154 | if the loop goes on through m iterations and stops at the next (or runs out), the outcome is decided by that iterate: exhausted, accepted, derivative too small, or rate out of bounds |
| Xirr.NewtonOutcome | src/cagrx/return_metrics.py:132-154 | given m, the first iteration where the loop stops: no convergence iff m == n; success iff m < n and that iterate's abs(NPV) is below the tolerance, returning its rounding to 6 places; the derivative failure iff abs(NPV) >= tolerance and abs(dNPV) < 1e-10; otherwise the range failure |
| Xirr.FirstStop | src/cagrx/return_metrics.py:132 | every run has a first iteration at which the loop stops, or it goes on through all of them |
| Xirr.NewtonSuccess | src/cagrx/return_metrics.py:140-141 | a success is the rounding of some iterate k < max_iterations whose abs(NPV) is below the tolerance, reached through iterations that all went on |
| Xirr.NewtonStable | src/cagrx/return_metrics.py:132-154 | any outcome other than exhaustion is unchanged by allowing more iterations |
| Xirr.GuessUnchecked | src/cagrx/return_metrics.py:130-141 | an initial guess that is already accepted is returned rounded, however far outside [-0.99, 10] it lies |
| Xirr.CalculateXirr | src/cagrx/return_metrics.py:111-154 | mismatched lengths are refused before too few flows; otherwise the loop's outcome is the Newton iteration with max(max_iterations, 0) steps on the date-sorted flows and their day offsets |
| SipReturns.PurchaseNavForward | src/cagrx/return_metrics.py:189-195 | a contribution finds a NAV exactly when it is not after the last NAV date, and that NAV is the one at the earliest NAV date on or after it |
| SipReturns.LateContributionsBuyNothing | src/cagrx/return_metrics.py:199-203 | contributions dated after the last NAV buy no units (the NaN units are skipped by the sum) |
| SipReturns.UnitsNonNegative | src/cagrx/return_metrics.py:199-203 | non-negative contributions buy a non-negative number of units |
| SipReturns.Figures | src/cagrx/return_metrics.py:199-227 | invested is the sum of all amounts; value is units times the last NAV; absolute return is value minus invested; the percentage is 0 unless invested > 0; the annualized return is 0 unless there are over one contribution, a positive span and positive investment, and otherwise the 365.25-day-year compounding formula; the span runs from the first contribution to the last NAV date |
| SipReturns.CalculateSipReturns | src/cagrx/return_metrics.py:176-238 | a missing 'amount' column is refused, then a missing NAV column; when the contributions also hold a column of the NAV column's name (including `column == 'amount'`), the as-of merge suffixes both copies and the unit computation fails with a KeyError on `column`; otherwise it fails exactly when the NAV series is empty; otherwise it returns the rounded figures of the date-sorted contributions against the date-sorted NAVs (2 places, units 4) |
| SipReturns.SipTotalInvested | src/cagrx/return_metrics.py:202 | the reported total invested is the rounded sum of every contribution as given, matched to a NAV or not |
| SipReturns.SipInvestedIgnoresNav | src/cagrx/return_metrics.py:202 | the total invested does not depend on the NAV series |
| SipReturns.TotalConstant | tests/test_cagrx.py:60 | a series of k equal amounts v totals k*v |
| SipReturns.SipTwelveThousand | tests/test_cagrx.py:57-67 | twelve contributions of 1000 report 12000 invested, for any rounding that keeps whole numbers |
| SipReturns.SipBreakEven | src/cagrx/return_metrics.py:212-213 | when the current value equals the total invested, the absolute return and the return percentage are 0 |
| SipReturns.SipReportedBreakEven | src/cagrx/return_metrics.py:209-238 | when the contributions carry no column of the NAV column's name and the current value equals the total invested, the reported (rounded) absolute return and return percentage are 0, for a rounding that keeps 0 |
| SipReturns.SipLossBounded | src/cagrx/return_metrics.py:199-212 | with non-negative contributions the units and value are non-negative, so the loss is at most the investment |
| DateChunks.Chunks | src/cagrx/utils.py:12-22 | the pairs are empty exactly when start is not before end; the first pair starts at start and ends at min(start + n - 1, end) |
| DateChunks.ChunksShape | src/cagrx/utils.py:15-20 | every pair lies within [start, end] and spans at most n days; each pair starts the day after the previous one ends; every pair but the last spans exactly n days |
| DateChunks.ChunksLastEnd | src/cagrx/utils.py:15-20 | the last pair ends at end, or at end - 1 when the range is exactly a whole number of windows (a single trailing day is left over) |
| DateChunks.SplitIntoDatePairs | src/cagrx/utils.py:12-22 | the while loop terminates (for n >= 1 on a non-empty range) and produces exactly `Chunks` |
| DateChunks.ChunksInclusive | src/cagrx/utils.py:15 | the intended inclusive split is empty exactly when start is after end, and otherwise ends at end |
| DateChunks.ChunksInclusiveShape | src/cagrx/utils.py:15-20 | the intended split is tiled like the written one |
| DateChunks.ChunksInclusiveExtends | src/cagrx/utils.py:15 | the intended split is the written one plus the one-day pair (end, end), exactly when the range is a whole number of windows (start == end included) |
| DateChunks.ChunksInclusiveOrdered | src/cagrx/utils.py:20 | a later pair of the intended split starts after an earlier one ends |
| DateChunks.ChunksInclusiveFrom | src/cagrx/utils.py:13 | every pair of the intended split starts on or after start |
| DateChunks.ChunksInclusiveCover | src/cagrx/utils.py:15-20 | every day of [start, end] lies in some pair of the intended split |
| DateChunks.ChunksInclusiveDisjoint | src/cagrx/utils.py:20 | no day lies in two pairs of the intended split |
| DateChunks.ChunksMissEndDay | src/cagrx/utils.py:15 | as written, when `end - start` is a multiple of n, every pair ends before the end date |
| DateChunks.WholeWindows | src/cagrx/utils.py:15-20 | `end - start` is a multiple of n exactly when it equals n times the number of pairs the loop makes |
| DateChunks.ChunksMissEndDayExample | src/cagrx/utils.py:15 | as written, (0, 0) gives no pairs and (0, 1825) with n = 1825 gives only (0, 1824); the intended split has (0, 0) and (1825, 1825) |
| Amfi.TrimStart | src/cagrx/amfi.py:88 | dropping leading whitespace leaves a suffix after only whitespace, not starting with whitespace |
| Amfi.TrimEnd | src/cagrx/amfi.py:88 | dropping trailing whitespace leaves a prefix before only whitespace, not ending with whitespace |
| Amfi.Strip | src/cagrx/amfi.py:88 | `str.strip()` is the slice of the line between whitespace-only ends, and neither starts nor ends with whitespace |
| Amfi.StripIdempotent | src/cagrx/amfi.py:88 | stripping twice is stripping once |
| Amfi.Split | src/cagrx/amfi.py:94 | `str.split(";")` yields at least one field, none containing ';' |
| Amfi.JoinSplit | src/cagrx/amfi.py:94 | joining the split fields with ';' gives back the line |
| Amfi.SplitPrefix | src/cagrx/amfi.py:94 | a ';'-free prefix becomes part of the first field |
| Amfi.SplitJoin | src/cagrx/amfi.py:94 | splitting ';'-free fields joined by ';' gives back the fields |
| Amfi.ParseLine | src/cagrx/amfi.py:90-99 | a stripped line ending in "Mutual Fund" emits nothing and becomes the current fund house; a line of fewer than 5 fields emits nothing and keeps it; any other line emits its fields tagged with it |
| Amfi.FundHouseAfterAppend | src/cagrx/amfi.py:84-92 | the fund house after a + b is the one b leaves, starting from the one a leaves |
| Amfi.ScanAppend | src/cagrx/amfi.py:87-99 | a loop that carries a state (here the current fund house) over `a + b` emits what it emits over `a`, then what it emits over `b` from the state `a` leaves, and ends in the state `b` then leaves |
| Amfi.ParseAppend | src/cagrx/amfi.py:87-99 | parsing a + b is parsing a, then b under the fund house a ends with, so rows keep input order |
| Amfi.ParseRows | src/cagrx/amfi.py:94-99 | every emitted row has at least 5 fields, none containing ';', and is the split of some stripped input line |
| Amfi.HeaderIgnored | src/cagrx/amfi.py:87 | the first raw line never affects the result |
| Amfi.ParseStep | src/cagrx/amfi.py:87-99 | one iteration appends that line's row to the rows so far and leaves the rest under its next fund house |
| Amfi.ParseSchemeLines | src/cagrx/amfi.py:84-99 | the loop, starting with no fund house, produces exactly `Parse` of the lines after the header |
| Amfi.MaxWidth | src/cagrx/amfi.py:103 | the widest row's width bounds every row's and is attained by one |
| Amfi.SchemeTable | src/cagrx/amfi.py:101-103 | building the frame fails, and then with a column-count error, exactly when there are rows and the widest does not have seven cells; otherwise row k is row k's cells laid out by position |
| Amfi.SchemeColumns | src/cagrx/amfi.py:101-103 | a six-field line has its fund house under fund_house; a five-field line puts it under date and leaves fund_house missing |
| Amfi.FundHouses | src/cagrx/amfi.py:32 | a name is a fund house exactly when some row's non-missing fund_house equals it |
| Amfi.SchemesByFundHouse | src/cagrx/amfi.py:49 | the result is exactly the (scheme_code, scheme_name) of the rows of that fund house, and no longer than the table |
| Amfi.SchemesByFundHouseAppend | src/cagrx/amfi.py:49 | the query distributes over the table, so rows keep table order |
| Amfi.SchemesExactlyForFundHouses | src/cagrx/amfi.py:26-49 | a fund house has schemes exactly when it is among `get_fund_houses` |
| Amfi.FetchAllStops | src/cagrx/amfi.py:69-71 | once a chunk's request fails, the download fails with that error |
| Amfi.FetchAllAppend | src/cagrx/amfi.py:69-71 | the download succeeds exactly when it does for the first chunks and for the rest, and then its records are theirs, concatenated in chunk order |
| Amfi.GetNavHistory | src/cagrx/amfi.py:66-73 | the loop requests exactly the five-year chunks of `split_into_date_pairs`, in order, and returns their records concatenated, or the first request's error |

## Left out

- Network and disk I/O are not modelled:
  - `_fetch_raw_nav_lines` and `_fetch_historical_nav` (HTTP requests);
  - the CSV cache in `__init__`, `_load_schemes`, `refresh_schemes` and `list_all_schemes` (which returns the cached table).

  The parser takes already-fetched lines. `get_nav_history` takes the per-chunk fetch as a function parameter.
- Reading the cached CSV back (`read_csv`) would change the cell types. Only the freshly parsed table is modelled.
- `_create_dataframe` (`to_numeric`, `to_datetime`, the returned frame) is not modelled. `Amfi.GetNavHistory` stops at the collected records.
- `print(merged)` in `calculate_sip_returns`: output only.
- Floating point is not modelled. `**`, `round`, the NPV and its derivative are abstract, so no numeric test value (≈0.123, ≈0.11, a negative XIRR) is stated.
- Division by zero and NaN/inf are not modelled:
  - rolling and SIP returns require positive values, where the source divides by a past value or a NAV;
  - a zero derivative never reaches the division, because `abs(dnpv) < 1e-10` refuses it first.
- Calendar arithmetic (`pd.DateOffset`, `strptime`/`strftime`) is not modelled. Offsets are caller-supplied functions on day numbers, and the chunker's string dates are day numbers.
- `RollingReturns.CalculateRollingReturns` requires a strictly ascending, positive series. It takes the value column directly, because the source hard-codes `df[['nav']]` and an index named `date`, relies on pre-sorted input for `merge_asof`, and does not sort itself. This also leaves out duplicate dates. `minusPeriod` is taken to be monotone, as every calendar `DateOffset` is: pandas refuses an as-of merge whose past dates are not sorted ("left keys must be sorted"), and the model has no such error.
- CalculateTrailingCagr: with repeated dates, `df.sort_index()` fixes no order among the rows sharing a date, so `iloc[0]`, `iloc[-1]` and the window slice may differ from the model's. `SortByDay` picks one order; `TimeSeries.SortIsUnique` shows that the choice matters only for such ties.
- CalculateTrailingCagr: the source returns a dict in the first-insertion order of the periods. The model returns a `map`, which has no order.
- CalculateSipReturns: with repeated dates in either frame, `sort_index()` fixes no order among equal dates, which can change the first contribution, the last NAV and the forward match. The model sorts with `SortByDay`, which is exact without ties (`TimeSeries.SortIsUnique`).
- `Xirr.SortedFlows`: `argsort` does not fix the order of flows sharing a date. The model states only the multiset and ascending dates, and `SortByDay` picks one order.
- A guess of -1 or below makes `(1 + rate) ** (day / 365)` complex or a division by zero in Python. The abstract `npv`/`dnpv` take any rate.
- `DateChunks.SplitIntoDatePairs` requires `n >= 1` for a non-empty range: with `n_days <= 0` the source loop never ends.
- `get_schemes_by_fund_house(None)` is not modelled: pandas `== None` matches no row, and the model's argument is a string.
- `src/cagrx/__init__.py` (re-exports and a `print`) and the network integration tests, which call a `get_historical_nav` that does not exist, are not part of this model.

## Findings

| source | as written | input that shows it | evidently intended | confidence | as-written member | corrected member |
|---|---|---|---|---|---|---|
| src/cagrx/utils.py:15 | `while current_start < end_date` stops before a range's last day whenever `end - start` is a whole number of `n_days` windows | start == end gives no pairs; `end - start == 1825` with `n_days = 1825` gives only (start, end - 1), so `get_nav_history` never requests the end date's NAV | the inclusive range [start, end], with `<=` | not executed | DateChunks.ChunksMissEndDay | DateChunks.ChunksInclusive |

`DateChunks.ChunksMissEndDayExample` shows both inputs concretely. For the corrected split, `DateChunks.ChunksInclusiveCover` and `DateChunks.ChunksInclusiveDisjoint` prove that every day of the range lies in exactly one pair. `DateChunks.ChunksInclusiveExtends` proves that it differs from the written split only by the one-day pair (end, end). `Amfi.GetNavHistory` keeps the code as written, since that is what the library does.
