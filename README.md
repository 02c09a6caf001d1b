# Stock dashboard indicator pipeline, in Dafny

This project models the two data handlers of the Flask stock dashboard in
`app2.py` and proves properties of them over exact real numbers.

- `data()` handles one symbol. It takes the provider's daily bars, sorts them
  by date and keeps the trailing 365 calendar days. It then adds the 30- and
  90-bar moving averages, the 14-bar RSI, MACD and its signal line, the 20-bar
  Bollinger bands and the running VWAP. It drops every row where one of ten
  fields is undefined and reports the aligned columns, together with the
  highest High, the lowest Low and the last Close.
- `compare_data()` handles several symbols. It parses a comma-separated
  symbol list and loops over it. For each symbol it keeps the last 365 bars
  by count and adds MA30, MA90 and VWAP. It drops the rows missing one of
  these and rebases every column to 100 at the first surviving close. It
  records an error entry for a symbol without data and pauses after every
  symbol that produced data.

Modules:

- `Series`: the bar, the provider's answer (`Missing` or `TimeSeries`), the
  date sort and the two one-year windows.
- `Rolling`: cumulative sums, rolling mean and standard deviation, the
  `adjust=False` EMA, max and min.
- `Columns`: typical price and VWAP.
- `RowFilter`: `dropna` as a filter under a field predicate.
- `Symbols`: `split`, `strip` and `upper`, and the symbol-list parse.
- `Indicators`: `data()`.
- `Comparison`: `compare_data()`, including the loop as the method
  `FetchAll` with a loop invariant.

Pandas' NaN is `None` of an `Option`. Dates are day numbers. The square root
inside `rolling().std()` is a parameter `sqrt`. Where a fact depends on it,
the model requires only that it is non-negative and that the root of 0 is 0
(`RootLike`). The provider is a parameter too: `data()` takes its answer for
the one symbol, and the loop takes a function from the request number to the
answer.

Where the code's behaviour is surprising, the model follows the code:

- When no row survives `dropna`, `df["Close"].iloc[-1]` (app2.py:92) and
  `df["Close"].iloc[0]` (app2.py:146) raise. The handler then fails with an
  uncaught exception; it does not return empty lists. The model says so
  with `DataRaises`, `StepRaises` and `CompareRaises`.
- A close that never moves makes every RSI 0/0, so every row is dropped
  and `data()` raises (`ConstantCloseRaises`).
- An empty "Time Series (Daily)" dictionary has no `Close` column. In
  `compare_data()` that raises too.
- `time.sleep(15)` runs after every symbol that produced data, the last one
  included.
- A first surviving close of 0 makes the rebased columns infinite or NaN.
  The model records this as a `NonFiniteEntry` holding only the dates.

## Model

| member | source | states |
|---|---|---|
| Series.SortByDateSorted | app2.py:132-133 | `sort_index` leaves the bars in date order, invents no date, and with distinct dates orders them strictly |
| Series.SortByDatePermutes | app2.py:132-133 | sorting neither loses nor invents a bar (same multiset) |
| Series.SortByDateScaled | app2.py:132-133 | sorting commutes with multiplying every price by a factor |
| Series.FirstAfter | app2.py:51 | the cut position of `last("365D")`: every bar before it is on or before the cutoff, the bar at it is after |
| Series.LastCalendarDaysKeeps | app2.py:51 | on a sorted series the calendar window is a non-empty suffix holding the last bar, keeps exactly the bars dated after last − 365 and drops the others |
| Series.LastBars | app2.py:134 | definition: `tail(365)` is the suffix of length min(n, 365) |
| Series.YearWindowAtMostYearBars | app2.py:51 | with distinct dates the calendar window holds at most 365 bars |
| Series.WindowRulesDiffer | app2.py:51 | two bars 400 days apart: the calendar rule keeps one, the bar-count rule keeps both |
| Rolling.CumSumRecurrence | app2.py:71-72 | `cumsum` starts at the first value and adds each next value to the previous total |
| Rolling.RollingMean | app2.py:53-54 | definition: the w-bar mean is undefined before index w − 1, and from there on it is the mean of the last w values |
| Rolling.RollingMeanConstant | app2.py:53-54 | on a constant column every defined rolling mean is that constant |
| Rolling.RollingMeanBounds | app2.py:53-54 | every defined rolling mean lies within the bounds of the column |
| Rolling.RollingStd | app2.py:67-68 | definition: the rolling standard deviation is undefined before index w − 1, and from there on it is the root of the sample variance of the last w values |
| Rolling.RollingStdNonnegative | app2.py:67-68 | with a non-negative root, every defined standard deviation is non-negative |
| Rolling.RollingStdConstant | app2.py:67-68 | on a constant column the standard deviation is 0 |
| Rolling.Ema | app2.py:61-62 | the `adjust=False` EMA starts at the first value, and each later value is α·x[t] + (1 − α)·EMA[t−1] |
| Rolling.Alpha | app2.py:61-62 | the smoothing factor 2/(span + 1) lies in (0, 1] |
| Rolling.EmaConstant | app2.py:61-64 | on a constant column the EMA is that constant everywhere |
| Rolling.EmaWithinBounds | app2.py:61-64 | with α in [0, 1], every EMA value lies within the bounds of the values seen so far |
| Rolling.MaxOf | app2.py:90 | `max()` is an element of the column and at least every element |
| Rolling.MinOf | app2.py:91 | `min()` is an element of the column and at most every element |
| Rolling.Ratio | app2.py:73 | a quotient is undefined exactly for a zero divisor, and otherwise times the divisor gives the dividend |
| Columns.Vwap | app2.py:70-73 | definition: VWAP[i] is the cumulative turnover over the cumulative volume up to bar i |
| Columns.CumulativeColumns | app2.py:71-72 | the cumulative columns at bar i are the totals of TP·V and V over bars 0..i |
| Columns.VwapDefined | app2.py:70-73 | with positive volumes the VWAP is defined on every bar |
| Columns.VwapConstant | app2.py:70-73 | with a constant typical price t every defined VWAP is t |
| Columns.VwapBetweenExtremes | app2.py:70-73 | with non-negative volumes every defined VWAP lies between the smallest and the largest typical price so far |
| Columns.VwapScaled | app2.py:70-73 | scaling every price by k keeps definedness and scales every defined VWAP by k |
| Columns.RisingVwapBelowTypical | app2.py:70-73 | with a strictly rising typical price and positive volumes, the VWAP is defined and strictly below the typical price on every bar after the first |
| RowFilter.DropUndefinedSurvivors | app2.py:75 | `dropna` keeps the rows at ascending original positions, and a position survives exactly when its row has every listed field defined |
| RowFilter.DropUndefinedNone | app2.py:75 | when no row has every field defined, nothing survives |
| RowFilter.DropUndefinedSuffix | app2.py:75 | when the rows with every field defined are exactly those from a position on, the drop keeps exactly that suffix |
| RowFilter.DropUndefinedKeepsOrder | app2.py:144 | rows whose dates strictly increase still do so after `dropna` |
| RowFilter.DropUndefinedMap | app2.py:144 | `dropna` commutes with a row transformation that keeps definedness |
| Indicators.GainsAndLosses | app2.py:55-57 | gains and losses are non-negative, at most one is non-zero, both are 0 on the first bar, and their difference is the day-over-day change |
| Indicators.RsiValue | app2.py:58-59 | the RSI is undefined exactly when gain and loss are both 0; otherwise it lies in [0, 100] and equals 100 exactly when the loss is 0 |
| Indicators.RsiInRange | app2.py:58-59 | with a positive loss, 100 − 100/(1 + gain/loss) lies in [0, 100) |
| Indicators.RsiIsGainShare | app2.py:58-59 | every defined RSI is 100·gain/(gain + loss) |
| Indicators.RsiDefinedness | app2.py:55-59 | the RSI is undefined before index 13; from there it is undefined exactly when both 14-bar averages are 0, and when defined it lies in [0, 100] and equals 100 exactly when the average loss is 0 |
| Indicators.RsiOfConstant | app2.py:55-59 | a constant close has an undefined RSI on every bar |
| Indicators.RisingRsi | app2.py:55-59 | on a strictly rising close the RSI is exactly 100 on every bar after the 14-bar warm-up |
| Indicators.MacdStart | app2.py:61-64 | the MACD and its signal start at 0, and the signal follows the span-9 `adjust=False` recurrence over the MACD |
| Indicators.MacdOfConstant | app2.py:61-64 | a constant close gives a MACD and a signal of 0 everywhere |
| Indicators.MacdBounded | app2.py:61-63 | every MACD value lies within ±(range of the closes so far) |
| Indicators.EmaLag | app2.py:61-62 | on a strictly rising close, from the second bar on, the 26-span EMA is strictly below the 12-span EMA, which is strictly below the close |
| Indicators.RisingMacdPositive | app2.py:61-63 | on a strictly rising close the MACD is positive from the second bar on |
| Indicators.BollingerOrder | app2.py:66-68 | the bands are defined exactly from index 19, and there lower ≤ middle ≤ upper |
| Indicators.BollingerOfConstant | app2.py:66-68 | on a constant close both bands and the middle band equal the close |
| Indicators.MovingAveragesOfConstant | app2.py:53-54 | on a constant close MA30 and MA90 equal the close once defined |
| Indicators.RisingMaBelowClose | app2.py:53-54 | on a strictly rising close, a rolling mean over w ≥ 2 bars is strictly below the close wherever it is defined |
| Indicators.RisingLongBelowShort | app2.py:53-54 | on a strictly rising close, MA90 is strictly below MA30 wherever MA90 is defined |
| Indicators.IndicatorRowSurvives | app2.py:75 | a row passes the ten-field `dropna` exactly when its index is at least 89 and its RSI and VWAP are defined |
| Indicators.PositiveVolumeSurvives | app2.py:75 | with positive volumes a row passes exactly when its index is at least 89 and its RSI is defined |
| Indicators.Surviving | app2.py:75 | every surviving row has all ten fields defined |
| Indicators.SurvivingPositions | app2.py:75 | the surviving rows are the window's rows at ascending positions, each at least 89; a position survives exactly when its RSI and VWAP are defined |
| Indicators.Data | app2.py:46-92 | the error answer comes exactly for missing or empty data, with the source's message; the handler raises exactly when no row survives |
| Indicators.ReportAligned | app2.py:77-92 | the handler's report satisfies `ReportOf` for the surviving rows: all eleven lists have one entry per surviving row, and the k-th entry of each list is that column's value in the k-th row; `high`, `low` and `last_close` are the largest High, the smallest Low and the last Close over the surviving rows, and the extremes are attained |
| Indicators.MakeReportShape | app2.py:77-92 | the report built from any fully defined rows satisfies `ReportOf` for them: each of the eleven lists holds the rows' values of its column in row order, and the three scalars are the attained maximum High, minimum Low and last Close |
| Indicators.ShortHistoryRaises | app2.py:75-92 | fewer than 90 bars in the year window leave no row, and the handler raises |
| Indicators.RisingRowsSurvive | app2.py:53-75 | with a strictly rising close and positive volumes, a row has every `dropna` column defined exactly when it is at position 89 or later |
| Indicators.RisingWindowSurvivors | app2.py:75 | on such a window of at least 90 bars the surviving rows are exactly those from position 89 on, and of exactly 90 bars only the last row survives |
| Indicators.RisingYearWindowSurvivors | app2.py:51-75 | with a strictly rising close and positive volumes over a year window of at least 90 bars, 89 fewer rows survive than the window holds, and with exactly 90 bars only the window's last row survives |
| Indicators.RisingYearWindowReports | app2.py:47-93 | under the same conditions the handler returns a report rather than raising |
| Indicators.ConstantCloseRaises | app2.py:55-92 | a close that never moves makes the handler raise |
| Indicators.YearWindowDates | app2.py:51 | with distinct dates the year window strictly ascends, and every bar is dated after the latest date − 365 |
| Indicators.SurvivingDatesAscend | app2.py:51-75 | with distinct dates the surviving rows strictly ascend by date and lie in the trailing 365 days |
| Indicators.ReportDatesAscend | app2.py:79 | with distinct dates the reported dates strictly ascend |
| Indicators.ReportDatesRecent | app2.py:79 | with distinct dates every reported date lies after the latest date − 365 |
| Symbols.JoinSplit | app2.py:98 | joining the pieces of `split(",")` with commas gives back the argument |
| Symbols.SplitJoin | app2.py:98 | splitting a join of comma-free pieces gives back the pieces |
| Symbols.SplitCount | app2.py:98 | there is one more piece than there are commas |
| Symbols.StripShape | app2.py:98 | `strip()` is the part between a whitespace prefix and a whitespace suffix, and starts and ends with a non-space |
| Symbols.StripEmpty | app2.py:98 | a piece strips to "" exactly when it is all whitespace |
| Symbols.StripIdempotent | app2.py:98 | stripping twice is stripping once |
| Symbols.UpperProperties | app2.py:98 | `upper()` leaves no lower-case ASCII letter, keeps every other character and is idempotent |
| Symbols.ParseSymbolsOrder | app2.py:98 | the k-th symbol is the stripped, upper-cased k-th non-blank piece, in input order, and a piece is skipped exactly when it is blank |
| Symbols.ParseSymbolsClean | app2.py:98 | no parsed symbol is empty, holds a comma, or starts or ends with whitespace |
| Symbols.JoinOnlySeparators | app2.py:98 | a join of comma-free pieces is all commas and whitespace exactly when every piece is blank |
| Symbols.ParseSymbolsEmpty | app2.py:98-100 | the parsed list is empty exactly when the argument holds nothing but commas and whitespace |
| Comparison.LastYear | app2.py:133-134 | the comparison window holds at most 365 bars |
| Comparison.Kept | app2.py:144 | at most 365 rows survive, each with MA30, MA90 and VWAP defined |
| Comparison.ComparisonRowSurvives | app2.py:137-144 | a row passes the four-field `dropna` exactly when its position is at least 89 and its VWAP is defined; with positive volumes exactly when its position is at least 89 |
| Comparison.KeptPositions | app2.py:144 | the surviving rows are the window's rows at ascending positions, each at least 89, and a position survives exactly when its VWAP is defined |
| Comparison.ShortHistoryStepRaises | app2.py:134-146 | fewer than 90 bars in the window leave no row, so the step raises at `iloc[0]` |
| Comparison.SymbolStep | app2.py:117-157 | missing data gives exactly the "No data found for" entry, an error entry comes only from missing data, and the step raises exactly when no row survives |
| Comparison.EntryOf | app2.py:146-157 | a non-empty kept frame never gives an error entry, and gives non-finite values exactly when its first close is 0 |
| Comparison.SeriesEntryOf | app2.py:144-157 | a series entry is the kept rows rebased to the first kept close |
| Comparison.RebasedShape | app2.py:146-157 | the rebased dates are the kept dates in order, the first rebased close is exactly 100, and each rebased close times the base is 100 times the original close |
| Comparison.RebasedIndicators | app2.py:152-157 | each rebased MA30, MA90 and VWAP value times the first close is 100 times the original value |
| Comparison.KeptDatesAscend | app2.py:133-152 | with distinct dates the kept rows strictly ascend by date |
| Comparison.LastYearScaled | app2.py:133-134 | the window commutes with scaling every price |
| Comparison.ComparisonRowsScaled | app2.py:137-142 | scaling every price by k scales MA30, MA90 and VWAP by k in every row |
| Comparison.KeptScaled | app2.py:144 | scaling the prices scales the kept rows, with the same rows kept |
| Comparison.SymbolStepScaleInvariant | app2.py:133-157 | multiplying every price by the same non-zero factor leaves the symbol's step unchanged |
| Comparison.Steps | app2.py:105-157 | definition: the n-th request's step is the loop body on the n-th symbol and the provider's n-th answer |
| Comparison.FetchAll | app2.py:103-159 | the loop leaves exactly the state `Run` describes after all symbols, or stops when a step raises |
| Comparison.CompareData | app2.py:97-161 | the handler answers the top-level error when no symbol parses, and otherwise the loop's results |
| Comparison.RunNext | app2.py:117-159 | definition: each pass stores the symbol's entry and adds a pause unless it stored an error entry |
| Comparison.RaisedStays | app2.py:114-159 | once a step has raised, the request stays failed |
| Comparison.RunRaisesIff | app2.py:103-159 | the request fails exactly when some symbol's step raises |
| Comparison.RunKeys | app2.py:103-151 | the result dictionary has a key exactly for each requested symbol |
| Comparison.RunLastOccurrence | app2.py:117-151 | each symbol's entry is the one from its last request, and other symbols' entries do not affect it |
| Comparison.RunSleeps | app2.py:117-159 | the number of pauses is the number of symbols minus the number of error entries |
| Comparison.NoSymbols | app2.py:97-101 | the handler answers "No valid symbols provided." exactly when the `symbols` argument is missing or holds nothing but commas and whitespace |

## Left out

- Flask routing, templates, `request.args` parsing and JSON serialisation are not modelled. The handlers take the query argument as an `Option<string>` and return a datatype. Key order in the JSON answer is not modelled.
- The HTTP request, `response.json()`, the API key and pandas' `from_dict`, `to_datetime` and `astype` parsing are not modelled. The provider's answer is an input: `Missing` or `TimeSeries(bars)`.
- `time.sleep(15)` is only counted.
- Floating point is modelled as exact `real`, without rounding. NaN is `None`. The model treats as NaN the 0/0 of an RSI with no movement, the VWAP before any volume, and the rebasing by a zero close; the last of these becomes `NonFiniteEntry`, whose infinite and NaN columns are not kept.
- The square root inside `rolling().std()` is numpy's. It is a parameter, so the band values are stated up to it.
- `strftime` is not modelled. Dates are integer day numbers.
- Symbols.Upper / Symbols.UpperProperties: only ASCII letters are upper-cased. Python's full Unicode case mapping is not modelled.
- Indicators.RsiValue: requires non-negative gain and loss. The averages of `where(delta > 0, 0)` always are, so the negative branch of the float formula is unreachable here.
- Indicators.IndicatorRows: Close, Volume, MACD and MACD_Signal come from defined bar values and are always defined. The `dropna` checks on them are therefore not modelled.
- Comparison.ComparisonRows: likewise Close is always defined, so `ComparisonPolicy` checks only MA30, MA90 and VWAP.
- Rolling.Ratio: every zero divisor gives NaN (`None`). In pandas a non-zero value over 0 is ±inf, and `dropna` keeps such a row. That case needs the cumulative volume to return to 0 after non-zero volumes, so it needs negative volumes. The provider's volumes are non-negative; the model accepts any volumes but does not model ±inf.
- Columns.RisingVwapBelowTypical: the VWAP lag is stated against the typical price (High + Low + Close) / 3, which the VWAP averages, and not against the close. High and Low are free inputs, so a rising close alone does not order the VWAP and the close.
- Comparison.Steps: the n-th request's answer comes from `provider(n)`. A provider whose answers depend on time or on earlier requests is not modelled beyond that.
- `Open` is in the bar but no indicator uses it. `Adj Close` is not modelled, because neither handler reads it.
