/** The multi-symbol handler `compare_data()`: for each requested symbol, the
    last 365 bars, two moving averages and the VWAP, the rows on which all
    are defined, and every column rebased to 100 at the first such row. */
module Comparison {
  import opened Series
  import opened Rolling
  import opened Columns
  import opened RowFilter
  import opened Symbols

  /** One row of a symbol's frame after the columns have been added. */
  datatype ComparisonRow = ComparisonRow(
    day: int, close: real, ma30: Option<real>, ma90: Option<real>, vwap: Option<real>)

  /** The `dropna` subset of `compare_data()`: Close, 30d_MA, 90d_MA, VWAP.
      Close comes from a defined bar value, so only the other three are checked. */
  predicate ComparisonPolicy(row: ComparisonRow) {
    row.ma30.Some? && row.ma90.Some? && row.vwap.Some?
  }

  /** The frame of `compare_data()` after its columns are added: each bar with
      its two moving averages and its VWAP. */
  function ComparisonRows(w: seq<Bar>): (rows: seq<ComparisonRow>)
    ensures |rows| == |w|
    ensures forall i :: 0 <= i < |w| ==> rows[i].day == w[i].day && rows[i].close == w[i].close
  {
    var c := Closes(w);
    Assemble(w, RollingMean(c, ShortWindow), RollingMean(c, LongWindow), Vwap(w))
  }

  /** The bars side by side with three aligned columns. */
  function Assemble(w: seq<Bar>, ma30: seq<Option<real>>, ma90: seq<Option<real>>, vwap: seq<Option<real>>): (rows: seq<ComparisonRow>)
    requires |ma30| == |ma90| == |vwap| == |w|
    ensures |rows| == |w|
    ensures forall i :: 0 <= i < |w| ==> rows[i] == ComparisonRow(w[i].day, w[i].close, ma30[i], ma90[i], vwap[i])
  {
    seq(|w|, i requires 0 <= i < |w| => ComparisonRow(w[i].day, w[i].close, ma30[i], ma90[i], vwap[i]))
  }

  /** The provider's bars in date order, cut to the last 365 of them. */
  function LastYear(bars: seq<Bar>): (w: seq<Bar>)
    ensures |w| <= YearBars
  {
    LastBars(SortByDate(bars), YearBars)
  }

  /** The rows left after `dropna`. */
  function Kept(bars: seq<Bar>): (rows: seq<ComparisonRow>)
    ensures |rows| <= YearBars
    ensures forall k :: 0 <= k < |rows| ==> ComparisonPolicy(rows[k])
  {
    DropUndefined(ComparisonRows(LastYear(bars)), ComparisonPolicy)
  }

  /** A row passes the four-field `dropna` exactly when it is at position 89
      or later (the 90-bar average is the last column to warm up) and its VWAP
      is defined; with positive volumes only the position decides. */
  lemma ComparisonRowSurvives(w: seq<Bar>, i: nat)
    requires i < |w|
    ensures ComparisonPolicy(ComparisonRows(w)[i]) <==> i >= LongWindow - 1 && Vwap(w)[i].Some?
    ensures (forall j :: 0 <= j < |w| ==> 0.0 < w[j].volume) ==>
      (ComparisonPolicy(ComparisonRows(w)[i]) <==> i >= LongWindow - 1)
  {
    if forall j :: 0 <= j < |w| ==> 0.0 < w[j].volume {
      VwapDefined(w);
    }
  }

  /** The rows that survive are the window's rows at ascending positions,
      each at least 89; a position survives exactly when its VWAP is defined. */
  lemma KeptPositions(w: seq<Bar>)
    ensures var rows := ComparisonRows(w);
      var kept, ix := DropUndefined(rows, ComparisonPolicy), SurvivingIndices(rows, ComparisonPolicy);
      && |kept| == |ix|
      && StrictlyAscending(ix)
      && (forall k :: 0 <= k < |ix| ==> ix[k] < |w| && kept[k] == rows[ix[k]])
      && (forall k :: 0 <= k < |ix| ==> ix[k] >= LongWindow - 1)
      && (forall i :: 0 <= i < |w| ==> (i in ix <==> i >= LongWindow - 1 && Vwap(w)[i].Some?))
  {
    var rows := ComparisonRows(w);
    DropUndefinedSurvivors(rows, ComparisonPolicy);
    forall i | 0 <= i < |w| ensures ComparisonPolicy(rows[i]) <==> i >= LongWindow - 1 && Vwap(w)[i].Some? {
      ComparisonRowSurvives(w, i);
    }
  }

  /** `x / base * 100`. */
  function Normalized(x: real, base: real): real
    requires base != 0.0
  {
    x / base * 100.0
  }

  /** What the handler stores under one symbol: the error entry, the rebased
      series, or (when the first close is 0) columns of infinities and NaNs,
      of which only the dates are modelled. */
  datatype Entry =
    | ErrorEntry(message: string)
    | SeriesEntry(dates: seq<int>, close: seq<real>, ma30: seq<real>, ma90: seq<real>, vwap: seq<real>)
    | NonFiniteEntry(dates: seq<int>)

  /** One pass of the loop body: an entry to store, or an uncaught exception. */
  datatype Step = Recorded(entry: Entry) | StepRaises

  function Dates(rows: seq<ComparisonRow>): (d: seq<int>)
    ensures |d| == |rows|
  {
    seq(|rows|, k requires 0 <= k < |rows| => rows[k].day)
  }

  /** Every column divided by the first close and multiplied by 100. */
  function Rebased(rows: seq<ComparisonRow>, base: real): (e: Entry)
    requires base != 0.0
    requires forall k :: 0 <= k < |rows| ==> ComparisonPolicy(rows[k])
    ensures e.SeriesEntry? && e.dates == Dates(rows)
    ensures |e.close| == |e.ma30| == |e.ma90| == |e.vwap| == |rows|
  {
    SeriesEntry(Dates(rows),
      seq(|rows|, k requires 0 <= k < |rows| => Normalized(rows[k].close, base)),
      seq(|rows|, k requires 0 <= k < |rows| && ComparisonPolicy(rows[k]) => Normalized(rows[k].ma30.value, base)),
      seq(|rows|, k requires 0 <= k < |rows| && ComparisonPolicy(rows[k]) => Normalized(rows[k].ma90.value, base)),
      seq(|rows|, k requires 0 <= k < |rows| && ComparisonPolicy(rows[k]) => Normalized(rows[k].vwap.value, base)))
  }

  /** The loop body for one symbol, given the provider's answer. An empty
      time series has no Close column (a KeyError), and an empty frame after
      `dropna` has no first close (an IndexError). */
  function SymbolStep(symbol: string, payload: Payload): (s: Step)
    ensures payload.Missing? ==> s == Recorded(ErrorEntry("No data found for " + symbol))
    ensures s.Recorded? && s.entry.ErrorEntry? ==> payload.Missing?
    ensures s.StepRaises? <==> payload.TimeSeries? && |Kept(payload.bars)| == 0
  {
    match payload
    case Missing => Recorded(ErrorEntry("No data found for " + symbol))
    case TimeSeries(bars) =>
      if |bars| == 0 then StepRaises
      else
        var rows := Kept(bars);
        if |rows| == 0 then StepRaises else Recorded(EntryOf(rows))
  }

  /** The entry stored for a non-empty frame after `dropna`: the columns
      rebased to its first close, or non-finite columns when that close is 0. */
  function EntryOf(rows: seq<ComparisonRow>): (e: Entry)
    requires |rows| > 0
    requires forall k :: 0 <= k < |rows| ==> ComparisonPolicy(rows[k])
    ensures !e.ErrorEntry?
    ensures e.NonFiniteEntry? <==> rows[0].close == 0.0
  {
    if rows[0].close == 0.0 then NonFiniteEntry(Dates(rows)) else Rebased(rows, rows[0].close)
  }

  /** Fewer than 90 bars leave no row, so `iloc[0]` raises, and with it the
      whole request. */
  lemma ShortHistoryStepRaises(symbol: string, bars: seq<Bar>)
    requires |LastYear(bars)| < LongWindow
    ensures SymbolStep(symbol, TimeSeries(bars)) == StepRaises
  {
    var w := LastYear(bars);
    forall i | 0 <= i < |w| ensures !ComparisonPolicy(ComparisonRows(w)[i]) {
      ComparisonRowSurvives(w, i);
    }
    DropUndefinedNone(ComparisonRows(w), ComparisonPolicy);
  }

  // ---------------------------------------------------------------------
  // The loop over the symbols

  /** The results dictionary and the number of 15-second pauses taken. */
  datatype Progress = Progress(results: map<string, Entry>, sleeps: nat)

  /** The step of each requested symbol, the n-th answered by `provider(n)`. */
  function Steps(symbols: seq<string>, provider: nat -> Payload): (steps: seq<Step>)
    ensures |steps| == |symbols|
    ensures forall j :: 0 <= j < |symbols| ==> steps[j] == SymbolStep(symbols[j], provider(j))
  {
    seq(|symbols|, j requires 0 <= j < |symbols| => SymbolStep(symbols[j], provider(j)))
  }

  /** The state after the loop has handled the first `n` symbols with the
      given steps; None once a step has raised. */
  function Run(symbols: seq<string>, steps: seq<Step>, n: nat): Option<Progress>
    requires |steps| == |symbols| && n <= |symbols|
  {
    if n == 0 then Some(Progress(map[], 0))
    else
      var prior := Run(symbols, steps, n - 1);
      if prior.None? then None
      else
        match steps[n - 1]
        case StepRaises => None
        case Recorded(e) =>
          Some(Progress(prior.value.results[symbols[n - 1] := e],
                        prior.value.sleeps + if e.ErrorEntry? then 0 else 1))
  }

  datatype Outcome =
    | CompareError(message: string)
    | CompareResults(results: map<string, Entry>, sleeps: nat)
    | CompareRaises

  /** `request.args.get("symbols", "")`. */
  function SymbolsArgument(arg: Option<string>): string {
    if arg.Some? then arg.value else ""
  }

  /** What the handler answers. */
  function Compare(arg: Option<string>, provider: nat -> Payload): Outcome {
    var symbols := ParseSymbols(SymbolsArgument(arg));
    if |symbols| == 0 then CompareError("No valid symbols provided.")
    else
      var run := Run(symbols, Steps(symbols, provider), |symbols|);
      if run.None? then CompareRaises else CompareResults(run.value.results, run.value.sleeps)
  }

  /** `compare_data()`: an error when no symbol survives parsing, otherwise
      the loop over the symbols. */
  method CompareData(arg: Option<string>, provider: nat -> Payload) returns (out: Outcome)
    ensures out == Compare(arg, provider)
  {
    var symbols := ParseSymbols(SymbolsArgument(arg));
    if |symbols| == 0 {
      return CompareError("No valid symbols provided.");
    }
    var run := FetchAll(symbols, provider);
    if run.None? {
      return CompareRaises;
    }
    return CompareResults(run.value.results, run.value.sleeps);
  }

  /** The loop of `compare_data()`: one request per symbol, in order, the n-th
      answered by `provider(n)`; the result dictionary is updated as it goes,
      a symbol without data is recorded and skipped, and a pause follows
      every symbol that produced data. None when a step raises. */
  method FetchAll(symbols: seq<string>, provider: nat -> Payload) returns (run: Option<Progress>)
    ensures run == Run(symbols, Steps(symbols, provider), |symbols|)
  {
    ghost var steps := Steps(symbols, provider);
    var results: map<string, Entry> := map[];
    var sleeps: nat := 0;
    var i := 0;
    while i < |symbols|
      invariant 0 <= i <= |symbols|
      invariant Run(symbols, steps, i) == Some(Progress(results, sleeps))
    {
      var step := SymbolStep(symbols[i], provider(i));
      assert step == steps[i];
      RunNext(symbols, steps, i);
      if step.StepRaises? {
        RaisedStays(symbols, steps, i + 1, |symbols|);
        return None;
      }
      results := results[symbols[i] := step.entry];
      if step.entry.ErrorEntry? {
        i := i + 1;
        continue;
      }
      sleeps := sleeps + 1;
      i := i + 1;
    }
    return Some(Progress(results, sleeps));
  }

  /** One more pass of the loop. */
  lemma RunNext(symbols: seq<string>, steps: seq<Step>, i: nat)
    requires |steps| == |symbols| && i < |symbols| && Run(symbols, steps, i).Some?
    ensures var prior := Run(symbols, steps, i).value;
      Run(symbols, steps, i + 1) ==
        if steps[i].StepRaises? then None
        else Some(Progress(prior.results[symbols[i] := steps[i].entry],
                           prior.sleeps + if steps[i].entry.ErrorEntry? then 0 else 1))
  {
  }

  /** Once a step has raised, the whole request has. */
  lemma {:induction false} RaisedStays(symbols: seq<string>, steps: seq<Step>, m: nat, n: nat)
    requires |steps| == |symbols| && m <= n <= |symbols| && Run(symbols, steps, m).None?
    ensures Run(symbols, steps, n).None?
  {
    if m < n {
      RaisedStays(symbols, steps, m, n - 1);
    }
  }

  // ---------------------------------------------------------------------
  // Properties of the loop

  /** The request fails as a whole exactly when some symbol's step raises. */
  lemma {:induction false} RunRaisesIff(symbols: seq<string>, steps: seq<Step>, n: nat)
    requires |steps| == |symbols| && n <= |symbols|
    ensures Run(symbols, steps, n).None? <==> exists j :: 0 <= j < n && steps[j].StepRaises?
  {
    if n > 0 {
      RunRaisesIff(symbols, steps, n - 1);
    }
  }

  /** The dictionary has one key per distinct requested symbol. */
  lemma {:induction false} RunKeys(symbols: seq<string>, steps: seq<Step>, n: nat)
    requires |steps| == |symbols| && n <= |symbols| && Run(symbols, steps, n).Some?
    ensures forall s :: s in Run(symbols, steps, n).value.results <==> exists j :: 0 <= j < n && symbols[j] == s
  {
    if n > 0 {
      RunKeys(symbols, steps, n - 1);
    }
  }

  /** A symbol requested more than once keeps the entry of its last request. */
  lemma {:induction false} RunLastOccurrence(symbols: seq<string>, steps: seq<Step>, n: nat, j: nat)
    requires |steps| == |symbols| && n <= |symbols| && Run(symbols, steps, n).Some?
    requires j < n && forall l :: j < l < n ==> symbols[l] != symbols[j]
    ensures steps[j].Recorded?
    ensures symbols[j] in Run(symbols, steps, n).value.results
    ensures Run(symbols, steps, n).value.results[symbols[j]] == steps[j].entry
  {
    if j < n - 1 {
      RunLastOccurrence(symbols, steps, n - 1, j);
    }
  }

  /** How many of the first n steps stored an error entry. */
  function ErrorCount(steps: seq<Step>, n: nat): (c: nat)
    requires n <= |steps|
    ensures c <= n
  {
    if n == 0 then 0
    else ErrorCount(steps, n - 1) + if steps[n - 1].Recorded? && steps[n - 1].entry.ErrorEntry? then 1 else 0
  }

  /** The loop pauses once for every symbol that did not store an error entry,
      the last one included. */
  lemma {:induction false} RunSleeps(symbols: seq<string>, steps: seq<Step>, n: nat)
    requires |steps| == |symbols| && n <= |symbols| && Run(symbols, steps, n).Some?
    ensures Run(symbols, steps, n).value.sleeps == n - ErrorCount(steps, n)
  {
    if n > 0 {
      RunSleeps(symbols, steps, n - 1);
    }
  }

  /** The handler answers "No valid symbols provided." exactly when the
      `symbols` argument is missing or holds nothing but commas and
      whitespace. */
  lemma NoSymbols(arg: Option<string>, provider: nat -> Payload)
    ensures Compare(arg, provider).CompareError? <==> OnlySeparators(SymbolsArgument(arg), ',')
    ensures Compare(arg, provider).CompareError? ==> Compare(arg, provider).message == "No valid symbols provided."
  {
    ParseSymbolsEmpty(SymbolsArgument(arg));
  }

  // ---------------------------------------------------------------------
  // Properties of one symbol's series

  /** A symbol's series entry is its kept rows rebased to the first close,
      and holds at most 365 rows. */
  lemma SeriesEntryOf(symbol: string, bars: seq<Bar>)
    requires SymbolStep(symbol, TimeSeries(bars)).Recorded?
    requires SymbolStep(symbol, TimeSeries(bars)).entry.SeriesEntry?
    ensures 0 < |Kept(bars)| <= YearBars && Kept(bars)[0].close != 0.0
    ensures SymbolStep(symbol, TimeSeries(bars)).entry == Rebased(Kept(bars), Kept(bars)[0].close)
  {
  }

  /** A rebased series has one value per date, the rebased close starts at
      100, and every value is 100 times the original relative to the first
      close. */
  lemma RebasedShape(rows: seq<ComparisonRow>)
    requires |rows| > 0 && rows[0].close != 0.0
    requires forall k :: 0 <= k < |rows| ==> ComparisonPolicy(rows[k])
    ensures |Rebased(rows, rows[0].close).dates| == |rows|
    ensures Rebased(rows, rows[0].close).close[0] == 100.0
    ensures forall k :: 0 <= k < |rows| ==> Rebased(rows, rows[0].close).dates[k] == rows[k].day
    ensures forall k :: 0 <= k < |rows| ==>
      Rebased(rows, rows[0].close).close[k] * rows[0].close == 100.0 * rows[k].close
  {
    var base := rows[0].close;
    var e := Rebased(rows, base);
    forall k | 0 <= k < |rows|
      ensures e.close[k] * base == 100.0 * rows[k].close
    {
      RebasedAt(rows, base, k);
    }
    NormalizedBase(base);
  }

  /** The three indicator columns are rebased on the same first close. */
  lemma RebasedIndicators(rows: seq<ComparisonRow>)
    requires |rows| > 0 && rows[0].close != 0.0
    requires forall k :: 0 <= k < |rows| ==> ComparisonPolicy(rows[k])
    ensures forall k :: 0 <= k < |rows| ==>
      Rebased(rows, rows[0].close).ma30[k] * rows[0].close == 100.0 * rows[k].ma30.value
    ensures forall k :: 0 <= k < |rows| ==>
      Rebased(rows, rows[0].close).ma90[k] * rows[0].close == 100.0 * rows[k].ma90.value
    ensures forall k :: 0 <= k < |rows| ==>
      Rebased(rows, rows[0].close).vwap[k] * rows[0].close == 100.0 * rows[k].vwap.value
  {
    forall k | 0 <= k < |rows|
      ensures Rebased(rows, rows[0].close).ma30[k] * rows[0].close == 100.0 * rows[k].ma30.value
      ensures Rebased(rows, rows[0].close).ma90[k] * rows[0].close == 100.0 * rows[k].ma90.value
      ensures Rebased(rows, rows[0].close).vwap[k] * rows[0].close == 100.0 * rows[k].vwap.value
    {
      RebasedAt(rows, rows[0].close, k);
    }
  }

  lemma RebasedAt(rows: seq<ComparisonRow>, base: real, j: nat)
    requires base != 0.0 && j < |rows|
    requires forall k :: 0 <= k < |rows| ==> ComparisonPolicy(rows[k])
    ensures var e := Rebased(rows, base);
      && e.close[j] * base == 100.0 * rows[j].close
      && e.ma30[j] * base == 100.0 * rows[j].ma30.value
      && e.ma90[j] * base == 100.0 * rows[j].ma90.value
      && e.vwap[j] * base == 100.0 * rows[j].vwap.value
  {
    var e := Rebased(rows, base);
    NormalizedTimesBase(rows[j].close, base, e.close[j]);
    NormalizedTimesBase(rows[j].ma30.value, base, e.ma30[j]);
    NormalizedTimesBase(rows[j].ma90.value, base, e.ma90[j]);
    NormalizedTimesBase(rows[j].vwap.value, base, e.vwap[j]);
  }

  /** With distinct dates the kept rows are in strictly ascending date order. */
  lemma KeptDatesAscend(bars: seq<Bar>)
    requires DistinctDays(bars)
    ensures forall k, l :: 0 <= k < l < |Kept(bars)| ==> Kept(bars)[k].day < Kept(bars)[l].day
  {
    var sorted := SortByDate(bars);
    var w := LastYear(bars);
    SortByDateSorted(bars);
    SuffixIncreasing(sorted, |sorted| - |w|);
    var rows := ComparisonRows(w);
    assert Kept(bars) == DropUndefined(rows, ComparisonPolicy);
    DropUndefinedKeepsOrder(rows, ComparisonPolicy, (row: ComparisonRow) => row.day);
  }

  lemma NormalizedTimesBase(x: real, base: real, n: real)
    requires base != 0.0 && n == Normalized(x, base)
    ensures n * base == 100.0 * x
  {
  }

  /** The base itself rebases to 100. */
  lemma NormalizedBase(base: real)
    requires base != 0.0
    ensures Normalized(base, base) == 100.0
  {
  }

  /** Rebasing is blind to a common non-zero factor. */
  lemma NormalizedScaled(k: real, x: real, base: real, kx: real, kbase: real)
    requires k != 0.0 && base != 0.0 && kx == k * x && kbase == k * base
    ensures kbase != 0.0 && Normalized(kx, kbase) == Normalized(x, base)
  {
    assert kx / kbase == x / base;
  }

  /** Rows under a common price factor `k` (volumes unchanged). */
  function ScaleOption(o: Option<real>, k: real): Option<real> {
    if o.Some? then Some(k * o.value) else None
  }

  function ScaleRow(row: ComparisonRow, k: real): ComparisonRow {
    ComparisonRow(row.day, k * row.close, ScaleOption(row.ma30, k), ScaleOption(row.ma90, k), ScaleOption(row.vwap, k))
  }

  lemma LastYearScaled(bars: seq<Bar>, k: real)
    ensures LastYear(ScaleAll(bars, k)) == ScaleAll(LastYear(bars), k)
  {
    var s := SortByDate(bars);
    SortByDateScaled(bars, k);
    var t := ScaleAll(s, k);
    assert LastBars(t, YearBars) == ScaleAll(LastBars(s, YearBars), k);
  }

  lemma ComparisonRowsScaled(w: seq<Bar>, k: real)
    ensures var rows, scaled := ComparisonRows(w), ComparisonRows(ScaleAll(w, k));
      |scaled| == |rows| && forall i :: 0 <= i < |w| ==> scaled[i] == ScaleRow(rows[i], k)
  {
    var c, cs := Closes(w), Closes(ScaleAll(w, k));
    MeanColumnScaled(w, k, ShortWindow);
    MeanColumnScaled(w, k, LongWindow);
    VwapColumnScaled(w, k);
    AssembleScaled(w, k, RollingMean(c, ShortWindow), RollingMean(c, LongWindow), Vwap(w),
      RollingMean(cs, ShortWindow), RollingMean(cs, LongWindow), Vwap(ScaleAll(w, k)));
  }

  lemma AssembleScaled(w: seq<Bar>, k: real, a: seq<Option<real>>, b: seq<Option<real>>, v: seq<Option<real>>,
                       sa: seq<Option<real>>, sb: seq<Option<real>>, sv: seq<Option<real>>)
    requires |a| == |b| == |v| == |sa| == |sb| == |sv| == |w|
    requires forall i :: 0 <= i < |w| ==> sa[i] == ScaleOption(a[i], k) && sb[i] == ScaleOption(b[i], k) && sv[i] == ScaleOption(v[i], k)
    ensures forall i :: 0 <= i < |w| ==> Assemble(ScaleAll(w, k), sa, sb, sv)[i] == ScaleRow(Assemble(w, a, b, v)[i], k)
  {
  }

  lemma MeanColumnScaled(w: seq<Bar>, k: real, win: nat)
    requires win > 0
    ensures forall i :: 0 <= i < |w| ==>
      RollingMean(Closes(ScaleAll(w, k)), win)[i] == ScaleOption(RollingMean(Closes(w), win)[i], k)
  {
    var c, sc := Closes(w), Closes(ScaleAll(w, k));
    assert forall i :: 0 <= i < |w| ==> sc[i] == k * c[i];
    RollingMeanScaled(c, sc, win, k);
    forall i | 0 <= i < |w| ensures RollingMean(sc, win)[i] == ScaleOption(RollingMean(c, win)[i], k) {
      ScaleOptionOf(RollingMean(c, win)[i], RollingMean(sc, win)[i], k);
    }
  }

  lemma VwapColumnScaled(w: seq<Bar>, k: real)
    ensures forall i :: 0 <= i < |w| ==> Vwap(ScaleAll(w, k))[i] == ScaleOption(Vwap(w)[i], k)
  {
    var cs := ScaleAll(w, k);
    TurnoverScaled(w, k);
    CumSumScaled(Turnover(w), Turnover(cs), k);
    forall i | 0 <= i < |w| ensures Vwap(cs)[i] == ScaleOption(Vwap(w)[i], k) {
      VwapEntryScaled(w, k, i);
    }
  }

  lemma VwapEntryScaled(w: seq<Bar>, k: real, i: nat)
    requires i < |w|
    requires forall j :: 0 <= j < |w| ==> CumSum(Turnover(ScaleAll(w, k)))[j] == k * CumSum(Turnover(w))[j]
    ensures Vwap(ScaleAll(w, k))[i] == ScaleOption(Vwap(w)[i], k)
  {
    VwapScaledAt(w, k, i);
    ScaleOptionOf(Vwap(w)[i], Vwap(ScaleAll(w, k))[i], k);
  }

  lemma ScaleOptionOf(o: Option<real>, so: Option<real>, k: real)
    requires so.Some? == o.Some? && (o.Some? ==> so.value == k * o.value)
    ensures so == ScaleOption(o, k)
  {
  }

  lemma KeptScaled(bars: seq<Bar>, k: real)
    ensures |Kept(ScaleAll(bars, k))| == |Kept(bars)|
    ensures forall i :: 0 <= i < |Kept(bars)| ==> Kept(ScaleAll(bars, k))[i] == ScaleRow(Kept(bars)[i], k)
  {
    var w := LastYear(bars);
    LastYearScaled(bars, k);
    ComparisonRowsScaled(w, k);
    DropUndefinedMap(ComparisonRows(w), ComparisonRows(ScaleAll(w, k)), ComparisonPolicy,
      (row: ComparisonRow) => ScaleRow(row, k));
  }

  /** Multiplying every price by the same non-zero factor (a currency change
      or a split-adjusted history) leaves the symbol's entry unchanged:
      rebasing to the first close cancels the factor. */
  lemma SymbolStepScaleInvariant(symbol: string, bars: seq<Bar>, k: real)
    requires k != 0.0
    ensures SymbolStep(symbol, TimeSeries(ScaleAll(bars, k))) == SymbolStep(symbol, TimeSeries(bars))
  {
    KeptScaled(bars, k);
    if |bars| > 0 && |Kept(bars)| > 0 {
      KeptStepScaled(symbol, bars, k);
    }
  }

  lemma KeptStepScaled(symbol: string, bars: seq<Bar>, k: real)
    requires k != 0.0 && |bars| > 0 && |Kept(bars)| > 0
    requires |Kept(ScaleAll(bars, k))| == |Kept(bars)|
    requires forall i :: 0 <= i < |Kept(bars)| ==> Kept(ScaleAll(bars, k))[i] == ScaleRow(Kept(bars)[i], k)
    ensures SymbolStep(symbol, TimeSeries(ScaleAll(bars, k))) == SymbolStep(symbol, TimeSeries(bars))
  {
    EntryOfScaled(Kept(bars), Kept(ScaleAll(bars, k)), k);
  }

  /** The stored entry is blind to a common non-zero price factor. */
  lemma EntryOfScaled(rows: seq<ComparisonRow>, srows: seq<ComparisonRow>, k: real)
    requires k != 0.0 && |rows| == |srows| > 0
    requires forall i :: 0 <= i < |rows| ==> ComparisonPolicy(rows[i])
    requires forall i :: 0 <= i < |rows| ==> srows[i] == ScaleRow(rows[i], k)
    ensures forall i :: 0 <= i < |srows| ==> ComparisonPolicy(srows[i])
    ensures EntryOf(srows) == EntryOf(rows)
  {
    assert srows[0].close == k * rows[0].close;
    assert Dates(srows) == Dates(rows);
    if rows[0].close != 0.0 {
      RebasedScaled(rows, srows, k);
    }
  }

  lemma RebasedScaled(rows: seq<ComparisonRow>, srows: seq<ComparisonRow>, k: real)
    requires k != 0.0 && |rows| == |srows| > 0 && rows[0].close != 0.0
    requires forall i :: 0 <= i < |rows| ==> ComparisonPolicy(rows[i])
    requires forall i :: 0 <= i < |rows| ==> srows[i] == ScaleRow(rows[i], k)
    ensures srows[0].close != 0.0
    ensures forall i :: 0 <= i < |srows| ==> ComparisonPolicy(srows[i])
    ensures Rebased(srows, srows[0].close) == Rebased(rows, rows[0].close)
  {
    var base, sbase := rows[0].close, srows[0].close;
    var e, se := Rebased(rows, base), Rebased(srows, sbase);
    assert Dates(srows) == Dates(rows);
    forall i | 0 <= i < |rows|
      ensures se.close[i] == e.close[i] && se.ma30[i] == e.ma30[i]
      ensures se.ma90[i] == e.ma90[i] && se.vwap[i] == e.vwap[i]
    {
      NormalizedScaled(k, rows[i].close, base, srows[i].close, sbase);
      NormalizedScaled(k, rows[i].ma30.value, base, srows[i].ma30.value, sbase);
      NormalizedScaled(k, rows[i].ma90.value, base, srows[i].ma90.value, sbase);
      NormalizedScaled(k, rows[i].vwap.value, base, srows[i].vwap.value, sbase);
    }
  }
}
