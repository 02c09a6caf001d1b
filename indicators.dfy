/** The single-symbol handler `data()`: a year of bars by calendar days, the
    indicator columns (moving averages, RSI, MACD, Bollinger bands, VWAP), the
    rows on which all of them are defined, and the report built from those
    rows. */
module Indicators {
  import opened Series
  import opened Rolling
  import opened Columns
  import opened RowFilter
  import opened Symbols

  const RsiWindow: nat := 14
  const BandWindow: nat := 20
  const FastSpan: nat := 12
  const SlowSpan: nat := 26
  const SignalSpan: nat := 9
  const DefaultSymbol: string := "AAPL"

  // ---------------------------------------------------------------------
  // RSI

  /** `close.diff()`: undefined on the first bar. */
  function Diff(xs: seq<real>): (ds: seq<Option<real>>)
    ensures |ds| == |xs|
  {
    seq(|xs|, i requires 0 <= i < |xs| => if i == 0 then None else Some(xs[i] - xs[i - 1]))
  }

  /** `delta.where(delta > 0, 0)`: a NaN delta fails the test and becomes 0 too. */
  function Gains(ds: seq<Option<real>>): (r: seq<real>)
    ensures |r| == |ds|
  {
    seq(|ds|, i requires 0 <= i < |ds| => if ds[i].Some? && ds[i].value > 0.0 then ds[i].value else 0.0)
  }

  /** `-delta.where(delta < 0, 0)`. */
  function Losses(ds: seq<Option<real>>): (r: seq<real>)
    ensures |r| == |ds|
  {
    seq(|ds|, i requires 0 <= i < |ds| => if ds[i].Some? && ds[i].value < 0.0 then -ds[i].value else 0.0)
  }

  /** Gains and losses are never negative, at most one of them is non-zero,
      both are 0 on the first bar (where the delta is NaN), and afterwards
      their difference is the day-over-day change. */
  lemma GainsAndLosses(xs: seq<real>)
    ensures forall i :: 0 <= i < |xs| ==>
      0.0 <= Gains(Diff(xs))[i] && 0.0 <= Losses(Diff(xs))[i]
      && (Gains(Diff(xs))[i] == 0.0 || Losses(Diff(xs))[i] == 0.0)
    ensures |xs| > 0 ==> Gains(Diff(xs))[0] == 0.0 && Losses(Diff(xs))[0] == 0.0
    ensures forall i :: 0 < i < |xs| ==> Gains(Diff(xs))[i] - Losses(Diff(xs))[i] == xs[i] - xs[i - 1]
  {
  }

  /** The 14-bar averages of the gains and of the losses. */
  function AverageGain(closes: seq<real>): (r: seq<Option<real>>)
    ensures |r| == |closes|
  {
    RollingMean(Gains(Diff(closes)), RsiWindow)
  }

  function AverageLoss(closes: seq<real>): (r: seq<Option<real>>)
    ensures |r| == |closes|
  {
    RollingMean(Losses(Diff(closes)), RsiWindow)
  }

  /** `100 - 100 / (1 + gain / loss)` under float rules: a zero loss makes the
      ratio infinite and the RSI 100, unless the gain is 0 too, when 0/0 is NaN. */
  function RsiValue(gain: real, loss: real): (r: Option<real>)
    requires 0.0 <= gain && 0.0 <= loss
    ensures r.None? <==> gain == 0.0 && loss == 0.0
    ensures r.Some? ==> 0.0 <= r.value <= 100.0
    ensures r.Some? ==> (r.value == 100.0 <==> loss == 0.0)
  {
    if loss == 0.0 then (if gain == 0.0 then None else Some(100.0))
    else
      RsiInRange(gain, loss);
      Some(100.0 - 100.0 / (1.0 + gain / loss))
  }

  lemma RsiInRange(gain: real, loss: real)
    requires 0.0 <= gain && 0.0 < loss
    ensures 0.0 <= 100.0 - 100.0 / (1.0 + gain / loss) < 100.0
  {
    var d := 1.0 + gain / loss;
    assert 1.0 <= d;
    assert 0.0 < 100.0 / d <= 100.0;
  }

  /** Every defined RSI is the gains' share of the total movement, in percent. */
  lemma RsiIsGainShare(gain: real, loss: real)
    requires 0.0 <= gain && 0.0 <= loss
    ensures RsiValue(gain, loss).Some? ==> RsiValue(gain, loss).value == 100.0 * gain / (gain + loss)
  {
    if loss > 0.0 {
      var rs := gain / loss;
      assert gain == rs * loss;
      assert 100.0 / (1.0 + rs) == 100.0 * loss / (gain + loss);
    }
  }

  lemma {:induction false} RollingMeanNonnegative(xs: seq<real>, w: nat)
    requires w > 0
    requires forall i :: 0 <= i < |xs| ==> 0.0 <= xs[i]
    ensures forall i :: 0 <= i < |xs| && RollingMean(xs, w)[i].Some? ==> 0.0 <= RollingMean(xs, w)[i].value
  {
    forall i | 0 <= i < |xs| && RollingMean(xs, w)[i].Some? ensures 0.0 <= RollingMean(xs, w)[i].value {
      var ws := Window(xs, i, w);
      assert forall j :: 0 <= j < |ws| ==> ws[j] == xs[i + 1 - w + j];
      SumNonnegative(ws);
      DivNonnegative(Sum(ws), w as real);
    }
  }

  /** The RSI column: defined where both averages are and they are not both 0. */
  function Rsi(closes: seq<real>): (r: seq<Option<real>>)
    ensures |r| == |closes|
  {
    var ag, al := AverageGain(closes), AverageLoss(closes);
    GainsAndLosses(closes);
    RollingMeanNonnegative(Gains(Diff(closes)), RsiWindow);
    RollingMeanNonnegative(Losses(Diff(closes)), RsiWindow);
    seq(|closes|, i requires 0 <= i < |closes| =>
      if ag[i].None? || al[i].None? then None else RsiValue(ag[i].value, al[i].value))
  }

  /** The RSI is undefined during the 14-bar warm-up; afterwards it is defined
      exactly when the window saw some movement, and then lies in [0, 100],
      reaching 100 exactly when the window saw no loss. */
  lemma RsiDefinedness(closes: seq<real>)
    ensures forall i :: 0 <= i < |closes| && i < RsiWindow - 1 ==> Rsi(closes)[i].None?
    ensures forall i :: RsiWindow - 1 <= i < |closes| ==>
      (Rsi(closes)[i].None? <==> AverageGain(closes)[i] == Some(0.0) && AverageLoss(closes)[i] == Some(0.0))
    ensures forall i :: 0 <= i < |closes| && Rsi(closes)[i].Some? ==>
      0.0 <= Rsi(closes)[i].value <= 100.0
      && (Rsi(closes)[i].value == 100.0 <==> AverageLoss(closes)[i] == Some(0.0))
  {
  }

  /** A flat close never moves, so its RSI is 0/0 on every bar. */
  lemma RsiOfConstant(closes: seq<real>, c: real)
    requires forall i :: 0 <= i < |closes| ==> closes[i] == c
    ensures forall i :: 0 <= i < |closes| ==> Rsi(closes)[i].None?
  {
    var gs, ls := Gains(Diff(closes)), Losses(Diff(closes));
    assert forall i :: 0 <= i < |closes| ==> gs[i] == 0.0 && ls[i] == 0.0;
    RollingMeanConstant(gs, RsiWindow, 0.0);
    RollingMeanConstant(ls, RsiWindow, 0.0);
  }

  /** On a strictly rising close every window after the warm-up saw gains and
      no loss, so the RSI is exactly 100 there. */
  lemma RisingRsi(closes: seq<real>)
    requires forall i :: 0 < i < |closes| ==> closes[i - 1] < closes[i]
    ensures forall i :: RsiWindow - 1 <= i < |closes| ==> Rsi(closes)[i] == Some(100.0)
  {
    var gs, ls := Gains(Diff(closes)), Losses(Diff(closes));
    assert forall i :: 0 <= i < |closes| ==> ls[i] == 0.0;
    RollingMeanConstant(ls, RsiWindow, 0.0);
    GainsAndLosses(closes);
    forall i | RsiWindow - 1 <= i < |closes| ensures 0.0 < AverageGain(closes)[i].value {
      var ws := Window(gs, i, RsiWindow);
      assert forall j :: 0 <= j < |ws| ==> ws[j] == gs[i + 1 - RsiWindow + j];
      assert ws[|ws| - 1] == gs[i] == closes[i] - closes[i - 1];
      SumWithPositiveTerm(ws, |ws| - 1);
      DivPositive(Sum(ws), RsiWindow as real);
    }
  }

  // ---------------------------------------------------------------------
  // MACD

  /** `ema12 - ema26`. */
  function Macd(closes: seq<real>): (r: seq<real>)
    ensures |r| == |closes|
  {
    var fast, slow := Ema(closes, Alpha(FastSpan)), Ema(closes, Alpha(SlowSpan));
    seq(|closes|, i requires 0 <= i < |closes| => fast[i] - slow[i])
  }

  /** The 9-span EMA of the MACD. */
  function MacdSignal(closes: seq<real>): (r: seq<real>)
    ensures |r| == |closes|
  {
    Ema(Macd(closes), Alpha(SignalSpan))
  }

  /** Both EMAs start at the first close, so the MACD and its signal start at 0;
      the signal follows the `adjust=False` recurrence over the MACD. */
  lemma MacdStart(closes: seq<real>)
    requires |closes| > 0
    ensures Macd(closes)[0] == 0.0 && MacdSignal(closes)[0] == 0.0
    ensures forall t :: 0 < t < |closes| ==>
      MacdSignal(closes)[t] == Alpha(SignalSpan) * Macd(closes)[t] + (1.0 - Alpha(SignalSpan)) * MacdSignal(closes)[t - 1]
  {
    var m := Macd(closes);
    forall t | 0 < t < |closes| ensures
      MacdSignal(closes)[t] == Alpha(SignalSpan) * m[t] + (1.0 - Alpha(SignalSpan)) * MacdSignal(closes)[t - 1]
    {
      assert m[t] == Macd(closes)[t];
    }
  }

  /** A flat close gives a MACD and a signal of 0 on every bar. */
  lemma MacdOfConstant(closes: seq<real>, c: real)
    requires forall i :: 0 <= i < |closes| ==> closes[i] == c
    ensures forall i :: 0 <= i < |closes| ==> Macd(closes)[i] == 0.0 && MacdSignal(closes)[i] == 0.0
  {
    EmaConstant(closes, Alpha(FastSpan), c);
    EmaConstant(closes, Alpha(SlowSpan), c);
    EmaConstant(Macd(closes), Alpha(SignalSpan), 0.0);
  }

  /** Every MACD value lies within the range of the closes seen so far, less
      the same range: both EMAs are convex combinations of those closes. */
  lemma MacdBounded(closes: seq<real>, lo: real, hi: real, t: nat)
    requires t < |closes|
    requires forall i :: 0 <= i <= t ==> lo <= closes[i] <= hi
    ensures lo - hi <= Macd(closes)[t] <= hi - lo
  {
    EmaWithinBounds(closes, Alpha(FastSpan), lo, hi, t);
    EmaWithinBounds(closes, Alpha(SlowSpan), lo, hi, t);
  }

  /** On a strictly rising close the 12-span EMA trails the close by less
      than the 26-span EMA does, so the MACD is positive from the second bar
      on. */
  lemma RisingMacdPositive(closes: seq<real>)
    requires forall i :: 0 < i < |closes| ==> closes[i - 1] < closes[i]
    ensures forall t :: 0 < t < |closes| ==> 0.0 < Macd(closes)[t]
  {
    forall t | 0 < t < |closes| ensures 0.0 < Macd(closes)[t] {
      EmaLag(closes, t);
    }
  }

  /** On a strictly rising close both EMAs trail the close, the 26-span one
      further behind: from the second bar on, `ema26 < ema12 < close`. */
  lemma {:induction false} EmaLag(closes: seq<real>, t: nat)
    requires t < |closes|
    requires forall i :: 0 < i <= t ==> closes[i - 1] < closes[i]
    ensures Ema(closes, Alpha(SlowSpan))[t] <= Ema(closes, Alpha(FastSpan))[t] <= closes[t]
    ensures t > 0 ==> Ema(closes, Alpha(SlowSpan))[t] < Ema(closes, Alpha(FastSpan))[t] < closes[t]
  {
    if t > 0 {
      EmaLag(closes, t - 1);
      EmaStep(closes, Alpha(SlowSpan), t);
      EmaStep(closes, Alpha(FastSpan), t);
      var slow, fast := Ema(closes, Alpha(SlowSpan)), Ema(closes, Alpha(FastSpan));
      LagStep(closes[t - 1], closes[t], slow[t - 1], fast[t - 1], slow[t], fast[t]);
    }
  }

  /** One step of `EmaLag`: each EMA moves towards the new close `x` without
      reaching it, and the faster one, already ahead, stays ahead. */
  lemma LagStep(p: real, x: real, es: real, ef: real, rs: real, rf: real)
    requires p < x && es <= ef <= p
    requires IsBlend(rs, Alpha(SlowSpan), x, es) && IsBlend(rf, Alpha(FastSpan), x, ef)
    ensures rs < rf < x
  {
    assert Alpha(SlowSpan) == 2.0 / 27.0 && Alpha(FastSpan) == 2.0 / 13.0;
  }

  // ---------------------------------------------------------------------
  // Bollinger bands

  /** `BB_MA + 2 * std` and `BB_MA - 2 * std` over 20 bars. */
  function BollingerUpper(closes: seq<real>, sqrt: real -> real): (r: seq<Option<real>>)
    ensures |r| == |closes|
  {
    var ma, sd := RollingMean(closes, BandWindow), RollingStd(closes, BandWindow, sqrt);
    seq(|closes|, i requires 0 <= i < |closes| =>
      if ma[i].Some? && sd[i].Some? then Some(ma[i].value + 2.0 * sd[i].value) else None)
  }

  function BollingerLower(closes: seq<real>, sqrt: real -> real): (r: seq<Option<real>>)
    ensures |r| == |closes|
  {
    var ma, sd := RollingMean(closes, BandWindow), RollingStd(closes, BandWindow, sqrt);
    seq(|closes|, i requires 0 <= i < |closes| =>
      if ma[i].Some? && sd[i].Some? then Some(ma[i].value - 2.0 * sd[i].value) else None)
  }

  /** The bands are defined from the 20th bar on, and there the upper band is
      at or above the middle band, which is at or above the lower band. */
  lemma BollingerOrder(closes: seq<real>, sqrt: real -> real)
    requires RootLike(sqrt)
    ensures forall i :: 0 <= i < |closes| ==>
      (BollingerUpper(closes, sqrt)[i].Some? <==> i >= BandWindow - 1)
      && (BollingerLower(closes, sqrt)[i].Some? <==> i >= BandWindow - 1)
    ensures forall i :: BandWindow - 1 <= i < |closes| ==>
      BollingerLower(closes, sqrt)[i].value <= RollingMean(closes, BandWindow)[i].value
      <= BollingerUpper(closes, sqrt)[i].value
  {
    RollingStdNonnegative(closes, BandWindow, sqrt);
  }

  /** On a flat close both bands collapse onto it. */
  lemma BollingerOfConstant(closes: seq<real>, sqrt: real -> real, c: real)
    requires RootLike(sqrt)
    requires forall i :: 0 <= i < |closes| ==> closes[i] == c
    ensures forall i :: BandWindow - 1 <= i < |closes| ==>
      BollingerUpper(closes, sqrt)[i] == Some(c) && BollingerLower(closes, sqrt)[i] == Some(c)
      && RollingMean(closes, BandWindow)[i] == Some(c)
  {
    RollingMeanConstant(closes, BandWindow, c);
    RollingStdConstant(closes, BandWindow, sqrt, c);
  }

  /** On a flat close both moving averages are that close once defined. */
  lemma MovingAveragesOfConstant(closes: seq<real>, c: real)
    requires forall i :: 0 <= i < |closes| ==> closes[i] == c
    ensures forall i :: ShortWindow - 1 <= i < |closes| ==> RollingMean(closes, ShortWindow)[i] == Some(c)
    ensures forall i :: LongWindow - 1 <= i < |closes| ==> RollingMean(closes, LongWindow)[i] == Some(c)
  {
    RollingMeanConstant(closes, ShortWindow, c);
    RollingMeanConstant(closes, LongWindow, c);
  }

  /** On a strictly rising close a moving average over two or more bars trails
      the close: every other bar of its window is older and lower. */
  lemma RisingMaBelowClose(closes: seq<real>, w: nat, i: nat)
    requires w >= 2 && w - 1 <= i < |closes|
    requires forall j :: 0 < j < |closes| ==> closes[j - 1] < closes[j]
    ensures RollingMean(closes, w)[i].value < closes[i]
  {
    var ws := Window(closes, i, w);
    assert ws[..w - 1] == closes[i + 1 - w..i];
    RisingSumBelow(closes, i + 1 - w, i);
    DivBelow(Sum(ws), w as real, closes[i]);
  }

  /** On a strictly rising close the 90-bar average trails the 30-bar one:
      its window adds 60 older bars, each below every bar of the last 30. */
  lemma RisingLongBelowShort(closes: seq<real>, i: nat)
    requires LongWindow - 1 <= i < |closes|
    requires forall j :: 0 < j < |closes| ==> closes[j - 1] < closes[j]
    ensures RollingMean(closes, LongWindow)[i].value < RollingMean(closes, ShortWindow)[i].value
  {
    var start := i + 1 - ShortWindow;
    var older, recent := closes[i + 1 - LongWindow..start], Window(closes, i, ShortWindow);
    assert Window(closes, i, LongWindow) == older + recent;
    RisingSumBelow(closes, i + 1 - LongWindow, start);
    RisingSumAtLeast(closes, start, i + 1);
    SumConcat(older, recent);
    MeanOrder(Sum(older), Sum(recent), closes[start]);
  }

  /** 60 values below `m` and 30 at or above it average below the 30. */
  lemma MeanOrder(a: real, b: real, m: real)
    requires a < 60.0 * m && 30.0 * m <= b
    ensures (a + b) / 90.0 < b / 30.0
  {
  }

  // ---------------------------------------------------------------------
  // The indicator table and its row filter

  /** One row of the handler's frame after every column has been added.
      Close, Volume, MACD and MACD_Signal are always defined here. */
  datatype IndicatorRow = IndicatorRow(
    day: int, high: real, low: real, close: real, volume: real,
    ma30: Option<real>, ma90: Option<real>, rsi: Option<real>,
    macd: real, macdSignal: real,
    bbUpper: Option<real>, bbLower: Option<real>, vwap: Option<real>)

  /** The `dropna` subset of `data()`: Close, Volume, 30d_MA, 90d_MA, RSI,
      MACD, MACD_Signal, BB_Upper, BB_Lower, VWAP. */
  predicate FullIndicatorPolicy(row: IndicatorRow) {
    row.ma30.Some? && row.ma90.Some? && row.rsi.Some?
    && row.bbUpper.Some? && row.bbLower.Some? && row.vwap.Some?
  }

  /** All the columns of `data()`, row by row, over the windowed bars. */
  function IndicatorRows(w: seq<Bar>, sqrt: real -> real): (rows: seq<IndicatorRow>)
    ensures |rows| == |w|
    ensures forall i :: 0 <= i < |w| ==> rows[i].day == w[i].day && rows[i].close == w[i].close
  {
    var c := Closes(w);
    var ma30, ma90, rsi := RollingMean(c, ShortWindow), RollingMean(c, LongWindow), Rsi(c);
    var macd, signal := Macd(c), MacdSignal(c);
    var upper, lower, vwap := BollingerUpper(c, sqrt), BollingerLower(c, sqrt), Vwap(w);
    seq(|w|, i requires 0 <= i < |w| =>
      IndicatorRow(w[i].day, w[i].high, w[i].low, w[i].close, w[i].volume,
        ma30[i], ma90[i], rsi[i], macd[i], signal[i], upper[i], lower[i], vwap[i]))
  }

  /** A row survives exactly when it is at position 89 or later (the 90-bar
      average is the last column to warm up), its RSI is defined and its VWAP
      is defined. */
  lemma IndicatorRowSurvives(w: seq<Bar>, sqrt: real -> real, i: nat)
    requires i < |w|
    ensures FullIndicatorPolicy(IndicatorRows(w, sqrt)[i]) <==>
      i >= LongWindow - 1 && Rsi(Closes(w))[i].Some? && Vwap(w)[i].Some?
  {
  }

  /** With positive volumes the VWAP is always defined, so a row survives
      exactly when it is at position 89 or later and its RSI is defined. */
  lemma PositiveVolumeSurvives(w: seq<Bar>, sqrt: real -> real, i: nat)
    requires i < |w|
    requires forall j :: 0 <= j < |w| ==> 0.0 < w[j].volume
    ensures FullIndicatorPolicy(IndicatorRows(w, sqrt)[i]) <==>
      i >= LongWindow - 1 && Rsi(Closes(w))[i].Some?
  {
    VwapDefined(w);
    IndicatorRowSurvives(w, sqrt, i);
  }

  // ---------------------------------------------------------------------
  // The handler

  /** What the handler answers: the error dictionary, the report, or an
      uncaught exception (an HTTP 500). */
  datatype DataResponse =
    | DataError(message: string)
    | DataReport(report: Report)
    | DataRaises

  datatype Report = Report(
    symbol: string, dates: seq<int>, closes: seq<real>, volumes: seq<real>,
    ma30: seq<real>, ma90: seq<real>, rsi: seq<real>, macd: seq<real>, macdSignal: seq<real>,
    bbUpper: seq<real>, bbLower: seq<real>, vwap: seq<real>,
    high: real, low: real, lastClose: real)

  /** `request.args.get("symbol", "AAPL").upper()`. */
  function RequestedSymbol(arg: Option<string>): string {
    Upper(if arg.Some? then arg.value else DefaultSymbol)
  }

  /** The provider's bars in date order, cut to the trailing 365 calendar days. */
  function YearWindow(bars: seq<Bar>): seq<Bar> {
    LastCalendarDays(SortByDate(bars), YearDays)
  }

  /** The rows left after `dropna`. */
  function Surviving(bars: seq<Bar>, sqrt: real -> real): (rows: seq<IndicatorRow>)
    ensures forall k :: 0 <= k < |rows| ==> FullIndicatorPolicy(rows[k])
  {
    DropUndefined(IndicatorRows(YearWindow(bars), sqrt), FullIndicatorPolicy)
  }

  function RowHighs(rows: seq<IndicatorRow>): (r: seq<real>)
    ensures |r| == |rows|
  {
    seq(|rows|, k requires 0 <= k < |rows| => rows[k].high)
  }

  function RowLows(rows: seq<IndicatorRow>): (r: seq<real>)
    ensures |r| == |rows|
  {
    seq(|rows|, k requires 0 <= k < |rows| => rows[k].low)
  }

  /** The report's lists, one entry per surviving row, and its three scalars. */
  function MakeReport(symbol: string, rows: seq<IndicatorRow>): Report
    requires |rows| > 0
    requires forall k :: 0 <= k < |rows| ==> FullIndicatorPolicy(rows[k])
  {
    Report(symbol,
      seq(|rows|, k requires 0 <= k < |rows| => rows[k].day),
      seq(|rows|, k requires 0 <= k < |rows| => rows[k].close),
      seq(|rows|, k requires 0 <= k < |rows| => rows[k].volume),
      seq(|rows|, k requires 0 <= k < |rows| && FullIndicatorPolicy(rows[k]) => rows[k].ma30.value),
      seq(|rows|, k requires 0 <= k < |rows| && FullIndicatorPolicy(rows[k]) => rows[k].ma90.value),
      seq(|rows|, k requires 0 <= k < |rows| && FullIndicatorPolicy(rows[k]) => rows[k].rsi.value),
      seq(|rows|, k requires 0 <= k < |rows| => rows[k].macd),
      seq(|rows|, k requires 0 <= k < |rows| => rows[k].macdSignal),
      seq(|rows|, k requires 0 <= k < |rows| && FullIndicatorPolicy(rows[k]) => rows[k].bbUpper.value),
      seq(|rows|, k requires 0 <= k < |rows| && FullIndicatorPolicy(rows[k]) => rows[k].bbLower.value),
      seq(|rows|, k requires 0 <= k < |rows| && FullIndicatorPolicy(rows[k]) => rows[k].vwap.value),
      MaxOf(RowHighs(rows)), MinOf(RowLows(rows)), rows[|rows| - 1].close)
  }

  /** `data()`, given the provider's answer for the requested symbol and
      numpy's square root. An empty frame after `dropna` makes
      `df["Close"].iloc[-1]` raise. */
  function Data(arg: Option<string>, payload: Payload, sqrt: real -> real): (out: DataResponse)
    ensures out.DataError? <==> payload.Missing? || |payload.bars| == 0
    ensures out.DataError? ==>
      out.message == "Invalid symbol or no data found for " + RequestedSymbol(arg) + "."
    ensures out.DataRaises? <==> payload.TimeSeries? && |payload.bars| > 0 && |Surviving(payload.bars, sqrt)| == 0
  {
    var symbol := RequestedSymbol(arg);
    if payload.Missing? || |payload.bars| == 0 then
      DataError("Invalid symbol or no data found for " + symbol + ".")
    else
      var rows := Surviving(payload.bars, sqrt);
      if |rows| == 0 then DataRaises else DataReport(MakeReport(symbol, rows))
  }

  // ---------------------------------------------------------------------
  // Properties of the handler

  /** The report `r` is the one the handler promises for the surviving `rows`:
      every list has one entry per row, the k-th entry of each list is the
      k-th row's value of that column, and `high`, `low` and `last_close` are
      the largest High, the smallest Low and the last Close over these rows
      only. */
  ghost predicate ReportOf(r: Report, symbol: string, rows: seq<IndicatorRow>)
    requires |rows| > 0
  {
    && r.symbol == symbol
    && |r.dates| == |rows| && |r.closes| == |rows| && |r.volumes| == |rows|
    && |r.ma30| == |rows| && |r.ma90| == |rows| && |r.rsi| == |rows|
    && |r.macd| == |rows| && |r.macdSignal| == |rows|
    && |r.bbUpper| == |rows| && |r.bbLower| == |rows| && |r.vwap| == |rows|
    && (forall k :: 0 <= k < |rows| ==>
         && r.dates[k] == rows[k].day && r.closes[k] == rows[k].close
         && r.volumes[k] == rows[k].volume
         && Some(r.ma30[k]) == rows[k].ma30 && Some(r.ma90[k]) == rows[k].ma90
         && Some(r.rsi[k]) == rows[k].rsi
         && r.macd[k] == rows[k].macd && r.macdSignal[k] == rows[k].macdSignal
         && Some(r.bbUpper[k]) == rows[k].bbUpper && Some(r.bbLower[k]) == rows[k].bbLower
         && Some(r.vwap[k]) == rows[k].vwap
         && rows[k].high <= r.high && r.low <= rows[k].low)
    && r.high in RowHighs(rows) && r.low in RowLows(rows)
    && r.lastClose == rows[|rows| - 1].close
  }

  /** The handler's report is aligned with the rows that survive `dropna`, as
      `ReportOf` spells out. */
  lemma ReportAligned(arg: Option<string>, bars: seq<Bar>, sqrt: real -> real)
    requires Data(arg, TimeSeries(bars), sqrt).DataReport?
    ensures |Surviving(bars, sqrt)| > 0
    ensures ReportOf(Data(arg, TimeSeries(bars), sqrt).report, RequestedSymbol(arg), Surviving(bars, sqrt))
  {
    MakeReportShape(RequestedSymbol(arg), Surviving(bars, sqrt));
  }

  lemma MakeReportShape(symbol: string, rows: seq<IndicatorRow>)
    requires |rows| > 0
    requires forall k :: 0 <= k < |rows| ==> FullIndicatorPolicy(rows[k])
    ensures ReportOf(MakeReport(symbol, rows), symbol, rows)
  {
    var hs, ls := RowHighs(rows), RowLows(rows);
    assert forall k :: 0 <= k < |rows| ==> rows[k].high == hs[k] && rows[k].low == ls[k];
  }

  /** The rows that survive `dropna` are the rows of the window at ascending
      positions, each position at least 89; a position survives exactly when
      its RSI and VWAP are defined. */
  lemma SurvivingPositions(w: seq<Bar>, sqrt: real -> real)
    ensures var rows := IndicatorRows(w, sqrt);
      var kept, ix := DropUndefined(rows, FullIndicatorPolicy), SurvivingIndices(rows, FullIndicatorPolicy);
      && |kept| == |ix|
      && StrictlyAscending(ix)
      && (forall k :: 0 <= k < |ix| ==> ix[k] < |w| && kept[k] == rows[ix[k]])
      && (forall k :: 0 <= k < |ix| ==> ix[k] >= LongWindow - 1)
      && (forall i :: 0 <= i < |w| ==>
           (i in ix <==> i >= LongWindow - 1 && Rsi(Closes(w))[i].Some? && Vwap(w)[i].Some?))
  {
    var rows := IndicatorRows(w, sqrt);
    DropUndefinedSurvivors(rows, FullIndicatorPolicy);
    forall i | 0 <= i < |w| ensures FullIndicatorPolicy(rows[i]) <==>
      i >= LongWindow - 1 && Rsi(Closes(w))[i].Some? && Vwap(w)[i].Some?
    {
      IndicatorRowSurvives(w, sqrt, i);
    }
  }

  /** With positive volumes and a strictly rising close over a year window of
      at least 90 bars some row survives, so the handler reports. */
  lemma RisingYearWindowReports(arg: Option<string>, bars: seq<Bar>, sqrt: real -> real)
    requires |YearWindow(bars)| >= LongWindow
    requires forall i :: 0 < i < |YearWindow(bars)| ==> YearWindow(bars)[i - 1].close < YearWindow(bars)[i].close
    requires forall i :: 0 <= i < |YearWindow(bars)| ==> 0.0 < YearWindow(bars)[i].volume
    ensures Data(arg, TimeSeries(bars), sqrt).DataReport?
  {
    RisingYearWindowSurvivors(bars, sqrt);
  }

  /** Under the same conditions the surviving rows are those of the year
      window from position 89 on; with exactly 90 bars the only surviving row
      is the last one. */
  lemma RisingYearWindowSurvivors(bars: seq<Bar>, sqrt: real -> real)
    requires |YearWindow(bars)| >= LongWindow
    requires forall i :: 0 < i < |YearWindow(bars)| ==> YearWindow(bars)[i - 1].close < YearWindow(bars)[i].close
    requires forall i :: 0 <= i < |YearWindow(bars)| ==> 0.0 < YearWindow(bars)[i].volume
    ensures |Surviving(bars, sqrt)| == |YearWindow(bars)| - (LongWindow - 1)
    ensures |YearWindow(bars)| == LongWindow ==>
      Surviving(bars, sqrt) == [IndicatorRows(YearWindow(bars), sqrt)[LongWindow - 1]]
  {
    RisingWindowSurvivors(YearWindow(bars), sqrt);
  }

  /** On a window of at least 90 bars with a strictly rising close and
      positive volumes, the rows that survive `dropna` are exactly those from
      position 89 on. */
  lemma RisingWindowSurvivors(w: seq<Bar>, sqrt: real -> real)
    requires |w| >= LongWindow
    requires forall i :: 0 < i < |w| ==> w[i - 1].close < w[i].close
    requires forall i :: 0 <= i < |w| ==> 0.0 < w[i].volume
    ensures DropUndefined(IndicatorRows(w, sqrt), FullIndicatorPolicy) == IndicatorRows(w, sqrt)[LongWindow - 1..]
    ensures |w| == LongWindow ==>
      DropUndefined(IndicatorRows(w, sqrt), FullIndicatorPolicy) == [IndicatorRows(w, sqrt)[LongWindow - 1]]
  {
    var rows := IndicatorRows(w, sqrt);
    RisingRowsSurvive(w, sqrt);
    DropUndefinedSuffix(rows, FullIndicatorPolicy, LongWindow - 1);
    if |w| == LongWindow {
      LastSuffix(rows);
    }
  }

  lemma LastSuffix<T>(s: seq<T>)
    requires |s| > 0
    ensures s[|s| - 1..] == [s[|s| - 1]]
  {
  }

  /** On a strictly rising close with positive volumes a row has all its
      columns defined exactly when it is at position 89 or later. */
  lemma RisingRowsSurvive(w: seq<Bar>, sqrt: real -> real)
    requires forall i :: 0 < i < |w| ==> w[i - 1].close < w[i].close
    requires forall i :: 0 <= i < |w| ==> 0.0 < w[i].volume
    ensures forall i :: 0 <= i < |w| ==> (FullIndicatorPolicy(IndicatorRows(w, sqrt)[i]) <==> LongWindow - 1 <= i)
  {
    RisingRsi(Closes(w));
    forall i | 0 <= i < |w| ensures FullIndicatorPolicy(IndicatorRows(w, sqrt)[i]) <==> LongWindow - 1 <= i {
      PositiveVolumeSurvives(w, sqrt, i);
    }
  }

  /** Fewer than 90 bars in the year window leave no row, and the handler raises. */
  lemma ShortHistoryRaises(arg: Option<string>, bars: seq<Bar>, sqrt: real -> real)
    requires |bars| > 0 && |YearWindow(bars)| < LongWindow
    ensures Data(arg, TimeSeries(bars), sqrt).DataRaises?
  {
    var w := YearWindow(bars);
    forall i | 0 <= i < |w| ensures !FullIndicatorPolicy(IndicatorRows(w, sqrt)[i]) {
      IndicatorRowSurvives(w, sqrt, i);
    }
    DropUndefinedNone(IndicatorRows(w, sqrt), FullIndicatorPolicy);
  }

  /** A price that never moves has an undefined RSI on every bar, so no row
      survives and the handler raises. */
  lemma ConstantCloseRaises(arg: Option<string>, bars: seq<Bar>, sqrt: real -> real, c: real)
    requires |bars| > 0
    requires forall i :: 0 <= i < |bars| ==> bars[i].close == c
    ensures Data(arg, TimeSeries(bars), sqrt).DataRaises?
  {
    var w := YearWindow(bars);
    YearWindowCloses(bars, c);
    RsiOfConstant(Closes(w), c);
    forall i | 0 <= i < |w| ensures !FullIndicatorPolicy(IndicatorRows(w, sqrt)[i]) {
      IndicatorRowSurvives(w, sqrt, i);
    }
    DropUndefinedNone(IndicatorRows(w, sqrt), FullIndicatorPolicy);
  }

  /** The year window holds bars of the provider's data only. */
  lemma YearWindowCloses(bars: seq<Bar>, c: real)
    requires forall i :: 0 <= i < |bars| ==> bars[i].close == c
    ensures forall i :: 0 <= i < |YearWindow(bars)| ==> Closes(YearWindow(bars))[i] == c
  {
    var sorted := SortByDate(bars);
    SortByDatePermutes(bars);
    forall i | 0 <= i < |sorted| ensures sorted[i].close == c {
      assert sorted[i] in multiset(bars);
    }
  }

  /** With distinct dates the year window ascends strictly, and every bar in
      it is dated within 365 days of the provider's latest bar. */
  lemma YearWindowDates(bars: seq<Bar>)
    requires DistinctDays(bars) && |bars| > 0
    ensures StrictlyIncreasing(YearWindow(bars))
    ensures forall i :: 0 <= i < |YearWindow(bars)| ==>
      YearWindow(bars)[i].day > SortByDate(bars)[|bars| - 1].day - YearDays
  {
    var sorted := SortByDate(bars);
    var w := YearWindow(bars);
    SortByDateSorted(bars);
    LastCalendarDaysKeeps(sorted, YearDays);
    var off := |sorted| - |w|;
    assert w == sorted[off..];
    SuffixIncreasing(sorted, off);
  }

  /** With distinct dates the surviving rows, and so the report's dates, are
      in strictly ascending date order and all lie in the trailing 365 days of
      the provider's data. */
  lemma SurvivingDatesAscend(bars: seq<Bar>, sqrt: real -> real)
    requires DistinctDays(bars) && |bars| > 0
    ensures var kept, cutoff := Surviving(bars, sqrt), SortByDate(bars)[|bars| - 1].day - YearDays;
      && (forall k, l :: 0 <= k < l < |kept| ==> kept[k].day < kept[l].day)
      && (forall k :: 0 <= k < |kept| ==> kept[k].day > cutoff)
  {
    var w := YearWindow(bars);
    var kept := Surviving(bars, sqrt);
    assert kept == DropUndefined(IndicatorRows(w, sqrt), FullIndicatorPolicy);
    YearWindowDates(bars);
    SurvivorDates(w, sqrt, SortByDate(bars)[|bars| - 1].day - YearDays);
  }

  /** With distinct dates the report's dates ascend strictly. */
  lemma ReportDatesAscend(arg: Option<string>, bars: seq<Bar>, sqrt: real -> real)
    requires DistinctDays(bars)
    requires Data(arg, TimeSeries(bars), sqrt).DataReport?
    ensures var d := Data(arg, TimeSeries(bars), sqrt).report.dates;
      forall k, l :: 0 <= k < l < |d| ==> d[k] < d[l]
  {
    var kept := Surviving(bars, sqrt);
    var d := Data(arg, TimeSeries(bars), sqrt).report.dates;
    assert d == MakeReport(RequestedSymbol(arg), kept).dates;
    SurvivingDatesAscend(bars, sqrt);
    forall k, l | 0 <= k < l < |d| ensures d[k] < d[l] {
      assert d[k] == kept[k].day && d[l] == kept[l].day;
    }
  }

  /** With distinct dates every date of the report lies in the trailing 365
      days of the provider's data. */
  lemma ReportDatesRecent(arg: Option<string>, bars: seq<Bar>, sqrt: real -> real)
    requires DistinctDays(bars)
    requires Data(arg, TimeSeries(bars), sqrt).DataReport?
    ensures var d := Data(arg, TimeSeries(bars), sqrt).report.dates;
      forall k :: 0 <= k < |d| ==> d[k] > SortByDate(bars)[|bars| - 1].day - YearDays
  {
    var kept := Surviving(bars, sqrt);
    var d := Data(arg, TimeSeries(bars), sqrt).report.dates;
    ReportAligned(arg, bars, sqrt);
    SurvivingDatesAscend(bars, sqrt);
    forall k | 0 <= k < |d| ensures d[k] > SortByDate(bars)[|bars| - 1].day - YearDays {
      assert d[k] == kept[k].day;
    }
  }

  lemma SurvivorDates(w: seq<Bar>, sqrt: real -> real, cutoff: int)
    requires StrictlyIncreasing(w) && DatedAfter(cutoff, w)
    ensures var kept := DropUndefined(IndicatorRows(w, sqrt), FullIndicatorPolicy);
      && (forall k, l :: 0 <= k < l < |kept| ==> kept[k].day < kept[l].day)
      && (forall k :: 0 <= k < |kept| ==> kept[k].day > cutoff)
  {
    var rows := IndicatorRows(w, sqrt);
    DropUndefinedKeepsOrder(rows, FullIndicatorPolicy, (row: IndicatorRow) => row.day);
    DropUndefinedKeeps(rows, FullIndicatorPolicy, (row: IndicatorRow) => row.day > cutoff);
  }
}
