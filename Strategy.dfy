/**
 * Causal indicators (EMA, Wilder RSI, volume SMA) over a candle frame and
 * the long-entry signal read on the last closed bar.
 */
module Strategy {
  import opened Wrappers
  import opened Config
  import opened Candles
  import opened Numbers

  // ---------------------------------------------------------------------
  // Exponential smoothing
  // ---------------------------------------------------------------------

  /**
   * pandas `ewm(alpha, adjust=False).mean()` on a series without gaps:
   * `y[0] = x[0]` and `y[t] = (1 - alpha) * y[t-1] + alpha * x[t]`.
   */
  function Smooth(xs: seq<real>, alpha: real): (ys: seq<real>)
    ensures |ys| == |xs|
    ensures |xs| > 0 ==> ys[0] == xs[0]
    decreases |xs|
  {
    if |xs| <= 1 then xs
    else
      var prev := Smooth(xs[..|xs| - 1], alpha);
      prev + [(1.0 - alpha) * prev[|prev| - 1] + alpha * xs[|xs| - 1]]
  }

  /** Smoothing a prefix gives the prefix of the smoothed series. */
  lemma {:induction false} SmoothPrefix(xs: seq<real>, alpha: real, k: nat)
    requires k <= |xs|
    ensures Smooth(xs[..k], alpha) == Smooth(xs, alpha)[..k]
    decreases |xs|
  {
    if k < |xs| {
      var init := xs[..|xs| - 1];
      SmoothPrefix(init, alpha, k);
      assert init[..k] == xs[..k];
    } else {
      assert xs[..k] == xs;
    }
  }

  /** Every position after the first follows the smoothing recurrence. */
  lemma SmoothStep(xs: seq<real>, alpha: real, t: nat)
    requires 1 <= t < |xs|
    ensures Smooth(xs, alpha)[t] == (1.0 - alpha) * Smooth(xs, alpha)[t - 1] + alpha * xs[t]
  {
    SmoothPrefix(xs, alpha, t + 1);
    var pre := xs[..t + 1];
    assert pre[..|pre| - 1] == xs[..t];
    SmoothPrefix(xs, alpha, t);
  }

  /** A convex step between two points of `[lo, hi]` stays in `[lo, hi]`. */
  lemma ConvexStep(a: real, b: real, alpha: real, lo: real, hi: real)
    requires 0.0 <= alpha <= 1.0
    requires lo <= a <= hi && lo <= b <= hi
    ensures lo <= (1.0 - alpha) * a + alpha * b <= hi
  {
    MulNonNeg(1.0 - alpha, a - lo);
    MulNonNeg(alpha, b - lo);
    MulNonNeg(1.0 - alpha, hi - a);
    MulNonNeg(alpha, hi - b);
  }

  /** With `0 <= alpha <= 1`, smoothing never leaves the range of its input. */
  lemma {:induction false} SmoothBounds(xs: seq<real>, alpha: real, lo: real, hi: real)
    requires 0.0 <= alpha <= 1.0
    requires forall i :: 0 <= i < |xs| ==> lo <= xs[i] <= hi
    ensures forall i :: 0 <= i < |xs| ==> lo <= Smooth(xs, alpha)[i] <= hi
    decreases |xs|
  {
    if |xs| > 1 {
      var init := xs[..|xs| - 1];
      SmoothBounds(init, alpha, lo, hi);
      var prev := Smooth(init, alpha);
      ConvexStep(prev[|prev| - 1], xs[|xs| - 1], alpha, lo, hi);
    }
  }

  /** A series of zeros smooths to zeros. */
  lemma SmoothZeros(xs: seq<real>, alpha: real)
    requires 0.0 <= alpha <= 1.0
    requires forall i :: 0 <= i < |xs| ==> xs[i] == 0.0
    ensures forall i :: 0 <= i < |xs| ==> Smooth(xs, alpha)[i] == 0.0
  {
    SmoothBounds(xs, alpha, 0.0, 0.0);
  }

  /** A strictly positive series smooths to a strictly positive one. */
  lemma SmoothPositive(xs: seq<real>, alpha: real)
    requires 0.0 <= alpha <= 1.0
    requires forall i :: 0 <= i < |xs| ==> xs[i] > 0.0
    ensures forall i :: 0 <= i < |xs| ==> Smooth(xs, alpha)[i] > 0.0
  {
    if |xs| > 0 {
      SmoothBounds(xs, alpha, Lowest(xs), RangeTop(xs));
    }
  }

  /** The smallest value of a non-empty series. */
  function Lowest(xs: seq<real>): (low: real)
    requires |xs| > 0
    ensures forall i :: 0 <= i < |xs| ==> low <= xs[i]
    ensures exists i :: 0 <= i < |xs| && low == xs[i]
  {
    if |xs| == 1 then xs[0]
    else
      var rest := Lowest(xs[1..]);
      assert forall i :: 1 <= i < |xs| ==> xs[i] == xs[1..][i - 1];
      if xs[0] <= rest then xs[0] else rest
  }

  /** An upper bound of a series, never below zero. */
  function RangeTop(xs: seq<real>): (top: real)
    ensures forall i :: 0 <= i < |xs| ==> xs[i] <= top
    ensures top >= 0.0
  {
    if |xs| == 0 then 0.0
    else
      var rest := RangeTop(xs[1..]);
      assert forall i :: 1 <= i < |xs| ==> xs[i] == xs[1..][i - 1];
      if xs[0] >= rest then xs[0] else rest
  }

  // ---------------------------------------------------------------------
  // Indicators
  // ---------------------------------------------------------------------

  /** The smoothing factor of an EMA with the given span: `2 / (span + 1)`. */
  function EmaAlpha(span: int): (alpha: real)
    requires span >= 1
    ensures 0.0 < alpha <= 1.0
  {
    2.0 / (span as real + 1.0)
  }

  /** `series.ewm(span=span, adjust=False).mean()`. */
  function Ema(xs: seq<real>, span: int): (e: seq<real>)
    requires span >= 1
    ensures |e| == |xs|
  {
    Smooth(xs, EmaAlpha(span))
  }

  /** The EMA of a prefix is the prefix of the EMA: it never looks ahead. */
  lemma EmaPrefix(xs: seq<real>, span: int, k: nat)
    requires span >= 1 && k <= |xs|
    ensures Ema(xs[..k], span) == Ema(xs, span)[..k]
    ensures |Ema(xs, span)| == |xs|
    ensures |xs| > 0 ==> Ema(xs, span)[0] == xs[0]
  {
    SmoothPrefix(xs, EmaAlpha(span), k);
  }

  /** `diff().clip(lower=0)` without its leading NaN: the up-moves `max(x[t+1] - x[t], 0)`. */
  function Ups(xs: seq<real>): (u: seq<real>)
    ensures |u| == if |xs| == 0 then 0 else |xs| - 1
    ensures forall i :: 0 <= i < |u| ==> u[i] >= 0.0
  {
    if |xs| == 0 then []
    else seq(|xs| - 1, i requires 0 <= i < |xs| - 1 =>
           if xs[i + 1] - xs[i] >= 0.0 then xs[i + 1] - xs[i] else 0.0)
  }

  /** `-diff().clip(upper=0)` without its leading NaN: the down-moves `max(x[t] - x[t+1], 0)`. */
  function Downs(xs: seq<real>): (d: seq<real>)
    ensures |d| == if |xs| == 0 then 0 else |xs| - 1
    ensures forall i :: 0 <= i < |d| ==> d[i] >= 0.0
  {
    if |xs| == 0 then []
    else seq(|xs| - 1, i requires 0 <= i < |xs| - 1 =>
           if xs[i + 1] - xs[i] <= 0.0 then xs[i] - xs[i + 1] else 0.0)
  }

  /**
   * `100 - 100 / (1 + up / down)` in IEEE terms: a zero down-average gives
   * an infinite ratio (RSI 100) unless the up-average is zero too, when the
   * ratio is NaN.
   */
  function RsiOf(up: real, down: real): (r: Option<real>)
    requires up >= 0.0 && down >= 0.0
    ensures r.None? <==> up == 0.0 && down == 0.0
    ensures r.Some? ==> 0.0 <= r.value <= 100.0
    ensures down > 0.0 ==> r == Some(100.0 * up / (up + down))
    ensures down == 0.0 && up > 0.0 ==> r == Some(100.0)
  {
    if down == 0.0 then (if up > 0.0 then Some(100.0) else None)
    else
      var rs := up / down;
      RsiClosedForm(up, down);
      Some(100.0 - 100.0 / (1.0 + rs))
  }

  /** `100 - 100 / (1 + up / down)` equals `100 * up / (up + down)` for a positive down-average. */
  lemma RsiClosedForm(up: real, down: real)
    requires up >= 0.0 && down > 0.0
    ensures 100.0 - 100.0 / (1.0 + up / down) == 100.0 * up / (up + down)
  {
    var s := up + down;
    var q := up / down;
    DivMul(up, down);
    DivUnique(1.0 + q, s, down);
    var v := 100.0 * down / s;
    DivMul(100.0 * down, s);
    DivMul(s, down);
    assert v * (s / down) == 100.0 by {
      assert v * (s / down) * down == v * s;
      DivUnique(v * (s / down), 100.0 * down, down);
    }
    DivUnique(v, 100.0, s / down);
    assert (100.0 - v) * s == 100.0 * up;
    DivUnique(100.0 - v, 100.0 * up, s);
  }

  lemma DivMul(a: real, b: real)
    requires b != 0.0
    ensures (a / b) * b == a
  {
  }

  lemma DivUnique(x: real, y: real, d: real)
    requires d != 0.0 && x * d == y
    ensures x == y / d
  {
  }

  lemma MulNonNeg(x: real, y: real)
    requires x >= 0.0 && y >= 0.0
    ensures x * y >= 0.0
  {
  }

  /** The Wilder smoothing factor `1 / period`. */
  function WilderAlpha(period: int): (alpha: real)
    requires period >= 1
    ensures 0.0 < alpha <= 1.0
  {
    1.0 / period as real
  }

  /**
   * Wilder's RSI. Position `t` sees the moves up to `t`; with
   * `min_periods=period` it is undefined until `period` moves exist.
   */
  function Rsi(xs: seq<real>, period: int): (r: seq<Option<real>>)
    requires period >= 1
    ensures |r| == |xs|
  {
    var alpha := WilderAlpha(period);
    var au := Smooth(Ups(xs), alpha);
    var ad := Smooth(Downs(xs), alpha);
    SmoothBounds(Ups(xs), alpha, 0.0, RangeTop(Ups(xs)));
    SmoothBounds(Downs(xs), alpha, 0.0, RangeTop(Downs(xs)));
    seq(|xs|, t requires 0 <= t < |xs| =>
      if t < period then None else RsiOf(au[t - 1], ad[t - 1]))
  }

  /** The smoothed up- and down-moves are never negative. */
  lemma AveragesNonNegative(xs: seq<real>, period: int)
    requires period >= 1
    ensures forall i :: 0 <= i < |Ups(xs)| ==> Smooth(Ups(xs), WilderAlpha(period))[i] >= 0.0
    ensures forall i :: 0 <= i < |Downs(xs)| ==> Smooth(Downs(xs), WilderAlpha(period))[i] >= 0.0
  {
    SmoothBounds(Ups(xs), WilderAlpha(period), 0.0, RangeTop(Ups(xs)));
    SmoothBounds(Downs(xs), WilderAlpha(period), 0.0, RangeTop(Downs(xs)));
  }

  /** The RSI at bar `t` read off the two smoothed move series. */
  lemma RsiAt(xs: seq<real>, period: int, t: nat)
    requires period >= 1 && t < |xs|
    ensures period <= t ==> 1 <= t && t - 1 < |Ups(xs)| && t - 1 < |Downs(xs)|
    ensures period <= t ==> Smooth(Ups(xs), WilderAlpha(period))[t - 1] >= 0.0
    ensures period <= t ==> Smooth(Downs(xs), WilderAlpha(period))[t - 1] >= 0.0
    ensures Rsi(xs, period)[t] == if t < period then None else
      RsiOf(Smooth(Ups(xs), WilderAlpha(period))[t - 1], Smooth(Downs(xs), WilderAlpha(period))[t - 1])
  {
    AveragesNonNegative(xs, period);
  }

  /** RSI has one value per bar, none for the first `period` bars, and every defined value lies in `[0, 100]`. */
  lemma RsiShape(xs: seq<real>, period: int)
    requires period >= 1
    ensures |Rsi(xs, period)| == |xs|
    ensures forall t :: 0 <= t < |xs| && t < period ==> Rsi(xs, period)[t].None?
    ensures forall t :: 0 <= t < |xs| && Rsi(xs, period)[t].Some? ==>
      0.0 <= Rsi(xs, period)[t].value <= 100.0
  {
    forall t | 0 <= t < |xs| {
      RsiAt(xs, period, t);
    }
  }

  lemma UpsPrefix(xs: seq<real>, k: nat)
    requires 1 <= k <= |xs|
    ensures Ups(xs[..k]) == Ups(xs)[..k - 1]
    ensures Downs(xs[..k]) == Downs(xs)[..k - 1]
  {
  }

  /** The RSI of a prefix is the prefix of the RSI. */
  lemma RsiPrefix(xs: seq<real>, period: int, k: nat)
    requires period >= 1 && k <= |xs|
    ensures Rsi(xs[..k], period) == Rsi(xs, period)[..k]
  {
    if k >= 1 {
      var alpha := WilderAlpha(period);
      UpsPrefix(xs, k);
      SmoothPrefix(Ups(xs), alpha, k - 1);
      SmoothPrefix(Downs(xs), alpha, k - 1);
    }
    assert |Rsi(xs[..k], period)| == |Rsi(xs, period)[..k]|;
  }

  /** On a strictly rising series every defined RSI value is 100. */
  lemma RsiRising(xs: seq<real>, period: int, t: nat)
    requires period >= 1
    requires forall i :: 0 <= i < |xs| - 1 ==> xs[i] < xs[i + 1]
    requires period <= t < |xs|
    ensures Rsi(xs, period)[t] == Some(100.0)
  {
    var alpha := WilderAlpha(period);
    SmoothPositive(Ups(xs), alpha);
    SmoothZeros(Downs(xs), alpha);
    RsiAt(xs, period, t);
  }

  /** On a flat series RSI is undefined everywhere. */
  lemma RsiFlat(xs: seq<real>, period: int, t: nat)
    requires period >= 1
    requires forall i :: 0 <= i < |xs| - 1 ==> xs[i] == xs[i + 1]
    requires t < |xs|
    ensures Rsi(xs, period)[t].None?
  {
    var alpha := WilderAlpha(period);
    SmoothZeros(Ups(xs), alpha);
    SmoothZeros(Downs(xs), alpha);
    RsiAt(xs, period, t);
  }

  function Sum(xs: seq<real>): real
  {
    if |xs| == 0 then 0.0 else Sum(xs[..|xs| - 1]) + xs[|xs| - 1]
  }

  /** `rolling(w, min_periods=w).mean()`: the mean of the last `w` values, undefined before `w` exist. */
  function RollingMean(xs: seq<real>, w: int): (m: seq<Option<real>>)
    requires w >= 1
    ensures |m| == |xs|
    ensures forall i :: 0 <= i < |xs| ==> (m[i].None? <==> i + 1 < w)
  {
    seq(|xs|, i requires 0 <= i < |xs| =>
      if i + 1 < w then None else Some(Sum(xs[i + 1 - w..i + 1]) / w as real))
  }

  lemma RollingMeanPrefix(xs: seq<real>, w: int, k: nat)
    requires w >= 1 && k <= |xs|
    ensures RollingMean(xs[..k], w) == RollingMean(xs, w)[..k]
  {
    forall i | 0 <= i < k
      ensures RollingMean(xs[..k], w)[i] == RollingMean(xs, w)[i]
    {
      if i + 1 >= w {
        assert xs[..k][i + 1 - w..i + 1] == xs[i + 1 - w..i + 1];
      }
    }
  }

  // ---------------------------------------------------------------------
  // Frames
  // ---------------------------------------------------------------------

  /**
   * A candle DataFrame: the OHLCV rows and, when present, the indicator
   * columns (each column is absent or has one entry per row; an undefined
   * RSI or volume mean is `None`).
   */
  datatype Frame = Frame(
    candles: seq<Candle>,
    emaFast: Option<seq<real>>,
    emaSlow: Option<seq<real>>,
    rsi: Option<seq<Option<real>>>,
    volSma: Option<seq<Option<real>>>)

  /** A frame of raw candles, without indicator columns. */
  function Raw(candles: seq<Candle>): Frame
  {
    Frame(candles, None, None, None, None)
  }

  ghost predicate WellFormed(f: Frame)
  {
    && (f.emaFast.Some? ==> |f.emaFast.value| == |f.candles|)
    && (f.emaSlow.Some? ==> |f.emaSlow.value| == |f.candles|)
    && (f.rsi.Some? ==> |f.rsi.value| == |f.candles|)
    && (f.volSma.Some? ==> |f.volSma.value| == |f.candles|)
  }

  /** The frame carries all three columns the signal reads. */
  predicate HasIndicators(f: Frame)
  {
    f.emaFast.Some? && f.emaSlow.Some? && f.rsi.Some?
  }

  function Closes(candles: seq<Candle>): (xs: seq<real>)
    ensures |xs| == |candles|
    ensures forall i :: 0 <= i < |candles| ==> xs[i] == candles[i].close
  {
    seq(|candles|, i requires 0 <= i < |candles| => candles[i].close)
  }

  function Volumes(candles: seq<Candle>): (xs: seq<real>)
    ensures |xs| == |candles|
  {
    seq(|candles|, i requires 0 <= i < |candles| => candles[i].volume)
  }

  lemma ClosesPrefix(candles: seq<Candle>, k: nat)
    requires k <= |candles|
    ensures Closes(candles[..k]) == Closes(candles)[..k]
    ensures Volumes(candles[..k]) == Volumes(candles)[..k]
  {
  }

  function SliceColumn<T>(c: Option<seq<T>>, k: nat): Option<seq<T>>
    requires c.Some? ==> k <= |c.value|
  {
    match c
    case None => None
    case Some(s) => Some(s[..k])
  }

  /** Every row but the last (`df.iloc[:-1]`), with each column cut the same way. */
  function DropLast(f: Frame): (v: Frame)
    requires WellFormed(f) && |f.candles| >= 1
    ensures WellFormed(v) && |v.candles| == |f.candles| - 1
    ensures v.candles == f.candles[..|f.candles| - 1]
    ensures HasIndicators(v) == HasIndicators(f)
  {
    var k := |f.candles| - 1;
    Frame(f.candles[..k], SliceColumn(f.emaFast, k), SliceColumn(f.emaSlow, k),
      SliceColumn(f.rsi, k), SliceColumn(f.volSma, k))
  }

  /** The periods are ones pandas accepts: a span of at least 1 and an RSI alpha in (0, 1]. */
  predicate PeriodsValid(cfg: AppConfig)
  {
    cfg.emaFast >= 1 && cfg.emaSlow >= 1 && cfg.rsiPeriod >= 1
    && (cfg.enableVolFilter ==> cfg.volSmaPeriod >= 1)
  }

  /**
   * `calculate_indicators`: a copy of the frame with the EMA and RSI columns
   * (re)computed from the closes, and the volume mean when the filter is on.
   * An empty frame comes back as it is.
   */
  function CalculateIndicators(f: Frame, cfg: AppConfig): (r: Frame)
    requires WellFormed(f)
    requires |f.candles| > 0 ==> PeriodsValid(cfg)
    ensures WellFormed(r)
    ensures |f.candles| == 0 ==> r == f
    ensures r.candles == f.candles
    ensures |f.candles| > 0 ==> HasIndicators(r)
    ensures !cfg.enableVolFilter ==> r.volSma == f.volSma
    ensures cfg.enableVolFilter && |f.candles| > 0 ==> r.volSma.Some?
  {
    if |f.candles| == 0 then f
    else
      var xs := Closes(f.candles);
      RsiShape(xs, cfg.rsiPeriod);
      Frame(
        f.candles,
        Some(Ema(xs, cfg.emaFast)),
        Some(Ema(xs, cfg.emaSlow)),
        Some(Rsi(xs, cfg.rsiPeriod)),
        if cfg.enableVolFilter then Some(RollingMean(Volumes(f.candles), cfg.volSmaPeriod)) else f.volSma)
  }

  /** Computing the indicators on the closed view equals cutting the indicators of the whole frame. */
  lemma IndicatorsCausal(f: Frame, cfg: AppConfig)
    requires WellFormed(f) && |f.candles| >= 2 && PeriodsValid(cfg)
    ensures CalculateIndicators(DropLast(f), cfg) == DropLast(CalculateIndicators(f, cfg))
  {
    var k := |f.candles| - 1;
    var xs := Closes(f.candles);
    ClosesPrefix(f.candles, k);
    EmaPrefix(xs, cfg.emaFast, k);
    EmaPrefix(xs, cfg.emaSlow, k);
    RsiPrefix(xs, cfg.rsiPeriod, k);
    if cfg.enableVolFilter {
      RollingMeanPrefix(Volumes(f.candles), cfg.volSmaPeriod, k);
    }
  }

  // ---------------------------------------------------------------------
  // Entry signal
  // ---------------------------------------------------------------------

  datatype Signal = Buy

  /** The RSI margin around the configured buy band. */
  const RsiMargin: real := 3.0

  /** Closed bars needed before a signal can fire. */
  function MinHistory(cfg: AppConfig): (m: int)
    ensures m >= cfg.emaSlow + 2 && m >= cfg.rsiPeriod + 2
    ensures m == cfg.emaSlow + 2 || m == cfg.rsiPeriod + 2
  {
    MaxInt(cfg.emaSlow, cfg.rsiPeriod) + 2
  }

  /** The previous closed bar closed strictly above the last closed bar. */
  predicate IsPullback(w: Frame)
    ensures |w.candles| < 2 ==> !IsPullback(w)
    ensures IsPullback(w) ==> Closes(w.candles)[|w.candles| - 1] < Closes(w.candles)[|w.candles| - 2]
  {
    |w.candles| >= 2 && w.candles[|w.candles| - 2].close > w.candles[|w.candles| - 1].close
  }

  /** The fast EMA strictly above the slow one: never for equal averages. */
  predicate TrendUp(emaFast: real, emaSlow: real)
    ensures emaFast == emaSlow ==> !TrendUp(emaFast, emaSlow)
  {
    emaFast > emaSlow
  }

  /** A defined RSI within the buy band widened by the margin on both sides. */
  predicate RsiInRange(rsi: Option<real>, cfg: AppConfig)
    ensures RsiInRange(rsi, cfg) ==> rsi.Some?
    ensures rsi.Some? && cfg.rsiBuyMin as real <= rsi.value <= cfg.rsiBuyMax as real ==> RsiInRange(rsi, cfg)
  {
    rsi.Some? && rsi.value >= cfg.rsiBuyMin as real - RsiMargin && rsi.value <= cfg.rsiBuyMax as real + RsiMargin
  }

  /** The close, plus a slippage-sized tolerance, reaches the fast EMA. */
  predicate CloseAboveFast(close: real, emaFast: real, cfg: AppConfig)
    ensures cfg.slippageBps >= 0 && close >= emaFast ==> CloseAboveFast(close, emaFast, cfg)
    ensures cfg.slippageBps == 0 ==> (CloseAboveFast(close, emaFast, cfg) <==> close >= emaFast)
  {
    close + SlippageFraction(cfg) * Abs(close) >= emaFast
  }

  /** The signal computes indicators itself only when a long enough closed view lacks them. */
  predicate ComputesIndicators(f: Frame, cfg: AppConfig)
  {
    |f.candles| >= 2 && |f.candles| - 1 >= MinHistory(cfg) && !HasIndicators(f)
  }

  /** The four entry conditions on the last bar of a frame that carries the indicators. */
  predicate EntryConditions(w: Frame, cfg: AppConfig)
    requires WellFormed(w) && HasIndicators(w) && |w.candles| >= 1
    ensures EntryConditions(w, cfg) ==>
      && |w.candles| >= 2
      && w.rsi.value[|w.candles| - 1].Some?
      && w.emaFast.value[|w.candles| - 1] > w.emaSlow.value[|w.candles| - 1]
  {
    var i := |w.candles| - 1;
    && IsPullback(w)
    && TrendUp(w.emaFast.value[i], w.emaSlow.value[i])
    && RsiInRange(w.rsi.value[i], cfg)
    && CloseAboveFast(w.candles[i].close, w.emaFast.value[i], cfg)
  }

  /**
   * `generate_signal`: drop the possibly incomplete last row, demand enough
   * history, use the indicator columns when present and compute them
   * otherwise, and buy when all four conditions hold on the last closed bar.
   */
  function GenerateSignal(f: Frame, cfg: AppConfig): (r: Option<Signal>)
    requires WellFormed(f)
    requires ComputesIndicators(f, cfg) ==> PeriodsValid(cfg)
    ensures |f.candles| < 2 ==> r.None?
    ensures |f.candles| >= 2 && |f.candles| - 1 < MinHistory(cfg) ==> r.None?
  {
    if |f.candles| < 2 then None
    else
      var view := DropLast(f);
      if |view.candles| < MinHistory(cfg) then None
      else
        var work := if HasIndicators(view) then view else CalculateIndicators(view, cfg);
        if EntryConditions(work, cfg) then Some(Buy) else None
  }

  /** The input with its last row replaced: closed rows and their columns stay. */
  ghost predicate SameClosedRows(f: Frame, g: Frame)
  {
    WellFormed(f) && WellFormed(g) && |f.candles| == |g.candles| >= 1 && DropLast(f) == DropLast(g)
  }

  /** Changing only the final row of a frame never changes the signal. */
  lemma SignalIgnoresLastRow(f: Frame, g: Frame, cfg: AppConfig)
    requires SameClosedRows(f, g)
    requires ComputesIndicators(f, cfg) ==> PeriodsValid(cfg)
    ensures ComputesIndicators(g, cfg) ==> PeriodsValid(cfg)
    ensures GenerateSignal(f, cfg) == GenerateSignal(g, cfg)
  {
  }

  /** Precomputing the indicators on the whole frame gives the same signal as computing them on the fly. */
  lemma PrecomputedAgrees(f: Frame, cfg: AppConfig)
    requires WellFormed(f) && !HasIndicators(f) && PeriodsValid(cfg)
    ensures GenerateSignal(CalculateIndicators(f, cfg), cfg) == GenerateSignal(f, cfg)
  {
    if |f.candles| >= 2 {
      IndicatorsCausal(f, cfg);
    }
  }

  /**
   * Changing only the final candle changes neither the on-the-fly signal nor
   * the signal on a frame whose indicators were precomputed over every row,
   * the changed one included.
   */
  lemma PrecomputedIgnoresLastCandle(a: seq<Candle>, b: seq<Candle>, cfg: AppConfig)
    requires |a| == |b| >= 1 && a[..|a| - 1] == b[..|b| - 1]
    requires PeriodsValid(cfg)
    ensures GenerateSignal(Raw(a), cfg) == GenerateSignal(Raw(b), cfg)
    ensures GenerateSignal(CalculateIndicators(Raw(a), cfg), cfg) == GenerateSignal(Raw(b), cfg)
    ensures GenerateSignal(CalculateIndicators(Raw(b), cfg), cfg) == GenerateSignal(Raw(a), cfg)
  {
    assert SameClosedRows(Raw(a), Raw(b));
    SignalIgnoresLastRow(Raw(a), Raw(b), cfg);
    PrecomputedAgrees(Raw(a), cfg);
    PrecomputedAgrees(Raw(b), cfg);
  }

  /**
   * The four entry conditions at bar `j` of raw candles, read on the
   * indicators of the whole close series.
   */
  ghost predicate EntryAt(candles: seq<Candle>, cfg: AppConfig, j: nat)
    requires PeriodsValid(cfg) && 1 <= j < |candles|
  {
    var xs := Closes(candles);
    var ef := Ema(xs, cfg.emaFast);
    && xs[j - 1] > xs[j]
    && TrendUp(ef[j], Ema(xs, cfg.emaSlow)[j])
    && RsiInRange(Rsi(xs, cfg.rsiPeriod)[j], cfg)
    && CloseAboveFast(xs[j], ef[j], cfg)
  }

  /**
   * On raw candles the signal is "buy" exactly when there is enough history
   * and the four conditions hold at the last closed index `n - 2`, with the
   * indicators of the WHOLE close series read there: no value computed from
   * the final row is consulted.
   */
  lemma SignalOnRawCandles(candles: seq<Candle>, cfg: AppConfig)
    requires PeriodsValid(cfg)
    ensures GenerateSignal(Raw(candles), cfg) == Some(Buy) <==>
      |candles| >= 2 && |candles| - 1 >= MinHistory(cfg) && EntryAt(candles, cfg, |candles| - 2)
  {
    var n := |candles|;
    if n >= 2 && n - 1 >= MinHistory(cfg) {
      var f := Raw(candles);
      var xs := Closes(candles);
      IndicatorsCausal(f, cfg);
      var w := CalculateIndicators(DropLast(f), cfg);
      var full := CalculateIndicators(f, cfg);
      assert w == DropLast(full);
      assert w.emaFast.value == Ema(xs, cfg.emaFast)[..n - 1];
      assert w.emaSlow.value == Ema(xs, cfg.emaSlow)[..n - 1];
      assert w.rsi.value == Rsi(xs, cfg.rsiPeriod)[..n - 1];
      assert w.candles[n - 2].close == xs[n - 2];
      assert w.candles[n - 3].close == xs[n - 3];
      assert GenerateSignal(f, cfg) == if EntryConditions(w, cfg) then Some(Buy) else None;
    }
  }

  /**
   * On a frame that already carries the indicator columns, the signal is
   * "buy" exactly when the four conditions hold on those columns at the
   * last closed index `n - 2`.
   */
  lemma SignalOnPrecomputed(f: Frame, cfg: AppConfig)
    requires WellFormed(f) && HasIndicators(f)
    ensures var n := |f.candles|;
      GenerateSignal(f, cfg) == Some(Buy) <==>
        && n >= 2 && n - 1 >= MinHistory(cfg)
        && (n >= 3 && f.candles[n - 3].close > f.candles[n - 2].close)
        && f.emaFast.value[n - 2] > f.emaSlow.value[n - 2]
        && RsiInRange(f.rsi.value[n - 2], cfg)
        && CloseAboveFast(f.candles[n - 2].close, f.emaFast.value[n - 2], cfg)
  {
  }

  /** With the defaults, fewer than 203 rows (202 closed bars plus the open one) never signal. */
  lemma DefaultNeedsHistory(f: Frame)
    requires WellFormed(f) && |f.candles| < 203
    ensures GenerateSignal(f, Default).None?
  {
  }
}
