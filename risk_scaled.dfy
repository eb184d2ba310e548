/**
 * The risk-scaled buy-and-hold strategy: always long, with a position of
 * target volatility over realised rolling volatility, capped at 5.
 */
module RiskScaled {
  import opened Wrappers
  import opened Series
  import opened StrategyBase
  import opened Backtester

  /** Upper clip of the position. */
  const MaxPosition: real := 5.0

  /**
   * `(target_vol / sigma).clip(upper=5.0)` on one cell. A zero volatility
   * gives an infinite ratio, capped at 5, for a positive target, and 0 / 0,
   * which stays missing, for a zero target.
   */
  function TargetRatio(targetVol: real, sigma: Cell): (r: Cell)
    requires targetVol >= 0.0
    ensures sigma.None? ==> r.None?
    ensures r.Some? ==> r.value <= MaxPosition
    ensures r.Some? && sigma.Some? && sigma.value >= 0.0 ==> r.value >= 0.0
  {
    if sigma.None? then None
    else if sigma.value == 0.0 then (if targetVol > 0.0 then Some(MaxPosition) else None)
    else Some(ClipUpper(targetVol / sigma.value, MaxPosition))
  }

  /** Every defined position is at most 5, and a defined volatility gives a defined position unless both are 0. */
  lemma TargetRatioBounds(targetVol: real, sigma: Cell)
    requires targetVol >= 0.0
    ensures TargetRatio(targetVol, sigma).Some? ==> TargetRatio(targetVol, sigma).value <= MaxPosition
    ensures TargetRatio(targetVol, sigma).Some? <==> sigma.Some? && (sigma.value != 0.0 || targetVol > 0.0)
  {
  }

  /**
   * For a positive volatility the position carries the target risk, or
   * five times the volatility when the cap binds: position * sigma =
   * min(target, 5 * sigma).
   */
  lemma TargetRatioCarriesTarget(targetVol: real, sigma: real)
    requires targetVol >= 0.0 && sigma > 0.0
    ensures TargetRatio(targetVol, Some(sigma)).Some?
    ensures TargetRatio(targetVol, Some(sigma)).value * sigma
      == if targetVol <= MaxPosition * sigma then targetVol else MaxPosition * sigma
  {
    var q := targetVol / sigma;
    assert q * sigma == targetVol;
    assert TargetRatio(targetVol, Some(sigma)).value == ClipUpper(q, MaxPosition);
    CappedTimesSigma(targetVol, sigma, q);
  }

  /** The capped ratio `q` of `t` over `sigma`, times `sigma`, is `t` or the cap times `sigma`. */
  lemma CappedTimesSigma(t: real, sigma: real, q: real)
    requires sigma > 0.0 && q * sigma == t
    ensures ClipUpper(q, MaxPosition) * sigma == if t <= MaxPosition * sigma then t else MaxPosition * sigma
  {
    if q <= MaxPosition {
      ScaleMonotone(q, MaxPosition, sigma);
    } else {
      ScaleMonotone(MaxPosition, q, sigma);
    }
  }

  /** Multiplying by a positive volatility keeps the order of two ratios. */
  lemma ScaleMonotone(a: real, b: real, c: real)
    requires a <= b && c > 0.0
    ensures a * c <= b * c
    ensures a < b ==> a * c < b * c
  {
    ProductNonNegative(b - a, c);
    assert (b - a) * c == b * c - a * c;
    if a < b {
      assert (b - a) * c > 0.0;
    }
  }

  /**
   * `generate_signals`: an empty price series fails first, then a missing
   * window; otherwise the capped target ratio of the rolling volatility of
   * `pct_change().fillna(0.0)`, with no fill, so the first `w - 1`
   * positions are missing.
   */
  function RiskScaledSignals(prices: seq<Cell>, targetVol: real, volWindow: Option<nat>, windowVol: seq<real> -> real)
    : (r: Result<seq<Cell>>)
    requires PresentDivisorsNonZero(prices) && targetVol >= 0.0
    ensures r.Err? <==> |prices| == 0 || volWindow.None?
    ensures r.Err? ==> r.error == if |prices| == 0 then EmptySeries else VolWindowNotSet
    ensures r.Ok? ==> |r.value| == |prices|
    ensures r.Ok? ==> forall t :: 0 <= t < |prices| && r.value[t].Some? ==> r.value[t].value <= MaxPosition
    ensures r.Ok? ==> forall t :: 0 <= t < |prices| && t + 1 < volWindow.value ==> r.value[t].None?
  {
    if |prices| == 0 then Err(EmptySeries)
    else
      var sigma := RollingVol(PaddedPctChange(prices), volWindow, windowVol);
      if sigma.Err? then Err(sigma.error)
      else
        var pos := seq(|prices|, t requires 0 <= t < |prices| => TargetRatio(targetVol, sigma.value[t]));
        assert forall t :: 0 <= t < |prices| && pos[t].Some? ==> pos[t].value <= MaxPosition by {
          forall t | 0 <= t < |prices| { TargetRatioBounds(targetVol, sigma.value[t]); }
        }
        Ok(pos)
  }

  /** Each position is the capped target ratio of the rolling volatility of the returns up to it. */
  lemma RiskScaledPosition(prices: seq<Cell>, targetVol: real, w: nat, windowVol: seq<real> -> real, t: nat)
    requires PresentDivisorsNonZero(prices) && targetVol >= 0.0 && t < |prices|
    ensures RiskScaledSignals(prices, targetVol, Some(w), windowVol).Ok?
    ensures RiskScaledSignals(prices, targetVol, Some(w), windowVol).value[t]
      == TargetRatio(targetVol, RollingVol(PaddedPctChange(prices), Some(w), windowVol).value[t])
  {
  }

  /** With a positive target, every bar with a full window carries a position. */
  lemma RiskScaledDefinedAfterWarmUp(prices: seq<Cell>, targetVol: real, w: nat, windowVol: seq<real> -> real, t: nat)
    requires PresentDivisorsNonZero(prices) && targetVol > 0.0
    requires w >= 2 && w - 1 <= t < |prices|
    ensures RiskScaledSignals(prices, targetVol, Some(w), windowVol).value[t].Some?
  {
    RiskScaledPosition(prices, targetVol, w, windowVol, t);
  }

  /**
   * The signals go to the backtester as they are: its result is the same as
   * with the missing warm-up signals replaced by 0, and no position is held
   * up to bar `w - 1`.
   */
  lemma RiskScaledBacktestWarmUp(prices: seq<Cell>, targetVol: real, w: nat, windowVol: seq<real> -> real, tc: real, t: nat)
    requires PresentDivisorsNonZero(prices) && targetVol >= 0.0 && t < |prices| && t < w
    ensures RiskScaledSignals(prices, targetVol, Some(w), windowVol).Ok?
    ensures var sig := RiskScaledSignals(prices, targetVol, Some(w), windowVol).value;
      && BacktestStrategy(prices, sig, tc).Ok?
      && BacktestStrategy(prices, Lift(Instructions(sig)), tc) == BacktestStrategy(prices, sig, tc)
      && Positions(sig)[t] == 0.0
  {
    var sig := RiskScaledSignals(prices, targetVol, Some(w), windowVol).value;
    assert forall k :: 0 <= k < t ==> sig[k].None?;
    MissingSignalBacktest(prices, sig, tc);
    NoPositionBeforeFirstSignal(sig, t);
  }
}
