/**
 * The variable-risk buy-and-hold strategy: the position is a blended
 * volatility target over the fast volatility, capped at a maximum leverage,
 * and forward filled.
 */
module VariableRiskScaled {
  import opened Wrappers
  import opened Series
  import opened StrategyBase

  /** Default cap on the position. */
  const DefaultMaxLeverage: real := 7.0

  /** A deviation: missing or nonnegative. */
  predicate NonNegative(c: Cell) { c.Some? ==> c.value >= 0.0 }

  function Min(a: real, b: real): real { if a <= b then a else b }

  /**
   * `(blended_vol / sigma_fast).clip(upper=max_leverage)` on one cell. A zero
   * fast volatility gives an infinite ratio, capped, when the blend is
   * positive, and 0 / 0, which stays missing, when the blend is 0 too.
   */
  function VariableRatio(fast: Cell, slow: Cell, maxLeverage: real): (r: Cell)
    requires NonNegative(fast) && NonNegative(slow)
    ensures r.Some? ==> r.value <= maxLeverage
  {
    var blended := Blend(fast, slow);
    if blended.None? then None
    else if fast.value == 0.0 then
      (if blended.value > 0.0 then Some(maxLeverage) else None)
    else Some(ClipUpper(blended.value / fast.value, maxLeverage))
  }

  /** Equal positive volatilities make the ratio 1, which a leverage cap of at least 1 leaves alone. */
  lemma EqualVolsGiveUnitPosition(sigma: real, maxLeverage: real)
    requires sigma > 0.0 && maxLeverage >= 1.0
    ensures VariableRatio(Some(sigma), Some(sigma), maxLeverage) == Some(1.0)
  {
    assert FastShare * sigma + SlowShare * sigma == sigma;
  }

  /** The ratio is 0.7 plus 0.3 times slow over fast, at least 0.7 for a positive fast volatility. */
  lemma RatioAtLeastFastShare(f: real, s: real)
    requires f > 0.0 && s >= 0.0
    ensures (FastShare * f + SlowShare * s) / f >= FastShare
  {
    assert (FastShare * f + SlowShare * s) / f == FastShare + SlowShare * s / f;
    assert s / f >= 0.0;
  }

  /** For nonnegative volatilities every defined ratio lies in [min(0.7, cap), cap]. */
  lemma VariableRatioBounds(fast: Cell, slow: Cell, maxLeverage: real)
    requires NonNegative(fast) && NonNegative(slow)
    ensures VariableRatio(fast, slow, maxLeverage).Some? ==>
      Min(FastShare, maxLeverage) <= VariableRatio(fast, slow, maxLeverage).value <= maxLeverage
  {
    if fast.Some? && slow.Some? && fast.value > 0.0 {
      RatioAtLeastFastShare(fast.value, slow.value);
    }
  }

  /** The raw positions before the forward fill. */
  function RawPositions(sigmaFast: seq<Cell>, sigmaSlow: seq<Cell>, maxLeverage: real): (r: seq<Cell>)
    requires |sigmaFast| == |sigmaSlow|
    requires forall t :: 0 <= t < |sigmaFast| ==> NonNegative(sigmaFast[t]) && NonNegative(sigmaSlow[t])
    ensures |r| == |sigmaFast|
  {
    seq(|sigmaFast|, t requires 0 <= t < |sigmaFast| => VariableRatio(sigmaFast[t], sigmaSlow[t], maxLeverage))
  }

  /**
   * `generate_signals` with the two exponentially weighted volatilities given:
   * an empty price series fails; otherwise the raw positions forward filled,
   * so a missing raw position carries the previous position and leading
   * missing positions stay missing.
   */
  function VariableRiskScaledSignals(prices: seq<Cell>, sigmaFast: seq<Cell>, sigmaSlow: seq<Cell>, maxLeverage: real)
    : (r: Result<seq<Cell>>)
    requires |sigmaFast| == |prices| && |sigmaSlow| == |prices|
    requires forall t :: 0 <= t < |prices| ==> NonNegative(sigmaFast[t]) && NonNegative(sigmaSlow[t])
    ensures r.Err? <==> |prices| == 0
    ensures r.Err? ==> r.error == EmptySeries
    ensures r.Ok? ==> |r.value| == |prices|
    ensures r.Ok? ==> forall t :: 0 <= t < |prices| ==>
      r.value[t] == LastPresent(RawPositions(sigmaFast, sigmaSlow, maxLeverage)[..t + 1])
  {
    if |prices| == 0 then Err(EmptySeries)
    else
      var raw := RawPositions(sigmaFast, sigmaSlow, maxLeverage);
      assert forall t :: 0 <= t < |prices| ==> FFill(raw)[t] == LastPresent(raw[..t + 1]) by {
        forall t | 0 <= t < |prices| { FFillIsLastPresent(raw, t); }
      }
      Ok(FFill(raw))
  }

  /** After the fill a position is missing exactly while no raw position has been defined yet. */
  lemma MissingOnlyBeforeFirstRaw(prices: seq<Cell>, sigmaFast: seq<Cell>, sigmaSlow: seq<Cell>, maxLeverage: real, t: nat)
    requires |sigmaFast| == |prices| && |sigmaSlow| == |prices| && t < |prices|
    requires forall k :: 0 <= k < |prices| ==> NonNegative(sigmaFast[k]) && NonNegative(sigmaSlow[k])
    ensures VariableRiskScaledSignals(prices, sigmaFast, sigmaSlow, maxLeverage).value[t].None? <==>
      forall k :: 0 <= k <= t ==> RawPositions(sigmaFast, sigmaSlow, maxLeverage)[k].None?
  {
    FFillMissing(RawPositions(sigmaFast, sigmaSlow, maxLeverage), t);
  }

  /** For nonnegative volatilities every defined position lies in [min(0.7, cap), cap]. */
  lemma VariableRiskScaledBounds(prices: seq<Cell>, sigmaFast: seq<Cell>, sigmaSlow: seq<Cell>, maxLeverage: real)
    requires |sigmaFast| == |prices| && |sigmaSlow| == |prices| && |prices| > 0
    requires forall k :: 0 <= k < |prices| ==> NonNegative(sigmaFast[k]) && NonNegative(sigmaSlow[k])
    ensures forall t :: 0 <= t < |prices| && VariableRiskScaledSignals(prices, sigmaFast, sigmaSlow, maxLeverage).value[t].Some? ==>
      Min(FastShare, maxLeverage) <= VariableRiskScaledSignals(prices, sigmaFast, sigmaSlow, maxLeverage).value[t].value <= maxLeverage
  {
    var raw := RawPositions(sigmaFast, sigmaSlow, maxLeverage);
    forall k | 0 <= k < |raw| && raw[k].Some?
      ensures Min(FastShare, maxLeverage) <= raw[k].value <= maxLeverage
    {
      VariableRatioBounds(sigmaFast[k], sigmaSlow[k], maxLeverage);
    }
    FFillWithinBounds(raw, Min(FastShare, maxLeverage), maxLeverage);
  }
}
