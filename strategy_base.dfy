/**
 * The shared sizing helpers of the strategies: the rolling volatility of a
 * return series and the per-asset inverse-volatility weights of the
 * multi-asset strategies.
 *
 * Standard deviations are not computed here: the rolling one is the function
 * `windowVol` of a window of returns (annualised sample deviation), the
 * exponentially weighted ones are given panels.
 */
module StrategyBase {
  import opened Wrappers
  import opened Series

  /** Upper clip of the inverse-volatility weights. */
  const MaxRawWeight: real := 7.0
  /** Weight of the fast volatility in the blend (the slow one has the rest). */
  const FastShare: real := 0.7
  const SlowShare: real := 0.3

  /**
   * `_rolling_vol`: without a window the call fails; otherwise the value at
   * `t` is the deviation of the `w` returns ending at `t`, defined once `w`
   * returns are available and only for `w >= 2` (a sample deviation needs
   * two observations).
   */
  function RollingVol(rets: seq<real>, volWindow: Option<nat>, windowVol: seq<real> -> real): (r: Result<seq<Cell>>)
    ensures r.Err? <==> volWindow.None?
    ensures r.Err? ==> r.error == VolWindowNotSet
    ensures r.Ok? ==> |r.value| == |rets|
    ensures r.Ok? ==> forall t :: 0 <= t < |rets| ==>
      (r.value[t].Some? <==> volWindow.value >= 2 && t >= volWindow.value - 1)
  {
    if volWindow.None? then Err(VolWindowNotSet)
    else
      var w := volWindow.value;
      Ok(seq(|rets|, t requires 0 <= t < |rets| =>
        if w >= 2 && t >= w - 1 then Some(windowVol(rets[t - w + 1..t + 1])) else None))
  }

  /** A defined rolling deviation is the deviation of the window of the last `w` returns. */
  lemma RollingVolWindow(rets: seq<real>, w: nat, windowVol: seq<real> -> real, t: nat)
    requires t < |rets| && w >= 2 && t >= w - 1
    ensures RollingVol(rets, Some(w), windowVol).value[t] == Some(windowVol(rets[t - w + 1..t + 1]))
  {
  }

  /** The rolling deviation at `t` reads only the returns up to `t`. */
  lemma RollingVolCausal(r1: seq<real>, r2: seq<real>, w: nat, windowVol: seq<real> -> real, t: nat)
    requires t < |r1| && t < |r2| && r1[..t + 1] == r2[..t + 1]
    ensures RollingVol(r1, Some(w), windowVol).value[t] == RollingVol(r2, Some(w), windowVol).value[t]
  {
    if w >= 2 && t >= w - 1 {
      assert r1[t - w + 1..t + 1] == r1[..t + 1][t - w + 1..];
      assert r2[t - w + 1..t + 1] == r2[..t + 1][t - w + 1..];
    }
  }

  /** `0.7 * sigma_fast + 0.3 * sigma_slow` on one cell; missing where either is missing. */
  function Blend(fast: Cell, slow: Cell): (r: Cell)
    ensures r.Some? <==> fast.Some? && slow.Some?
    ensures r.Some? && fast.value <= slow.value ==> fast.value <= r.value <= slow.value
    ensures r.Some? && slow.value <= fast.value ==> slow.value <= r.value <= fast.value
  {
    if fast.Some? && slow.Some? then Some(FastShare * fast.value + SlowShare * slow.value) else None
  }

  /**
   * `(1 / blended_vol).clip(upper=7.0)` on one cell: a zero volatility has an
   * infinite reciprocal and so takes the cap.
   */
  function InverseVolWeight(blended: Cell): (r: Cell)
    ensures r.Some? <==> blended.Some?
    ensures r.Some? ==> r.value <= MaxRawWeight
    ensures r.Some? && blended.value == 0.0 ==> r.value == MaxRawWeight
    ensures r.Some? && blended.value != 0.0 ==> r.value == ClipUpper(1.0 / blended.value, MaxRawWeight)
  {
    if blended.None? then None
    else if blended.value == 0.0 then Some(MaxRawWeight)
    else Some(ClipUpper(1.0 / blended.value, MaxRawWeight))
  }

  /** A nonnegative volatility gives a weight in [0, 7]. */
  lemma InverseVolWeightBounds(blended: Cell)
    requires blended.Some? && blended.value >= 0.0
    ensures 0.0 <= InverseVolWeight(blended).value <= MaxRawWeight
  {
    if blended.value > 0.0 {
      assert 1.0 / blended.value > 0.0;
    }
  }

  /** A weight below the cap is the exact reciprocal: weight times volatility is 1. */
  lemma InverseVolWeightUnitRisk(blended: Cell)
    requires blended.Some? && blended.value > 0.0
    requires InverseVolWeight(blended).value < MaxRawWeight
    ensures InverseVolWeight(blended).value * blended.value == 1.0
  {
  }

  /** One column of the weights: reciprocal and clip, then `ffill()` and `fillna(0.0)`. */
  function VolScaledColumn(fast: seq<Cell>, slow: seq<Cell>): (r: seq<real>)
    requires |fast| == |slow|
    ensures |r| == |fast|
    ensures forall t :: 0 <= t < |r| ==> r[t] <= MaxRawWeight
  {
    var raw := seq(|fast|, t requires 0 <= t < |fast| => InverseVolWeight(Blend(fast[t], slow[t])));
    forall t | 0 <= t < |raw| && FFill(raw)[t].Some?
      ensures FFill(raw)[t].value <= MaxRawWeight
    {
      FFillIsLastPresent(raw, t);
      LastPresentIsACell(raw[..t + 1]);
    }
    FillNa(FFill(raw), 0.0)
  }

  /** Two panels of deviations of the shape of the prices. */
  ghost predicate SameShape(prices: Panel, m: nat, sigma: Panel)
  {
    IsPanel(prices, m) && |sigma| == |prices| && IsPanel(sigma, m)
  }

  /**
   * `compute_vol_scaled_positions`: per-asset weights of the shape of the
   * prices, without missing cells. `targetVol` is accepted and never read.
   */
  function VolScaledPositions(prices: Panel, m: nat, targetVol: real, sigmaFast: Panel, sigmaSlow: Panel): (r: seq<seq<real>>)
    requires SameShape(prices, m, sigmaFast) && SameShape(prices, m, sigmaSlow)
    ensures |r| == |prices| && forall t :: 0 <= t < |r| ==> |r[t]| == m
  {
    seq(|prices|, t requires 0 <= t < |prices| =>
      seq(m, i requires 0 <= i < m => VolScaledColumn(Column(sigmaFast, i), Column(sigmaSlow, i))[t]))
  }

  /**
   * Each weight is the weight of the last bar up to it whose blended
   * volatility is defined, and 0 when there is none.
   */
  lemma VolScaledIsLastDefined(fast: seq<Cell>, slow: seq<Cell>, t: nat)
    requires |fast| == |slow| && t < |fast|
    ensures var raw := seq(|fast|, k requires 0 <= k < |fast| => InverseVolWeight(Blend(fast[k], slow[k])));
      VolScaledColumn(fast, slow)[t] == GetOr(LastPresent(raw[..t + 1]), 0.0)
  {
    var raw := seq(|fast|, k requires 0 <= k < |fast| => InverseVolWeight(Blend(fast[k], slow[k])));
    FFillIsLastPresent(raw, t);
  }

  /** For nonnegative deviations every weight lies in [0, 7]. */
  lemma VolScaledBounds(fast: seq<Cell>, slow: seq<Cell>)
    requires |fast| == |slow|
    requires forall k :: 0 <= k < |fast| && fast[k].Some? ==> fast[k].value >= 0.0
    requires forall k :: 0 <= k < |slow| && slow[k].Some? ==> slow[k].value >= 0.0
    ensures forall t :: 0 <= t < |fast| ==> 0.0 <= VolScaledColumn(fast, slow)[t] <= MaxRawWeight
  {
    var raw := seq(|fast|, k requires 0 <= k < |fast| => InverseVolWeight(Blend(fast[k], slow[k])));
    forall k | 0 <= k < |raw| && raw[k].Some?
      ensures 0.0 <= raw[k].value <= MaxRawWeight
    {
      InverseVolWeightBounds(Blend(fast[k], slow[k]));
    }
    FFillWithinBounds(raw, 0.0, MaxRawWeight);
  }

  /** The panel form of the bounds: every weight of every asset lies in [0, 7]. */
  lemma VolScaledPositionsBounds(prices: Panel, m: nat, targetVol: real, sigmaFast: Panel, sigmaSlow: Panel)
    requires SameShape(prices, m, sigmaFast) && SameShape(prices, m, sigmaSlow)
    requires forall t, i :: 0 <= t < |sigmaFast| && 0 <= i < m && sigmaFast[t][i].Some? ==> sigmaFast[t][i].value >= 0.0
    requires forall t, i :: 0 <= t < |sigmaSlow| && 0 <= i < m && sigmaSlow[t][i].Some? ==> sigmaSlow[t][i].value >= 0.0
    ensures forall t, i :: 0 <= t < |prices| && 0 <= i < m ==>
      0.0 <= VolScaledPositions(prices, m, targetVol, sigmaFast, sigmaSlow)[t][i] <= MaxRawWeight
  {
    forall i | 0 <= i < m
      ensures forall t :: 0 <= t < |prices| ==> 0.0 <= VolScaledColumn(Column(sigmaFast, i), Column(sigmaSlow, i))[t] <= MaxRawWeight
    {
      VolScaledBounds(Column(sigmaFast, i), Column(sigmaSlow, i));
    }
  }

  /** The weights do not depend on the target volatility they are given. */
  lemma VolScaledIgnoresTarget(prices: Panel, m: nat, v1: real, v2: real, sigmaFast: Panel, sigmaSlow: Panel)
    requires SameShape(prices, m, sigmaFast) && SameShape(prices, m, sigmaSlow)
    ensures VolScaledPositions(prices, m, v1, sigmaFast, sigmaSlow) == VolScaledPositions(prices, m, v2, sigmaFast, sigmaSlow)
  {
  }
}
