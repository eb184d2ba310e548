/**
 * `PortfolioRiskScaledStrategy`: per-asset inverse-volatility weights,
 * normalised to a gross exposure of 1 during the warm-up and afterwards
 * scaled so that the portfolio volatility, estimated from a blend of a
 * short-window and a long-window covariance, meets the target; optionally
 * rescaled by the initial capital over the equity so far, capped at 7,
 * multiplied by the trend mask and forward filled.
 *
 * Square roots are a parameter `sqrt`: the model does not compute them, and
 * the lemmas about the volatility target assume only what a square root
 * satisfies.
 */
module Portfolio {
  import opened Wrappers
  import opened Series
  import opened StrategyBase
  import opened Trend
  import opened Covariance

  /** Trading days per year: the annualisation factor is its square root. */
  const TradingDays: real := 252.0

  /** The per-asset cap of a warm-up weight. */
  const WarmUpCap: real := 1.0

  /** The per-asset cap of a scaled weight. */
  const PositionCap: real := 7.0

  /** The constructor arguments of the strategy. */
  datatype Config = Config(
    targetVol: real,
    shortLookback: nat,
    longLookback: nat,
    lambda: real,
    rebalance: bool,
    followTrend: bool)

  /** The constructor defaults. */
  const DefaultConfig: Config := Config(0.90, 20, 60, 0.5, true, true)

  // ---------------------------------------------------------------------
  // Returns
  // ---------------------------------------------------------------------

  ghost predicate PricesOk(prices: Panel, m: nat)
  {
    IsPanel(prices, m) && forall i :: 0 <= i < m ==> PresentDivisorsNonZero(Column(prices, i))
  }

  /** `prices.pct_change(fill_method=None)`: missing on the first row and next to a missing price. */
  function Returns(prices: Panel, m: nat): (r: Panel)
    requires PricesOk(prices, m)
    ensures |r| == |prices| && IsPanel(r, m)
  {
    seq(|prices|, t requires 0 <= t < |prices| => seq(m, i requires 0 <= i < m => PctChangeCells(Column(prices, i))[t]))
  }

  /** A return is defined exactly from the second row on where both prices are present, and is then the relative change. */
  lemma ReturnsAt(prices: Panel, m: nat, t: nat, i: nat)
    requires PricesOk(prices, m) && t < |prices| && i < m
    ensures Returns(prices, m)[t][i].Some? <==> t > 0 && prices[t][i].Some? && prices[t - 1][i].Some?
    ensures Returns(prices, m)[t][i].Some? ==>
      Returns(prices, m)[t][i].value == prices[t][i].value / prices[t - 1][i].value - 1.0
  {
  }

  // ---------------------------------------------------------------------
  // Warm-up rows
  // ---------------------------------------------------------------------

  function AbsAll(w: seq<real>): (a: seq<real>)
    ensures |a| == |w| && forall i :: 0 <= i < |a| ==> a[i] >= 0.0
  {
    seq(|w|, i requires 0 <= i < |w| => Abs(w[i]))
  }

  /** `w.abs().sum()`: the gross exposure, never negative. */
  function Gross(w: seq<real>): (g: real)
    ensures g >= 0.0
  {
    SumNonNegative(AbsAll(w));
    Sum(AbsAll(w))
  }

  /**
   * A warm-up row: the raw weights divided by their gross exposure when it
   * is positive and all zero otherwise, then capped at 1.
   */
  function WarmUpRow(w: seq<real>): (row: seq<Cell>)
    ensures |row| == |w| && forall i :: 0 <= i < |row| ==> row[i].Some?
    ensures forall i :: 0 <= i < |row| ==> row[i].value <= WarmUpCap
  {
    var nom := Gross(w);
    seq(|w|, i requires 0 <= i < |w| => Some(ClipUpper(Share(w[i], nom), WarmUpCap)))
  }

  /** `w / nom if nom > 0 else 0` for one weight. */
  function Share(x: real, nom: real): real
  {
    if nom > 0.0 then x / nom else 0.0
  }

  /** The values of a row whose cells are all present. */
  function RowValues(row: seq<Cell>): (v: seq<real>)
    requires forall i :: 0 <= i < |row| ==> row[i].Some?
    ensures |v| == |row|
  {
    seq(|row|, i requires 0 <= i < |row| => row[i].value)
  }

  lemma AbsOfQuotient(x: real, nom: real)
    requires nom > 0.0
    ensures Abs(x / nom) == Abs(x) / nom
    ensures Abs(x) / nom == (1.0 / nom) * Abs(x)
  {
  }

  /**
   * With a positive gross exposure the cap of 1 never binds: every warm-up
   * weight is its raw weight over the gross exposure, and the warm-up row has
   * a gross exposure of exactly 1.
   */
  lemma WarmUpNormalised(w: seq<real>)
    requires Gross(w) > 0.0
    ensures forall i :: 0 <= i < |w| ==> WarmUpRow(w)[i].value == w[i] / Gross(w)
    ensures Gross(RowValues(WarmUpRow(w))) == 1.0
  {
    forall i | 0 <= i < |w| ensures WarmUpRow(w)[i].value == w[i] / Gross(w) {
      WarmUpEntry(w, i);
    }
    WarmUpAbs(w);
    SumScale(AbsAll(w), AbsAll(RowValues(WarmUpRow(w))), 1.0 / Gross(w));
    InverseTimes(Gross(w));
  }

  /** One warm-up weight below the cap. */
  lemma WarmUpEntry(w: seq<real>, i: nat)
    requires Gross(w) > 0.0 && i < |w|
    ensures WarmUpRow(w)[i].value == w[i] / Gross(w)
  {
    var nom := Gross(w);
    SumBoundsElement(AbsAll(w), i);
    AbsOfQuotient(w[i], nom);
    assert Share(w[i], nom) == w[i] / nom <= 1.0;
  }

  /** Each absolute warm-up weight is the absolute raw weight over the gross exposure. */
  lemma WarmUpAbs(w: seq<real>)
    requires Gross(w) > 0.0
    ensures ScaledBy(AbsAll(w), AbsAll(RowValues(WarmUpRow(w))), 1.0 / Gross(w))
  {
    forall i | 0 <= i < |w| ensures AbsAll(RowValues(WarmUpRow(w)))[i] == (1.0 / Gross(w)) * AbsAll(w)[i] {
      WarmUpEntry(w, i);
      AbsOfQuotient(w[i], Gross(w));
    }
  }

  lemma InverseTimes(x: real)
    requires x > 0.0
    ensures (1.0 / x) * x == 1.0
  {
  }

  /** With no gross exposure the warm-up row is flat. */
  lemma WarmUpFlat(w: seq<real>)
    requires Gross(w) <= 0.0
    ensures forall i :: 0 <= i < |w| ==> WarmUpRow(w)[i] == Some(0.0)
  {
  }

  /** The gross exposure is zero exactly when every raw weight is zero. */
  lemma {:induction false} GrossZero(w: seq<real>)
    ensures Gross(w) >= 0.0
    ensures Gross(w) == 0.0 <==> forall i :: 0 <= i < |w| ==> w[i] == 0.0
  {
    var a := AbsAll(w);
    SumNonNegative(a);
    if w != [] {
      var n := |w| - 1;
      GrossZero(w[..n]);
      assert AbsAll(w[..n]) == a[..n];
      SumNonNegative(a[..n]);
      if forall i :: 0 <= i < |w| ==> w[i] == 0.0 {
        assert forall i :: 0 <= i < n ==> w[..n][i] == 0.0;
      }
      if Gross(w) == 0.0 {
        forall i | 0 <= i < |w| ensures w[i] == 0.0 {
          if i < n {
            assert w[..n][i] == w[i];
          }
        }
      }
    }
  }

  // ---------------------------------------------------------------------
  // Volatility scaling
  // ---------------------------------------------------------------------

  /**
   * `target_vol / port_vol_annual if port_vol_annual > 0 else 1.0` with
   * `port_vol_annual = sqrt(q) * sqrt(252)`: a missing or negative variance
   * has a missing square root, and then the factor is 1.
   */
  function VolScale(q: Cell, targetVol: real, sqrt: real -> real): (f: real)
    ensures q.None? ==> f == 1.0
    ensures targetVol > 0.0 ==> f > 0.0
    ensures targetVol >= 0.0 ==> f >= 0.0
  {
    if q.Some? && q.value >= 0.0 && sqrt(q.value) * sqrt(TradingDays) > 0.0
    then targetVol / (sqrt(q.value) * sqrt(TradingDays))
    else 1.0
  }

  /** `sqrt` gives the nonnegative square root of `x`. */
  ghost predicate RootOf(sqrt: real -> real, x: real)
  {
    sqrt(x) >= 0.0 && sqrt(x) * sqrt(x) == x
  }

  /**
   * For a positive variance the scaled portfolio meets the target: the
   * annualised volatility times the factor is the target, and the factor
   * squared times the annualised variance is the target squared.
   */
  lemma VolScaleHitsTarget(q: real, targetVol: real, sqrt: real -> real)
    requires q > 0.0 && RootOf(sqrt, q) && RootOf(sqrt, TradingDays)
    ensures VolScale(Some(q), targetVol, sqrt) * (sqrt(q) * sqrt(TradingDays)) == targetVol
    ensures VolScale(Some(q), targetVol, sqrt) * VolScale(Some(q), targetVol, sqrt) * (q * TradingDays) == targetVol * targetVol
  {
    var s := sqrt(q) * sqrt(TradingDays);
    PositiveRoot(sqrt, q);
    PositiveRoot(sqrt, TradingDays);
    ProductPositive(sqrt(q), sqrt(TradingDays));
    var k := targetVol / s;
    assert k * s == targetVol;
    assert s * s == q * TradingDays by {
      SquareOfProduct(sqrt(q), sqrt(TradingDays));
    }
    calc {
      k * k * (q * TradingDays);
      k * k * (s * s);
      { SquareOfProduct(k, s); }
      (k * s) * (k * s);
      targetVol * targetVol;
    }
  }

  lemma PositiveRoot(sqrt: real -> real, x: real)
    requires x > 0.0 && RootOf(sqrt, x)
    ensures sqrt(x) > 0.0
  {
  }

  lemma ProductPositive(a: real, b: real)
    requires a > 0.0 && b > 0.0
    ensures a * b > 0.0
  {
  }

  lemma SquareOfProduct(a: real, b: real)
    ensures (a * b) * (a * b) == a * a * (b * b)
  {
  }

  /** A missing or negative variance, or a zero variance whose root is 0, leaves the weights unscaled. */
  lemma VolScaleDegenerate(q: Cell, targetVol: real, sqrt: real -> real)
    requires q.None? || q.value < 0.0 || (q.value == 0.0 && sqrt(0.0) == 0.0)
    ensures VolScale(q, targetVol, sqrt) == 1.0
  {
  }

  /** A weight times a factor. */
  function Scaled(x: real, k: real): real { x * k }

  /** A scaled row: every raw weight times the factor, capped at 7. */
  function SteadyRow(w: seq<real>, scale: real): (row: seq<Cell>)
    ensures |row| == |w| && forall i :: 0 <= i < |row| ==> row[i].Some? && row[i].value <= PositionCap
  {
    seq(|w|, i requires 0 <= i < |w| => Some(ClipUpper(Scaled(w[i], scale), PositionCap)))
  }

  /** Below the cap a scaled weight is the raw weight times the factor. */
  lemma SteadyRowBelowCap(w: seq<real>, scale: real, i: nat)
    requires i < |w| && w[i] * scale <= PositionCap
    ensures SteadyRow(w, scale)[i] == Some(w[i] * scale)
  {
  }

  /**
   * When the cap of 7 does not bind, the written row itself meets the
   * volatility target: its variance under the covariance `c` is
   * target squared over 252, the daily variance of the annual target.
   */
  lemma SteadyRowHitsTarget(w: seq<real>, c: seq<seq<Cell>>, targetVol: real, sqrt: real -> real, k: real)
    requires IsCellSquare(c, |w|) && QuadForm(w, c).Some? && QuadForm(w, c).value > 0.0
    requires RootOf(sqrt, QuadForm(w, c).value) && RootOf(sqrt, TradingDays)
    requires k == VolScale(QuadForm(w, c), targetVol, sqrt)
    requires forall i :: 0 <= i < |w| ==> w[i] * k <= PositionCap
    ensures QuadForm(RowValues(SteadyRow(w, k)), c).Some?
    ensures QuadForm(RowValues(SteadyRow(w, k)), c).value == DailyTarget(targetVol)
  {
    var q := QuadForm(w, c).value;
    var v := RowValues(SteadyRow(w, k));
    SteadyRowScaled(w, k);
    QuadFormScale(w, v, c, k);
    ScaledVarianceIsDaily(q, targetVol, sqrt);
  }

  /** Below the cap the written row is the raw weights scaled by the factor. */
  lemma SteadyRowScaled(w: seq<real>, k: real)
    requires forall i :: 0 <= i < |w| ==> w[i] * k <= PositionCap
    ensures ScaledBy(w, RowValues(SteadyRow(w, k)), k)
  {
    var v := RowValues(SteadyRow(w, k));
    forall i | 0 <= i < |w| ensures v[i] == k * w[i] {
      SteadyRowBelowCap(w, k, i);
    }
  }

  /** The factor squared times a positive daily variance is the daily target variance. */
  /** The daily variance of an annual volatility target: target squared over 252. */
  function DailyTarget(targetVol: real): (d: real)
    ensures d >= 0.0
  {
    targetVol * targetVol / TradingDays
  }

  lemma ScaledVarianceIsDaily(q: real, targetVol: real, sqrt: real -> real)
    requires q > 0.0 && RootOf(sqrt, q) && RootOf(sqrt, TradingDays)
    ensures VolScale(Some(q), targetVol, sqrt) * VolScale(Some(q), targetVol, sqrt) * q == DailyTarget(targetVol)
  {
    var k := VolScale(Some(q), targetVol, sqrt);
    VolScaleHitsTarget(q, targetVol, sqrt);
    DailyVariance(k * k, q, targetVol * targetVol);
  }

  lemma DailyVariance(kk: real, q: real, target2: real)
    requires kk * (q * TradingDays) == target2
    ensures kk * q == target2 / TradingDays
  {
  }

  // ---------------------------------------------------------------------
  // Equity
  // ---------------------------------------------------------------------

  ghost predicate Shaped(pos: Panel, rets: Panel, m: nat)
  {
    |pos| == |rets| && IsPanel(pos, m) && IsPanel(rets, m)
  }

  /** The profit of one row: yesterday's positions times today's returns, missing positions skipped, missing returns as 0. */
  function RowPnL(prev: seq<Cell>, ret: seq<Cell>): real
    requires |prev| == |ret|
  {
    Sum(seq(|prev|, i requires 0 <= i < |prev| => if prev[i].Some? then prev[i].value * GetOr(ret[i], 0.0) else 0.0))
  }

  /**
   * `_equity_over_time(t, ...)`: the initial capital plus the profit of the
   * rows before `t`, each row's positions shifted down by one.
   */
  function Equity(pos: Panel, rets: Panel, m: nat, t: nat, initial: real): (e: real)
    requires Shaped(pos, rets, m) && t <= |pos|
    ensures t <= 1 ==> e == initial
  {
    var pnl := seq(t, r requires 0 <= r < t => if r == 0 then 0.0 else RowPnL(pos[r - 1], rets[r]));
    assert t == 1 ==> pnl == [0.0] && Sum(pnl) == Sum([]) + 0.0;
    initial + Sum(pnl)
  }

  /** Each further row adds yesterday's positions times today's returns. */
  lemma EquityStep(pos: Panel, rets: Panel, m: nat, t: nat, initial: real)
    requires Shaped(pos, rets, m) && 1 <= t < |pos|
    ensures Equity(pos, rets, m, t + 1, initial) == Equity(pos, rets, m, t, initial) + RowPnL(pos[t - 1], rets[t])
  {
    var s := seq(t + 1, r requires 0 <= r < t + 1 => if r == 0 then 0.0 else RowPnL(pos[r - 1], rets[r]));
    assert s[..t] == seq(t, r requires 0 <= r < t => if r == 0 then 0.0 else RowPnL(pos[r - 1], rets[r]));
  }

  /**
   * The profit of a row is the inner product of yesterday's positions and
   * today's returns, each with its missing cells read as 0.
   */
  lemma RowPnLIsDot(prev: seq<Cell>, ret: seq<Cell>)
    requires |prev| == |ret|
    ensures RowPnL(prev, ret) == Dot(FillNa(prev, 0.0), FillNa(ret, 0.0))
  {
    var s := seq(|prev|, i requires 0 <= i < |prev| => if prev[i].Some? then prev[i].value * GetOr(ret[i], 0.0) else 0.0);
    var a, b := FillNa(prev, 0.0), FillNa(ret, 0.0);
    forall i | 0 <= i < |prev| ensures s[i] == Products(a, b)[i] {
      assert b[i] == GetOr(ret[i], 0.0);
      if prev[i].None? {
        assert a[i] == 0.0;
      }
    }
    assert s == Products(a, b);
  }

  /** A row without positions makes no profit. */
  lemma RowPnLFlat(prev: seq<Cell>, ret: seq<Cell>)
    requires |prev| == |ret| && forall i :: 0 <= i < |prev| ==> prev[i].None?
    ensures RowPnL(prev, ret) == 0.0
  {
    var s := seq(|prev|, i requires 0 <= i < |prev| => if prev[i].Some? then prev[i].value * GetOr(ret[i], 0.0) else 0.0);
    SumScale(s, s, 0.0);
  }

  /** While no position has been taken the equity is the initial capital. */
  lemma EquityBeforeTrading(pos: Panel, rets: Panel, m: nat, t: nat, initial: real)
    requires Shaped(pos, rets, m) && t <= |pos|
    requires forall r, i :: 0 <= r < t - 1 && 0 <= i < m ==> pos[r][i].None?
    ensures Equity(pos, rets, m, t, initial) == initial
  {
    var s := seq(t, r requires 0 <= r < t => if r == 0 then 0.0 else RowPnL(pos[r - 1], rets[r]));
    forall r | 0 <= r < t ensures s[r] == 0.0 * s[r] {
      if r > 0 {
        RowPnLFlat(pos[r - 1], rets[r]);
      }
    }
    SumScale(s, s, 0.0);
  }

  /** The equity depends only on the positions before row t - 1 and the returns before row t. */
  lemma EquityCausal(p1: Panel, p2: Panel, r1: Panel, r2: Panel, m: nat, t: nat, initial: real)
    requires Shaped(p1, r1, m) && Shaped(p2, r2, m) && t <= |p1| && t <= |p2|
    requires forall r :: 0 <= r < t - 1 ==> p1[r] == p2[r]
    requires forall r :: 0 <= r < t ==> r1[r] == r2[r]
    ensures Equity(p1, r1, m, t, initial) == Equity(p2, r2, m, t, initial)
  {
    var s1 := seq(t, r requires 0 <= r < t => if r == 0 then 0.0 else RowPnL(p1[r - 1], r1[r]));
    var s2 := seq(t, r requires 0 <= r < t => if r == 0 then 0.0 else RowPnL(p2[r - 1], r2[r]));
    assert s1 == s2;
  }

  // ---------------------------------------------------------------------
  // One row of the loop
  // ---------------------------------------------------------------------

  /** Raw weights and returns of each row, shaped alike. */
  ghost predicate RawInputs(raw: seq<seq<real>>, rets: Panel, m: nat)
  {
    |raw| == |rets| && IsPanel(rets, m) && forall t :: 0 <= t < |raw| ==> |raw[t]| == m
  }

  /** The inputs of the loop: the raw weights, the returns and a target factor for each row. */
  ghost predicate LoopInputs(raw: seq<seq<real>>, scales: seq<real>, rets: Panel, m: nat)
  {
    RawInputs(raw, rets, m) && |scales| == |raw|
  }

  /** True while either covariance window still reaches before the first row. */
  predicate WarmingUp(cfg: Config, t: nat)
  {
    t < cfg.shortLookback || t < cfg.longLookback
  }

  /**
   * The warm-up lasts as long as the longer lookback; with the defaults of
   * 20 and 60 rows it is the first 60 rows.
   */
  lemma WarmUpLength(cfg: Config, t: nat)
    ensures WarmingUp(cfg, t) <==>
      t < if cfg.shortLookback <= cfg.longLookback then cfg.longLookback else cfg.shortLookback
    ensures WarmingUp(DefaultConfig, t) <==> t < 60
  {
  }

  /** `(1 - lambda) * long_cov + lambda * short_cov` over the rows before `t`. */
  function BlendedCov(cfg: Config, rets: Panel, m: nat, t: nat): (c: seq<seq<Cell>>)
    requires IsPanel(rets, m) && t <= |rets| && !WarmingUp(cfg, t)
    ensures IsCellSquare(c, m)
  {
    BlendCov(cfg.lambda, CovMatrix(rets, m, t - cfg.longLookback, t), CovMatrix(rets, m, t - cfg.shortLookback, t), m)
  }

  /** `scale *= initial_capital / equity`. */
  function Rebalanced(scale: real, initial: real, equity: real): real
    requires equity != 0.0
  {
    scale * (initial / equity)
  }

  /**
   * Rebalancing sizes the factor to the initial capital: the new factor times
   * the equity is the old factor times the capital, and at an equity equal to
   * the capital the factor is unchanged.
   */
  lemma RebalancedSizesToCapital(scale: real, initial: real, equity: real)
    requires equity != 0.0
    ensures Rebalanced(scale, initial, equity) * equity == scale * initial
    ensures equity == initial ==> Rebalanced(scale, initial, equity) == scale
  {
    assert (initial / equity) * equity == initial;
    assert scale * (initial / equity) * equity == scale * ((initial / equity) * equity);
  }

  /**
   * The factor that scales the raw weights of row `t` to the volatility
   * target: the portfolio variance of those weights under the blended
   * covariance of the rows before `t`, as `VolScale` turns it into a factor.
   */
  function TargetScale(cfg: Config, raw: seq<seq<real>>, rets: Panel, m: nat, sqrt: real -> real, t: nat): real
    requires |raw| == |rets| && IsPanel(rets, m) && t < |raw| && |raw[t]| == m && !WarmingUp(cfg, t)
  {
    VolScale(QuadForm(raw[t], BlendedCov(cfg, rets, m, t)), cfg.targetVol, sqrt)
  }

  /**
   * The target factor of every row. It does not depend on the positions, so
   * it is computed apart from them; during the warm-up it is not used and
   * set to 1.
   */
  function Scales(cfg: Config, raw: seq<seq<real>>, rets: Panel, m: nat, sqrt: real -> real): (s: seq<real>)
    requires RawInputs(raw, rets, m)
    ensures |s| == |raw|
    ensures cfg.targetVol > 0.0 ==> forall t :: 0 <= t < |s| ==> s[t] > 0.0
  {
    seq(|raw|, t requires 0 <= t < |raw| => if WarmingUp(cfg, t) then 1.0 else TargetScale(cfg, raw, rets, m, sqrt, t))
  }

  /** Past the warm-up the factor of row t is the one `VolScale` makes of the row's blended variance. */
  lemma ScalesAt(cfg: Config, raw: seq<seq<real>>, rets: Panel, m: nat, sqrt: real -> real, t: nat)
    requires RawInputs(raw, rets, m) && t < |raw| && !WarmingUp(cfg, t)
    ensures Scales(cfg, raw, rets, m, sqrt)[t] == VolScale(QuadForm(raw[t], BlendedCov(cfg, rets, m, t)), cfg.targetVol, sqrt)
  {
  }

  /** No look-ahead in the target factor: row t reads its own raw weights and the returns before it only. */
  lemma ScalesCausal(cfg: Config, raw1: seq<seq<real>>, raw2: seq<seq<real>>, r1: Panel, r2: Panel, m: nat,
                     sqrt: real -> real, t: nat)
    requires RawInputs(raw1, r1, m) && RawInputs(raw2, r2, m)
    requires t < |raw1| && t < |raw2| && raw1[t] == raw2[t]
    requires forall r :: 0 <= r < t ==> r1[r] == r2[r]
    ensures Scales(cfg, raw1, r1, m, sqrt)[t] == Scales(cfg, raw2, r2, m, sqrt)[t]
  {
    if !WarmingUp(cfg, t) {
      BlendedCovLocal(cfg, r1, r2, m, t);
    }
  }

  /**
   * The positions the loop writes on row `t`, given the positions written so
   * far: a warm-up row, or the raw weights scaled by the target factor,
   * rescaled by capital over equity when rebalancing, and capped. A zero
   * equity fails.
   */
  function Step(cfg: Config, raw: seq<seq<real>>, rets: Panel, m: nat, scales: seq<real>, initial: real,
                pos: Panel, t: nat): (r: Result<seq<Cell>>)
    requires LoopInputs(raw, scales, rets, m) && Shaped(pos, rets, m) && 1 <= t < |raw|
    ensures r.Ok? ==> |r.value| == m && forall i :: 0 <= i < m ==> r.value[i].Some?
  {
    if WarmingUp(cfg, t) then Ok(WarmUpRow(raw[t]))
    else if !cfg.rebalance then Ok(SteadyRow(raw[t], scales[t]))
    else
      var equity := Equity(pos, rets, m, t, initial);
      if equity == 0.0 then Err(ZeroEquity(t))
      else Ok(SteadyRow(raw[t], Rebalanced(scales[t], initial, equity)))
  }

  /** A step during the warm-up writes the normalised raw weights. */
  lemma StepWarmUp(cfg: Config, raw: seq<seq<real>>, rets: Panel, m: nat, scales: seq<real>, initial: real, pos: Panel, t: nat)
    requires LoopInputs(raw, scales, rets, m) && Shaped(pos, rets, m) && 1 <= t < |raw| && WarmingUp(cfg, t)
    ensures Step(cfg, raw, rets, m, scales, initial, pos, t) == Ok(WarmUpRow(raw[t]))
  {
  }

  /** A step past the warm-up without rebalancing writes the raw weights scaled to the target. */
  lemma StepScaled(cfg: Config, raw: seq<seq<real>>, rets: Panel, m: nat, scales: seq<real>, initial: real, pos: Panel, t: nat)
    requires LoopInputs(raw, scales, rets, m) && Shaped(pos, rets, m) && 1 <= t < |raw| && !WarmingUp(cfg, t) && !cfg.rebalance
    ensures Step(cfg, raw, rets, m, scales, initial, pos, t) == Ok(SteadyRow(raw[t], scales[t]))
  {
  }

  /** A rebalancing step past the warm-up with a nonzero equity also scales by capital over equity. */
  lemma StepRebalanced(cfg: Config, raw: seq<seq<real>>, rets: Panel, m: nat, scales: seq<real>, initial: real, pos: Panel, t: nat)
    requires LoopInputs(raw, scales, rets, m) && Shaped(pos, rets, m) && 1 <= t < |raw| && !WarmingUp(cfg, t) && cfg.rebalance
    requires Equity(pos, rets, m, t, initial) != 0.0
    ensures Step(cfg, raw, rets, m, scales, initial, pos, t) ==
      Ok(SteadyRow(raw[t], Rebalanced(scales[t], initial, Equity(pos, rets, m, t, initial))))
  {
  }

  /**
   * Past the warm-up, a row where the cap of 7 does not bind is scaled to the
   * volatility target: at the `TargetScale` factor its variance under the
   * blended covariance is target squared over 252.
   */
  lemma TargetScaleHitsTarget(cfg: Config, raw: seq<seq<real>>, rets: Panel, m: nat, sqrt: real -> real, t: nat)
    requires RawInputs(raw, rets, m) && t < |raw| && !WarmingUp(cfg, t)
    requires var q := QuadForm(raw[t], BlendedCov(cfg, rets, m, t));
      q.Some? && q.value > 0.0 && RootOf(sqrt, q.value) && RootOf(sqrt, TradingDays)
    requires var k := TargetScale(cfg, raw, rets, m, sqrt, t);
      forall i :: 0 <= i < m ==> raw[t][i] * k <= PositionCap
    ensures var q := QuadForm(RowValues(SteadyRow(raw[t], TargetScale(cfg, raw, rets, m, sqrt, t))), BlendedCov(cfg, rets, m, t));
      q.Some? && q.value == DailyTarget(cfg.targetVol)
  {
    SteadyRowHitsTarget(raw[t], BlendedCov(cfg, rets, m, t), cfg.targetVol, sqrt, TargetScale(cfg, raw, rets, m, sqrt, t));
  }

  /** Past the warm-up and without rebalancing, the loop writes the steady row at the `TargetScale` factor. */
  lemma ScaledStepRow(cfg: Config, raw: seq<seq<real>>, rets: Panel, m: nat, sqrt: real -> real, initial: real,
                      pos: Panel, t: nat)
    requires RawInputs(raw, rets, m) && Shaped(pos, rets, m) && 1 <= t < |raw| && !WarmingUp(cfg, t) && !cfg.rebalance
    ensures Step(cfg, raw, rets, m, Scales(cfg, raw, rets, m, sqrt), initial, pos, t)
      == Ok(SteadyRow(raw[t], TargetScale(cfg, raw, rets, m, sqrt, t)))
  {
    var scales := Scales(cfg, raw, rets, m, sqrt);
    assert scales[t] == TargetScale(cfg, raw, rets, m, sqrt, t);
    StepScaled(cfg, raw, rets, m, scales, initial, pos, t);
  }

  /**
   * For a blend weight in [0, 1] and two windows without missing returns the
   * blended portfolio variance is defined and never negative, so the square
   * root of the strategy is taken of a nonnegative number.
   */
  lemma BlendedVarianceNonNegative(cfg: Config, rets: Panel, m: nat, t: nat, w: seq<real>)
    requires IsPanel(rets, m) && t <= |rets| && !WarmingUp(cfg, t) && |w| == m
    requires 0.0 <= cfg.lambda <= 1.0
    requires CompleteWindow(rets, m, t - cfg.shortLookback, t) && CompleteWindow(rets, m, t - cfg.longLookback, t)
    ensures QuadForm(w, BlendedCov(cfg, rets, m, t)).Some?
    ensures QuadForm(w, BlendedCov(cfg, rets, m, t)).value >= 0.0
  {
    var shortLo, longLo := t - cfg.shortLookback, t - cfg.longLookback;
    var b := BlendCov(cfg.lambda, CovMatrix(rets, m, longLo, t), CovMatrix(rets, m, shortLo, t), m);
    BlendNonNegative(rets, m, cfg.lambda, shortLo, longLo, t, w);
    assert QuadForm(w, b).Some? && QuadForm(w, b).value >= 0.0;
    assert BlendedCov(cfg, rets, m, t) == b;
  }

  /**
   * No look-ahead: row `t` depends on the raw weights of row `t`, the
   * returns before row `t` and the positions before row `t - 1` only.
   */
  lemma StepCausal(cfg: Config, raw1: seq<seq<real>>, raw2: seq<seq<real>>, s1: seq<real>, s2: seq<real>, r1: Panel, r2: Panel,
                   m: nat, initial: real, p1: Panel, p2: Panel, t: nat)
    requires LoopInputs(raw1, s1, r1, m) && Shaped(p1, r1, m) && 1 <= t < |raw1|
    requires LoopInputs(raw2, s2, r2, m) && Shaped(p2, r2, m) && t < |raw2|
    requires raw1[t] == raw2[t] && s1[t] == s2[t]
    requires forall r :: 0 <= r < t ==> r1[r] == r2[r]
    requires forall r :: 0 <= r < t - 1 ==> p1[r] == p2[r]
    ensures Step(cfg, raw1, r1, m, s1, initial, p1, t) == Step(cfg, raw2, r2, m, s2, initial, p2, t)
  {
    if !WarmingUp(cfg, t) {
      EquityCausal(p1, p2, r1, r2, m, t, initial);
    }
  }

  /** The blended covariance of row t reads only the returns before row t. */
  lemma BlendedCovLocal(cfg: Config, r1: Panel, r2: Panel, m: nat, t: nat)
    requires IsPanel(r1, m) && IsPanel(r2, m) && t <= |r1| && t <= |r2| && !WarmingUp(cfg, t)
    requires forall r :: 0 <= r < t ==> r1[r] == r2[r]
    ensures BlendedCov(cfg, r1, m, t) == BlendedCov(cfg, r2, m, t)
  {
    CovMatrixLocal(r1, r2, m, t - cfg.longLookback, t);
    CovMatrixLocal(r1, r2, m, t - cfg.shortLookback, t);
  }

  /** Only a rebalancing step past the warm-up can fail, and only with the step's own number. */
  lemma StepErrors(cfg: Config, raw: seq<seq<real>>, rets: Panel, m: nat, scales: seq<real>, initial: real, pos: Panel, t: nat)
    requires LoopInputs(raw, scales, rets, m) && Shaped(pos, rets, m) && 1 <= t < |raw|
    ensures Step(cfg, raw, rets, m, scales, initial, pos, t).Err? <==>
      cfg.rebalance && !WarmingUp(cfg, t) && Equity(pos, rets, m, t, initial) == 0.0
    ensures Step(cfg, raw, rets, m, scales, initial, pos, t).Err? ==>
      Step(cfg, raw, rets, m, scales, initial, pos, t).error == ZeroEquity(t)
  {
  }

  // ---------------------------------------------------------------------
  // The loop
  // ---------------------------------------------------------------------

  /** `pd.DataFrame(index=..., columns=...)`: every cell missing. */
  function EmptyTable(n: nat, m: nat): (p: Panel)
    ensures |p| == n && IsPanel(p, m)
    ensures forall t, i :: 0 <= t < n && 0 <= i < m ==> p[t][i].None?
  {
    seq(n, _ => seq(m, _ => None))
  }

  /** The loop bound: rows 1 to k - 1 are written. */
  ghost predicate Bound(raw: seq<seq<real>>, k: nat)
  {
    1 <= k && (k == 1 || k <= |raw|)
  }

  /** The positions after the loop has written rows 1 to `k - 1`. */
  function Table(cfg: Config, raw: seq<seq<real>>, rets: Panel, m: nat, scales: seq<real>, initial: real, k: nat)
    : (r: Result<Panel>)
    requires LoopInputs(raw, scales, rets, m) && Bound(raw, k)
    ensures r.Ok? ==> Shaped(r.value, rets, m)
    decreases k
  {
    if k == 1 then Ok(EmptyTable(|raw|, m))
    else
      var prev := Table(cfg, raw, rets, m, scales, initial, k - 1);
      if prev.Err? then prev
      else
        var row := Step(cfg, raw, rets, m, scales, initial, prev.value, k - 1);
        if row.Err? then Err(row.error) else Ok(prev.value[k - 1 := row.value])
  }

  /** One further row: the step on the table so far, written into row k. */
  lemma TableNext(cfg: Config, raw: seq<seq<real>>, rets: Panel, m: nat, scales: seq<real>, initial: real,
                  pos: Panel, k: nat, row: seq<Cell>)
    requires LoopInputs(raw, scales, rets, m) && 1 <= k < |raw|
    requires Table(cfg, raw, rets, m, scales, initial, k) == Ok(pos)
    requires Step(cfg, raw, rets, m, scales, initial, pos, k) == Ok(row)
    ensures Table(cfg, raw, rets, m, scales, initial, k + 1) == Ok(pos[k := row])
  {
  }

  /** A failing step ends the table with its error. */
  lemma TableFails(cfg: Config, raw: seq<seq<real>>, rets: Panel, m: nat, scales: seq<real>, initial: real,
                   pos: Panel, k: nat)
    requires LoopInputs(raw, scales, rets, m) && 1 <= k < |raw|
    requires Table(cfg, raw, rets, m, scales, initial, k) == Ok(pos)
    requires Step(cfg, raw, rets, m, scales, initial, pos, k).Err?
    ensures Table(cfg, raw, rets, m, scales, initial, k + 1) == Err(Step(cfg, raw, rets, m, scales, initial, pos, k).error)
  {
  }

  /** A warm-up row written into the table. */
  lemma TableWarmUp(cfg: Config, raw: seq<seq<real>>, rets: Panel, m: nat, scales: seq<real>, initial: real, pos: Panel, t: nat)
    requires LoopInputs(raw, scales, rets, m) && 1 <= t < |raw| && WarmingUp(cfg, t)
    requires Table(cfg, raw, rets, m, scales, initial, t) == Ok(pos)
    ensures Table(cfg, raw, rets, m, scales, initial, t + 1) == Ok(pos[t := WarmUpRow(raw[t])])
  {
    StepWarmUp(cfg, raw, rets, m, scales, initial, pos, t);
    TableNext(cfg, raw, rets, m, scales, initial, pos, t, WarmUpRow(raw[t]));
  }

  /** A scaled row without rebalancing written into the table. */
  lemma TableScaled(cfg: Config, raw: seq<seq<real>>, rets: Panel, m: nat, scales: seq<real>, initial: real, pos: Panel, t: nat,
                    scale: real)
    requires LoopInputs(raw, scales, rets, m) && 1 <= t < |raw| && !WarmingUp(cfg, t) && !cfg.rebalance
    requires Table(cfg, raw, rets, m, scales, initial, t) == Ok(pos)
    requires scale == scales[t]
    ensures Table(cfg, raw, rets, m, scales, initial, t + 1) == Ok(pos[t := SteadyRow(raw[t], scale)])
  {
    StepScaled(cfg, raw, rets, m, scales, initial, pos, t);
    TableNext(cfg, raw, rets, m, scales, initial, pos, t, SteadyRow(raw[t], scale));
  }

  /** A rebalanced row written into the table. */
  lemma TableRebalanced(cfg: Config, raw: seq<seq<real>>, rets: Panel, m: nat, scales: seq<real>, initial: real, pos: Panel, t: nat,
                        scale: real)
    requires LoopInputs(raw, scales, rets, m) && 1 <= t < |raw| && !WarmingUp(cfg, t) && cfg.rebalance
    requires Table(cfg, raw, rets, m, scales, initial, t) == Ok(pos)
    requires Equity(pos, rets, m, t, initial) != 0.0
    requires scale == Rebalanced(scales[t], initial, Equity(pos, rets, m, t, initial))
    ensures Table(cfg, raw, rets, m, scales, initial, t + 1) == Ok(pos[t := SteadyRow(raw[t], scale)])
  {
    StepRebalanced(cfg, raw, rets, m, scales, initial, pos, t);
    TableNext(cfg, raw, rets, m, scales, initial, pos, t, SteadyRow(raw[t], scale));
  }

  /** A zero equity on a rebalancing row fails with that row's number. */
  lemma TableZeroEquity(cfg: Config, raw: seq<seq<real>>, rets: Panel, m: nat, scales: seq<real>, initial: real, pos: Panel, t: nat)
    requires LoopInputs(raw, scales, rets, m) && 1 <= t < |raw| && !WarmingUp(cfg, t) && cfg.rebalance
    requires Table(cfg, raw, rets, m, scales, initial, t) == Ok(pos)
    requires Equity(pos, rets, m, t, initial) == 0.0
    ensures Table(cfg, raw, rets, m, scales, initial, t + 1) == Err(ZeroEquity(t))
  {
    StepErrors(cfg, raw, rets, m, scales, initial, pos, t);
    TableFails(cfg, raw, rets, m, scales, initial, pos, t);
  }

  /** Rows written: 1 to k - 1, every cell present; row 0 and the rows from k on are untouched and missing. */
  lemma {:induction false} TableRows(cfg: Config, raw: seq<seq<real>>, rets: Panel, m: nat, scales: seq<real>, initial: real, k: nat)
    requires LoopInputs(raw, scales, rets, m) && Bound(raw, k)
    requires Table(cfg, raw, rets, m, scales, initial, k).Ok?
    ensures forall t, i :: 0 <= t < |raw| && 0 <= i < m ==>
      (Table(cfg, raw, rets, m, scales, initial, k).value[t][i].Some? <==> 1 <= t < k)
    decreases k
  {
    if k > 1 {
      TableRows(cfg, raw, rets, m, scales, initial, k - 1);
    }
  }

  /** Every written row is the step on the rows written before it. */
  lemma {:induction false} TableRowIsStep(cfg: Config, raw: seq<seq<real>>, rets: Panel, m: nat, scales: seq<real>, initial: real,
                                          k: nat, t: nat)
    requires LoopInputs(raw, scales, rets, m) && Bound(raw, k) && 1 <= t < k
    requires Table(cfg, raw, rets, m, scales, initial, k).Ok?
    ensures Table(cfg, raw, rets, m, scales, initial, t).Ok?
    ensures Step(cfg, raw, rets, m, scales, initial, Table(cfg, raw, rets, m, scales, initial, t).value, t)
      == Ok(Table(cfg, raw, rets, m, scales, initial, k).value[t])
    decreases k
  {
    if t < k - 1 {
      TableRowIsStep(cfg, raw, rets, m, scales, initial, k - 1, t);
    }
  }

  /** Once a step fails the loop stops with that error. */
  lemma {:induction false} TableErrStays(cfg: Config, raw: seq<seq<real>>, rets: Panel, m: nat, scales: seq<real>, initial: real,
                                         j: nat, k: nat, e: Error)
    requires LoopInputs(raw, scales, rets, m) && Bound(raw, j) && Bound(raw, k) && j <= k
    requires Table(cfg, raw, rets, m, scales, initial, j) == Err(e)
    ensures Table(cfg, raw, rets, m, scales, initial, k) == Err(e)
    decreases k
  {
    if k > j {
      TableErrStays(cfg, raw, rets, m, scales, initial, j, k - 1, e);
    }
  }

  /** One more pass of the loop: a failing row ends the loop with its error, any other row is written. */
  lemma TableAdvance(cfg: Config, raw: seq<seq<real>>, rets: Panel, m: nat, scales: seq<real>, initial: real,
                     pos: Panel, t: nat, next: Result<seq<Cell>>)
    requires LoopInputs(raw, scales, rets, m) && 1 <= t < |raw|
    requires Table(cfg, raw, rets, m, scales, initial, t) == Ok(pos)
    requires next == Step(cfg, raw, rets, m, scales, initial, pos, t)
    ensures next.Err? ==> Table(cfg, raw, rets, m, scales, initial, Last(|raw|)) == Err(next.error)
    ensures next.Ok? ==> Table(cfg, raw, rets, m, scales, initial, t + 1) == Ok(pos[t := next.value])
  {
    if next.Err? {
      TableFails(cfg, raw, rets, m, scales, initial, pos, t);
      TableErrStays(cfg, raw, rets, m, scales, initial, t + 1, Last(|raw|), next.error);
    } else {
      TableNext(cfg, raw, rets, m, scales, initial, pos, t, next.value);
    }
  }

  /** Without rebalancing the loop never fails. */
  lemma {:induction false} NoRebalanceNeverFails(cfg: Config, raw: seq<seq<real>>, rets: Panel, m: nat, scales: seq<real>,
                                                 initial: real, k: nat)
    requires LoopInputs(raw, scales, rets, m) && Bound(raw, k) && !cfg.rebalance
    ensures Table(cfg, raw, rets, m, scales, initial, k).Ok?
    decreases k
  {
    if k > 1 {
      NoRebalanceNeverFails(cfg, raw, rets, m, scales, initial, k - 1);
    }
  }

  /** A failing loop failed on a rebalancing step past the warm-up, before row k, for want of equity. */
  lemma {:induction false} TableErrors(cfg: Config, raw: seq<seq<real>>, rets: Panel, m: nat, scales: seq<real>,
                                       initial: real, k: nat, e: Error)
    requires LoopInputs(raw, scales, rets, m) && Bound(raw, k)
    requires Table(cfg, raw, rets, m, scales, initial, k) == Err(e)
    ensures cfg.rebalance && e.ZeroEquity? && 1 <= e.step < k && !WarmingUp(cfg, e.step)
    decreases k
  {
    if k > 1 {
      var prev := Table(cfg, raw, rets, m, scales, initial, k - 1);
      if prev.Err? {
        TableErrors(cfg, raw, rets, m, scales, initial, k - 1, e);
      } else {
        StepErrors(cfg, raw, rets, m, scales, initial, prev.value, k - 1);
      }
    }
  }

  // ---------------------------------------------------------------------
  // Mask and fill
  // ---------------------------------------------------------------------

  /** `positions * mask`: a missing position stays missing. */
  function ApplyMask(pos: Panel, mask: seq<seq<int>>, m: nat): (r: Panel)
    requires IsPanel(pos, m) && |mask| == |pos| && forall t :: 0 <= t < |mask| ==> |mask[t]| == m
    ensures |r| == |pos| && IsPanel(r, m)
    ensures forall t, i :: 0 <= t < |pos| && 0 <= i < m ==>
      (r[t][i].Some? <==> pos[t][i].Some?) &&
      (r[t][i].Some? ==> r[t][i].value == Scaled(pos[t][i].value, mask[t][i] as real))
  {
    seq(|pos|, t requires 0 <= t < |pos| => seq(m, i requires 0 <= i < m =>
      if pos[t][i].Some? then Some(Scaled(pos[t][i].value, mask[t][i] as real)) else None))
  }

  ghost predicate SignalInputs(prices: Panel, m: nat, cfg: Config, sigmaFast: Panel, sigmaSlow: Panel)
  {
    PricesOk(prices, m) && SameShape(prices, m, sigmaFast) && SameShape(prices, m, sigmaSlow)
  }

  /** The last row the loop writes, plus one; 1 when there are no rows. */
  function Last(n: nat): nat
  {
    if n == 0 then 1 else n
  }

  /** The positions of the loop over every row after the first. */
  function Loop(prices: Panel, m: nat, cfg: Config, sigmaFast: Panel, sigmaSlow: Panel,
                sqrt: real -> real, initial: real): (r: Result<Panel>)
    requires SignalInputs(prices, m, cfg, sigmaFast, sigmaSlow)
    ensures r.Ok? ==> |r.value| == |prices| && IsPanel(r.value, m)
  {
    var raw := VolScaledPositions(prices, m, cfg.targetVol, sigmaFast, sigmaSlow);
    var rets := Returns(prices, m);
    Table(cfg, raw, rets, m, Scales(cfg, raw, rets, m, sqrt), initial, Last(|prices|))
  }

  /**
   * `generate_signals`: the positions of the loop, multiplied by the trend
   * mask when following the trend, forward filled.
   */
  function PortfolioSignals(prices: Panel, m: nat, cfg: Config, sigmaFast: Panel, sigmaSlow: Panel,
                            sqrt: real -> real, initial: real): (r: Result<Panel>)
    requires SignalInputs(prices, m, cfg, sigmaFast, sigmaSlow)
    ensures r.Ok? ==> |r.value| == |prices| && IsPanel(r.value, m)
  {
    var table := Loop(prices, m, cfg, sigmaFast, sigmaSlow, sqrt, initial);
    if table.Err? then Err(table.error)
    else if cfg.followTrend then
      var mask := TrendMaskPanel(prices, m, FastLambda, SlowLambda, 0.0).value;
      Ok(FFillPanel(ApplyMask(table.value, mask, m), m))
    else Ok(FFillPanel(table.value, m))
  }

  /** `w`, the blended covariance, `port_vol` and `scale` of one row past the warm-up. */
  method TargetFactor(cfg: Config, raw: seq<seq<real>>, rets: Panel, m: nat, sqrt: real -> real, t: nat)
    returns (scale: real)
    requires RawInputs(raw, rets, m) && t < |raw| && !WarmingUp(cfg, t)
    ensures scale == Scales(cfg, raw, rets, m, sqrt)[t]
  {
    var cov := BlendedCov(cfg, rets, m, t);
    scale := VolScale(QuadForm(raw[t], cov), cfg.targetVol, sqrt);
    ScalesAt(cfg, raw, rets, m, sqrt, t);
  }

  /**
   * One pass of the loop of `generate_signals`: the warm-up row, or the
   * scaled row, with the factor rebased on the equity when rebalancing.
   */
  method NextRow(cfg: Config, raw: seq<seq<real>>, rets: Panel, m: nat, sqrt: real -> real, initial: real,
                 positions: Panel, t: nat) returns (row: Result<seq<Cell>>)
    requires RawInputs(raw, rets, m) && Shaped(positions, rets, m) && 1 <= t < |raw|
    ensures row == Step(cfg, raw, rets, m, Scales(cfg, raw, rets, m, sqrt), initial, positions, t)
  {
    if WarmingUp(cfg, t) {
      return Ok(WarmUpRow(raw[t]));
    }
    var scale := TargetFactor(cfg, raw, rets, m, sqrt, t);
    if cfg.rebalance {
      var equity := Equity(positions, rets, m, t, initial);
      if equity == 0.0 {
        return Err(ZeroEquity(t));
      }
      scale := Rebalanced(scale, initial, equity);
    }
    row := Ok(SteadyRow(raw[t], scale));
  }

  /**
   * The loop of `generate_signals` over rows 1 to n - 1, written out as in
   * the strategy: each row is a warm-up row or a scaled row, written into a
   * table of missing cells.
   */
  method WritePositions(cfg: Config, raw: seq<seq<real>>, rets: Panel, m: nat, sqrt: real -> real, initial: real)
    returns (r: Result<Panel>)
    requires RawInputs(raw, rets, m)
    ensures r == Table(cfg, raw, rets, m, Scales(cfg, raw, rets, m, sqrt), initial, Last(|raw|))
  {
    ghost var scales := Scales(cfg, raw, rets, m, sqrt);
    var n := |raw|;
    var positions := EmptyTable(n, m);
    var t := 1;
    while t < n
      invariant Bound(raw, t) && (n > 0 ==> t <= n)
      invariant Table(cfg, raw, rets, m, scales, initial, t) == Ok(positions)
    {
      var next := NextRow(cfg, raw, rets, m, sqrt, initial, positions, t);
      TableAdvance(cfg, raw, rets, m, scales, initial, positions, t, next);
      if next.Err? {
        return Err(next.error);
      }
      positions := positions[t := next.value];
      t := t + 1;
    }
    assert t == Last(n);
    return Ok(positions);
  }

  /** `generate_signals`: the loop, then the trend mask when following the trend, then the forward fill. */
  method GenerateSignals(prices: Panel, m: nat, cfg: Config, sigmaFast: Panel, sigmaSlow: Panel,
                         sqrt: real -> real, initial: real) returns (r: Result<Panel>)
    requires SignalInputs(prices, m, cfg, sigmaFast, sigmaSlow)
    ensures r == PortfolioSignals(prices, m, cfg, sigmaFast, sigmaSlow, sqrt, initial)
  {
    var raw := VolScaledPositions(prices, m, cfg.targetVol, sigmaFast, sigmaSlow);
    var rets := Returns(prices, m);
    var table := WritePositions(cfg, raw, rets, m, sqrt, initial);
    if table.Err? {
      return Err(table.error);
    }
    var positions := table.value;
    if cfg.followTrend {
      var mask := TrendMaskPanel(prices, m, FastLambda, SlowLambda, 0.0).value;
      positions := ApplyMask(positions, mask, m);
    }
    r := Ok(FFillPanel(positions, m));
  }

  // ---------------------------------------------------------------------
  // Properties of the signals
  // ---------------------------------------------------------------------

  /** The default smoothing factors are valid, so the trend mask never fails. */
  lemma DefaultMaskValid()
    ensures ValidAlpha(FastLambda) && ValidAlpha(SlowLambda)
  {
  }

  /** The signals fail exactly when the loop does, with its error; without rebalancing they never fail. */
  lemma SignalsErrors(prices: Panel, m: nat, cfg: Config, sigmaFast: Panel, sigmaSlow: Panel, sqrt: real -> real, initial: real)
    requires SignalInputs(prices, m, cfg, sigmaFast, sigmaSlow)
    ensures PortfolioSignals(prices, m, cfg, sigmaFast, sigmaSlow, sqrt, initial).Err? <==>
      Loop(prices, m, cfg, sigmaFast, sigmaSlow, sqrt, initial).Err?
    ensures PortfolioSignals(prices, m, cfg, sigmaFast, sigmaSlow, sqrt, initial).Err? ==>
      cfg.rebalance && PortfolioSignals(prices, m, cfg, sigmaFast, sigmaSlow, sqrt, initial).error.ZeroEquity?
    ensures PortfolioSignals(prices, m, cfg, sigmaFast, sigmaSlow, sqrt, initial).Err? ==>
      var t := PortfolioSignals(prices, m, cfg, sigmaFast, sigmaSlow, sqrt, initial).error.step;
      1 <= t < |prices| && !WarmingUp(cfg, t)
  {
    var raw := VolScaledPositions(prices, m, cfg.targetVol, sigmaFast, sigmaSlow);
    var loop := Loop(prices, m, cfg, sigmaFast, sigmaSlow, sqrt, initial);
    if loop.Err? {
      TableErrors(cfg, raw, Returns(prices, m), m, Scales(cfg, raw, Returns(prices, m), m, sqrt), initial, Last(|prices|), loop.error);
    }
  }

  /** Without rebalancing the signals never fail. */
  lemma NoRebalanceSignals(prices: Panel, m: nat, cfg: Config, sigmaFast: Panel, sigmaSlow: Panel, sqrt: real -> real, initial: real)
    requires SignalInputs(prices, m, cfg, sigmaFast, sigmaSlow) && !cfg.rebalance
    ensures PortfolioSignals(prices, m, cfg, sigmaFast, sigmaSlow, sqrt, initial).Ok?
  {
    var raw := VolScaledPositions(prices, m, cfg.targetVol, sigmaFast, sigmaSlow);
    NoRebalanceNeverFails(cfg, raw, Returns(prices, m), m, Scales(cfg, raw, Returns(prices, m), m, sqrt), initial, Last(|prices|));
  }

  /** A panel with no position on row 0 and a position in every cell of every later row. */
  ghost predicate FromSecondRow(p: Panel, m: nat)
  {
    IsPanel(p, m) && forall t, i :: 0 <= t < |p| && 0 <= i < m ==> (p[t][i].Some? <==> t >= 1)
  }

  /** Such a panel has nothing to forward fill. */
  lemma FFillFromSecondRow(p: Panel, m: nat)
    requires FromSecondRow(p, m)
    ensures FFillPanel(p, m) == p
  {
    forall t: int | 0 <= t < |p|
      ensures FFillPanel(p, m)[t] == p[t]
    {
      forall i: int | 0 <= i < m
        ensures FFillPanel(p, m)[t][i] == p[t][i]
      {
        var c := Column(p, i);
        assert c[t] == p[t][i];
      }
    }
  }

  /** The loop's table has no position on row 0 and a position everywhere else. */
  lemma LoopFromSecondRow(prices: Panel, m: nat, cfg: Config, sigmaFast: Panel, sigmaSlow: Panel, sqrt: real -> real, initial: real)
    requires SignalInputs(prices, m, cfg, sigmaFast, sigmaSlow)
    requires Loop(prices, m, cfg, sigmaFast, sigmaSlow, sqrt, initial).Ok?
    ensures FromSecondRow(Loop(prices, m, cfg, sigmaFast, sigmaSlow, sqrt, initial).value, m)
  {
    var raw := VolScaledPositions(prices, m, cfg.targetVol, sigmaFast, sigmaSlow);
    TableRows(cfg, raw, Returns(prices, m), m, Scales(cfg, raw, Returns(prices, m), m, sqrt), initial, Last(|prices|));
  }

  /**
   * The forward fill of the strategy has nothing to fill: the signals are
   * the loop's positions, times the trend mask when following the trend.
   */
  lemma SignalsAreMaskedLoop(prices: Panel, m: nat, cfg: Config, sigmaFast: Panel, sigmaSlow: Panel, sqrt: real -> real, initial: real)
    requires SignalInputs(prices, m, cfg, sigmaFast, sigmaSlow)
    requires PortfolioSignals(prices, m, cfg, sigmaFast, sigmaSlow, sqrt, initial).Ok?
    ensures Loop(prices, m, cfg, sigmaFast, sigmaSlow, sqrt, initial).Ok?
    ensures cfg.followTrend ==> (PortfolioSignals(prices, m, cfg, sigmaFast, sigmaSlow, sqrt, initial).value ==
      ApplyMask(Loop(prices, m, cfg, sigmaFast, sigmaSlow, sqrt, initial).value, TrendMaskPanel(prices, m, FastLambda, SlowLambda, 0.0).value, m))
    ensures !cfg.followTrend ==> (PortfolioSignals(prices, m, cfg, sigmaFast, sigmaSlow, sqrt, initial).value ==
      Loop(prices, m, cfg, sigmaFast, sigmaSlow, sqrt, initial).value)
  {
    var table := Loop(prices, m, cfg, sigmaFast, sigmaSlow, sqrt, initial).value;
    LoopFromSecondRow(prices, m, cfg, sigmaFast, sigmaSlow, sqrt, initial);
    if cfg.followTrend {
      var masked := ApplyMask(table, TrendMaskPanel(prices, m, FastLambda, SlowLambda, 0.0).value, m);
      assert FromSecondRow(masked, m);
      FFillFromSecondRow(masked, m);
    } else {
      FFillFromSecondRow(table, m);
    }
  }

  /** Row 0 of the signals has no position; every later row has one in every column. */
  lemma SignalsRows(prices: Panel, m: nat, cfg: Config, sigmaFast: Panel, sigmaSlow: Panel, sqrt: real -> real, initial: real)
    requires SignalInputs(prices, m, cfg, sigmaFast, sigmaSlow)
    requires PortfolioSignals(prices, m, cfg, sigmaFast, sigmaSlow, sqrt, initial).Ok?
    ensures |PortfolioSignals(prices, m, cfg, sigmaFast, sigmaSlow, sqrt, initial).value| == |prices|
    ensures FromSecondRow(PortfolioSignals(prices, m, cfg, sigmaFast, sigmaSlow, sqrt, initial).value, m)
  {
    SignalsAreMaskedLoop(prices, m, cfg, sigmaFast, sigmaSlow, sqrt, initial);
    LoopFromSecondRow(prices, m, cfg, sigmaFast, sigmaSlow, sqrt, initial);
  }

  /** Without the trend every position is at most 7, and at most 1 during the warm-up. */
  lemma SignalsCapped(prices: Panel, m: nat, cfg: Config, sigmaFast: Panel, sigmaSlow: Panel, sqrt: real -> real, initial: real,
                      t: nat, i: nat)
    requires SignalInputs(prices, m, cfg, sigmaFast, sigmaSlow) && !cfg.followTrend
    requires PortfolioSignals(prices, m, cfg, sigmaFast, sigmaSlow, sqrt, initial).Ok?
    requires 1 <= t < |prices| && i < m
    ensures PortfolioSignals(prices, m, cfg, sigmaFast, sigmaSlow, sqrt, initial).value[t][i].Some?
    ensures PortfolioSignals(prices, m, cfg, sigmaFast, sigmaSlow, sqrt, initial).value[t][i].value <= PositionCap
    ensures WarmingUp(cfg, t) ==> PortfolioSignals(prices, m, cfg, sigmaFast, sigmaSlow, sqrt, initial).value[t][i].value <= WarmUpCap
  {
    var raw := VolScaledPositions(prices, m, cfg.targetVol, sigmaFast, sigmaSlow);
    var rets := Returns(prices, m);
    var scales := Scales(cfg, raw, rets, m, sqrt);
    SignalsAreMaskedLoop(prices, m, cfg, sigmaFast, sigmaSlow, sqrt, initial);
    var table := Table(cfg, raw, rets, m, scales, initial, Last(|prices|)).value;
    TableRowIsStep(cfg, raw, rets, m, scales, initial, Last(|prices|), t);
    var row := table[t];
    assert row[i].Some? && row[i].value <= PositionCap;
    assert WarmingUp(cfg, t) ==> row[i].value <= WarmUpCap;
    FFillPanelPresent(table, m, t, i);
  }

  /**
   * Following the trend, a position is the loop's position where the trend
   * of its asset is up, its opposite where the trend is down and flat where
   * there is no trend.
   */
  lemma SignalsFollowTrend(prices: Panel, m: nat, cfg: Config, sigmaFast: Panel, sigmaSlow: Panel, sqrt: real -> real, initial: real,
                           t: nat, i: nat)
    requires SignalInputs(prices, m, cfg, sigmaFast, sigmaSlow) && cfg.followTrend
    requires PortfolioSignals(prices, m, cfg, sigmaFast, sigmaSlow, sqrt, initial).Ok?
    requires 1 <= t < |prices| && i < m
    ensures Loop(prices, m, cfg, sigmaFast, sigmaSlow, sqrt, initial).Ok?
    ensures Loop(prices, m, cfg, sigmaFast, sigmaSlow, sqrt, initial).value[t][i].Some?
    ensures PortfolioSignals(prices, m, cfg, sigmaFast, sigmaSlow, sqrt, initial).value[t][i].Some?
    ensures var k := TrendMask(Column(prices, i), FastLambda, SlowLambda, 0.0).value[t];
      var x := Loop(prices, m, cfg, sigmaFast, sigmaSlow, sqrt, initial).value[t][i].value;
      var y := PortfolioSignals(prices, m, cfg, sigmaFast, sigmaSlow, sqrt, initial).value[t][i].value;
      (k == 1 ==> y == x) && (k == 0 ==> y == 0.0) && (k == -1 ==> y == -x)
  {
    SignalsAreMaskedLoop(prices, m, cfg, sigmaFast, sigmaSlow, sqrt, initial);
    LoopFromSecondRow(prices, m, cfg, sigmaFast, sigmaSlow, sqrt, initial);
    var table := Loop(prices, m, cfg, sigmaFast, sigmaSlow, sqrt, initial).value;
    var mask := TrendMaskPanel(prices, m, FastLambda, SlowLambda, 0.0).value;
    var s: Panel := PortfolioSignals(prices, m, cfg, sigmaFast, sigmaSlow, sqrt, initial).value;
    assert s == ApplyMask(table, mask, m);
    assert table[t][i].Some?;
    assert mask[t][i] == TrendMask(Column(prices, i), FastLambda, SlowLambda, 0.0).value[t];
    assert s[t][i].value == Scaled(table[t][i].value, mask[t][i] as real);
    ScaledByMask(table[t][i].value, mask[t][i]);
  }

  /** A weight times a mask of 1, 0 or -1. */
  lemma ScaledByMask(x: real, k: int)
    ensures k == 1 ==> Scaled(x, k as real) == x
    ensures k == 0 ==> Scaled(x, k as real) == 0.0
    ensures k == -1 ==> Scaled(x, k as real) == -x
  {
    if k == 1 {
      assert k as real == 1.0;
    } else if k == 0 {
      assert k as real == 0.0;
    } else if k == -1 {
      assert k as real == -1.0;
    }
  }
}
