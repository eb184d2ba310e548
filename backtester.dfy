/**
 * `backtest_strategy`: one price series and one signal series in, strategy
 * returns, cumulative returns and the performance record out.
 *
 * Each step is the pandas expression of the source, written as a recursive
 * scan or an element-wise sequence, and each is proved equal to a closed
 * form (last non-zero instruction, product of growth factors, running
 * maximum) or to the property the record promises.
 */
module Backtester {
  import opened Wrappers
  import opened Series

  // ---------------------------------------------------------------------
  // Positions: signals.replace(0, nan).shift(1).ffill().fillna(0)
  // ---------------------------------------------------------------------

  /**
   * `signals.replace(0, np.nan)`: a zero signal is "no new instruction". A
   * missing signal (NaN, as the risk-scaled strategies emit before their
   * windows fill) is left missing, so it means the same.
   */
  function SignalEvents(signals: seq<Cell>): (e: seq<Cell>)
    ensures |e| == |signals|
    ensures forall t :: 0 <= t < |signals| ==> (e[t].None? <==> signals[t].None? || signals[t].value == 0.0)
    ensures forall t :: 0 <= t < |signals| && e[t].Some? ==> e[t] == signals[t]
  {
    seq(|signals|, t requires 0 <= t < |signals| =>
      if signals[t].Some? && signals[t].value != 0.0 then signals[t] else None)
  }

  /** The instruction of each bar: the signal, with a missing signal read as 0. */
  function Instructions(signals: seq<Cell>): (s: seq<real>)
    ensures |s| == |signals|
    ensures forall t :: 0 <= t < |signals| ==> (s[t] == 0.0 <==> signals[t].None? || signals[t].value == 0.0)
    ensures forall t :: 0 <= t < |signals| && signals[t].Some? ==> s[t] == signals[t].value
  {
    FillNa(signals, 0.0)
  }

  /** `shift(1)`: every cell moves one period later and the first becomes missing. */
  function Shift(c: seq<Cell>): (r: seq<Cell>)
    ensures |r| == |c|
    ensures |c| > 0 ==> r[0].None?
    ensures forall t :: 0 < t < |c| ==> r[t] == c[t - 1]
  {
    if c == [] then [] else [None] + c[..|c| - 1]
  }

  /** The last non-zero signal of `s`, or 0 when there is none. */
  function LastNonZero(s: seq<real>): (r: real)
    ensures r != 0.0 ==> r in s
  {
    if s == [] then 0.0
    else if s[|s| - 1] != 0.0 then s[|s| - 1]
    else LastNonZero(s[..|s| - 1])
  }

  lemma {:induction false} ShiftedEventsLastNonZero(signals: seq<Cell>, t: nat)
    requires t < |signals|
    ensures GetOr(LastPresent(Shift(SignalEvents(signals))[..t + 1]), 0.0) == LastNonZero(Instructions(signals)[..t])
  {
    var sh := Shift(SignalEvents(signals));
    var s := Instructions(signals);
    if t == 0 {
      assert sh[..1] == [None];
      assert LastPresent(sh[..1]) == LastPresent(sh[..1][..0]);
    } else {
      assert sh[..t + 1][..t] == sh[..t];
      assert s[..t][..t - 1] == s[..t - 1];
      ShiftedEventsLastNonZero(signals, t - 1);
    }
  }

  /**
   * The held position at each period: the last non-zero signal strictly
   * before it, or 0 when there is none. A signal therefore takes effect one
   * period after it is given.
   */
  function Positions(signals: seq<Cell>): (pos: seq<real>)
    ensures |pos| == |signals|
    ensures forall t :: 0 <= t < |signals| ==> pos[t] == LastNonZero(Instructions(signals)[..t])
  {
    var pos := FillNa(FFill(Shift(SignalEvents(signals))), 0.0);
    forall t | 0 <= t < |signals| ensures pos[t] == LastNonZero(Instructions(signals)[..t]) {
      FFillIsLastPresent(Shift(SignalEvents(signals)), t);
      ShiftedEventsLastNonZero(signals, t);
    }
    pos
  }

  /** A non-zero position is some earlier signal, and every signal since that one was zero. */
  lemma {:induction false} LastNonZeroOrigin(s: seq<real>)
    ensures LastNonZero(s) == 0.0 <==> forall k :: 0 <= k < |s| ==> s[k] == 0.0
    ensures LastNonZero(s) != 0.0 ==>
      exists k :: 0 <= k < |s| && s[k] == LastNonZero(s) && forall j :: k < j < |s| ==> s[j] == 0.0
  {
    if s != [] && s[|s| - 1] == 0.0 {
      var n := |s|;
      LastNonZeroOrigin(s[..n - 1]);
      if LastNonZero(s) != 0.0 {
        var q := s[..n - 1];
        var k :| 0 <= k < n - 1 && q[k] == LastNonZero(q) && forall j :: k < j < n - 1 ==> q[j] == 0.0;
        assert s[k] == LastNonZero(s);
        assert forall j :: k < j < n ==> s[j] == 0.0;
      }
    }
  }

  /** The position held at t is decided by the signals before t only (no look-ahead). */
  lemma PositionsAreCausal(a: seq<Cell>, b: seq<Cell>, t: nat)
    requires t < |a| && t < |b|
    requires a[..t] == b[..t]
    ensures forall k :: 0 <= k <= t ==> Positions(a)[k] == Positions(b)[k]
  {
    var ia, ib := Instructions(a), Instructions(b);
    forall k | 0 <= k <= t ensures Positions(a)[k] == Positions(b)[k] {
      assert forall j :: 0 <= j < k ==> a[j] == a[..t][j] == b[..t][j] == b[j];
      assert ia[..k] == ib[..k];
    }
  }

  /** Before the first present non-zero signal no position is held. */
  lemma NoPositionBeforeFirstSignal(signals: seq<Cell>, t: nat)
    requires t < |signals|
    requires forall k :: 0 <= k < t ==> signals[k].None? || signals[k].value == 0.0
    ensures Positions(signals)[t] == 0.0
  {
    var before := Instructions(signals)[..t];
    assert forall k :: 0 <= k < t ==> before[k] == 0.0;
    LastNonZeroOrigin(before);
  }

  /**
   * A missing signal is no instruction: replacing every missing signal by 0
   * leaves the events, and so the positions, as they were.
   */
  lemma MissingSignalIsZero(signals: seq<Cell>)
    ensures SignalEvents(Lift(Instructions(signals))) == SignalEvents(signals)
    ensures Positions(Lift(Instructions(signals))) == Positions(signals)
  {
    var z := Lift(Instructions(signals));
    assert Instructions(z) == Instructions(signals);
  }

  // ---------------------------------------------------------------------
  // Trades, costs and strategy returns
  // ---------------------------------------------------------------------

  /** `positions.diff().abs().fillna(0)`: the turnover of each period. */
  function Trades(pos: seq<real>): (tr: seq<real>)
    ensures |tr| == |pos|
    ensures forall t :: 0 <= t < |pos| ==> tr[t] >= 0.0
  {
    seq(|pos|, t requires 0 <= t < |pos| => if t == 0 then 0.0 else Abs(pos[t] - pos[t - 1]))
  }

  /**
   * `positions * returns`, then the cost `trades * tc` is subtracted on the
   * periods whose trade is non-zero. The masked subtraction is the same as
   * charging `tc * trades` on every period.
   */
  function NetReturns(pos: seq<real>, ret: seq<real>, tc: real): (net: seq<real>)
    requires |pos| == |ret|
    ensures |net| == |pos|
    ensures forall t :: 0 <= t < |pos| ==> net[t] == pos[t] * ret[t] - tc * Trades(pos)[t]
  {
    var trades := Trades(pos);
    seq(|pos|, t requires 0 <= t < |pos| => NetReturn(pos[t], ret[t], trades[t], tc))
  }

  /** One period: the gross return, less the cost where there is a trade. */
  function NetReturn(p: real, r: real, trade: real, tc: real): (x: real)
    ensures x == p * r - tc * trade
  {
    if trade != 0.0 then p * r - trade * tc else p * r
  }

  /** With no trading cost the net strategy returns are the gross returns `positions * returns`. */
  lemma ZeroCostNetIsGross(pos: seq<real>, ret: seq<real>)
    requires |pos| == |ret|
    ensures forall t :: 0 <= t < |pos| ==> NetReturns(pos, ret, 0.0)[t] == pos[t] * ret[t]
  {
    var net := NetReturns(pos, ret, 0.0);
    forall t | 0 <= t < |pos| ensures net[t] == pos[t] * ret[t] {
      assert 0.0 * Trades(pos)[t] == 0.0;
    }
  }

  // ---------------------------------------------------------------------
  // Cumulative return and drawdown
  // ---------------------------------------------------------------------

  /** The product of the factors `f`. */
  function Product(f: seq<real>): real
  {
    if f == [] then 1.0 else f[0] * Product(f[1..])
  }

  lemma {:induction false} ProductSnoc(f: seq<real>, x: real)
    ensures Product(f + [x]) == Product(f) * x
  {
    if f != [] {
      assert (f + [x])[1..] == f[1..] + [x];
      ProductSnoc(f[1..], x);
    }
  }

  /** `1 + returns`. */
  function OnePlus(r: seq<real>): (f: seq<real>)
    ensures |f| == |r|
  {
    seq(|r|, t requires 0 <= t < |r| => 1.0 + r[t])
  }

  /** `cumprod()`: each entry is the product of the factors up to and including it. */
  function CumProd(f: seq<real>): (r: seq<real>)
    ensures |r| == |f|
    ensures forall t :: 0 <= t < |f| ==> r[t] == Product(f[..t + 1])
  {
    if f == [] then []
    else
      var n := |f|;
      var p := CumProd(f[..n - 1]);
      assert forall t :: 0 <= t < n - 1 ==> p[t] == Product(f[..t + 1]) by {
        forall t | 0 <= t < n - 1 ensures p[t] == Product(f[..t + 1]) {
          assert f[..n - 1][..t + 1] == f[..t + 1];
        }
      }
      assert f[..n - 1] + [f[n - 1]] == f[..n];
      ProductSnoc(f[..n - 1], f[n - 1]);
      assert n > 1 ==> f[..n - 1][..n - 1] == f[..n - 1];
      p + [(if n > 1 then p[n - 2] else 1.0) * f[n - 1]]
  }

  /** `(1 + strat_returns).cumprod() - 1`: the compounded return up to each period. */
  function CumReturns(net: seq<real>): (cum: seq<real>)
    ensures |cum| == |net|
    ensures forall t :: 0 <= t < |net| ==> cum[t] == Product(OnePlus(net)[..t + 1]) - 1.0
  {
    var c := CumProd(OnePlus(net));
    seq(|net|, t requires 0 <= t < |net| => c[t] - 1.0)
  }

  function Max(a: real, b: real): real { if a >= b then a else b }

  /** `cummax()`: each entry is at least every value so far (`CumMaxAttained`: and is one of them). */
  function CumMax(x: seq<real>): (r: seq<real>)
    ensures |r| == |x|
    ensures forall t, k :: 0 <= k <= t < |x| ==> x[k] <= r[t]
  {
    if x == [] then []
    else
      var n := |x|;
      var p := CumMax(x[..n - 1]);
      var m := if n > 1 then Max(p[n - 2], x[n - 1]) else x[n - 1];
      assert forall k :: 0 <= k < n - 1 ==> x[..n - 1][k] == x[k];
      p + [m]
  }

  /** The running maximum at t is one of the values up to t. */
  lemma {:induction false} CumMaxAttained(x: seq<real>, t: nat)
    requires t < |x|
    ensures exists k :: 0 <= k <= t && CumMax(x)[t] == x[k]
    decreases |x|
  {
    var n := |x|;
    var q := x[..n - 1];
    var p := CumMax(q);
    assert CumMax(x) == p + [if n > 1 then Max(p[n - 2], x[n - 1]) else x[n - 1]];
    if t < n - 1 {
      CumMaxAttained(q, t);
      var k :| 0 <= k <= t && p[t] == q[k];
      assert CumMax(x)[t] == x[k];
    } else if n > 1 && p[n - 2] >= x[n - 1] {
      CumMaxAttained(q, n - 2);
      var k :| 0 <= k <= n - 2 && p[n - 2] == q[k];
      assert CumMax(x)[t] == x[k];
    } else {
      assert CumMax(x)[t] == x[n - 1];
    }
  }

  /** `cum_returns - cum_returns.cummax()`: a difference of cumulative returns, never positive. */
  function Drawdown(cum: seq<real>): (dd: seq<real>)
    ensures |dd| == |cum|
    ensures forall t :: 0 <= t < |cum| ==> dd[t] <= 0.0
  {
    var rm := CumMax(cum);
    seq(|cum|, t requires 0 <= t < |cum| => cum[t] - rm[t])
  }

  /** `min()` of a non-empty series: no larger than any entry, and one of them. */
  function MinOf(s: seq<real>): (m: real)
    requires |s| > 0
    ensures forall t :: 0 <= t < |s| ==> m <= s[t]
    ensures exists t :: 0 <= t < |s| && m == s[t]
  {
    if |s| == 1 then s[0]
    else
      var p := MinOf(s[..|s| - 1]);
      assert forall t :: 0 <= t < |s| - 1 ==> s[..|s| - 1][t] == s[t];
      if p <= s[|s| - 1] then p else s[|s| - 1]
  }

  ghost predicate NonDecreasing(x: seq<real>)
  {
    forall i, j :: 0 <= i <= j < |x| ==> x[i] <= x[j]
  }

  /** `drawdown.min()`. */
  function MaxDrawdown(cum: seq<real>): (m: real)
    requires |cum| > 0
    ensures m <= 0.0
  {
    MinOf(Drawdown(cum))
  }

  /** The maximum drawdown is never positive, and it is zero exactly when the cumulative return never falls. */
  lemma MaxDrawdownZeroIff(cum: seq<real>)
    requires |cum| > 0
    ensures MaxDrawdown(cum) <= 0.0
    ensures MaxDrawdown(cum) == 0.0 <==> NonDecreasing(cum)
  {
    var rm := CumMax(cum);
    var dd := Drawdown(cum);
    if MaxDrawdown(cum) == 0.0 {
      forall i, j | 0 <= i <= j < |cum| ensures cum[i] <= cum[j] {
        assert dd[j] >= 0.0;
      }
    }
    if NonDecreasing(cum) {
      forall t | 0 <= t < |cum| ensures dd[t] == 0.0 {
        CumMaxAttained(cum, t);
        var k :| 0 <= k <= t && rm[t] == cum[k];
      }
    }
  }

  // ---------------------------------------------------------------------
  // Trade total, hit rate, holding period
  // ---------------------------------------------------------------------

  /** Python's `int()` on a float: truncation toward zero. */
  function Trunc(x: real): (n: int)
    ensures x >= 0.0 ==> n >= 0 && n as real <= x < n as real + 1.0
    ensures x < 0.0 ==> n <= 0 && n as real - 1.0 < x <= n as real
  {
    if x >= 0.0 then x.Floor else -((-x).Floor)
  }

  /**
   * `int(trades.sum())`: the total absolute turnover truncated to an integer,
   * not a count of trade events.
   */
  function TotalTrades(trades: seq<real>): (n: int)
    requires forall t :: 0 <= t < |trades| ==> trades[t] >= 0.0
    ensures n >= 0 && n as real <= Sum(trades) < n as real + 1.0
  {
    SumNonNegative(trades);
    Trunc(Sum(trades))
  }

  /** The number of periods with a non-zero position. */
  function InMarket(pos: seq<real>): nat
  {
    if pos == [] then 0 else InMarket(pos[..|pos| - 1]) + (if pos[|pos| - 1] != 0.0 then 1 else 0)
  }

  /** The number of periods with a non-zero position and a strictly positive strategy return. */
  function Wins(pos: seq<real>, net: seq<real>): (w: nat)
    requires |pos| == |net|
    ensures w <= InMarket(pos)
  {
    if pos == [] then 0
    else
      var n := |pos|;
      Wins(pos[..n - 1], net[..n - 1]) + (if pos[n - 1] != 0.0 && net[n - 1] > 0.0 then 1 else 0)
  }

  /**
   * `hit_rate`: the fraction of in-market periods whose strategy return is
   * strictly positive; undefined (NaN) when the strategy is never in the market.
   */
  function HitRate(pos: seq<real>, net: seq<real>): (h: Option<real>)
    requires |pos| == |net|
    ensures h.None? <==> InMarket(pos) == 0
    ensures h.Some? ==> 0.0 <= h.value <= 1.0
    ensures h.Some? ==> h.value * (InMarket(pos) as real) == Wins(pos, net) as real
  {
    var m := InMarket(pos);
    var w := Wins(pos, net);
    if m > 0 then
      FractionBounds(w, m);
      Some(w as real / m as real)
    else None
  }

  lemma FractionBounds(a: nat, b: nat)
    requires a <= b && b > 0
    ensures 0.0 <= a as real / b as real <= 1.0
    ensures a as real / b as real * b as real == a as real
  {
  }

  function NatSum(s: seq<nat>): nat
  {
    if s == [] then 0 else NatSum(s[..|s| - 1]) + s[|s| - 1]
  }

  /**
   * The lengths of the maximal runs of non-zero positions, in order: the
   * groups `(holdings != holdings.shift()).cumsum()` whose first value is 1.
   */
  function RunLengths(pos: seq<real>): (r: seq<nat>)
    ensures pos != [] && pos[|pos| - 1] != 0.0 ==> |r| > 0
  {
    if pos == [] then []
    else
      var n := |pos|;
      var p := RunLengths(pos[..n - 1]);
      if pos[n - 1] == 0.0 then p
      else if n > 1 && pos[n - 2] != 0.0 then
        assert pos[..n - 1][n - 2] == pos[n - 2];
        p[..|p| - 1] + [p[|p| - 1] + 1]
      else p + [1]
  }

  /** The number of periods that start a run: non-zero, and first or after a zero. */
  function RunStarts(pos: seq<real>): nat
  {
    if pos == [] then 0
    else
      var n := |pos|;
      RunStarts(pos[..n - 1]) + (if pos[n - 1] != 0.0 && (n == 1 || pos[n - 2] == 0.0) then 1 else 0)
  }

  lemma {:induction false} NatSumSnoc(s: seq<nat>, x: nat)
    ensures NatSum(s + [x]) == NatSum(s) + x
  {
    assert (s + [x])[..|s|] == s;
  }

  /** Every run has length at least 1. */
  lemma {:induction false} RunLengthsPositive(pos: seq<real>)
    ensures forall k :: 0 <= k < |RunLengths(pos)| ==> RunLengths(pos)[k] >= 1
  {
    if pos != [] {
      var n := |pos|;
      var q := pos[..n - 1];
      RunLengthsPositive(q);
      if n > 1 {
        assert q[n - 2] == pos[n - 2];
      }
    }
  }

  /** There is one run per run start. */
  lemma {:induction false} RunLengthsCount(pos: seq<real>)
    ensures |RunLengths(pos)| == RunStarts(pos)
  {
    if pos != [] {
      var n := |pos|;
      var q := pos[..n - 1];
      RunLengthsCount(q);
      if n > 1 {
        assert q[n - 2] == pos[n - 2];
      }
    }
  }

  /** The run lengths add up to the in-market periods. */
  lemma {:induction false} RunLengthsSum(pos: seq<real>)
    ensures NatSum(RunLengths(pos)) == InMarket(pos)
  {
    if pos != [] {
      var n := |pos|;
      var q := pos[..n - 1];
      var p := RunLengths(q);
      RunLengthsSum(q);
      if pos[n - 1] != 0.0 {
        if n > 1 && pos[n - 2] != 0.0 {
          assert q[n - 2] == pos[n - 2];
          var last := p[|p| - 1];
          assert p == p[..|p| - 1] + [last];
          NatSumSnoc(p[..|p| - 1], last);
          NatSumSnoc(p[..|p| - 1], last + 1);
        } else {
          NatSumSnoc(p, 1);
        }
      }
    }
  }

  /** `lengths.mean()`, or 0 when there is no run. */
  function AvgHoldingPeriod(pos: seq<real>): (a: real)
    ensures a >= 0.0
  {
    var r := RunLengths(pos);
    if |r| == 0 then 0.0 else NatSum(r) as real / |r| as real
  }

  /** The average holding period is 0 without runs, and otherwise at least one period and at most the series length. */
  lemma AvgHoldingPeriodBounds(pos: seq<real>)
    ensures RunStarts(pos) == 0 ==> AvgHoldingPeriod(pos) == 0.0
    ensures RunStarts(pos) > 0 ==> 1.0 <= AvgHoldingPeriod(pos) <= |pos| as real
  {
    RunLengthsPositive(pos);
    RunLengthsCount(pos);
    RunLengthsSum(pos);
    var r := RunLengths(pos);
    if |r| > 0 {
      NatSumLowerBound(r);
      InMarketBound(pos);
      RatioBounds(NatSum(r) as real, |r| as real, |pos| as real);
    }
  }

  lemma RatioBounds(a: real, b: real, n: real)
    requires 1.0 <= b <= a <= n
    ensures 1.0 <= a / b <= n
  {
    assert a / b * b == a;
  }

  lemma {:induction false} NatSumLowerBound(s: seq<nat>)
    requires forall k :: 0 <= k < |s| ==> s[k] >= 1
    ensures NatSum(s) >= |s|
  {
    if s != [] {
      NatSumLowerBound(s[..|s| - 1]);
    }
  }

  lemma {:induction false} InMarketBound(pos: seq<real>)
    ensures InMarket(pos) <= |pos|
  {
    if pos != [] {
      InMarketBound(pos[..|pos| - 1]);
    }
  }

  // ---------------------------------------------------------------------
  // The whole backtest
  // ---------------------------------------------------------------------

  /** The performance record. CAGR, volatility and Sharpe ratio are not part of this model. */
  datatype Metrics = Metrics(
    totalReturn: real,
    maxDrawdown: real,
    totalTrades: int,
    hitRate: Option<real>,
    avgHoldingPeriod: real)

  /** The result frame (`strategy_return`, `cumulative_return`) and the record. */
  datatype Backtest = Backtest(strategyReturn: seq<real>, cumulativeReturn: seq<real>, metrics: Metrics)

  /**
   * `backtest_strategy(prices, signals, transaction_cost)`. The price
   * returns are `pct_change().fillna(0)` with the default padding, so a
   * missing price earns 0. An empty series fails at `cum_returns.iloc[-1]`.
   */
  function BacktestStrategy(prices: seq<Cell>, signals: seq<Cell>, tc: real): (r: Result<Backtest>)
    requires |signals| == |prices|
    requires PresentDivisorsNonZero(prices)
    ensures r.Err? <==> |prices| == 0
    ensures r.Err? ==> r.error == EmptySeries
    ensures r.Ok? ==>
      var pos := Positions(signals);
      var net := r.value.strategyReturn;
      && |net| == |prices| && |r.value.cumulativeReturn| == |prices|
      && r.value.metrics.totalReturn == Product(OnePlus(net)) - 1.0
      && r.value.metrics.maxDrawdown <= 0.0
      && r.value.metrics.totalTrades >= 0
      && (r.value.metrics.hitRate.None? <==> InMarket(pos) == 0)
      && (r.value.metrics.hitRate.Some? ==> 0.0 <= r.value.metrics.hitRate.value <= 1.0)
  {
    if |prices| == 0 then Err(EmptySeries)
    else
      var ret := PaddedPctChange(prices);
      var pos := Positions(signals);
      var trades := Trades(pos);
      var net := NetReturns(pos, ret, tc);
      var cum := CumReturns(net);
      var n := |prices|;
      assert OnePlus(net)[..n] == OnePlus(net);
      MaxDrawdownZeroIff(cum);
      Ok(Backtest(net, cum, Metrics(
        cum[n - 1],
        MaxDrawdown(cum),
        TotalTrades(trades),
        HitRate(pos, net),
        AvgHoldingPeriod(pos))))
  }

  // ---------------------------------------------------------------------
  // Properties relating the steps
  // ---------------------------------------------------------------------

  /** Backtesting with every missing signal replaced by 0 gives the same result. */
  lemma MissingSignalBacktest(prices: seq<Cell>, signals: seq<Cell>, tc: real)
    requires |signals| == |prices| && PresentDivisorsNonZero(prices)
    ensures BacktestStrategy(prices, Lift(Instructions(signals)), tc) == BacktestStrategy(prices, signals, tc)
  {
    MissingSignalIsZero(signals);
  }

  lemma StrategyReturnIsNet(prices: seq<Cell>, signals: seq<Cell>, tc: real)
    requires |signals| == |prices| && PresentDivisorsNonZero(prices)
    requires |prices| > 0
    ensures BacktestStrategy(prices, signals, tc).Ok?
    ensures BacktestStrategy(prices, signals, tc).value.strategyReturn
      == NetReturns(Positions(signals), PaddedPctChange(prices), tc)
    ensures BacktestStrategy(prices, signals, tc).value.cumulativeReturn
      == CumReturns(BacktestStrategy(prices, signals, tc).value.strategyReturn)
  {
  }

  /** Every entry of the record is the statistic of the positions, strategy returns and cumulative returns. */
  lemma MetricsOfSteps(prices: seq<Cell>, signals: seq<Cell>, tc: real)
    requires |signals| == |prices| && PresentDivisorsNonZero(prices)
    requires |prices| > 0
    ensures BacktestStrategy(prices, signals, tc).Ok?
    ensures var b := BacktestStrategy(prices, signals, tc).value;
      var pos := Positions(signals);
      && b.metrics.totalReturn == b.cumulativeReturn[|prices| - 1]
      && b.metrics.maxDrawdown == MaxDrawdown(b.cumulativeReturn)
      && b.metrics.totalTrades == TotalTrades(Trades(pos))
      && b.metrics.hitRate == HitRate(pos, b.strategyReturn)
      && b.metrics.avgHoldingPeriod == AvgHoldingPeriod(pos)
  {
    StrategyReturnIsNet(prices, signals, tc);
  }

  /** The strategy return of each period: the held position times the price return, less the cost of its turnover. */
  lemma StrategyReturns(prices: seq<Cell>, signals: seq<Cell>, tc: real)
    requires |signals| == |prices| && PresentDivisorsNonZero(prices)
    requires |prices| > 0
    ensures BacktestStrategy(prices, signals, tc).Ok?
    ensures forall t :: 0 <= t < |prices| ==>
      BacktestStrategy(prices, signals, tc).value.strategyReturn[t]
        == Positions(signals)[t] * PaddedPctChange(prices)[t] - tc * Trades(Positions(signals))[t]
  {
    StrategyReturnIsNet(prices, signals, tc);
  }

  /** Compounding the percent returns from the first price gives back each price. */
  lemma {:induction false} PricesFromReturns(prices: seq<real>, t: nat)
    requires forall i :: 0 <= i < |prices| ==> prices[i] != 0.0
    requires t < |prices|
    ensures prices[0] * Product(OnePlus(PctChange(prices))[..t + 1]) == prices[t]
  {
    var f := OnePlus(PctChange(prices));
    if t == 0 {
      assert f[..1] == [f[0]];
      assert Product(f[..1]) == f[0] * Product([]);
    } else {
      PricesFromReturns(prices, t - 1);
      assert f[..t] + [f[t]] == f[..t + 1];
      ProductSnoc(f[..t], f[t]);
      var x := Product(f[..t]);
      var q := prices[t] / prices[t - 1];
      assert f[t] == q;
      assert prices[0] * x == prices[t - 1];
      MulAssoc(prices[0], x, q);
      assert prices[t - 1] * q == prices[t];
    }
  }

  lemma MulAssoc(a: real, b: real, c: real)
    ensures a * (b * c) == (a * b) * c
  {
  }

  /**
   * A standing long signal of 1 with no trading cost is held from the second
   * period on and earns exactly the price return since the first period.
   */
  lemma FullyInvestedTracksPrice(prices: seq<real>, signals: seq<Cell>, t: nat)
    requires |signals| == |prices| && t < |prices|
    requires forall i :: 0 <= i < |prices| ==> prices[i] != 0.0
    requires forall i :: 0 <= i < |signals| ==> signals[i] == Some(1.0)
    ensures BacktestStrategy(Lift(prices), signals, 0.0).Ok?
    ensures BacktestStrategy(Lift(prices), signals, 0.0).value.cumulativeReturn[t] == prices[t] / prices[0] - 1.0
  {
    PaddedPctChangeComplete(prices);
    StrategyReturnIsNet(Lift(prices), signals, 0.0);
    FullyInvestedNetIsPriceReturn(prices, signals);
    GrowthIsPriceRatio(prices, t);
  }

  /** The compounded percent return up to t is the ratio of the price at t to the first price. */
  lemma GrowthIsPriceRatio(prices: seq<real>, t: nat)
    requires forall i :: 0 <= i < |prices| ==> prices[i] != 0.0
    requires t < |prices|
    ensures Product(OnePlus(PctChange(prices))[..t + 1]) == prices[t] / prices[0]
  {
    PricesFromReturns(prices, t);
    DivideOut(prices[0], Product(OnePlus(PctChange(prices))[..t + 1]), prices[t]);
  }

  lemma DivideOut(a: real, x: real, b: real)
    requires a != 0.0 && a * x == b
    ensures x == b / a
  {
  }

  lemma FullyInvestedNetIsPriceReturn(prices: seq<real>, signals: seq<Cell>)
    requires |signals| == |prices|
    requires forall i :: 0 <= i < |prices| ==> prices[i] != 0.0
    requires forall i :: 0 <= i < |signals| ==> signals[i] == Some(1.0)
    ensures NetReturns(Positions(signals), PctChange(prices), 0.0) == PctChange(prices)
  {
    var pos := Positions(signals);
    var ret := PctChange(prices);
    ZeroCostNetIsGross(pos, ret);
    forall k | 0 <= k < |prices| ensures pos[k] * ret[k] == ret[k] {
      if k > 0 {
        assert Instructions(signals)[..k][k - 1] == 1.0;
        assert pos[k] == 1.0;
      }
    }
  }

  /**
   * Prices 100, 110, 99 with signals +1, +1, -1: the -1 is a short target
   * given on the last bar, so it never takes effect; the long position is
   * held over both moves and the strategy returns are 0, +10%, -10%.
   */
  lemma LastBarSignalScenario(prices: seq<real>, signals: seq<Cell>)
    requires prices == [100.0, 110.0, 99.0] && signals == [Some(1.0), Some(1.0), Some(-1.0)]
    ensures BacktestStrategy(Lift(prices), signals, 0.0).Ok?
    ensures BacktestStrategy(Lift(prices), signals, 0.0).value.strategyReturn == [0.0, 0.1, -0.1]
    ensures BacktestStrategy(Lift(prices), signals, 0.0).value.metrics.totalReturn == -0.01
  {
    PaddedPctChangeComplete(prices);
    StrategyReturnIsNet(Lift(prices), signals, 0.0);
    ScenarioNet(prices, signals);
    ScenarioGrowth(BacktestStrategy(Lift(prices), signals, 0.0).value.strategyReturn);
  }

  /**
   * Prices NaN, 100, NaN, 110 under a standing long signal: the missing
   * prices earn 0 and the last bar earns the 10% move from 100 across the
   * gap, so the strategy returns are 0, 0, 0, +10%.
   */
  lemma GapScenario(prices: seq<Cell>, signals: seq<Cell>)
    requires prices == [None, Some(100.0), None, Some(110.0)] && signals == [Some(1.0), Some(1.0), Some(1.0), Some(1.0)]
    ensures PresentDivisorsNonZero(prices)
    ensures BacktestStrategy(prices, signals, 0.0).Ok?
    ensures BacktestStrategy(prices, signals, 0.0).value.strategyReturn == [0.0, 0.0, 0.0, 0.1]
  {
    PaddedPctChangeScenario(prices);
    StrategyReturnIsNet(prices, signals, 0.0);
    StandingLongPositions(signals);
    ZeroCostNetIsGross(Positions(signals), PaddedPctChange(prices));
  }

  /** A long signal on each of four bars is first held from the second bar on. */
  lemma StandingLongPositions(signals: seq<Cell>)
    requires signals == [Some(1.0), Some(1.0), Some(1.0), Some(1.0)]
    ensures Positions(signals) == [0.0, 1.0, 1.0, 1.0]
  {
    var s := Instructions(signals);
    assert s == [1.0, 1.0, 1.0, 1.0];
    assert s[..1] == [1.0] && s[..2] == [1.0, 1.0] && s[..3] == [1.0, 1.0, 1.0];
  }

  lemma ScenarioNet(prices: seq<real>, signals: seq<Cell>)
    requires prices == [100.0, 110.0, 99.0] && signals == [Some(1.0), Some(1.0), Some(-1.0)]
    ensures NetReturns(Positions(signals), PctChange(prices), 0.0) == [0.0, 0.1, -0.1]
  {
    var pos := Positions(signals);
    var s := Instructions(signals);
    assert s == [1.0, 1.0, -1.0];
    assert s[..1] == [1.0] && s[..2] == [1.0, 1.0];
    assert pos == [0.0, 1.0, 1.0];
    var ret := PctChange(prices);
    assert ret[1] == 110.0 / 100.0 - 1.0 == 0.1;
    assert ret[2] == 99.0 / 110.0 - 1.0 == -0.1;
    ZeroCostNetIsGross(pos, ret);
  }

  lemma ScenarioGrowth(net: seq<real>)
    requires net == [0.0, 0.1, -0.1]
    ensures Product(OnePlus(net)) - 1.0 == -0.01
  {
    var f := OnePlus(net);
    assert f == [1.0, 1.1, 0.9];
    var g, h := f[1..], f[2..];
    assert g[1..] == h && h[1..] == [];
    assert Product(h) == 0.9 * Product(h[1..]) == 0.9;
    assert Product(g) == 1.1 * Product(h) == 0.99;
    assert Product(f) == 1.0 * Product(g);
  }

  /**
   * Signals +1, -1 over three bars: positions 0, +1, -1, turnovers 0, 1, 2.
   * The trade total is 3, the absolute turnover, although the position
   * changed only twice.
   */
  lemma FlipCountsTurnover(prices: seq<Cell>, signals: seq<Cell>)
    requires |prices| == 3 && PresentDivisorsNonZero(prices)
    requires signals == [Some(1.0), Some(-1.0), Some(0.0)]
    ensures BacktestStrategy(prices, signals, 0.0).Ok?
    ensures BacktestStrategy(prices, signals, 0.0).value.metrics.totalTrades == 3
  {
    var pos := Positions(signals);
    var s := Instructions(signals);
    assert s == [1.0, -1.0, 0.0];
    assert s[..1] == [1.0] && s[..2] == [1.0, -1.0];
    assert pos == [0.0, 1.0, -1.0];
    var trades := Trades(pos);
    assert trades == [0.0, 1.0, 2.0];
    assert trades[..2] == [0.0, 1.0] && trades[..2][..1] == [0.0] && trades[..2][..1][..0] == [];
    assert Sum(trades[..2][..1]) == 0.0;
    assert Sum(trades[..2]) == 1.0;
    assert Sum(trades) == 3.0;
  }

  /**
   * Signals NaN, +1, NaN, 0: the missing first signal and the missing and
   * zero later ones are no instruction, so the +1 given on the second bar is
   * held from the third bar on.
   */
  lemma MissingSignalScenario(signals: seq<Cell>)
    requires signals == [None, Some(1.0), None, Some(0.0)]
    ensures Positions(signals) == [0.0, 0.0, 1.0, 1.0]
  {
    var s := Instructions(signals);
    assert s == [0.0, 1.0, 0.0, 0.0];
    assert s[..1] == [0.0] && s[..2] == [0.0, 1.0] && s[..3] == [0.0, 1.0, 0.0];
    assert s[..1][..0] == [] && s[..3][..2] == s[..2];
  }
}
