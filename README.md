# carver: verified model of the backtester, the sizing rules and the roll adjustment

This project is a Dafny model of the computational core of the `carver` futures research code. It covers:

- **Backtester** (`backtest_strategy`). It computes:
  - percent returns;
  - positions lagged by one bar, where 0 or a missing signal means "no instruction" and the last instruction is carried forward;
  - turnover and the trading cost;
  - compounded cumulative returns and drawdown against the running maximum;
  - the trade total, the hit rate and the average holding period.
- **Portfolio risk-scaled strategy** (`PortfolioRiskScaledStrategy`). Its `generate_signals` loop writes the position table row by row:
  - warm-up rows are normalised to a gross exposure of 1 and capped at 1;
  - later rows are scaled to a volatility target under a blend of a short-window and a long-window sample covariance;
  - optionally, later rows are then rescaled by initial capital over equity so far (`_equity_over_time`);
  - later rows are capped at 7.
  
  The table is then optionally multiplied by the trend mask and forward filled.
- **Trend indicator**. It has:
  - the `adjust=False` exponential mean;
  - MACD as fast minus slow;
  - the three-way trend mask with the cut-offs 0 and −0.3.
- **Sizing helpers**:
  - the rolling-volatility guard and the inverse-volatility raw weights of the multi-asset base;
  - the single-asset risk-scaled sizing rule;
  - the single-asset variable-risk sizing rule.
- **Roll back-adjustment**. It has:
  - the roll detector over a 10-bar mean of absolute differences;
  - the difference and ratio kernels, modelled as loops over arrays in place;
  - the `panama` alias;
  - the `back_adjust` gateway with its case-insensitive method map.
- **Two small utilities**:
  - the `buy_n_hold` signal, written into a zero array in place;
  - the `_to_polygon_symbol` rewrite, checked against the symbol universe of `src/config/universe.py`.

**Conventions.**
- Prices, returns and positions are `real`.
- A missing pandas cell is `Option<real>`. Prices given to the backtester and to the strategies are such cells, so a price series may have gaps anywhere.
- Signals given to the backtester are cells too. A missing signal, such as the risk-scaled strategies emit before their windows fill, is no instruction, exactly like 0.
- `Series.PctChange` on plain reals is the gap-free special case of the padded change `Series.PaddedPctChange`.
- A frame is a row-major `seq<seq<Option<real>>>`.
- Every pandas exception the core can raise is an `Err` of a `Result`. The exceptions are:
  - an empty series;
  - an unset volatility window;
  - an invalid symbol;
  - an unknown adjustment method;
  - a smoothing factor outside (0, 1];
  - a missing calendar day.

**Inputs taken as given.** The transcendental pieces are inputs to the model:
- the exponentially weighted standard deviations `sigma_fast` and `sigma_slow` are given panels;
- the rolling standard deviation is a function parameter `windowVol`;
- the square root is a function parameter `sqrt`.

The lemmas about the volatility target assume only that `sqrt` returns a nonnegative root.

**Modules:**

| module | file |
|---|---|
| `Wrappers` | `wrappers.dfy` |
| `Series` | `series.dfy` |
| `Backtester` | `backtester.dfy` |
| `BuyNHold` | `buy_n_hold.dfy` |
| `Trend` | `trend.dfy` |
| `StrategyBase` | `strategy_base.dfy` |
| `RiskScaled` | `risk_scaled.dfy` |
| `VariableRiskScaled` | `variable_risk_scaled.dfy` |
| `Covariance` | `covariance.dfy` |
| `Portfolio` | `portfolio.dfy` |
| `Adjust` | `adjust.dfy` |
| `Loaders` | `loaders.dfy` |

**Where the code and its description differ, the model follows the code:**
- A signal of −1 is a short target, not an exit.
- Drawdown is a difference of cumulative returns, not a ratio.
- `total_trades` is the total absolute turnover truncated to an integer. A flip from +1 to −1 contributes 2.
- The portfolio cap is 7.0.
- The `threshold` argument of `trend_mask` is never read.
- In the portfolio strategy, `returns.fillna(0.0)` discards its result. Returns therefore stay missing where a price is missing.

## Model

| member | source | states |
|---|---|---|
| Series.FFill | src/lib/strat/strategy_base.py:48 | forward fill keeps every present cell, copies the previous result into a missing cell, and keeps the first cell |
| Series.FFillIsLastPresent | src/lib/strat/variable_risk_scaled_strategy.py:47 | the filled value at t is the last present cell among the first t+1 |
| Series.FFillMissing | src/lib/strat/variable_risk_scaled_strategy.py:47 | a filled cell is missing exactly when no cell up to it is present (leading gaps stay, interior gaps are filled) |
| Series.FFillWithinBounds | src/lib/strat/strategy_base.py:48 | forward filling keeps every value inside any bounds the present cells respect |
| Series.LastPresentNone | src/lib/strat/strategy_base.py:48 | the last present cell is missing iff every cell is missing |
| Series.LastPresentIsACell | src/lib/strat/strategy_base.py:48 | a last present value is one of the cells |
| Series.LastPresent | src/lib/strat/strategy_base.py:48 | a present last cell is one of the cells |
| Series.FillNa | src/lib/backtester/backtester.py:21 | `fillna(v)` keeps every present value and puts v in every missing cell |
| Series.SumAppend | src/lib/backtester/backtester.py:52 | the sum of a concatenation is the sum of the sums |
| Series.SumNonNegative | src/lib/backtester/backtester.py:52 | a sum of nonnegative terms is nonnegative |
| Series.SumBoundsElement | src/lib/backtester/backtester.py:52 | a sum of nonnegative terms bounds each of them |
| Series.FFillPanelPresent | src/lib/strat/portfolio_risk_scaled_strategy.py:67 | forward filling a frame keeps every present cell |
| Series.FFillPanel | src/lib/strat/portfolio_risk_scaled_strategy.py:67 | a filled frame has the frame's shape, and a missing cell below the first row copies the filled cell above it |
| Series.FFillPanelMissing | src/lib/strat/portfolio_risk_scaled_strategy.py:67 | a filled cell is missing iff it and every cell above it in its column are missing |
| Series.PctChange | src/lib/backtester/backtester.py:21 | on prices without gaps the first change is 0, and every later price is the previous one times one plus its change |
| Series.PctChangeCells | src/lib/indicators/trending_indicator.py:39 | `pct_change(fill_method=None)` has the input's length and is present iff t > 0 and both this cell and the previous one are present |
| Series.PctChangeCellAt | src/lib/indicators/trending_indicator.py:39 | the elementwise rule of `pct_change(fill_method=None)` (an unfolding, not a further property): this price over the previous one, minus 1, where both are present |
| Series.PctChangeCellsPresence | src/lib/indicators/trending_indicator.py:39-41 | some change up to t is present iff some price up to t follows a present price |
| Series.FFillDivisorsNonZero | src/lib/backtester/backtester.py:21 | forward filling keeps every present divisor nonzero |
| Series.FilledBeforeIsLast | src/lib/backtester/backtester.py:21 | the filled cell before t is the last present price before t, and a present one is nonzero |
| Series.PaddedPctChange | src/lib/backtester/backtester.py:21 | `pct_change().fillna(0)` with the default pad has the prices' length |
| Series.PaddedPctChangeAt | src/lib/backtester/backtester.py:21 | the change at t is the price at t over the last present price before it, minus 1; it is 0 at a missing price and at the first present price |
| Series.PaddedPctChangeComplete | src/lib/backtester/backtester.py:21 | on prices without gaps the padded change is the plain change |
| Series.PaddedPctChangeScenario | src/lib/backtester/backtester.py:21 | [missing, 100, missing, 110] gives [0, 0, 0, 0.1]: the gap is padded, not masked |
| Backtester.Positions | src/lib/backtester/backtester.py:24-25 | position t is the last nonzero instruction strictly before t, or 0 when there is none; a missing signal is read as 0 |
| Backtester.SignalEvents | src/lib/backtester/backtester.py:24 | `replace(0, nan)`: an event is missing iff its signal is missing or 0, and otherwise it is the signal |
| Backtester.Instructions | src/lib/backtester/backtester.py:24-25 | the instruction of a bar is 0 iff its signal is missing or 0, and otherwise the signal |
| Backtester.Shift | src/lib/backtester/backtester.py:25 | `shift(1)`: the first cell is missing and every later cell is the cell before it |
| Backtester.LastNonZero | src/lib/backtester/backtester.py:25 | a nonzero carried position is one of the signals |
| Backtester.ShiftedEventsLastNonZero | src/lib/backtester/backtester.py:24-25 | `replace(0, nan).shift(1).ffill().fillna(0)` equals the last nonzero signal before t |
| Backtester.LastNonZeroOrigin | src/lib/backtester/backtester.py:24-25 | the carried position is 0 iff every earlier signal is 0; otherwise it is a signal after which all signals are 0 |
| Backtester.PositionsAreCausal | src/lib/backtester/backtester.py:24-25 | two signal series that agree before t give the same positions up to and including t |
| Backtester.NoPositionBeforeFirstSignal | src/lib/backtester/backtester.py:24-25 | while every earlier signal is missing or 0 the position is 0 |
| Backtester.MissingSignalIsZero | src/lib/backtester/backtester.py:24-25 | replacing every missing signal by 0 changes neither the events nor the positions |
| Backtester.MissingSignalScenario | src/lib/backtester/backtester.py:24-25 | signals [missing, 1, missing, 0] give positions [0, 0, 1, 1] |
| Backtester.Trades | src/lib/backtester/backtester.py:28 | turnover has the length of the positions and is never negative |
| Backtester.NetReturns | src/lib/backtester/backtester.py:32-33 | the net return at every t is position times return minus cost times turnover |
| Backtester.NetReturn | src/lib/backtester/backtester.py:32-33 | subtracting the cost only where the turnover is nonzero equals subtracting cost times turnover everywhere |
| Backtester.ZeroCostNetIsGross | src/lib/backtester/backtester.py:29-33 | with zero cost the net series is the gross series position times return |
| Backtester.CumProd | src/lib/backtester/backtester.py:36 | each running product is the product of the prefix up to it |
| Backtester.CumReturns | src/lib/backtester/backtester.py:36 | cumulative return at t is the product of one plus each net return up to t, minus 1 |
| Backtester.ProductSnoc | src/lib/backtester/backtester.py:36 | appending a factor multiplies the product by it |
| Backtester.CumMax | src/lib/backtester/backtester.py:48 | the running maximum at t is at least every value up to t |
| Backtester.CumMaxAttained | src/lib/backtester/backtester.py:48 | the running maximum at t is one of the values up to t |
| Backtester.Drawdown | src/lib/backtester/backtester.py:49 | every drawdown, value minus running maximum, is at most 0 |
| Backtester.MinOf | src/lib/backtester/backtester.py:50 | the minimum is below every entry and is one of them |
| Backtester.MaxDrawdown | src/lib/backtester/backtester.py:48-50 | the maximum drawdown is at most 0 |
| Backtester.MaxDrawdownZeroIff | src/lib/backtester/backtester.py:48-50 | maximum drawdown is at most 0, and is 0 exactly when the cumulative returns never decrease |
| Backtester.Trunc | src/lib/backtester/backtester.py:52 | `int()` truncates toward zero: the result is within 1 of its argument, on the side of 0 |
| Backtester.TotalTrades | src/lib/backtester/backtester.py:52 | the trade total is the nonnegative integer part of the total turnover |
| Backtester.FlipCountsTurnover | src/lib/backtester/backtester.py:52 | a flip of +1 to −1 followed by a flat bar makes a trade total of 3 |
| Backtester.Wins | src/lib/backtester/backtester.py:54-55 | the winning periods are among the in-market periods |
| Backtester.HitRate | src/lib/backtester/backtester.py:54-55 | the hit rate is undefined iff never in the market; otherwise it lies in [0, 1] and times the in-market count gives the wins |
| Backtester.FractionBounds | src/lib/backtester/backtester.py:55 | a count over a larger positive count lies in [0, 1] and multiplies back |
| Backtester.RunLengths | src/lib/backtester/backtester.py:57-61 | a series ending in the market has at least one run |
| Backtester.RunLengthsPositive | src/lib/backtester/backtester.py:57-61 | every run of nonzero positions has length at least 1 |
| Backtester.RunLengthsCount | src/lib/backtester/backtester.py:60-61 | there is one run for every entry into the market |
| Backtester.RunLengthsSum | src/lib/backtester/backtester.py:57-61 | the run lengths add up to the number of in-market periods |
| Backtester.AvgHoldingPeriod | src/lib/backtester/backtester.py:57-62 | the average holding period is nonnegative |
| Backtester.InMarketBound | src/lib/backtester/backtester.py:54 | the in-market periods are at most the length of the series |
| Backtester.AvgHoldingPeriodBounds | src/lib/backtester/backtester.py:57-62 | the average holding period is 0 with no runs, and otherwise between 1 and the series length |
| Backtester.BacktestStrategy | src/lib/backtester/backtester.py:4-76 | an empty series fails (`iloc[-1]`). Otherwise, for prices and signals that may have gaps: the results have the series' length; the total return is the compounded net return; max drawdown is at most 0; trades are nonnegative; the hit rate is missing iff no bar is in the market, and otherwise in [0, 1] |
| Backtester.MissingSignalBacktest | src/lib/backtester/backtester.py:4-76 | the backtest of signals with gaps equals the backtest with every missing signal replaced by 0 |
| Backtester.StrategyReturnIsNet | src/lib/backtester/backtester.py:21-36 | the returned strategy returns are the net returns of the lagged positions on the padded percent changes, and the cumulative column compounds them |
| Backtester.StrategyReturns | src/lib/backtester/backtester.py:21-33 | each strategy return is position times padded percent change minus cost times turnover |
| Backtester.MetricsOfSteps | src/lib/backtester/backtester.py:39-72 | each metric is its defining scan: last cumulative return, minimum drawdown, truncated turnover, hit rate, mean run length |
| Backtester.PricesFromReturns | src/lib/backtester/backtester.py:21 | compounding the percent changes from the first price recovers every later price |
| Backtester.GrowthIsPriceRatio | src/lib/backtester/backtester.py:21 | the compounded growth of the percent changes up to t is price t over the first price |
| Backtester.FullyInvestedNetIsPriceReturn | src/lib/backtester/backtester.py:21-33 | a constant signal of 1 at zero cost earns exactly the percent changes |
| Backtester.FullyInvestedTracksPrice | src/lib/backtester/backtester.py:21-39 | on prices without gaps, a constant signal of 1 at zero cost has cumulative return price t over first price minus 1 |
| Backtester.LastBarSignalScenario | src/lib/backtester/backtester.py:21-39 | prices [100, 110, 99] with signals [1, 1, −1] earn [0, 0.1, −0.1] and a total return of −0.01: the short at the last bar is never taken |
| Backtester.ScenarioNet | src/lib/backtester/backtester.py:24-33 | the net returns of that scenario are [0, 0.1, −0.1] |
| Backtester.ScenarioGrowth | src/lib/backtester/backtester.py:36-39 | those net returns compound to −0.01 |
| Backtester.GapScenario | src/lib/backtester/backtester.py:21-36 | prices [missing, 100, missing, 110] with a constant signal of 1 earn [0, 0, 0, 0.1]: the return across the gap lands on the bar after it |
| BuyNHold.BuyNHold | src/lib/strat/buy_n_hold.py:3-19 | the zero array with its first and then its last entry overwritten is the buy-and-hold signal; no bars fails |
| BuyNHold.BuyNHoldShape | src/lib/strat/buy_n_hold.py:11-17 | fails iff empty. Otherwise: the signal has n entries in {−1, 0, 1}; a single bar gives [−1]; otherwise +1 first, −1 last and 0 between |
| BuyNHold.LastNonZeroIsFirst | src/lib/strat/buy_n_hold.py:14 | a lone entry signal is carried forward as the position |
| BuyNHold.SumZeroTail | src/lib/backtester/backtester.py:52 | zero entries after k add nothing to the sum |
| BuyNHold.BuyNHoldPositions | src/lib/strat/buy_n_hold.py:17 | the positions of two or more bars are 0 then 1 to the end: the exit is shifted past the end |
| BuyNHold.HoldingTurnover | src/lib/backtester/backtester.py:28 | positions 0 then all 1 turn over exactly once |
| BuyNHold.BuyNHoldBacktest | src/lib/strat/buy_n_hold.py:3-19 | backtesting the buy-and-hold signal of two or more bars gives a trade total of 1 |
| Trend.Weight | src/lib/indicators/trending_indicator.py:26 | the weight `old_wt` of the running mean after a gap lies in [0, 1] |
| Trend.WeightedMean | src/lib/indicators/trending_indicator.py:26 | blending the mean with a new value stays between the two |
| Trend.WeightedMeanBetween | src/lib/indicators/trending_indicator.py:26 | a weighted mean of two values with nonnegative weights lies between them |
| Trend.EwmStep | src/lib/indicators/trending_indicator.py:26 | one cell of `ewm(adjust=False)`: the mean stays missing only before the first present cell; a present cell resets the gap to 0; a missing cell keeps the mean and lengthens the gap |
| Trend.EwmPass | src/lib/indicators/trending_indicator.py:26 | after a present last cell the mean is present with no gap; a missing mean has no gap |
| Trend.EwmPresence | src/lib/indicators/trending_indicator.py:26 | the running mean is missing iff every cell so far is missing |
| Trend.EwmPassSnoc | src/lib/indicators/trending_indicator.py:26 | the pass over t + 1 cells is one step after the pass over t cells |
| Trend.EmaCells | src/lib/indicators/trending_indicator.py:24-26 | the mean has the input's length |
| Trend.EmaPresence | src/lib/indicators/trending_indicator.py:24-26 | the mean at t is present iff some input cell up to t is present: leading gaps stay, interior gaps are filled |
| Trend.EmaStartsAtFirstValue | src/lib/indicators/trending_indicator.py:26 | at the first present cell the mean is that cell (y0 = x0) |
| Trend.EmaCarriesAtGap | src/lib/indicators/trending_indicator.py:26 | at a missing cell the mean is carried from the previous bar |
| Trend.EmaRecurrence | src/lib/indicators/trending_indicator.py:26 | after a present cell, the mean is (1 − α) times the previous mean plus α times the input |
| Trend.EwmRecurrencePass | src/lib/indicators/trending_indicator.py:26 | the same recurrence stated on the pass over a prefix |
| Trend.StepAfterPresent | src/lib/indicators/trending_indicator.py:26 | one step with no gap blends with weight 1 − α |
| Trend.EwmGapWeight | src/lib/indicators/trending_indicator.py:26 | through a run of missing cells after a present one, the mean is unchanged and the gap counts the missing cells |
| Trend.EmaAfterGap | src/lib/indicators/trending_indicator.py:26 | the next present cell after a gap blends the carried mean, of weight (1 − α) to the power of the distance, with α times the cell, divided by their total weight |
| Trend.EmaGapScenario | src/lib/indicators/trending_indicator.py:26 | [1, missing, 3] with α = 0.5 gives [1, 1, 7/3] |
| Trend.EmaPrefix | src/lib/indicators/trending_indicator.py:26 | the mean of a prefix is the prefix of the mean: the mean is causal |
| Trend.EwmWithinBounds | src/lib/indicators/trending_indicator.py:26 | the running mean lies between bounds every present cell respects |
| Trend.EmaWithinBounds | src/lib/indicators/trending_indicator.py:40-41 | for α in (0, 1] every mean lies between bounds the inputs so far respect |
| Trend.EmaOfConstant | src/lib/indicators/trending_indicator.py:40-41 | a constant input has that constant as its mean wherever the mean is present |
| Trend.Ema | src/lib/indicators/trending_indicator.py:24-26 | fails with InvalidAlpha iff α is outside (0, 1]; otherwise the mean has the input's length and is present from the first present cell on |
| Trend.MacdCells | src/lib/indicators/trending_indicator.py:40-42 | fast mean minus slow mean has the input's length |
| Trend.MacdPresence | src/lib/indicators/trending_indicator.py:40-42 | the MACD at t is present iff some input cell up to t is present |
| Trend.MacdSignalPrices | src/lib/indicators/trending_indicator.py:44-56 | fails iff either factor is invalid, reporting the fast one first; otherwise it has the prices' length and is present from the first present price on |
| Trend.MacdSignal | src/lib/indicators/trending_indicator.py:29-42 | fails iff either factor is invalid, reporting the fast one first; otherwise it has the prices' length and is present at t iff some price up to t follows a present price |
| Trend.MacdZeroAtFirstValue | src/lib/indicators/trending_indicator.py:40-42 | at the first present cell fast and slow means agree, so MACD is 0 |
| Trend.NoTrendAtFirstReturn | src/lib/indicators/trending_indicator.py:39-42 | at the first present return the MACD is 0 and the mask is 0 |
| Trend.MacdOfConstant | src/lib/indicators/trending_indicator.py:40-42 | a constant input gives MACD 0 wherever it is present |
| Trend.MaskOf | src/lib/indicators/trending_indicator.py:71-75 | one mask cell is in {−1, 0, 1}: +1 iff MACD > 0, −1 iff MACD < −0.3 |
| Trend.TrendMaskCells | src/lib/indicators/trending_indicator.py:70-75 | the mask has the prices' length and each entry is the mask cell of the MACD at that bar |
| Trend.ConstantPricesNoTrend | src/lib/indicators/trending_indicator.py:58-75 | constant nonzero prices give a mask of 0 everywhere |
| Trend.TrendMask | src/lib/indicators/trending_indicator.py:58-75 | fails iff a factor is invalid. Otherwise the mask has the input's length and entries in {−1, 0, 1}: +1 iff MACD > 0, −1 iff MACD < −0.3, 0 iff MACD is missing or in [−0.3, 0] |
| Trend.ThresholdIgnored | src/lib/indicators/trending_indicator.py:62 | any two thresholds give the same mask |
| Trend.TrendMaskPanel | src/lib/indicators/trending_indicator.py:58-75 | fails iff a factor is invalid; otherwise the mask of a frame has the frame's shape and is the column mask in every cell |
| StrategyBase.RollingVol | src/lib/strat/strategy_base.py:26-33 | fails with VolWindowNotSet iff no window is set; otherwise value t is present iff a full window of at least 2 ends at t |
| StrategyBase.RollingVolWindow | src/lib/strat/strategy_base.py:33 | the elementwise rule of `rolling(w).std()` (an unfolding, not a further property): a present value is the volatility of exactly the window ending at t |
| StrategyBase.RollingVolCausal | src/lib/strat/strategy_base.py:33 | the value at t depends only on returns up to t |
| StrategyBase.Blend | src/lib/strat/strategy_base.py:45 | the blended volatility is present iff both are, and lies between the fast and the slow volatility |
| StrategyBase.InverseVolWeight | src/lib/strat/strategy_base.py:47 | the weight is present iff the blend is; it is at most 7; a zero blend gives 7; otherwise it is the reciprocal capped at 7 |
| StrategyBase.InverseVolWeightBounds | src/lib/strat/strategy_base.py:45-47 | a nonnegative blend gives a weight in [0, 7] |
| StrategyBase.InverseVolWeightUnitRisk | src/lib/strat/strategy_base.py:47 | below the cap, weight times blended volatility is exactly 1 |
| StrategyBase.VolScaledIsLastDefined | src/lib/strat/strategy_base.py:45-48 | the raw weight at t is the last defined inverse-volatility weight up to t, or 0 when there is none |
| StrategyBase.VolScaledColumn | src/lib/strat/strategy_base.py:45-48 | one column of raw weights has the volatilities' length and every weight is at most 7 |
| StrategyBase.VolScaledBounds | src/lib/strat/strategy_base.py:42-48 | for nonnegative volatilities every filled weight lies in [0, 7] |
| StrategyBase.VolScaledPositions | src/lib/strat/strategy_base.py:37-48 | the raw weights have the prices' shape with no missing cell |
| StrategyBase.VolScaledPositionsBounds | src/lib/strat/strategy_base.py:42-48 | for nonnegative volatilities every raw weight of the frame lies in [0, 7] |
| StrategyBase.VolScaledIgnoresTarget | src/lib/strat/strategy_base.py:37 | the `target_vol` argument has no effect on the raw weights |
| RiskScaled.TargetRatio | src/lib/strat/risk_scaled_strategy.py:21-22 | a missing volatility gives a missing position; a position is at most 5, and nonnegative for a nonnegative volatility |
| RiskScaled.TargetRatioBounds | src/lib/strat/risk_scaled_strategy.py:21-22 | a position is at most 5, and it is defined iff the volatility is defined and `0/0` does not arise |
| RiskScaled.TargetRatioCarriesTarget | src/lib/strat/risk_scaled_strategy.py:21-22 | position times volatility is the target, or 5 times the volatility when capped |
| RiskScaled.RiskScaledSignals | src/lib/strat/risk_scaled_strategy.py:15-23 | fails on an empty series first, then on an unset window. Otherwise, for prices that may have gaps, it has the prices' length, positions are at most 5, and the first window − 1 positions are missing |
| RiskScaled.RiskScaledPosition | src/lib/strat/risk_scaled_strategy.py:18-23 | the elementwise rule of `generate_signals` (an unfolding, not a further property): each position is the capped target ratio of the rolling volatility of the padded percent changes at that bar |
| RiskScaled.RiskScaledDefinedAfterWarmUp | src/lib/strat/risk_scaled_strategy.py:19-23 | with a positive target, every position after the first window − 1 is defined |
| RiskScaled.RiskScaledBacktestWarmUp | src/lib/strat/risk_scaled_strategy.py:19-23 | the signals, missing during the warm-up, can be backtested as they are: the result equals that with the gaps replaced by 0, and no position is held up to bar w − 1 |
| VariableRiskScaled.EqualVolsGiveUnitPosition | src/lib/strat/variable_risk_scaled_strategy.py:42-46 | equal positive fast and slow volatilities give exactly 1 when the leverage cap is at least 1 |
| VariableRiskScaled.RatioAtLeastFastShare | src/lib/strat/variable_risk_scaled_strategy.py:42-46 | the blend over the fast volatility is at least 0.7 |
| VariableRiskScaled.VariableRatio | src/lib/strat/variable_risk_scaled_strategy.py:42-46 | a defined ratio is at most the leverage cap |
| VariableRiskScaled.VariableRatioBounds | src/lib/strat/variable_risk_scaled_strategy.py:42-46 | a defined ratio lies between min(0.7, cap) and the cap |
| VariableRiskScaled.RawPositions | src/lib/strat/variable_risk_scaled_strategy.py:42-46 | one raw position per bar |
| VariableRiskScaled.VariableRiskScaledSignals | src/lib/strat/variable_risk_scaled_strategy.py:33-52 | fails iff the series is empty; otherwise it has the prices' length and position t is the last defined raw position up to t |
| VariableRiskScaled.MissingOnlyBeforeFirstRaw | src/lib/strat/variable_risk_scaled_strategy.py:47 | a position is missing iff no raw position up to it is defined |
| VariableRiskScaled.VariableRiskScaledBounds | src/lib/strat/variable_risk_scaled_strategy.py:42-47 | every defined position lies between min(0.7, cap) and the cap |
| Covariance.SumScale | src/lib/strat/portfolio_risk_scaled_strategy.py:49 | scaling every term scales the sum |
| Covariance.SumAdd | src/lib/strat/portfolio_risk_scaled_strategy.py:46 | the sum of termwise sums is the sum of the sums |
| Covariance.SumSwap | src/lib/strat/portfolio_risk_scaled_strategy.py:49 | summing a table by rows or by columns gives the same total |
| Covariance.DotSymmetric | src/lib/strat/portfolio_risk_scaled_strategy.py:42-43 | the dot product is symmetric |
| Covariance.DotSelfNonNegative | src/lib/strat/portfolio_risk_scaled_strategy.py:49 | a vector dotted with itself is nonnegative |
| Covariance.SumLinear | src/lib/strat/portfolio_risk_scaled_strategy.py:46 | the sum of a linear combination of terms is that combination of the sums |
| Covariance.MatVecLinear | src/lib/strat/portfolio_risk_scaled_strategy.py:46-49 | a matrix-vector entry is linear in the matrix |
| Covariance.QuadSumLinear | src/lib/strat/portfolio_risk_scaled_strategy.py:46-49 | wᵀCw is linear in C, so wᵀ((1−λ)L + λS)w = (1−λ)wᵀLw + λwᵀSw |
| Covariance.GramEntry | src/lib/strat/portfolio_risk_scaled_strategy.py:42-43 | entry (i, j) of a scaled Gram matrix is the scaled dot product of rows i and j |
| Covariance.RowTermsRow | src/lib/strat/portfolio_risk_scaled_strategy.py:49 | one row sum of the expansion of (Gw)ᵢ |
| Covariance.RowTermsCol | src/lib/strat/portfolio_risk_scaled_strategy.py:49 | one column sum of the expansion of (Gw)ᵢ |
| Covariance.WeightedDotsSum | src/lib/strat/portfolio_risk_scaled_strategy.py:49 | Σⱼ wⱼ·(dᵢ·dⱼ) = dᵢ·(Σⱼ wⱼdⱼ) |
| Covariance.GramRow | src/lib/strat/portfolio_risk_scaled_strategy.py:49 | (Gw)ᵢ is c times dᵢ dotted with the weighted combination of the rows |
| Covariance.ComboDotsSum | src/lib/strat/portfolio_risk_scaled_strategy.py:49 | Σᵢ wᵢ·(dᵢ·v) = v·v for the weighted combination v |
| Covariance.GramQuadSum | src/lib/strat/portfolio_risk_scaled_strategy.py:49 | wᵀGw is c times the squared norm of the weighted combination of the rows |
| Covariance.GramNonNegative | src/lib/strat/portfolio_risk_scaled_strategy.py:49 | a Gram matrix with a nonnegative factor has a nonnegative quadratic form |
| Covariance.PairRowsExactly | src/lib/strat/portfolio_risk_scaled_strategy.py:42-43 | the rows a pairwise covariance uses are exactly those in the window where both assets are present |
| Covariance.PairRows | src/lib/strat/portfolio_risk_scaled_strategy.py:42-43 | every row a pairwise covariance uses lies in the window and has both assets present |
| Covariance.PairRowsSymmetric | src/lib/strat/portfolio_risk_scaled_strategy.py:42-43 | the pairwise rows of (i, j) and (j, i) are the same |
| Covariance.PairRowsLocal | src/lib/strat/portfolio_risk_scaled_strategy.py:42-43 | the pairwise rows depend only on the return rows inside the window |
| Covariance.PairRowsComplete | src/lib/strat/portfolio_risk_scaled_strategy.py:42-43 | in a window without gaps every row of the window is used |
| Covariance.Bessel | src/lib/strat/portfolio_risk_scaled_strategy.py:42-43 | the `ddof=1` factor 1/(n−1) is positive |
| Covariance.SampleCov | src/lib/strat/portfolio_risk_scaled_strategy.py:42-43 | the sample covariance of a series with itself, its variance, is nonnegative |
| Covariance.PairCov | src/lib/strat/portfolio_risk_scaled_strategy.py:42-43 | a pairwise covariance is present iff at least two rows have both assets present; a variance is nonnegative |
| Covariance.CovMatrix | src/lib/strat/portfolio_risk_scaled_strategy.py:42-43 | `.cov()` of a window is an m by m matrix of cells |
| Covariance.CovMatrixLocal | src/lib/strat/portfolio_risk_scaled_strategy.py:42-43 | the covariance of rows [lo, hi) does not depend on any other row: return row t is never read at step t |
| Covariance.SampleCovSymmetric | src/lib/strat/portfolio_risk_scaled_strategy.py:42-43 | the sample covariance is symmetric in its two series |
| Covariance.PairCovSymmetric | src/lib/strat/portfolio_risk_scaled_strategy.py:42-43 | the pairwise covariance of (i, j) equals that of (j, i) |
| Covariance.CovEntry | src/lib/strat/portfolio_risk_scaled_strategy.py:42-43 | each matrix entry is the pairwise covariance of its two assets |
| Covariance.CovSymmetric | src/lib/strat/portfolio_risk_scaled_strategy.py:42-43 | the sample covariance matrix is symmetric |
| Covariance.BlendCell | src/lib/strat/portfolio_risk_scaled_strategy.py:46 | a blended cell is present iff both covariances are |
| Covariance.BlendCov | src/lib/strat/portfolio_risk_scaled_strategy.py:46 | the blended matrix is m by m, and an entry is present iff both blended entries are |
| Covariance.BlendEntry | src/lib/strat/portfolio_risk_scaled_strategy.py:46 | each blended entry is the blend of the two entries |
| Covariance.BlendEnds | src/lib/strat/portfolio_risk_scaled_strategy.py:46 | wherever both entries are defined, λ = 1 gives exactly the short-window covariance and λ = 0 exactly the long-window one |
| Covariance.BlendSymmetric | src/lib/strat/portfolio_risk_scaled_strategy.py:46 | blending two symmetric matrices gives a symmetric matrix |
| Covariance.EntriesEntry | src/lib/strat/portfolio_risk_scaled_strategy.py:46 | the real matrix of a complete cell matrix has its values |
| Covariance.QuadForm | src/lib/strat/portfolio_risk_scaled_strategy.py:48-49 | `w.T @ cov @ w` is defined iff no covariance entry is missing |
| Covariance.Range | src/lib/strat/portfolio_risk_scaled_strategy.py:42-43 | the row numbers lo to hi − 1 in order |
| Covariance.PairCovComplete | src/lib/strat/portfolio_risk_scaled_strategy.py:42-43 | in a window without gaps the pairwise covariance is the sample covariance of the whole window |
| Covariance.CovEntryComplete | src/lib/strat/portfolio_risk_scaled_strategy.py:42-43 | then each entry is 1/(n−1) times the dot product of the two deviation rows |
| Covariance.CovIsGram | src/lib/strat/portfolio_risk_scaled_strategy.py:42-43 | then the covariance matrix is complete and is the Gram matrix of the deviations |
| Covariance.CovNonNegative | src/lib/strat/portfolio_risk_scaled_strategy.py:42-49 | then wᵀCw is defined and nonnegative for every w |
| Covariance.BlendComplete | src/lib/strat/portfolio_risk_scaled_strategy.py:46 | blending two complete matrices gives a complete matrix |
| Covariance.BlendQuadForm | src/lib/strat/portfolio_risk_scaled_strategy.py:46-49 | the quadratic form of the blend is the blend of the two quadratic forms |
| Covariance.QuadFormComplete | src/lib/strat/portfolio_risk_scaled_strategy.py:49 | for a complete matrix the quadratic form is present and is wᵀCw |
| Covariance.BlendOfNonNegative | src/lib/strat/portfolio_risk_scaled_strategy.py:46-49 | for λ in [0, 1] a blend of two nonnegative forms is nonnegative |
| Covariance.BlendNonNegative | src/lib/strat/portfolio_risk_scaled_strategy.py:42-49 | for λ in [0, 1] and windows without gaps, the variance under the square root is defined and ≥ 0 |
| Portfolio.Returns | src/lib/strat/portfolio_risk_scaled_strategy.py:22 | the returns frame has the prices' shape |
| Portfolio.ReturnsAt | src/lib/strat/portfolio_risk_scaled_strategy.py:22-23 | a return is present iff t > 0 and both prices are present (the discarded `fillna`); then it is the percent change |
| Portfolio.WarmUpNormalised | src/lib/strat/portfolio_risk_scaled_strategy.py:28-33 | with positive gross exposure, each warm-up entry is w / Σ\|w\| and the absolute entries sum to 1 |
| Portfolio.WarmUpEntry | src/lib/strat/portfolio_risk_scaled_strategy.py:31-38 | each entry is the weight over the gross exposure (the cap at 1 never binds) |
| Portfolio.WarmUpAbs | src/lib/strat/portfolio_risk_scaled_strategy.py:31-33 | the absolute warm-up entries are the absolute weights scaled by 1/Σ\|w\| |
| Portfolio.WarmUpFlat | src/lib/strat/portfolio_risk_scaled_strategy.py:34-35 | with zero gross exposure the warm-up row is all zeros |
| Portfolio.Gross | src/lib/strat/portfolio_risk_scaled_strategy.py:31 | the gross exposure Σ\|w\| is never negative |
| Portfolio.GrossZero | src/lib/strat/portfolio_risk_scaled_strategy.py:31-32 | gross exposure is nonnegative, and 0 iff every weight is 0 |
| Portfolio.WarmUpRow | src/lib/strat/portfolio_risk_scaled_strategy.py:29-40 | a warm-up row has one present entry per asset, each at most 1 |
| Portfolio.VolScaleHitsTarget | src/lib/strat/portfolio_risk_scaled_strategy.py:49-52 | for a positive variance the factor times the annual portfolio volatility is the target, and its square times the annual variance is the target squared |
| Portfolio.VolScale | src/lib/strat/portfolio_risk_scaled_strategy.py:49-52 | a missing variance gives the fallback 1.0; a positive target gives a positive factor, a nonnegative one a nonnegative factor |
| Portfolio.PositiveRoot | src/lib/strat/portfolio_risk_scaled_strategy.py:49-50 | the root of a positive number is positive |
| Portfolio.VolScaleDegenerate | src/lib/strat/portfolio_risk_scaled_strategy.py:52 | a missing, negative or zero variance gives the fallback factor 1.0 |
| Portfolio.SteadyRow | src/lib/strat/portfolio_risk_scaled_strategy.py:59 | every scaled entry is present and at most 7 |
| Portfolio.SteadyRowBelowCap | src/lib/strat/portfolio_risk_scaled_strategy.py:59 | an entry below the cap is raw weight times scale: there is no lower clip |
| Covariance.MatVecScale | src/lib/strat/portfolio_risk_scaled_strategy.py:49 | scaling the weights by k scales each row of C·w by k |
| Covariance.QuadSumScale | src/lib/strat/portfolio_risk_scaled_strategy.py:49 | scaling the weights by k scales wᵀCw by k² |
| Covariance.QuadFormScale | src/lib/strat/portfolio_risk_scaled_strategy.py:49 | on a complete covariance, weights scaled by k have a quadratic form k² times that of the unscaled weights, and both are present |
| Portfolio.SteadyRowHitsTarget | src/lib/strat/portfolio_risk_scaled_strategy.py:49-59 | for the factor k that `VolScale` makes of a positive variance, when no entry of w·k exceeds the cap of 7, the written row's variance under the same covariance is target² / 252 |
| Portfolio.ScaledStepRow | src/lib/strat/portfolio_risk_scaled_strategy.py:42-59 | without rebalance, a step past the warm-up writes `SteadyRow(raw[t], TargetScale(...))`: the raw weights times the factor of that row's blended variance, capped at 7 |
| Portfolio.TargetScaleHitsTarget | src/lib/strat/portfolio_risk_scaled_strategy.py:42-59 | past the warm-up, when no entry exceeds the cap of 7, the raw row scaled by its `TargetScale` factor has variance target² / 252 (`DailyTarget`) under the blended covariance of the rows before it |
| Portfolio.EquityStep | src/lib/strat/portfolio_risk_scaled_strategy.py:69-72 | each further row adds yesterday's positions times today's returns to the equity |
| Portfolio.RowPnLFlat | src/lib/strat/portfolio_risk_scaled_strategy.py:71 | missing positions earn nothing |
| Portfolio.RowPnLIsDot | src/lib/strat/portfolio_risk_scaled_strategy.py:71 | `RowPnL`, one row of the pnl sum, is the inner product of the previous positions and the returns, missing cells read as 0 |
| Portfolio.Equity | src/lib/strat/portfolio_risk_scaled_strategy.py:69-72 | before the second row the equity is the initial capital |
| Portfolio.EquityBeforeTrading | src/lib/strat/portfolio_risk_scaled_strategy.py:69-72 | equity is the initial capital while no position has been written |
| Portfolio.EquityCausal | src/lib/strat/portfolio_risk_scaled_strategy.py:69-72 | the equity at t reads only position rows up to t − 2 and return rows before t |
| Portfolio.ScalesAt | src/lib/strat/portfolio_risk_scaled_strategy.py:42-52 | past the warm-up, the target factor of row t is the fallback-guarded ratio for the variance under the blended covariance |
| Portfolio.ScalesCausal | src/lib/strat/portfolio_risk_scaled_strategy.py:42-52 | the target factor of row t reads only raw weights of row t and return rows before t |
| Portfolio.Scales | src/lib/strat/portfolio_risk_scaled_strategy.py:42-52 | one target factor per row, each positive for a positive target volatility |
| Portfolio.Step | src/lib/strat/portfolio_risk_scaled_strategy.py:28-59 | a written row has one present cell per asset |
| Portfolio.StepWarmUp | src/lib/strat/portfolio_risk_scaled_strategy.py:28-41 | the warm-up branch of the loop (an unfolding, not a further property): a step with t below either lookback writes the normalised weights |
| Portfolio.WarmUpLength | src/lib/strat/portfolio_risk_scaled_strategy.py:28 | `WarmingUp`: a row is a warm-up row iff it comes before the longer lookback; with the defaults, the first 60 rows |
| Portfolio.StepScaled | src/lib/strat/portfolio_risk_scaled_strategy.py:48-59 | without rebalance, a later step writes the raw weights times the target factor, capped |
| Portfolio.StepRebalanced | src/lib/strat/portfolio_risk_scaled_strategy.py:55-59 | with rebalance, the target factor is first multiplied by capital over equity |
| Portfolio.RebalancedSizesToCapital | src/lib/strat/portfolio_risk_scaled_strategy.py:57 | `Rebalanced`: the new factor times equity is the old factor times initial capital; at equity equal to capital the factor is unchanged |
| Portfolio.StepErrors | src/lib/strat/portfolio_risk_scaled_strategy.py:55-57 | a step fails iff it rebalances past the warm-up at zero equity, and then with ZeroEquity(t) |
| Portfolio.StepCausal | src/lib/strat/portfolio_risk_scaled_strategy.py:27-59 | step t reads raw row t, its target factor, return rows before t and position rows before t − 1 |
| Portfolio.BlendedCovLocal | src/lib/strat/portfolio_risk_scaled_strategy.py:42-46 | the blended covariance at t reads only return rows before t |
| Portfolio.BlendedCov | src/lib/strat/portfolio_risk_scaled_strategy.py:42-46 | the blended covariance of row t is an m by m matrix of cells |
| Portfolio.BlendedVarianceNonNegative | src/lib/strat/portfolio_risk_scaled_strategy.py:42-49 | for λ in [0, 1] and windows without gaps the blended portfolio variance is defined and ≥ 0 |
| Portfolio.EmptyTable | src/lib/strat/portfolio_risk_scaled_strategy.py:25 | the empty table has one missing cell per row and asset |
| Portfolio.Table | src/lib/strat/portfolio_risk_scaled_strategy.py:25-59 | a successful loop gives a table of the prices' shape |
| Portfolio.TableNext | src/lib/strat/portfolio_risk_scaled_strategy.py:27-59 | the loop writes the step's row into row k and leaves the other rows |
| Portfolio.TableFails | src/lib/strat/portfolio_risk_scaled_strategy.py:55-57 | a failing step makes the loop fail with its error |
| Portfolio.TableErrStays | src/lib/strat/portfolio_risk_scaled_strategy.py:27 | once the loop has failed it stays failed |
| Portfolio.TableAdvance | src/lib/strat/portfolio_risk_scaled_strategy.py:27-59 | a successful step extends the table by its row; a failing one is the loop's final error |
| Portfolio.TableWarmUp | src/lib/strat/portfolio_risk_scaled_strategy.py:28-41 | a warm-up iteration writes the normalised row |
| Portfolio.TableScaled | src/lib/strat/portfolio_risk_scaled_strategy.py:48-59 | a later iteration without rebalance writes the scaled, capped row |
| Portfolio.TableRebalanced | src/lib/strat/portfolio_risk_scaled_strategy.py:55-59 | a later iteration with rebalance writes the rebalanced, capped row |
| Portfolio.TableZeroEquity | src/lib/strat/portfolio_risk_scaled_strategy.py:55-57 | a later iteration at zero equity fails with ZeroEquity(t) |
| Portfolio.TableRows | src/lib/strat/portfolio_risk_scaled_strategy.py:25-27 | after k iterations exactly the rows 1 to k − 1 are written; row 0 never is |
| Portfolio.TableRowIsStep | src/lib/strat/portfolio_risk_scaled_strategy.py:27-59 | every written row is the step on the table as it was when that row was written |
| Portfolio.NoRebalanceNeverFails | src/lib/strat/portfolio_risk_scaled_strategy.py:55 | without rebalance the loop never fails |
| Portfolio.TableErrors | src/lib/strat/portfolio_risk_scaled_strategy.py:55-57 | a failed loop failed on a rebalancing, non-warm-up row with zero equity |
| Portfolio.ApplyMask | src/lib/strat/portfolio_risk_scaled_strategy.py:66 | each present position is multiplied by its mask entry; missing positions stay missing |
| Portfolio.Loop | src/lib/strat/portfolio_risk_scaled_strategy.py:21-59 | the loop's table has the prices' shape |
| Portfolio.PortfolioSignals | src/lib/strat/portfolio_risk_scaled_strategy.py:20-67 | the strategy's positions have the prices' shape |
| Portfolio.TargetFactor | src/lib/strat/portfolio_risk_scaled_strategy.py:42-52 | the method's covariance blend and scale give the target factor of row t |
| Portfolio.NextRow | src/lib/strat/portfolio_risk_scaled_strategy.py:28-59 | the method's loop body computes exactly the step of row t |
| Portfolio.WritePositions | src/lib/strat/portfolio_risk_scaled_strategy.py:25-59 | the `for t in range(1, n)` loop over the table returns the table of every row after the first, or the first error |
| Portfolio.GenerateSignals | src/lib/strat/portfolio_risk_scaled_strategy.py:20-67 | the method returns the strategy's positions |
| Portfolio.DefaultMaskValid | src/lib/indicators/trending_indicator.py:20-21 | the default smoothing factors 0.15 and 0.03 are valid, so the mask never fails |
| Portfolio.SignalsErrors | src/lib/strat/portfolio_risk_scaled_strategy.py:55-67 | the strategy fails iff its loop does; only by rebalancing at zero equity, on a row past the warm-up |
| Portfolio.NoRebalanceSignals | src/lib/strat/portfolio_risk_scaled_strategy.py:55 | without rebalance the strategy always succeeds |
| Portfolio.FFillFromSecondRow | src/lib/strat/portfolio_risk_scaled_strategy.py:67 | forward filling a table whose first row is missing and whose other rows are complete changes nothing |
| Portfolio.LoopFromSecondRow | src/lib/strat/portfolio_risk_scaled_strategy.py:25-41 | the loop's table is missing in row 0 and complete in every other row |
| Portfolio.SignalsAreMaskedLoop | src/lib/strat/portfolio_risk_scaled_strategy.py:61-67 | the output is the loop's table times the trend mask when following the trend, and the table itself otherwise |
| Portfolio.SignalsRows | src/lib/strat/portfolio_risk_scaled_strategy.py:25-67 | the output has the prices' length, row 0 stays missing through the mask and the fill, and the other rows are complete |
| Portfolio.SignalsCapped | src/lib/strat/portfolio_risk_scaled_strategy.py:38-59 | without the trend mask every position after row 0 is present and at most 7, and at most 1 during the warm-up |
| Portfolio.SignalsFollowTrend | src/lib/strat/portfolio_risk_scaled_strategy.py:61-67 | with the trend mask each position is the loop's (mask +1), 0 (mask 0, not refilled) or its negation (mask −1) |
| Portfolio.ScaledByMask | src/lib/strat/portfolio_risk_scaled_strategy.py:66 | multiplying by a mask value of 1, 0 or −1 |
| Adjust.DiffAt | src/lib/adjust.py:27 | `diff()` is present iff this cell and the previous one are |
| Adjust.Atr10 | src/lib/adjust.py:27 | the 10-bar mean of absolute differences is present only from index 9 on, and is nonnegative |
| Adjust.IsRoll | src/lib/adjust.py:28 | a flagged bar has a full window behind it and a present difference |
| Adjust.AbsWindow | src/lib/adjust.py:27 | the window of the 10 absolute differences ending at t, a missing difference counted as 0 |
| Adjust.RollsStartAtTen | src/lib/adjust.py:27-28 | a roll is flagged only from index 10 on, with both prices present |
| Adjust.RollsBefore | src/lib/adjust.py:29 | the flagged indices before n, in increasing order, are exactly the rolls there |
| Adjust.DetectRoll | src/lib/adjust.py:18-29 | the detector returns exactly the flagged indices, increasing, each at least 10 |
| Adjust.NoRollAtHighThreshold | src/lib/adjust.py:27-28 | with a threshold of 10 or more no index is ever flagged |
| Adjust.NoRollsBefore | src/lib/adjust.py:29 | with no flagged index the list is empty |
| Adjust.Restore | src/lib/adjust.py:68 | re-indexing keeps the presence pattern of the original series |
| Adjust.RestorePresent | src/lib/adjust.py:48-68 | dropping the missing cells and re-indexing gives back the series |
| Adjust.PresentRestore | src/lib/adjust.py:48-68 | re-indexing and then dropping the missing cells gives back the values |
| Adjust.PresentNone | src/lib/adjust.py:48-49 | the present part is empty iff every cell is missing |
| Adjust.Present | src/lib/adjust.py:48-49 | `dropna()` keeps at most as many values as there are cells |
| Adjust.ShiftPrefixSteps | src/lib/adjust.py:64 | shifting the prefix before rd changes only the difference at rd |
| Adjust.ShiftPrefix | src/lib/adjust.py:64 | every value before rd is moved down by delta and every value from rd on is kept |
| Adjust.DiffRollsAsWritten | src/lib/adjust.py:58-64 | the loop as written keeps the length |
| Adjust.AsWrittenDoublesGap | src/lib/adjust.py:62-64 | as written, a single roll's jump is doubled rather than closed |
| Adjust.AsWrittenWidensJump | src/lib/adjust.py:62-64 | as written, [100, 110] with a roll at 1 becomes [90, 110] |
| Adjust.DiffRolls | src/lib/adjust.py:58-64 | the corrected loop keeps the length |
| Adjust.DiffRollsSteps | src/lib/adjust.py:58-64 | after the corrected loop, the difference at every roll is 0 and every other difference is unchanged |
| Adjust.DiffRollsKeepTail | src/lib/adjust.py:58-64 | prices from the last roll on are unchanged |
| Adjust.ShiftPrefixInPlace | src/lib/adjust.py:64 | the array's prefix before rd is shifted by delta in place |
| Adjust.DiffRollsInPlace | src/lib/adjust.py:57-64 | the in-place loop over the rolls leaves the corrected adjustment in the array |
| Adjust.PresentRolls | src/lib/adjust.py:54 | the rolls of the present part are valid indices of it |
| Adjust.DiffAdjusted | src/lib/adjust.py:42-68 | the adjusted series keeps the length and the positions of the missing cells |
| Adjust.DiffAdjustedWith | src/lib/adjust.py:56-68 | the same for any valid list of rolls |
| Adjust.DiffAdjustedAsWritten | src/lib/adjust.py:42-68 | the series as written keeps the length |
| Adjust.DiffAdjust | src/lib/adjust.py:42-68 | the method copies the present part into an array, adjusts it in place and re-indexes it, giving the adjusted series |
| Adjust.DiffAdjustAllMissing | src/lib/adjust.py:49-51 | an all-missing series comes back all missing |
| Adjust.DiffAdjustedEmpty | src/lib/adjust.py:49-51 | an empty present part stays empty |
| Adjust.DiffAdjustedSteps | src/lib/adjust.py:54-68 | on the present part, every roll gap is closed and every other difference is preserved |
| Adjust.DiffAdjustedWithSteps | src/lib/adjust.py:56-68 | the same for any valid list of rolls: later rolls do not undo earlier ones |
| Adjust.DiffRollsCloseGaps | src/lib/adjust.py:58-64 | the corrected loop closes every roll gap and preserves every other difference |
| Adjust.ScalePrefix | src/lib/adjust.py:75 | dividing a prefix keeps the presence pattern and nonzero prices |
| Adjust.PrevDayLookup | src/lib/adjust.py:74 | for increasing days, the previous calendar day is in the index iff it is not missing |
| Adjust.ScalePrefixRatio | src/lib/adjust.py:75 | scaling the prefix before rd changes only the ratio at rd, by the factor |
| Adjust.RatioRollsAsWritten | src/lib/adjust.py:73-75 | the loop as written keeps the presence pattern and nonzero prices |
| Adjust.AsWrittenSquaresRatio | src/lib/adjust.py:74-75 | as written, a single roll's ratio is squared rather than closed |
| Adjust.AsWrittenWidensRatio | src/lib/adjust.py:74-75 | as written, [100, 110] with a roll at 1 ends with a ratio of 1.21 |
| Adjust.RatioRolls | src/lib/adjust.py:73-75 | the corrected loop keeps the presence pattern and nonzero prices |
| Adjust.RatioRollsErrors | src/lib/adjust.py:74 | the loop fails iff some roll's previous calendar day is missing, with the day of the first such roll |
| Adjust.CloseStepRatio | src/lib/adjust.py:74-75 | one corrected step makes the ratio at rd 1 and keeps every other ratio |
| Adjust.RatioRollsRatios | src/lib/adjust.py:73-75 | after the corrected loop every roll's ratio is 1 and every other ratio is unchanged |
| Adjust.RatioRollsCloseGaps | src/lib/adjust.py:73-75 | after the corrected loop the price before each roll equals the price at the roll |
| Adjust.RatioRollsKeepTail | src/lib/adjust.py:73-75 | prices from the last roll on are unchanged |
| Adjust.RollsArePresent | src/lib/adjust.py:73 | every detected roll falls on a present cell after a present cell |
| Adjust.RatioRollsStep | src/lib/adjust.py:74-75 | one iteration divides the prefix before rd by the closing factor |
| Adjust.RatioRollsErrStays | src/lib/adjust.py:73-74 | once the loop has failed it stays failed |
| Adjust.ScalePrefixInPlace | src/lib/adjust.py:75 | the array's prefix before rd is scaled in place |
| Adjust.RatioRollsInPlace | src/lib/adjust.py:72-76 | the in-place loop over the rolls gives the corrected ratio adjustment, or its first error |
| Adjust.RatioAdjusted | src/lib/adjust.py:71-76 | the corrected ratio adjustment keeps the presence pattern and nonzero prices |
| Adjust.RatioAdjustedAsWritten | src/lib/adjust.py:71-76 | the ratio adjustment as written keeps the presence pattern and nonzero prices |
| Adjust.RatioAdjust | src/lib/adjust.py:71-76 | the method detects the rolls and adjusts a copy in place |
| Adjust.ToLower | src/lib/adjust.py:107 | lower-casing keeps the length |
| Adjust.ToLowerIdempotent | src/lib/adjust.py:107 | lower-casing twice is lower-casing once |
| Adjust.KernelOf | src/lib/adjust.py:88-109 | a kernel is found iff the lower-cased name is diff, ratio or panama; otherwise UnknownMethod(name) |
| Adjust.KernelOfIgnoresCase | src/lib/adjust.py:107 | a name and its lower-case form find the same kernel |
| Adjust.UpperCaseNames | src/lib/adjust.py:107 | "DIFF", "Ratio" and "PaNaMa" find their kernels |
| Adjust.AdjustColumn | src/lib/adjust.py:110 | a column adjusted with the corrected kernel has the column's length |
| Adjust.ColumnResults | src/lib/adjust.py:110 | `df.apply` adjusts every column on its own with the corrected kernel |
| Adjust.Collect | src/lib/adjust.py:110 | collecting succeeds iff every column did, keeping each value |
| Adjust.CollectFirstError | src/lib/adjust.py:110 | a failure is the first column's failure |
| Adjust.BackAdjust | src/lib/adjust.py:94-110 | an unknown name fails with UnknownMethod. Otherwise it succeeds iff every column does under the corrected kernel, with the frame's shape and each cell the adjusted column's |
| Adjust.PanamaIsDiff | src/lib/adjust.py:81-82 | "panama" gives exactly the "diff" result |
| Adjust.AdditiveNeverFails | src/lib/adjust.py:88-91 | the additive methods never fail |
| Loaders.Split | src/lib/loaders.py:26 | `split` gives one piece more than separators, none of them holding a separator |
| Loaders.JoinSplit | src/lib/loaders.py:26 | joining the pieces with the separator gives back the string |
| Loaders.SplitNoSeparator | src/lib/loaders.py:26 | a string without separator is one piece |
| Loaders.SplitTwo | src/lib/loaders.py:26-27 | two separator-free pieces joined by the separator split into those two |
| Loaders.StripTrailingDigit | src/lib/loaders.py:31 | at most one character goes, and one goes iff the string ends in a digit, or in a digit before a final newline |
| Loaders.StripTrailingDigitKeepsRest | src/lib/loaders.py:31 | the removed digit is the only change |
| Loaders.ToPolygonSymbol | src/lib/loaders.py:20-32 | fails with InvalidSymbol iff the code does not have exactly one "_"; otherwise the result starts with "C:" |
| Loaders.ToPolygonOfParts | src/lib/loaders.py:26-32 | VENDOR_ROOT maps to "C:" and ROOT without its trailing digit |
| Loaders.VendorIrrelevant | src/lib/loaders.py:29-32 | the result does not depend on the vendor |
| Loaders.OnlyOneDigitStripped | src/lib/loaders.py:31 | "CME_ES12" gives "C:ES1" |
| Loaders.FrontMonthCode | src/lib/loaders.py:25-32 | VENDOR_BASE1 maps to C:BASE when BASE does not end in a digit |
| Loaders.UniverseMapsToVendorSymbols | src/config/universe.py:3-23 | every code of `SYMBOLS` (the constant `Loaders.Symbols`) maps to the vendor symbol at the same position of `SYMBOLS_POLY` (`Loaders.SymbolsPoly`) |

## Findings

| source | as written | input that shows it | evidently intended | confidence | as-written member | corrected member |
|---|---|---|---|---|---|---|
| src/lib/adjust.py:62-64 | subtracts the gap `adj[rd] - adj[prev]` from the prices up to `prev`, which doubles the jump at the roll | [100, 110] with a roll at index 1 becomes [90, 110] in a direct call of the kernel; the detector flags no index below 10, so through `_diff_adjust` the series needs 11 or more bars | add the gap to the earlier prices, so that the roll difference becomes 0 and every other difference is kept, as the docstring's "remove roll gaps" says | high, not executed | Adjust.AsWrittenDoublesGap, Adjust.AsWrittenWidensJump | Adjust.DiffRollsCloseGaps |
| src/lib/adjust.py:74-75 | divides the prices up to the previous day by `adj[rd] / adj[rd-1d]`, which squares the ratio at the roll | [100, 110] on days 0 and 1 with a roll at 1 ends with a ratio of 1.21 in a direct call of the kernel; the detector flags no index below 10, so through `_ratio_adjust` the series needs 11 or more bars | multiply the earlier prices by that ratio, so that the roll ratio becomes 1 and every other ratio is kept | high, not executed | Adjust.AsWrittenSquaresRatio, Adjust.AsWrittenWidensRatio | Adjust.RatioRollsRatios |

The rest of the model uses the corrected kernels:
- `DiffAdjusted`, `DiffAdjust` and `RatioAdjust` run on them;
- `BackAdjust` dispatches to them.

The as-written kernels stay beside them:
- for the difference kernel, `DiffRollsAsWritten` and `DiffAdjustedAsWritten`;
- for the ratio kernel, `RatioRollsAsWritten` and `RatioAdjustedAsWritten`.

## Left out

**Source code not modelled:**
- CAGR, annualised volatility and Sharpe (`src/lib/backtester/backtester.py:40-46`) are left out. They need a fractional power, a standard deviation and a square root.
- The network and vendor loaders in `src/lib/loaders.py` (HTTP, Nasdaq Data Link, yfinance) are left out. Only `_to_polygon_symbol` is modelled.
- The scripts under `scripts/`, `src/lib/filters.py` and `src/lib/__init__.py` are not part of this model. They are I/O, plotting and thin registry code.
- `backtest_multi_asset` is not part of this model. It is not defined in the backtester.
- `compute_portfolio_vol` (`src/lib/strat/strategy_base.py:50-54`) is left out. It is a square root and is never called.
- The `print` calls at `src/lib/strat/portfolio_risk_scaled_strategy.py:63-65` and `src/lib/adjust.py:67` are left out. They are output only.

**Numerics taken as inputs:**
- The exponentially weighted standard deviations are given panels, not computed. They come from `src/lib/strat/strategy_base.py:43-44` and `src/lib/strat/variable_risk_scaled_strategy.py:26-31`, which use `exp`-based factors.
- The rolling standard deviation and the square root are function parameters.
- `ewm(alpha=1 - lambda_)` at `src/lib/strat/variable_risk_scaled_strategy.py:30` raises for λ outside [0, 1). The deviations are given, so that error is not modelled.
- Floating-point rounding is left out: values are exact reals.

**Simplified pandas semantics:**
- `ewm(adjust=False)` is modelled with pandas' default `ignore_na=False`: across a gap the weight of the mean decays by 1 − α per bar.
- `trend_mask` at `src/lib/indicators/trending_indicator.py:71` reads `macd.columns`, so a Series input raises `AttributeError`. The model takes the series form as the per-column case of `Trend.TrendMaskPanel` and does not model that error.
- pandas label slicing is modelled by row index. For `_ratio_adjust`'s `rd - 1 day`, the calendar days are an integer `days` sequence, and a missing previous day is the error `MissingDay`.
- Unicode `\d` is modelled as ASCII digits, and `str.lower` as ASCII lower-casing.
- Negative lookbacks and volatility windows are not modelled: they are `nat`.

**Named members:**
- Backtester.BacktestStrategy: requires every present price that may be divided by to be nonzero. pandas would give infinities there.
- Series.PaddedPctChange: requires the same nonzero present divisors.
- RiskScaled.RiskScaledSignals: requires the same nonzero present divisors.
- Trend.MacdSignal: requires the same nonzero present divisors.
- Trend.TrendMask: requires the same nonzero present divisors.
- Trend.TrendMaskPanel: requires the same nonzero present divisors in every column.
- Series.PctChange: requires the same nonzero divisors.
- RiskScaled.TargetRatio: requires a nonnegative target volatility. A negative target would make the clip of −inf give −inf.
- VariableRiskScaled.VariableRatio: requires nonnegative volatilities, which is what a standard deviation is.
- VariableRiskScaled.VariableRiskScaledSignals: requires the same nonnegative volatilities.
- Adjust.RatioAdjust: requires every present price to be nonzero, so that no ratio is infinite.
- Adjust.BackAdjust: requires the same nonzero prices for the ratio kernel (`GatewayInput`).
- Portfolio.PortfolioSignals: requires nonzero present divisors in every price column (`SignalInputs`).
- Portfolio.WritePositions: an equity of exactly zero under `rebalance` ends the loop with `ZeroEquity(t)`. The source divides by zero there, gets an infinite scale and carries on.
- Portfolio.VolScaleDegenerate: the zero-variance case needs `sqrt(0) = 0`. That matters only when `sqrt` is not a true square root.
