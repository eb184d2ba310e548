/**
 * The exponential MACD trend indicator: two `adjust=False` exponentially
 * weighted means of a series, their difference (MACD), and the three-way
 * trend mask derived from its sign.
 */
module Trend {
  import opened Wrappers
  import opened Series

  /** Default decay of the fast mean. */
  const FastLambda: real := 0.15
  /** Default decay of the slow mean. */
  const SlowLambda: real := 0.03
  /** MACD values strictly below this cut-off give a bearish mask entry. */
  const BearishCutoff: real := -0.3

  /** The smoothing factors `ewm(alpha=...)` accepts. */
  predicate ValidAlpha(alpha: real) { 0.0 < alpha <= 1.0 }

  /** `b` to the power `n`. */
  function Pow(b: real, n: nat): (r: real)
    requires 0.0 <= b <= 1.0
    ensures 0.0 <= r <= 1.0
  {
    if n == 0 then 1.0
    else
      UnitProduct(b, Pow(b, n - 1));
      b * Pow(b, n - 1)
  }

  /** A product of two numbers in [0, 1] is in [0, 1]. */
  lemma UnitProduct(a: real, b: real)
    requires 0.0 <= a <= 1.0 && 0.0 <= b <= 1.0
    ensures 0.0 <= a * b <= 1.0
  {
    ProductNonNegative(a, b);
    ProductNonNegative(a, 1.0 - b);
    assert a * (1.0 - b) == a - a * b;
  }

  /**
   * The state of the `adjust=False` mean after some cells: the mean so far
   * (missing until the first present cell) and the number of missing cells
   * since the last present one. pandas keeps the weight `old_wt` of the mean
   * instead; that weight is 1 at a present cell and is multiplied by
   * `1 - alpha` at every later cell, so it is always `(1 - alpha)^gap`
   * before the cell being read, and recording `gap` loses nothing.
   */
  datatype EwmState = EwmState(mean: Cell, gap: nat)

  /** The weight `old_wt` of the mean when the next cell is read after `gap` missing ones. */
  function Weight(gap: nat, alpha: real): (w: real)
    requires ValidAlpha(alpha)
    ensures 0.0 <= w <= 1.0
  {
    Pow(1.0 - alpha, gap + 1)
  }

  /** The blend of a mean `m` of weight `w` with a new value `x` of weight `alpha`. */
  function WeightedMean(m: real, x: real, w: real, alpha: real): (r: real)
    requires 0.0 <= w && 0.0 < alpha
    ensures m <= x ==> m <= r <= x
    ensures x <= m ==> x <= r <= m
  {
    WeightedMeanBetween(m, x, w, alpha);
    (w * m + alpha * x) / (w + alpha)
  }

  /**
   * One cell of the pass, pandas' update: before the first present cell a
   * present cell starts the mean; after it, a present cell blends the mean
   * with the new value in the ratio `old_wt : alpha` and a missing cell keeps
   * the mean while its weight decays.
   */
  function EwmStep(st: EwmState, x: Cell, alpha: real): (r: EwmState)
    requires ValidAlpha(alpha)
    ensures r.mean.None? <==> st.mean.None? && x.None?
    ensures x.Some? ==> r.gap == 0
    ensures x.None? && st.mean.Some? ==> r.mean == st.mean && r.gap == st.gap + 1
  {
    if st.mean.Some? then
      if x.Some? then
        EwmState(Some(WeightedMean(st.mean.value, x.value, Weight(st.gap, alpha), alpha)), 0)
      else EwmState(st.mean, st.gap + 1)
    else if x.Some? then EwmState(x, 0)
    else st
  }

  /** The state after a forward pass over `s`, as pandas' `ewm(alpha, adjust=False).mean()` computes it. */
  function EwmPass(s: seq<Cell>, alpha: real): (st: EwmState)
    requires ValidAlpha(alpha)
    ensures st.mean.None? ==> st.gap == 0
    ensures |s| > 0 && s[|s| - 1].Some? ==> st.mean.Some? && st.gap == 0
  {
    if s == [] then EwmState(None, 0)
    else EwmStep(EwmPass(s[..|s| - 1], alpha), s[|s| - 1], alpha)
  }

  /** The mean is missing exactly while every cell so far is missing. */
  lemma {:induction false} EwmPresence(s: seq<Cell>, alpha: real)
    requires ValidAlpha(alpha)
    ensures EwmPass(s, alpha).mean.None? <==> forall k :: 0 <= k < |s| ==> s[k].None?
  {
    if s != [] {
      var u := s[..|s| - 1];
      EwmPresence(u, alpha);
      assert forall k :: 0 <= k < |u| ==> u[k] == s[k];
    }
  }

  /** The pass over the first t + 1 cells is one step after the pass over the first t. */
  lemma EwmPassSnoc(s: seq<Cell>, alpha: real, t: nat)
    requires ValidAlpha(alpha) && t < |s|
    ensures EwmPass(s[..t + 1], alpha) == EwmStep(EwmPass(s[..t], alpha), s[t], alpha)
  {
    assert s[..t + 1][..t] == s[..t];
  }

  /**
   * `ewm(alpha, adjust=False).mean()`: the mean after each prefix. It is
   * missing exactly until the first present cell; a missing cell after that
   * carries the mean on.
   */
  function EmaCells(s: seq<Cell>, alpha: real): (r: seq<Cell>)
    requires ValidAlpha(alpha)
    ensures |r| == |s|
  {
    seq(|s|, t requires 0 <= t < |s| => EwmPass(s[..t + 1], alpha).mean)
  }

  /** The mean is present exactly from the first present cell on. */
  lemma EmaPresence(s: seq<Cell>, alpha: real)
    requires ValidAlpha(alpha)
    ensures forall t :: 0 <= t < |s| ==> (EmaCells(s, alpha)[t].Some? <==> exists k :: 0 <= k <= t && s[k].Some?)
  {
    forall t | 0 <= t < |s|
      ensures EmaCells(s, alpha)[t].Some? <==> exists k :: 0 <= k <= t && s[k].Some?
    {
      var u := s[..t + 1];
      EwmPresence(u, alpha);
      assert forall k :: 0 <= k <= t ==> u[k] == s[k];
    }
  }

  /** The mean at the first present cell is the cell itself. */
  lemma EmaStartsAtFirstValue(s: seq<Cell>, alpha: real, t: nat)
    requires ValidAlpha(alpha)
    requires t < |s| && s[t].Some? && forall k :: 0 <= k < t ==> s[k].None?
    ensures EmaCells(s, alpha)[t] == s[t]
  {
    EwmPassSnoc(s, alpha, t);
    EwmPresence(s[..t], alpha);
    assert forall k :: 0 <= k < t ==> s[..t][k].None?;
  }

  /** A missing cell after the first present one carries the previous mean. */
  lemma EmaCarriesAtGap(s: seq<Cell>, alpha: real, t: nat)
    requires ValidAlpha(alpha)
    requires 0 < t < |s| && s[t].None?
    ensures EmaCells(s, alpha)[t] == EmaCells(s, alpha)[t - 1]
  {
    assert s[..t + 1][..t] == s[..t];
  }

  /** The `adjust=False` recurrence between present cells: y_t = (1 - alpha) * y_(t-1) + alpha * x_t. */
  lemma EmaRecurrence(s: seq<Cell>, alpha: real, t: nat)
    requires ValidAlpha(alpha)
    requires 0 < t < |s| && s[t].Some? && s[t - 1].Some?
    ensures EmaCells(s, alpha)[t].Some? && EmaCells(s, alpha)[t - 1].Some?
    ensures EmaCells(s, alpha)[t].value == (1.0 - alpha) * EmaCells(s, alpha)[t - 1].value + alpha * s[t].value
  {
    var u := s[..t + 1];
    assert u[..|u| - 1] == s[..t];
    assert u[|u| - 1] == s[t];
    EwmRecurrencePass(u, alpha);
    var y, y0 := EwmPass(u, alpha).mean, EwmPass(s[..t], alpha).mean;
    assert EmaCells(s, alpha)[t] == y;
    assert EmaCells(s, alpha)[t - 1] == y0;
  }

  /** The recurrence on one prefix whose last two cells are present. */
  lemma EwmRecurrencePass(u: seq<Cell>, alpha: real)
    requires ValidAlpha(alpha) && |u| >= 2 && u[|u| - 1].Some? && u[|u| - 2].Some?
    ensures EwmPass(u, alpha).mean.Some? && EwmPass(u[..|u| - 1], alpha).mean.Some?
    ensures EwmPass(u, alpha).mean.value == (1.0 - alpha) * EwmPass(u[..|u| - 1], alpha).mean.value + alpha * u[|u| - 1].value
  {
    var v := u[..|u| - 1];
    var st := EwmPass(v, alpha);
    assert EwmPass(u, alpha) == EwmStep(st, u[|u| - 1], alpha);
    assert v[|v| - 1].Some?;
    assert st.mean.Some? && st.gap == 0;
    StepAfterPresent(st, u[|u| - 1], alpha);
  }

  /** A step right after a present cell, where the weight of the mean is 1 - alpha. */
  lemma StepAfterPresent(st: EwmState, x: Cell, alpha: real)
    requires ValidAlpha(alpha) && st.mean.Some? && st.gap == 0 && x.Some?
    ensures EwmStep(st, x, alpha).mean.Some?
    ensures EwmStep(st, x, alpha).mean.value == (1.0 - alpha) * st.mean.value + alpha * x.value
  {
    var w := Weight(st.gap, alpha);
    assert w == 1.0 - alpha by { assert Pow(1.0 - alpha, 0) == 1.0; }
    assert w + alpha == 1.0;
  }

  /**
   * After a present cell at `i`, every missing cell up to `j` carries its
   * mean, and the gap counts the missing cells since `i`.
   */
  lemma {:induction false} EwmGapWeight(s: seq<Cell>, alpha: real, i: nat, j: nat)
    requires ValidAlpha(alpha)
    requires i <= j < |s| && s[i].Some?
    requires forall k :: i < k <= j ==> s[k].None?
    ensures EwmPass(s[..j + 1], alpha).mean == EwmPass(s[..i + 1], alpha).mean
    ensures EwmPass(s[..j + 1], alpha).gap == j - i
    decreases j - i
  {
    var first := EwmPass(s[..i + 1], alpha);
    assert first.mean.Some? && first.gap == 0 by { assert s[..i + 1][i].Some?; }
    if j > i {
      EwmGapWeight(s, alpha, i, j - 1);
      var st := EwmPass(s[..j], alpha);
      EwmPassSnoc(s, alpha, j);
      assert EwmPass(s[..j + 1], alpha) == EwmStep(st, s[j], alpha);
    }
  }

  /**
   * The first present cell after a gap: the mean carried from the last
   * present cell `i` is blended with the new value in the ratio
   * (1 - alpha)^(t - i) : alpha, so a longer gap gives the new value more weight.
   */
  lemma EmaAfterGap(s: seq<Cell>, alpha: real, i: nat, t: nat)
    requires ValidAlpha(alpha)
    requires i < t < |s| && s[i].Some? && s[t].Some?
    requires forall k :: i < k < t ==> s[k].None?
    ensures EmaCells(s, alpha)[i].Some? && EmaCells(s, alpha)[t].Some?
    ensures EmaCells(s, alpha)[t].value == WeightedMean(EmaCells(s, alpha)[i].value, s[t].value, Pow(1.0 - alpha, t - i), alpha)
  {
    EwmGapWeight(s, alpha, i, t - 1);
    var first := EwmPass(s[..i + 1], alpha);
    var st := EwmPass(s[..t], alpha);
    assert first.mean.Some? by { assert s[..i + 1][i].Some?; }
    assert st.mean == first.mean && st.gap + 1 == t - i;
    EwmPassSnoc(s, alpha, t);
    assert EwmPass(s[..t + 1], alpha) == EwmStep(st, s[t], alpha);
    assert EmaCells(s, alpha)[i] == first.mean;
  }

  /** [1, NaN, 3] with alpha 0.5: the gap carries 1, and 3 then weighs 0.5 against 0.25, giving 7/3. */
  lemma EmaGapScenario(s: seq<Cell>)
    requires s == [Some(1.0), None, Some(3.0)]
    ensures EmaCells(s, 0.5) == [Some(1.0), Some(1.0), Some(7.0 / 3.0)]
  {
    var e := EmaCells(s, 0.5);
    EmaStartsAtFirstValue(s, 0.5, 0);
    EmaCarriesAtGap(s, 0.5, 1);
    EmaAfterGap(s, 0.5, 0, 2);
    assert Pow(0.5, 2) == 0.25 by { assert Pow(0.5, 0) == 1.0; }
    assert WeightedMean(1.0, 3.0, 0.25, 0.5) == 7.0 / 3.0;
  }

  /** The mean over a prefix is the prefix of the mean: each value depends only on the cells up to it. */
  lemma EmaPrefix(s: seq<Cell>, alpha: real, n: nat)
    requires ValidAlpha(alpha)
    requires n <= |s|
    ensures EmaCells(s[..n], alpha) == EmaCells(s, alpha)[..n]
  {
    forall t | 0 <= t < n
      ensures EmaCells(s[..n], alpha)[t] == EmaCells(s, alpha)[t]
    {
      assert s[..n][..t + 1] == s[..t + 1];
    }
  }

  /** A blend with a nonnegative and a positive weight lies between the two values. */
  lemma WeightedMeanBetween(m: real, x: real, w: real, a: real)
    requires 0.0 <= w && 0.0 < a
    ensures m <= x ==> m <= (w * m + a * x) / (w + a) <= x
    ensures x <= m ==> x <= (w * m + a * x) / (w + a) <= m
  {
    var d := w + a;
    var q := (w * m + a * x) / d;
    assert q * d == w * m + a * x;
    assert (q - m) * d == a * (x - m);
    assert (x - q) * d == w * (x - m);
    if m <= x {
      ProductNonNegative(a, x - m);
      ProductNonNegative(w, x - m);
    } else {
      ProductNonNegative(a, m - x);
      ProductNonNegative(w, m - x);
    }
  }

  /** The mean after a pass lies between any bounds of the present cells. */
  lemma {:induction false} EwmWithinBounds(s: seq<Cell>, alpha: real, lo: real, hi: real)
    requires ValidAlpha(alpha)
    requires forall k :: 0 <= k < |s| && s[k].Some? ==> lo <= s[k].value <= hi
    ensures EwmPass(s, alpha).mean.Some? ==> lo <= EwmPass(s, alpha).mean.value <= hi
  {
    if s != [] {
      var u := s[..|s| - 1];
      assert forall k :: 0 <= k < |u| && u[k].Some? ==> lo <= u[k].value <= hi by {
        assert forall k :: 0 <= k < |u| ==> u[k] == s[k];
      }
      EwmWithinBounds(u, alpha, lo, hi);
    }
  }

  /**
   * For a smoothing factor in (0, 1] every mean lies between any lower and
   * upper bound of the present cells up to it.
   */
  lemma EmaWithinBounds(s: seq<Cell>, alpha: real, t: nat, lo: real, hi: real)
    requires ValidAlpha(alpha)
    requires t < |s|
    requires forall k :: 0 <= k <= t && s[k].Some? ==> lo <= s[k].value <= hi
    ensures EmaCells(s, alpha)[t].Some? ==> lo <= EmaCells(s, alpha)[t].value <= hi
  {
    var u := s[..t + 1];
    assert forall k :: 0 <= k < |u| ==> u[k] == s[k];
    EwmWithinBounds(u, alpha, lo, hi);
  }

  /** The mean of a series whose present cells are all `c` is `c` wherever it is present. */
  lemma EmaOfConstant(s: seq<Cell>, alpha: real, c: real)
    requires ValidAlpha(alpha)
    requires forall k :: 0 <= k < |s| && s[k].Some? ==> s[k].value == c
    ensures forall t :: 0 <= t < |s| && EmaCells(s, alpha)[t].Some? ==> EmaCells(s, alpha)[t].value == c
  {
    forall t | 0 <= t < |s| && EmaCells(s, alpha)[t].Some?
      ensures EmaCells(s, alpha)[t].value == c
    {
      EmaWithinBounds(s, alpha, t, c, c);
    }
  }

  /** `_ema`: the mean, or the error `ewm` raises for a smoothing factor outside (0, 1]. */
  function Ema(s: seq<Cell>, alpha: real): (r: Result<seq<Cell>>)
    ensures r.Err? <==> !ValidAlpha(alpha)
    ensures r.Err? ==> r.error == InvalidAlpha(alpha)
    ensures r.Ok? ==> |r.value| == |s| && forall t :: 0 <= t < |s| ==>
      (r.value[t].Some? <==> exists k :: 0 <= k <= t && s[k].Some?)
  {
    if ValidAlpha(alpha) then
      EmaPresence(s, alpha);
      Ok(EmaCells(s, alpha))
    else Err(InvalidAlpha(alpha))
  }

  /** Fast mean minus slow mean, cell by cell; missing until the first present cell. */
  function MacdCells(s: seq<Cell>, fast: real, slow: real): (r: seq<Cell>)
    requires ValidAlpha(fast) && ValidAlpha(slow)
    ensures |r| == |s|
  {
    var f := EmaCells(s, fast);
    var w := EmaCells(s, slow);
    seq(|s|, t requires 0 <= t < |s| => if f[t].Some? && w[t].Some? then Some(f[t].value - w[t].value) else None)
  }

  /** The MACD is present exactly from the first present cell on, like both means. */
  lemma MacdPresence(s: seq<Cell>, fast: real, slow: real)
    requires ValidAlpha(fast) && ValidAlpha(slow)
    ensures forall t :: 0 <= t < |s| ==> (MacdCells(s, fast, slow)[t].Some? <==> exists k :: 0 <= k <= t && s[k].Some?)
  {
    EmaPresence(s, fast);
    EmaPresence(s, slow);
  }

  /**
   * `macd_signal_prices`: the MACD of the series itself. The fast factor is
   * checked first, as the fast mean is taken first.
   */
  function MacdSignalPrices(prices: seq<Cell>, fast: real, slow: real): (r: Result<seq<Cell>>)
    ensures r.Err? <==> !ValidAlpha(fast) || !ValidAlpha(slow)
    ensures r.Err? ==> r.error == if !ValidAlpha(fast) then InvalidAlpha(fast) else InvalidAlpha(slow)
    ensures r.Ok? ==> |r.value| == |prices|
    ensures r.Ok? ==> forall t :: 0 <= t < |prices| ==> (r.value[t].Some? <==> exists k :: 0 <= k <= t && prices[k].Some?)
  {
    var f := Ema(prices, fast);
    if f.Err? then Err(f.error)
    else
      var w := Ema(prices, slow);
      if w.Err? then Err(w.error)
      else
        MacdPresence(prices, fast, slow);
        Ok(MacdCells(prices, fast, slow))
  }

  /** `macd_signal`: the MACD of the percent changes `pct_change(fill_method=None)`. */
  function MacdSignal(prices: seq<Cell>, fast: real, slow: real): (r: Result<seq<Cell>>)
    requires PresentDivisorsNonZero(prices)
    ensures r.Err? <==> !ValidAlpha(fast) || !ValidAlpha(slow)
    ensures r.Err? ==> r.error == if !ValidAlpha(fast) then InvalidAlpha(fast) else InvalidAlpha(slow)
    ensures r.Ok? ==> |r.value| == |prices|
    ensures r.Ok? ==> forall t :: 0 <= t < |prices| ==>
      (r.value[t].Some? <==> exists k :: 0 < k <= t && prices[k].Some? && prices[k - 1].Some?)
  {
    var ret := PctChangeCells(prices);
    var r := MacdSignalPrices(ret, fast, slow);
    assert r.Ok? ==> forall t :: 0 <= t < |prices| ==>
      (r.value[t].Some? <==> exists k :: 0 < k <= t && prices[k].Some? && prices[k - 1].Some?) by {
      if r.Ok? {
        forall t | 0 <= t < |prices|
          ensures r.value[t].Some? <==> exists k :: 0 < k <= t && prices[k].Some? && prices[k - 1].Some?
        {
          PctChangeCellsPresence(prices, t);
        }
      }
    }
    r
  }

  /** One mask entry: +1 above zero, -1 below the bearish cut-off, and 0 otherwise or when missing. */
  function MaskOf(c: Cell): (k: int)
    ensures k in {-1, 0, 1}
    ensures k == 1 <==> c.Some? && c.value > 0.0
    ensures k == -1 <==> c.Some? && c.value < BearishCutoff
  {
    if c.Some? && c.value > 0.0 then 1
    else if c.Some? && c.value < BearishCutoff then -1
    else 0
  }

  /** The trend mask of one column, for smoothing factors `ewm` accepts. */
  function TrendMaskCells(prices: seq<Cell>, fast: real, slow: real): (r: seq<int>)
    requires PresentDivisorsNonZero(prices) && ValidAlpha(fast) && ValidAlpha(slow)
    ensures |r| == |prices|
    ensures forall t :: 0 <= t < |prices| ==> r[t] == MaskOf(MacdSignal(prices, fast, slow).value[t])
  {
    var macd := MacdCells(PctChangeCells(prices), fast, slow);
    seq(|prices|, t requires 0 <= t < |prices| => MaskOf(macd[t]))
  }

  /**
   * `trend_mask` on one column. `threshold` is accepted and never read: the
   * cut-offs are the constants 0 and -0.3.
   */
  function TrendMask(prices: seq<Cell>, fast: real, slow: real, threshold: real): (r: Result<seq<int>>)
    requires PresentDivisorsNonZero(prices)
    ensures r.Err? <==> !ValidAlpha(fast) || !ValidAlpha(slow)
    ensures r.Ok? ==> |r.value| == |prices|
    ensures r.Ok? ==> forall t :: 0 <= t < |prices| ==> r.value[t] in {-1, 0, 1}
    ensures r.Ok? ==> forall t :: 0 <= t < |prices| ==>
      var m := MacdSignal(prices, fast, slow).value[t];
      (r.value[t] == 1 <==> m.Some? && m.value > 0.0) &&
      (r.value[t] == -1 <==> m.Some? && m.value < BearishCutoff) &&
      (r.value[t] == 0 <==> m.None? || BearishCutoff <= m.value <= 0.0)
  {
    var macd := MacdSignal(prices, fast, slow);
    if macd.Err? then Err(macd.error) else Ok(TrendMaskCells(prices, fast, slow))
  }

  /** The `threshold` argument has no effect on the mask. */
  lemma ThresholdIgnored(prices: seq<Cell>, fast: real, slow: real, t1: real, t2: real)
    requires PresentDivisorsNonZero(prices)
    ensures TrendMask(prices, fast, slow, t1) == TrendMask(prices, fast, slow, t2)
  {
  }

  /** At the first present cell both means equal the cell, so the MACD is exactly 0. */
  lemma MacdZeroAtFirstValue(s: seq<Cell>, fast: real, slow: real, t: nat)
    requires ValidAlpha(fast) && ValidAlpha(slow)
    requires t < |s| && s[t].Some? && forall k :: 0 <= k < t ==> s[k].None?
    ensures MacdCells(s, fast, slow)[t] == Some(0.0)
  {
    EmaStartsAtFirstValue(s, fast, t);
    EmaStartsAtFirstValue(s, slow, t);
  }

  /**
   * At the first bar with a return (a present price right after a present
   * price, for the first time) the MACD is 0 and the mask is 0.
   */
  lemma NoTrendAtFirstReturn(prices: seq<Cell>, fast: real, slow: real, t: nat)
    requires PresentDivisorsNonZero(prices)
    requires ValidAlpha(fast) && ValidAlpha(slow)
    requires 0 < t < |prices| && prices[t].Some? && prices[t - 1].Some?
    requires forall k :: 0 < k < t ==> prices[k].None? || prices[k - 1].None?
    ensures MacdSignal(prices, fast, slow).value[t] == Some(0.0)
    ensures TrendMask(prices, fast, slow, 0.0).value[t] == 0
  {
    var ret := PctChangeCells(prices);
    assert forall k :: 0 <= k < t ==> ret[k].None?;
    MacdZeroAtFirstValue(ret, fast, slow, t);
  }

  /** A series whose present cells are all `c` has MACD 0 wherever the MACD is present. */
  lemma MacdOfConstant(s: seq<Cell>, fast: real, slow: real, c: real)
    requires ValidAlpha(fast) && ValidAlpha(slow)
    requires forall k :: 0 <= k < |s| && s[k].Some? ==> s[k].value == c
    ensures forall t :: 0 <= t < |s| && MacdCells(s, fast, slow)[t].Some? ==> MacdCells(s, fast, slow)[t].value == 0.0
  {
    EmaOfConstant(s, fast, c);
    EmaOfConstant(s, slow, c);
  }

  /** Prices whose present cells are all one nonzero level show no trend anywhere. */
  lemma ConstantPricesNoTrend(prices: seq<Cell>, fast: real, slow: real, c: real)
    requires ValidAlpha(fast) && ValidAlpha(slow) && c != 0.0
    requires forall k :: 0 <= k < |prices| && prices[k].Some? ==> prices[k].value == c
    ensures TrendMask(prices, fast, slow, 0.0).Ok?
    ensures forall t :: 0 <= t < |prices| ==> TrendMask(prices, fast, slow, 0.0).value[t] == 0
  {
    var r := PctChangeCells(prices);
    forall k | 0 <= k < |r| && r[k].Some?
      ensures r[k].value == 0.0
    {
      assert prices[k].value / prices[k - 1].value == c / c == 1.0;
    }
    MacdOfConstant(r, fast, slow, 0.0);
  }

  /**
   * `trend_mask` on a DataFrame: every column is treated on its own, and the
   * result has the shape of the prices.
   */
  function TrendMaskPanel(prices: Panel, m: nat, fast: real, slow: real, threshold: real): (r: Result<seq<seq<int>>>)
    requires IsPanel(prices, m)
    requires forall i :: 0 <= i < m ==> PresentDivisorsNonZero(Column(prices, i))
    ensures r.Err? <==> !ValidAlpha(fast) || !ValidAlpha(slow)
    ensures r.Ok? ==> |r.value| == |prices| && forall t :: 0 <= t < |prices| ==> |r.value[t]| == m
    ensures r.Ok? ==> forall t, i :: 0 <= t < |prices| && 0 <= i < m ==>
      r.value[t][i] == TrendMask(Column(prices, i), fast, slow, threshold).value[t]
  {
    if !ValidAlpha(fast) then Err(InvalidAlpha(fast))
    else if !ValidAlpha(slow) then Err(InvalidAlpha(slow))
    else Ok(seq(|prices|, t requires 0 <= t < |prices| =>
      seq(m, i requires 0 <= i < m => TrendMaskCells(Column(prices, i), fast, slow)[t])))
  }
}
