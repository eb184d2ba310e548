/**
 * Operations on one column of values as the pandas calls of the modelled code
 * perform them: sums, percent change, forward fill, fill with a constant.
 * A panel (a DataFrame) is a sequence of rows of equal width.
 */
module Series {
  import opened Wrappers

  /** One cell of a Series or DataFrame; `None` is NaN. */
  type Cell = Option<real>
  type Row = seq<Cell>
  type Panel = seq<Row>

  function Abs(x: real): real { if x < 0.0 then -x else x }

  /** `clip(upper=cap)` on one value. */
  function ClipUpper(x: real, cap: real): real { if x <= cap then x else cap }

  /** The value of a cell, or `v` when it is missing (`fillna(v)` on one cell). */
  function GetOr(c: Cell, v: real): real { if c.Some? then c.value else v }

  lemma ProductNonNegative(a: real, b: real)
    requires a >= 0.0 && b >= 0.0
    ensures a * b >= 0.0
  {
  }

  function Sum(s: seq<real>): real
  {
    if s == [] then 0.0 else Sum(s[..|s| - 1]) + s[|s| - 1]
  }

  lemma {:induction false} SumAppend(a: seq<real>, b: seq<real>)
    ensures Sum(a + b) == Sum(a) + Sum(b)
    decreases |b|
  {
    if b == [] {
      assert a + b == a;
    } else {
      assert (a + b)[..|a + b| - 1] == a + b[..|b| - 1];
      SumAppend(a, b[..|b| - 1]);
    }
  }

  lemma {:induction false} SumNonNegative(s: seq<real>)
    requires forall i :: 0 <= i < |s| ==> s[i] >= 0.0
    ensures Sum(s) >= 0.0
  {
    if s != [] {
      SumNonNegative(s[..|s| - 1]);
    }
  }

  /** Every element of a nonnegative sequence is at most its sum. */
  lemma {:induction false} SumBoundsElement(s: seq<real>, k: nat)
    requires forall i :: 0 <= i < |s| ==> s[i] >= 0.0
    requires k < |s|
    ensures s[k] <= Sum(s)
  {
    var n := |s|;
    SumNonNegative(s[..n - 1]);
    if k < n - 1 {
      SumBoundsElement(s[..n - 1], k);
    }
  }

  /** One plus a relative change, times the base, gives back the new value. */
  lemma DivideBack(x: real, d: real)
    requires d != 0.0
    ensures x == d * (1.0 + (x / d - 1.0))
  {
  }

  /** Price divisors: every price that some later price is divided by is nonzero. */
  ghost predicate DivisorsNonZero(p: seq<real>)
  {
    forall i :: 0 <= i < |p| - 1 ==> p[i] != 0.0
  }

  /** `prices.pct_change().fillna(0)` on a series without gaps. */
  function PctChange(p: seq<real>): (r: seq<real>)
    requires DivisorsNonZero(p)
    ensures |r| == |p|
    ensures |p| > 0 ==> r[0] == 0.0
    ensures forall t :: 0 < t < |p| ==> p[t] == p[t - 1] * (1.0 + r[t])
  {
    forall t | 0 < t < |p|
      ensures p[t] == p[t - 1] * (1.0 + (p[t] / p[t - 1] - 1.0))
    {
      DivideBack(p[t], p[t - 1]);
    }
    seq(|p|, t requires 0 <= t < |p| => if t == 0 then 0.0 else p[t] / p[t - 1] - 1.0)
  }

  /** Present divisors: every present cell that a later cell may be divided by is nonzero. */
  ghost predicate PresentDivisorsNonZero(p: seq<Cell>)
  {
    forall i :: 0 <= i < |p| - 1 && p[i].Some? ==> p[i].value != 0.0
  }

  /** `pct_change(fill_method=None)`: missing unless this cell and the previous one are present. */
  function PctChangeCells(p: seq<Cell>): (r: seq<Cell>)
    requires PresentDivisorsNonZero(p)
    ensures |r| == |p|
    ensures forall t :: 0 <= t < |p| ==> (r[t].Some? <==> t > 0 && p[t].Some? && p[t - 1].Some?)
  {
    seq(|p|, t requires 0 <= t < |p| =>
      if t > 0 && p[t].Some? && p[t - 1].Some? then Some(p[t].value / p[t - 1].value - 1.0) else None)
  }

  /** Up to `t`, a change is present exactly when some cell and its predecessor are both present. */
  lemma PctChangeCellsPresence(p: seq<Cell>, t: nat)
    requires PresentDivisorsNonZero(p) && t < |p|
    ensures (exists k :: 0 <= k <= t && PctChangeCells(p)[k].Some?) <==> (exists k :: 0 < k <= t && p[k].Some? && p[k - 1].Some?)
  {
    var r := PctChangeCells(p);
    if k :| 0 <= k <= t && r[k].Some? {
      assert 0 < k && p[k].Some? && p[k - 1].Some?;
    }
    if k :| 0 < k <= t && p[k].Some? && p[k - 1].Some? {
      assert r[k].Some?;
    }
  }

  /** `fillna(v)`: a present cell keeps its value and a missing cell becomes `v`. */
  function FillNa(s: seq<Cell>, v: real): (r: seq<real>)
    ensures |r| == |s|
    ensures forall t :: 0 <= t < |s| && s[t].Some? ==> r[t] == s[t].value
    ensures forall t :: 0 <= t < |s| && s[t].None? ==> r[t] == v
  {
    seq(|s|, t requires 0 <= t < |s| => GetOr(s[t], v))
  }

  /** The last present cell of `s`, or `None` when every cell is missing. */
  function LastPresent(s: seq<Cell>): (r: Cell)
    ensures r.Some? ==> r in s
  {
    if s == [] then None
    else if s[|s| - 1].Some? then s[|s| - 1]
    else LastPresent(s[..|s| - 1])
  }

  lemma {:induction false} LastPresentNone(s: seq<Cell>)
    ensures LastPresent(s).None? <==> forall k :: 0 <= k < |s| ==> s[k].None?
  {
    if s != [] {
      LastPresentNone(s[..|s| - 1]);
    }
  }

  /**
   * `ffill()`: a present cell is kept, a missing cell takes the value of the
   * cell before it (already filled), and the first cell is left as it is.
   * Computed as pandas does, by one forward pass carrying the last value.
   */
  function FFill(s: seq<Cell>): (r: seq<Cell>)
    ensures |r| == |s|
    ensures |s| > 0 ==> r[0] == s[0]
    ensures forall t :: 0 <= t < |s| && s[t].Some? ==> r[t] == s[t]
    ensures forall t :: 0 < t < |s| && s[t].None? ==> r[t] == r[t - 1]
  {
    if s == [] then []
    else
      var n := |s|;
      var p := FFill(s[..n - 1]);
      p + [if s[n - 1].Some? then s[n - 1] else if n > 1 then p[n - 2] else None]
  }

  /** After `ffill()` a cell is the last present cell at or before it. */
  lemma {:induction false} FFillIsLastPresent(s: seq<Cell>, t: nat)
    requires t < |s|
    ensures FFill(s)[t] == LastPresent(s[..t + 1])
  {
    if s[t].None? && t > 0 {
      assert s[..t + 1][..t] == s[..t];
      FFillIsLastPresent(s, t - 1);
    }
  }

  /** After `ffill()` a cell is missing exactly when it and every cell before it are missing. */
  lemma FFillMissing(s: seq<Cell>, t: nat)
    requires t < |s|
    ensures FFill(s)[t].None? <==> forall k :: 0 <= k <= t ==> s[k].None?
  {
    FFillIsLastPresent(s, t);
    LastPresentNone(s[..t + 1]);
  }

  /** Any bounds that hold for every present cell hold for every present cell after `ffill()`. */
  lemma FFillWithinBounds(s: seq<Cell>, lo: real, hi: real)
    requires forall k :: 0 <= k < |s| && s[k].Some? ==> lo <= s[k].value <= hi
    ensures forall t :: 0 <= t < |s| && FFill(s)[t].Some? ==> lo <= FFill(s)[t].value <= hi
  {
    forall t | 0 <= t < |s| && FFill(s)[t].Some?
      ensures lo <= FFill(s)[t].value <= hi
    {
      FFillIsLastPresent(s, t);
      LastPresentIsACell(s[..t + 1]);
    }
  }

  /** A present `LastPresent` is one of the cells. */
  lemma {:induction false} LastPresentIsACell(s: seq<Cell>)
    ensures LastPresent(s).Some? ==> exists k :: 0 <= k < |s| && s[k] == LastPresent(s)
  {
    if s != [] && s[|s| - 1].None? {
      LastPresentIsACell(s[..|s| - 1]);
      if LastPresent(s).Some? {
        var k :| 0 <= k < |s| - 1 && s[..|s| - 1][k] == LastPresent(s[..|s| - 1]);
        assert s[k] == LastPresent(s);
      }
    }
  }

  /** Every cell present, with the values of `v`. */
  function Lift(v: seq<real>): (c: seq<Cell>)
    ensures |c| == |v|
  {
    seq(|v|, i requires 0 <= i < |v| => Some(v[i]))
  }

  /** Filling a series without gaps gives back its values. */
  lemma FillNaLift(v: seq<real>, x: real)
    ensures FillNa(Lift(v), x) == v
  {
  }

  /** The forward fill keeps the present divisors nonzero: each filled cell is an earlier present cell. */
  lemma FFillDivisorsNonZero(p: seq<Cell>)
    requires PresentDivisorsNonZero(p)
    ensures PresentDivisorsNonZero(FFill(p))
  {
    forall i | 0 <= i < |p| - 1 && FFill(p)[i].Some?
      ensures FFill(p)[i].value != 0.0
    {
      FFillIsLastPresent(p, i);
      LastPresentIsACell(p[..i + 1]);
      var k :| 0 <= k < i + 1 && p[..i + 1][k] == LastPresent(p[..i + 1]);
      assert p[k] == FFill(p)[i];
    }
  }

  /**
   * `pct_change().fillna(0)` with pandas' default `fill_method="pad"`: the
   * series is forward filled first, each filled cell is divided by the filled
   * cell before it, and whatever is still missing becomes 0. Nothing is
   * masked again afterwards, so a missing price after a present one gives a
   * change of 0, and the next present price is compared with the last
   * present one before the gap.
   */
  function PaddedPctChange(p: seq<Cell>): (r: seq<real>)
    requires PresentDivisorsNonZero(p)
    ensures |r| == |p|
  {
    FFillDivisorsNonZero(p);
    FillNa(PctChangeCells(FFill(p)), 0.0)
  }

  /**
   * One padded change: a present price over the last present price before
   * it, minus one; 0 at a missing price and at a price with no present
   * price before it.
   */
  lemma PaddedPctChangeAt(p: seq<Cell>, t: nat)
    requires PresentDivisorsNonZero(p) && t < |p|
    ensures LastPresent(p[..t]).Some? ==> LastPresent(p[..t]).value != 0.0
    ensures p[t].Some? && LastPresent(p[..t]).Some? ==>
      PaddedPctChange(p)[t] == p[t].value / LastPresent(p[..t]).value - 1.0
    ensures p[t].None? || LastPresent(p[..t]).None? ==> PaddedPctChange(p)[t] == 0.0
  {
    var f := FFill(p);
    FFillDivisorsNonZero(p);
    var c := PctChangeCells(f);
    assert PaddedPctChange(p)[t] == GetOr(c[t], 0.0);
    PctChangeCellAt(f, t);
    if t > 0 {
      FilledBeforeIsLast(p, t);
      if LastPresent(p[..t]).Some? && p[t].None? {
        SelfRatio(LastPresent(p[..t]).value);
      }
    }
  }

  /** The filled cell before `t` is the last present cell before `t`; a present one is nonzero. */
  lemma FilledBeforeIsLast(p: seq<Cell>, t: nat)
    requires PresentDivisorsNonZero(p) && 0 < t < |p|
    ensures FFill(p)[t - 1] == LastPresent(p[..t])
    ensures LastPresent(p[..t]).Some? ==> LastPresent(p[..t]).value != 0.0
  {
    FFillIsLastPresent(p, t - 1);
    assert p[..t - 1 + 1] == p[..t];
    LastPresentIsACell(p[..t]);
    if LastPresent(p[..t]).Some? {
      var k :| 0 <= k < t && p[..t][k] == LastPresent(p[..t]);
      assert p[k] == LastPresent(p[..t]);
    }
  }

  /** A nonzero price over itself changes by 0. */
  lemma SelfRatio(x: real)
    requires x != 0.0
    ensures x / x - 1.0 == 0.0
  {
  }

  /** One cell of `pct_change(fill_method=None)`. */
  lemma PctChangeCellAt(p: seq<Cell>, t: nat)
    requires PresentDivisorsNonZero(p) && t < |p|
    ensures PctChangeCells(p)[t] ==
      if t > 0 && p[t].Some? && p[t - 1].Some? then Some(p[t].value / p[t - 1].value - 1.0) else None
  {
  }

  /** On a series without gaps the padded change is the plain change. */
  lemma PaddedPctChangeComplete(v: seq<real>)
    requires DivisorsNonZero(v)
    ensures PresentDivisorsNonZero(Lift(v))
    ensures PaddedPctChange(Lift(v)) == PctChange(v)
  {
    var p := Lift(v);
    assert FFill(p) == p;
    forall t | 0 <= t < |v|
      ensures PaddedPctChange(p)[t] == PctChange(v)[t]
    {
      PaddedPctChangeAt(p, t);
      if t > 0 {
        assert p[..t][t - 1] == Some(v[t - 1]);
      }
    }
  }

  /** [NaN, 100, NaN, 110]: the changes are [0, 0, 0, 0.1], the last one measured from 100 across the gap. */
  lemma PaddedPctChangeScenario(p: seq<Cell>)
    requires p == [None, Some(100.0), None, Some(110.0)]
    ensures PresentDivisorsNonZero(p)
    ensures PaddedPctChange(p) == [0.0, 0.0, 0.0, 0.1]
  {
    PaddedPctChangeAt(p, 0);
    PaddedPctChangeAt(p, 1);
    assert p[..1] == [None];
    PaddedPctChangeAt(p, 2);
    PaddedPctChangeAt(p, 3);
    assert p[..3] == [None, Some(100.0), None];
    assert p[..3][..2] == [None, Some(100.0)];
  }

  /** Every row of the panel has `m` cells. */
  ghost predicate IsPanel(p: Panel, m: nat)
  {
    forall t :: 0 <= t < |p| ==> |p[t]| == m
  }

  /** Column `i` of a panel. */
  function Column(p: Panel, i: nat): (c: seq<Cell>)
    requires forall t :: 0 <= t < |p| ==> i < |p[t]|
    ensures |c| == |p|
  {
    seq(|p|, t requires 0 <= t < |p| => p[t][i])
  }

  /** `ffill()` on a panel: each column is forward filled on its own. */
  function FFillPanel(p: Panel, m: nat): (r: Panel)
    requires IsPanel(p, m)
    ensures |r| == |p| && IsPanel(r, m)
    ensures forall t, i :: 0 < t < |p| && 0 <= i < m && p[t][i].None? ==> r[t][i] == r[t - 1][i]
  {
    seq(|p|, t requires 0 <= t < |p| => seq(m, i requires 0 <= i < m => FFill(Column(p, i))[t]))
  }

  /** A present cell of a panel is kept by the forward fill. */
  lemma FFillPanelPresent(p: Panel, m: nat, t: nat, i: nat)
    requires IsPanel(p, m) && t < |p| && i < m && p[t][i].Some?
    ensures FFillPanel(p, m)[t][i] == p[t][i]
  {
    assert Column(p, i)[t] == p[t][i];
  }

  /** After `ffill()` on a frame, a cell is missing exactly when it and every cell above it in its column are. */
  lemma FFillPanelMissing(p: Panel, m: nat, t: nat, i: nat)
    requires IsPanel(p, m) && t < |p| && i < m
    ensures FFillPanel(p, m)[t][i].None? <==> forall k :: 0 <= k <= t ==> p[k][i].None?
  {
    FFillMissing(Column(p, i), t);
    assert FFillPanel(p, m)[t][i] == FFill(Column(p, i))[t];
    assert forall k :: 0 <= k <= t ==> Column(p, i)[k] == p[k][i];
  }
}
