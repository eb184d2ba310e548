/**
 * Back-adjustment of continuous futures prices: a detector of roll dates
 * (a daily move far above its ten-day average), the additive and the
 * multiplicative kernel that move the history before each roll, and the
 * gateway that picks a kernel by name and applies it to every column.
 *
 * The kernels as written move the history away from the new contract's
 * price (the gap doubles, the ratio squares); both forms are here, and the
 * gateway uses the corrected kernels, which close every gap.
 */
module Adjust {
  import opened Wrappers
  import opened Series

  /** The default multiple of the ten-day average move that marks a roll. */
  const RollThreshold: real := 5.0
  /** The number of daily moves averaged. */
  const AtrWindow: nat := 10

  // ---------------------------------------------------------------------
  // Roll detection
  // ---------------------------------------------------------------------

  /** `series.diff()` at bar `t`: defined where the cell and the one before it are present. */
  function DiffAt(s: seq<Cell>, t: nat): (d: Cell)
    requires t < |s|
    ensures d.Some? <==> t > 0 && s[t].Some? && s[t - 1].Some?
  {
    if t > 0 && s[t].Some? && s[t - 1].Some? then Some(s[t].value - s[t - 1].value) else None
  }

  /** The absolute moves of the ten bars ending at `t`. */
  function AbsWindow(s: seq<Cell>, t: nat): (w: seq<real>)
    requires t < |s| && t + 1 >= AtrWindow
    ensures |w| == AtrWindow
    ensures forall k :: 0 <= k < AtrWindow ==> w[k] == Abs(GetOr(DiffAt(s, t + 1 - AtrWindow + k), 0.0)) && w[k] >= 0.0
  {
    seq(AtrWindow, k requires 0 <= k < AtrWindow => Abs(GetOr(DiffAt(s, t + 1 - AtrWindow + k), 0.0)))
  }

  /** `diff().abs().rolling(10).mean()` at bar `t`: defined once ten defined moves end there. */
  function Atr10(s: seq<Cell>, t: nat): (a: Cell)
    requires t < |s|
    ensures a.Some? ==> t + 1 >= AtrWindow && a.value >= 0.0
  {
    if t + 1 >= AtrWindow && forall k :: t + 1 - AtrWindow <= k <= t ==> DiffAt(s, k).Some?
    then
      SumNonNegative(AbsWindow(s, t));
      Some(Sum(AbsWindow(s, t)) / AtrWindow as real)
    else None
  }

  /** Bar `t` is a roll when its move exceeds `thresh` times the ten-day average move; undefined compares false. */
  predicate IsRoll(s: seq<Cell>, thresh: real, t: nat)
    requires t < |s|
    ensures IsRoll(s, thresh, t) ==> t + 1 >= AtrWindow && DiffAt(s, t).Some?
  {
    var d := DiffAt(s, t);
    var a := Atr10(s, t);
    a.Some? && d.Some? && Abs(d.value) > thresh * a.value
  }

  /** A roll needs ten defined moves, and the move at bar 0 is never defined: no roll before bar 10. */
  lemma RollsStartAtTen(s: seq<Cell>, thresh: real, t: nat)
    requires t < |s| && IsRoll(s, thresh, t)
    ensures t >= AtrWindow
    ensures s[t].Some? && s[t - 1].Some?
  {
    assert DiffAt(s, t + 1 - AtrWindow).Some?;
  }

  /** The rolls among the first `n` bars, in index order. */
  function RollsBefore(s: seq<Cell>, thresh: real, n: nat): (r: seq<nat>)
    requires n <= |s|
    ensures forall k :: 0 <= k < |r| ==> AtrWindow <= r[k] < n
    ensures forall j, k :: 0 <= j < k < |r| ==> r[j] < r[k]
    ensures forall t :: 0 <= t < n ==> (t in r <==> IsRoll(s, thresh, t))
  {
    if n == 0 then []
    else if IsRoll(s, thresh, n - 1) then
      RollsStartAtTen(s, thresh, n - 1);
      RollsBefore(s, thresh, n - 1) + [n - 1]
    else RollsBefore(s, thresh, n - 1)
  }

  /** `_detect_roll`: every roll bar, in index order. */
  function DetectRoll(s: seq<Cell>, thresh: real): (rolls: seq<nat>)
    ensures forall k :: 0 <= k < |rolls| ==> AtrWindow <= rolls[k] < |s|
    ensures forall j, k :: 0 <= j < k < |rolls| ==> rolls[j] < rolls[k]
    ensures forall t :: 0 <= t < |s| ==> (t in rolls <==> IsRoll(s, thresh, t))
  {
    RollsBefore(s, thresh, |s|)
  }

  /**
   * A move is one of the ten moves it is averaged with, so it is at most ten
   * times the average: with a threshold of 10 or more nothing is a roll.
   */
  lemma NoRollAtHighThreshold(s: seq<Cell>, thresh: real)
    requires thresh >= 10.0
    ensures DetectRoll(s, thresh) == []
  {
    forall t | 0 <= t < |s|
      ensures !IsRoll(s, thresh, t)
    {
      var d := DiffAt(s, t);
      var a := Atr10(s, t);
      if a.Some? && d.Some? {
        var w := AbsWindow(s, t);
        SumBoundsElement(w, AtrWindow - 1);
        SumNonNegative(w);
        assert Abs(d.value) == w[AtrWindow - 1];
        assert Sum(w) == 10.0 * a.value;
        assert 10.0 * a.value <= thresh * a.value;
      }
    }
    NoRollsBefore(s, thresh, |s|);
  }

  /** Without a roll bar among the first `n` bars there is nothing to report. */
  lemma {:induction false} NoRollsBefore(s: seq<Cell>, thresh: real, n: nat)
    requires n <= |s| && forall t :: 0 <= t < |s| ==> !IsRoll(s, thresh, t)
    ensures RollsBefore(s, thresh, n) == []
  {
    if n > 0 {
      NoRollsBefore(s, thresh, n - 1);
    }
  }

  // ---------------------------------------------------------------------
  // dropna and reindex
  // ---------------------------------------------------------------------

  /** `dropna()`: the present values, in order; none is dropped from a series without gaps. */
  function Present(s: seq<Cell>): (r: seq<real>)
    ensures |r| <= |s|
  {
    if s == [] then []
    else Present(s[..|s| - 1]) + (if s[|s| - 1].Some? then [s[|s| - 1].value] else [])
  }

  /** `reindex(series.index)`: the values put back on the present cells of `s`, in order, and missing elsewhere. */
  function Restore(s: seq<Cell>, v: seq<real>): (r: seq<Cell>)
    requires |v| == |Present(s)|
    ensures |r| == |s|
    ensures forall t :: 0 <= t < |s| ==> (r[t].Some? <==> s[t].Some?)
  {
    if s == [] then []
    else if s[|s| - 1].Some? then Restore(s[..|s| - 1], v[..|v| - 1]) + [Some(v[|v| - 1])]
    else Restore(s[..|s| - 1], v) + [None]
  }

  /** Putting the dropped values back gives the series. */
  lemma {:induction false} RestorePresent(s: seq<Cell>)
    ensures Restore(s, Present(s)) == s
  {
    if s != [] {
      var p := Present(s[..|s| - 1]);
      RestorePresent(s[..|s| - 1]);
      if s[|s| - 1].Some? {
        var q := Present(s);
        assert q == p + [s[|s| - 1].value];
        assert q[..|q| - 1] == p;
        assert Restore(s, q) == Restore(s[..|s| - 1], p) + [Some(s[|s| - 1].value)];
      } else {
        assert Present(s) == p;
      }
      assert s[..|s| - 1] + [s[|s| - 1]] == s;
    }
  }

  /** Dropping the missing cells of a restored series gives the values. */
  lemma {:induction false} PresentRestore(s: seq<Cell>, v: seq<real>)
    requires |v| == |Present(s)|
    ensures Present(Restore(s, v)) == v
  {
    if s != [] {
      var r := Restore(s, v);
      assert r[..|s| - 1] == Restore(s[..|s| - 1], if s[|s| - 1].Some? then v[..|v| - 1] else v);
      PresentRestore(s[..|s| - 1], if s[|s| - 1].Some? then v[..|v| - 1] else v);
    }
  }

  // ---------------------------------------------------------------------
  // The additive kernel
  // ---------------------------------------------------------------------

  /** Roll bars of a series of `n` values: each has a bar before it. */
  predicate ValidRolls(rolls: seq<nat>, n: nat)
  {
    forall k :: 0 <= k < |rolls| ==> 0 < rolls[k] < n
  }

  /** `adj.loc[:prev] = adj.loc[:prev] - delta`: every value before bar `rd` moved down by `delta`. */
  function ShiftPrefix(x: seq<real>, rd: nat, delta: real): (y: seq<real>)
    requires rd <= |x|
    ensures |y| == |x|
    ensures forall i :: 0 <= i < rd ==> y[i] == x[i] - delta
    ensures forall i :: rd <= i < |x| ==> y[i] == x[i]
  {
    seq(|x|, i requires 0 <= i < |x| => if i < rd then x[i] - delta else x[i])
  }

  /** The jump at a roll bar: its price less the price of the bar before. */
  function Gap(x: seq<real>, rd: nat): real
    requires 0 < rd < |x|
  {
    x[rd] - x[rd - 1]
  }

  /** Moving a prefix changes one consecutive difference, the one at the end of the prefix, by `delta`. */
  lemma ShiftPrefixSteps(x: seq<real>, rd: nat, delta: real, i: nat)
    requires rd <= |x| && 0 < i < |x|
    ensures var y := ShiftPrefix(x, rd, delta);
      y[i] - y[i - 1] == if i == rd then x[i] - x[i - 1] + delta else x[i] - x[i - 1]
  {
  }

  /** The loop of `_diff_adjust` as written: the gap is subtracted from every earlier price. */
  function DiffRollsAsWritten(x: seq<real>, rolls: seq<nat>): (y: seq<real>)
    requires ValidRolls(rolls, |x|)
    ensures |y| == |x|
  {
    if rolls == [] then x
    else
      var y := DiffRollsAsWritten(x, rolls[..|rolls| - 1]);
      var rd := rolls[|rolls| - 1];
      ShiftPrefix(y, rd, Gap(y, rd))
  }

  /** As written, handling one roll doubles its gap instead of closing it. */
  lemma AsWrittenDoublesGap(x: seq<real>, rd: nat)
    requires 0 < rd < |x|
    ensures var y := DiffRollsAsWritten(x, [rd]);
      y[rd] - y[rd - 1] == 2.0 * (x[rd] - x[rd - 1])
  {
    assert [rd][..0] == [];
    ShiftPrefixSteps(x, rd, Gap(x, rd), rd);
  }

  /** A jump from 100 to 110 on a roll bar: as written, the price before is moved to 90 and the jump becomes 20. */
  lemma AsWrittenWidensJump(x: seq<real>)
    requires x == [100.0, 110.0]
    ensures DiffRollsAsWritten(x, [1]) == [90.0, 110.0]
  {
    assert [1][..0] == [];
  }

  /** The corrected loop: every earlier price is raised by the gap, so the roll bar continues the history. */
  function DiffRolls(x: seq<real>, rolls: seq<nat>): (y: seq<real>)
    requires ValidRolls(rolls, |x|)
    ensures |y| == |x|
  {
    if rolls == [] then x
    else
      var y := DiffRolls(x, rolls[..|rolls| - 1]);
      var rd := rolls[|rolls| - 1];
      ShiftPrefix(y, rd, -Gap(y, rd))
  }

  /**
   * After the corrected loop every roll's difference is 0 and every other
   * consecutive difference is the original one; a later roll does not
   * reopen an earlier gap.
   */
  lemma {:induction false} DiffRollsSteps(x: seq<real>, rolls: seq<nat>, i: nat)
    requires ValidRolls(rolls, |x|) && 0 < i < |x|
    ensures DiffRolls(x, rolls)[i] - DiffRolls(x, rolls)[i - 1] == if i in rolls then 0.0 else x[i] - x[i - 1]
  {
    if rolls != [] {
      var front := rolls[..|rolls| - 1];
      var rd := rolls[|rolls| - 1];
      var y := DiffRolls(x, front);
      var z := DiffRolls(x, rolls);
      assert z == ShiftPrefix(y, rd, -Gap(y, rd));
      DiffRollsSteps(x, front, i);
      ShiftPrefixSteps(y, rd, -Gap(y, rd), i);
      LastMember(rolls, i);
      if i == rd {
        assert z[i] - z[i - 1] == 0.0;
      } else {
        assert z[i] - z[i - 1] == y[i] - y[i - 1];
      }
    }
  }

  /** Membership in a non-empty sequence: in its front or its last element. */
  lemma LastMember(rolls: seq<nat>, i: nat)
    requires rolls != []
    ensures i in rolls <==> i in rolls[..|rolls| - 1] || i == rolls[|rolls| - 1]
  {
    assert rolls == rolls[..|rolls| - 1] + [rolls[|rolls| - 1]];
  }

  /** Prices at or after every roll bar, the last price among them, are not moved. */
  lemma {:induction false} DiffRollsKeepTail(x: seq<real>, rolls: seq<nat>, i: nat)
    requires ValidRolls(rolls, |x|) && i < |x|
    requires forall k :: 0 <= k < |rolls| ==> rolls[k] <= i
    ensures DiffRolls(x, rolls)[i] == x[i]
  {
    if rolls != [] {
      DiffRollsKeepTail(x, rolls[..|rolls| - 1], i);
    }
  }

  /** `adj.loc[:prev] -= ...` in place: the first `rd` entries of the array move down by `delta`. */
  method ShiftPrefixInPlace(a: array<real>, rd: nat, delta: real)
    requires rd <= a.Length
    modifies a
    ensures a[..] == ShiftPrefix(old(a[..]), rd, delta)
  {
    var i := 0;
    while i < rd
      invariant 0 <= i <= rd
      invariant forall k :: 0 <= k < i ==> a[k] == old(a[k]) - delta
      invariant forall k :: i <= k < a.Length ==> a[k] == old(a[k])
    {
      a[i] := a[i] - delta;
      i := i + 1;
    }
  }

  /** The corrected loop over the rolls, in place. */
  method DiffRollsInPlace(a: array<real>, rolls: seq<nat>)
    requires ValidRolls(rolls, a.Length)
    modifies a
    ensures a[..] == DiffRolls(old(a[..]), rolls)
  {
    var j := 0;
    while j < |rolls|
      invariant 0 <= j <= |rolls|
      invariant ValidRolls(rolls[..j], a.Length)
      invariant a[..] == DiffRolls(old(a[..]), rolls[..j])
    {
      var rd := rolls[j];
      var gap := a[rd] - a[rd - 1];
      ghost var before := a[..];
      assert gap == Gap(before, rd);
      ShiftPrefixInPlace(a, rd, -gap);
      assert rolls[..j + 1][..j] == rolls[..j];
      assert DiffRolls(old(a[..]), rolls[..j + 1]) == ShiftPrefix(before, rd, -Gap(before, rd));
      j := j + 1;
    }
    assert rolls[..|rolls|] == rolls;
  }

  /** The rolls of the present values, which the additive kernel handles. */
  function PresentRolls(series: seq<Cell>): (rolls: seq<nat>)
    ensures ValidRolls(rolls, |Present(series)|)
  {
    DetectRoll(Lift(Present(series)), RollThreshold)
  }

  /**
   * `_diff_adjust`, corrected: on the present values, the rolls are found and
   * each gap is closed; the result is put back on the original index. An
   * all-missing series gives an all-missing series.
   */
  function DiffAdjusted(series: seq<Cell>): (r: seq<Cell>)
    ensures |r| == |series|
    ensures forall t :: 0 <= t < |series| ==> (r[t].Some? <==> series[t].Some?)
  {
    var v := Present(series);
    PresentNone(series);
    if v == [] then seq(|series|, _ => None)
    else DiffAdjustedWith(series, PresentRolls(series))
  }

  /** The present values adjusted at the given rolls and put back on the index. */
  function DiffAdjustedWith(series: seq<Cell>, rolls: seq<nat>): (r: seq<Cell>)
    requires ValidRolls(rolls, |Present(series)|)
    ensures |r| == |series|
    ensures forall t :: 0 <= t < |series| ==> (r[t].Some? <==> series[t].Some?)
  {
    Restore(series, DiffRolls(Present(series), rolls))
  }

  /** `_diff_adjust` as written, with the gaps doubled. */
  function DiffAdjustedAsWritten(series: seq<Cell>): (r: seq<Cell>)
    ensures |r| == |series|
  {
    var v := Present(series);
    if v == [] then seq(|series|, _ => None)
    else Restore(series, DiffRollsAsWritten(v, PresentRolls(series)))
  }

  /** `_diff_adjust`, corrected, computed as the source does: one copy of the present values adjusted in place. */
  method DiffAdjust(series: seq<Cell>) returns (r: seq<Cell>)
    ensures r == DiffAdjusted(series)
  {
    var v := Present(series);
    if v == [] {
      return seq(|series|, _ => None);
    }
    var rolls := PresentRolls(series);
    var a := new real[|v|](i requires 0 <= i < |v| => v[i]);
    assert a[..] == v;
    DiffRollsInPlace(a, rolls);
    r := Restore(series, a[..]);
  }

  /** An all-missing series comes back unchanged. */
  lemma DiffAdjustAllMissing(series: seq<Cell>)
    requires forall t :: 0 <= t < |series| ==> series[t].None?
    ensures DiffAdjusted(series) == series
  {
    PresentNone(series);
  }

  lemma {:induction false} PresentNone(s: seq<Cell>)
    ensures Present(s) == [] <==> forall t :: 0 <= t < |s| ==> s[t].None?
  {
    if s != [] {
      PresentNone(s[..|s| - 1]);
    }
  }

  /**
   * `a` is `v` with the gap at every roll closed: the difference at a roll is
   * 0, every other consecutive difference is the one of `v`, and the last
   * value is unchanged.
   */
  ghost predicate GapsClosed(v: seq<real>, a: seq<real>, rolls: seq<nat>)
  {
    && |a| == |v|
    && (forall i :: 0 < i < |v| ==> StepClosed(v, a, rolls, i))
    && (|v| > 0 ==> a[|v| - 1] == v[|v| - 1])
  }

  /** The difference of `a` at bar `i` is 0 at a roll and the one of `v` elsewhere. */
  ghost predicate StepClosed(v: seq<real>, a: seq<real>, rolls: seq<nat>, i: nat)
  {
    0 < i < |v| == |a| && a[i] - a[i - 1] == if i in rolls then 0.0 else v[i] - v[i - 1]
  }

  /**
   * On the present values of the result, the difference at every roll is 0,
   * every other consecutive difference is the original one, and the last
   * present price is unchanged.
   */
  lemma DiffAdjustedSteps(series: seq<Cell>)
    ensures GapsClosed(Present(series), Present(DiffAdjusted(series)), PresentRolls(series))
  {
    var v := Present(series);
    if v == [] {
      DiffAdjustedEmpty(series);
    } else {
      assert DiffAdjusted(series) == DiffAdjustedWith(series, PresentRolls(series));
      DiffAdjustedWithSteps(series, PresentRolls(series));
    }
  }

  /** With no present value the result has none either. */
  lemma DiffAdjustedEmpty(series: seq<Cell>)
    requires Present(series) == []
    ensures Present(DiffAdjusted(series)) == []
  {
    var r := DiffAdjusted(series);
    assert r == seq(|series|, _ => None);
    assert forall t :: 0 <= t < |r| ==> r[t].None?;
    PresentNone(r);
  }

  /** The same, for any rolls of the present values. */
  lemma DiffAdjustedWithSteps(series: seq<Cell>, rolls: seq<nat>)
    requires ValidRolls(rolls, |Present(series)|)
    ensures GapsClosed(Present(series), Present(DiffAdjustedWith(series, rolls)), rolls)
  {
    var v := Present(series);
    var d := DiffRolls(v, rolls);
    DiffRollsCloseGaps(v, rolls);
    assert DiffAdjustedWith(series, rolls) == Restore(series, d);
    PresentRestore(series, d);
  }

  /** The corrected loop closes every gap and keeps every other difference and the last value. */
  lemma DiffRollsCloseGaps(v: seq<real>, rolls: seq<nat>)
    requires ValidRolls(rolls, |v|)
    ensures GapsClosed(v, DiffRolls(v, rolls), rolls)
  {
    if v != [] {
      DiffRollsKeepTail(v, rolls, |v| - 1);
    }
    forall i | 0 < i < |v|
      ensures StepClosed(v, DiffRolls(v, rolls), rolls, i)
    {
      DiffRollsSteps(v, rolls, i);
    }
  }

  // ---------------------------------------------------------------------
  // The multiplicative kernel
  // ---------------------------------------------------------------------

  /** Every present price is nonzero. */
  ghost predicate PresentNonZero(s: seq<Cell>)
  {
    forall i :: 0 <= i < |s| && s[i].Some? ==> s[i].value != 0.0
  }

  /** Roll bars whose price and the price before are present. */
  ghost predicate RollsPresent(s: seq<Cell>, rolls: seq<nat>)
  {
    forall k :: 0 <= k < |rolls| ==> 0 < rolls[k] < |s| && s[rolls[k]].Some? && s[rolls[k] - 1].Some?
  }

  /** The same cells present at the same places. */
  ghost predicate SamePresence(a: seq<Cell>, b: seq<Cell>)
  {
    |a| == |b| && forall i :: 0 <= i < |a| ==> (a[i].Some? <==> b[i].Some?)
  }

  /** `adj.loc[:label] /= factor`: every present value before bar `rd` divided by `factor`. */
  function ScalePrefix(x: seq<Cell>, rd: nat, factor: real): (y: seq<Cell>)
    requires rd <= |x| && factor != 0.0
    ensures SamePresence(x, y)
    ensures PresentNonZero(x) ==> PresentNonZero(y)
  {
    seq(|x|, i requires 0 <= i < |x| => if i < rd && x[i].Some? then Some(x[i].value / factor) else x[i])
  }

  /** The label one calendar day before bar `rd` is not in the index. */
  predicate MissingPrevDay(days: seq<int>, rd: nat)
    requires 0 < rd < |days|
  {
    days[rd - 1] != days[rd] - 1
  }

  ghost predicate StrictlyIncreasing(days: seq<int>)
  {
    forall i, j :: 0 <= i < j < |days| ==> days[i] < days[j]
  }

  /** In an increasing index of days, the day before bar `rd` is a label exactly when it is the label of bar `rd - 1`. */
  lemma PrevDayLookup(days: seq<int>, rd: nat)
    requires StrictlyIncreasing(days) && 0 < rd < |days|
    ensures (exists k :: 0 <= k < |days| && days[k] == days[rd] - 1) <==> !MissingPrevDay(days, rd)
  {
    if exists k :: 0 <= k < |days| && days[k] == days[rd] - 1 {
      var k :| 0 <= k < |days| && days[k] == days[rd] - 1;
    }
  }

  /** The price ratio of bar `i` to the bar before. */
  function Ratio(y: seq<Cell>, i: nat): real
    requires 0 < i < |y| && y[i].Some? && y[i - 1].Some? && y[i - 1].value != 0.0
  {
    y[i].value / y[i - 1].value
  }

  /** Dividing both prices by the same factor keeps their ratio. */
  lemma DivCancel(a: real, b: real, f: real)
    requires b != 0.0 && f != 0.0
    ensures (a / f) / (b / f) == a / b
  {
  }

  /** Scaling a prefix changes one price ratio, the one at the end of the prefix, which is multiplied by `factor`. */
  lemma ScalePrefixRatio(x: seq<Cell>, rd: nat, factor: real, i: nat)
    requires rd <= |x| && factor != 0.0 && PresentNonZero(x)
    requires 0 < i < |x| && x[i].Some? && x[i - 1].Some?
    ensures var y := ScalePrefix(x, rd, factor);
      Ratio(y, i) == if i == rd then Ratio(x, i) * factor else Ratio(x, i)
  {
    var y := ScalePrefix(x, rd, factor);
    var a, b := x[i].value, x[i - 1].value;
    assert b != 0.0;
    if i < rd {
      assert y[i] == Some(a / factor) && y[i - 1] == Some(b / factor);
      DivCancel(a, b, factor);
    } else if i == rd {
      assert y[i] == Some(a) && y[i - 1] == Some(b / factor);
      DivByQuotient(a, b, factor);
    } else {
      assert y[i] == Some(a) && y[i - 1] == Some(b);
    }
  }

  lemma DivByQuotient(a: real, b: real, f: real)
    requires b != 0.0 && f != 0.0
    ensures a / (b / f) == (a / b) * f
  {
  }

  /** The loop of `_ratio_adjust` as written, over the first `j` rolls: every earlier price divided by the ratio new over old. */
  function RatioRollsAsWritten(x: seq<Cell>, days: seq<int>, rolls: seq<nat>, j: nat): (r: Result<seq<Cell>>)
    requires |days| == |x| && PresentNonZero(x) && RollsPresent(x, rolls) && j <= |rolls|
    ensures r.Ok? ==> SamePresence(x, r.value) && PresentNonZero(r.value)
  {
    if j == 0 then Ok(x)
    else
      var prev := RatioRollsAsWritten(x, days, rolls, j - 1);
      var rd := rolls[j - 1];
      if prev.Err? then prev
      else
        var y := prev.value;
        if MissingPrevDay(days, rd) then Err(MissingDay(days[rd] - 1))
        else Ok(ScalePrefix(y, rd, y[rd].value / y[rd - 1].value))
  }

  /** As written, handling one roll squares its price ratio instead of making it 1. */
  lemma AsWrittenSquaresRatio(x: seq<Cell>, days: seq<int>, rd: nat)
    requires 0 < rd < |x| && x[rd].Some? && x[rd - 1].Some?
    requires |days| == |x| && PresentNonZero(x) && RollsPresent(x, [rd])
    requires !MissingPrevDay(days, rd)
    ensures RatioRollsAsWritten(x, days, [rd], 1).Ok?
    ensures Ratio(RatioRollsAsWritten(x, days, [rd], 1).value, rd) == Ratio(x, rd) * Ratio(x, rd)
  {
    ScalePrefixRatio(x, rd, Ratio(x, rd), rd);
  }

  /** A jump from 100 to 110 on a roll bar: as written, the price before is moved to 100 / 1.1 and the ratio becomes 1.21. */
  lemma AsWrittenWidensRatio(x: seq<Cell>, days: seq<int>)
    requires x == [Some(100.0), Some(110.0)] && days == [0, 1]
    ensures RatioRollsAsWritten(x, days, [1], 1).Ok?
    ensures Ratio(RatioRollsAsWritten(x, days, [1], 1).value, 1) == 1.21
  {
    AsWrittenSquaresRatio(x, days, 1);
    assert Ratio(x, 1) == 1.1;
  }

  /**
   * The corrected loop over the first `j` rolls: every earlier price
   * multiplied by the ratio new over old, so the roll bar continues the
   * history.
   */
  function RatioRolls(x: seq<Cell>, days: seq<int>, rolls: seq<nat>, j: nat): (r: Result<seq<Cell>>)
    requires |days| == |x| && PresentNonZero(x) && RollsPresent(x, rolls) && j <= |rolls|
    ensures r.Ok? ==> SamePresence(x, r.value) && PresentNonZero(r.value)
  {
    if j == 0 then Ok(x)
    else
      var prev := RatioRolls(x, days, rolls, j - 1);
      var rd := rolls[j - 1];
      if prev.Err? then prev
      else
        var y := prev.value;
        if MissingPrevDay(days, rd) then Err(MissingDay(days[rd] - 1))
        else Ok(ScalePrefix(y, rd, y[rd - 1].value / y[rd].value))
  }

  /**
   * The loop fails exactly when some roll's previous calendar day is not in
   * the index, and then with the first such roll's missing day.
   */
  lemma {:induction false} RatioRollsErrors(x: seq<Cell>, days: seq<int>, rolls: seq<nat>, j: nat)
    requires |days| == |x| && PresentNonZero(x) && RollsPresent(x, rolls) && j <= |rolls|
    ensures RatioRolls(x, days, rolls, j).Err? <==> exists k :: 0 <= k < j && MissingPrevDay(days, rolls[k])
    ensures RatioRolls(x, days, rolls, j).Err? ==>
      exists k :: (0 <= k < j && MissingPrevDay(days, rolls[k])
        && (forall i :: 0 <= i < k ==> !MissingPrevDay(days, rolls[i]))
        && RatioRolls(x, days, rolls, j).error == MissingDay(days[rolls[k]] - 1))
  {
    if j > 0 {
      RatioRollsErrors(x, days, rolls, j - 1);
    }
  }

  /** The corrected step makes the ratio at its roll 1 and keeps every other ratio. */
  lemma CloseStepRatio(y: seq<Cell>, rd: nat, i: nat)
    requires PresentNonZero(y) && 0 < rd < |y| && y[rd].Some? && y[rd - 1].Some?
    requires 0 < i < |y| && y[i].Some? && y[i - 1].Some?
    ensures Ratio(ScalePrefix(y, rd, y[rd - 1].value / y[rd].value), i) == if i == rd then 1.0 else Ratio(y, i)
  {
    var f := y[rd - 1].value / y[rd].value;
    ScalePrefixRatio(y, rd, f, i);
    if i == rd {
      InverseRatios(y[rd].value, y[rd - 1].value);
    }
  }

  lemma InverseRatios(a: real, b: real)
    requires a != 0.0 && b != 0.0
    ensures (a / b) * (b / a) == 1.0
  {
  }

  /**
   * After the corrected loop every roll's price ratio is 1 and every other
   * ratio of consecutive present prices is the original one.
   */
  lemma {:induction false} RatioRollsRatios(x: seq<Cell>, days: seq<int>, rolls: seq<nat>, j: nat, i: nat)
    requires |days| == |x| && PresentNonZero(x) && RollsPresent(x, rolls) && j <= |rolls|
    requires RatioRolls(x, days, rolls, j).Ok?
    requires 0 < i < |x| && x[i].Some? && x[i - 1].Some?
    ensures Ratio(RatioRolls(x, days, rolls, j).value, i) == if i in rolls[..j] then 1.0 else Ratio(x, i)
  {
    if j > 0 {
      var rd := rolls[j - 1];
      var y := RatioRolls(x, days, rolls, j - 1).value;
      RatioRollsRatios(x, days, rolls, j - 1, i);
      CloseStepRatio(y, rd, i);
      assert rolls[..j][..j - 1] == rolls[..j - 1];
      LastMember(rolls[..j], i);
    }
  }

  /** A ratio of 1 is a closed gap: after the corrected loop the price before each roll equals the roll's price. */
  lemma RatioRollsCloseGaps(x: seq<Cell>, days: seq<int>, rolls: seq<nat>, k: nat)
    requires |days| == |x| && PresentNonZero(x) && RollsPresent(x, rolls)
    requires RatioRolls(x, days, rolls, |rolls|).Ok? && k < |rolls|
    ensures RatioRolls(x, days, rolls, |rolls|).value[rolls[k] - 1] == RatioRolls(x, days, rolls, |rolls|).value[rolls[k]]
  {
    var r := RatioRolls(x, days, rolls, |rolls|).value;
    var rd := rolls[k];
    assert rolls[..|rolls|] == rolls;
    assert rd in rolls;
    RatioRollsRatios(x, days, rolls, |rolls|, rd);
    RatioOne(r[rd].value, r[rd - 1].value);
  }

  lemma RatioOne(a: real, b: real)
    requires b != 0.0 && a / b == 1.0
    ensures a == b
  {
  }

  /** Prices at or after every roll bar, the last price among them, are not moved. */
  lemma {:induction false} RatioRollsKeepTail(x: seq<Cell>, days: seq<int>, rolls: seq<nat>, j: nat, i: nat)
    requires |days| == |x| && PresentNonZero(x) && RollsPresent(x, rolls) && j <= |rolls|
    requires RatioRolls(x, days, rolls, j).Ok? && i < |x|
    requires forall k :: 0 <= k < j ==> rolls[k] <= i
    ensures RatioRolls(x, days, rolls, j).value[i] == x[i]
  {
    if j > 0 {
      RatioRollsKeepTail(x, days, rolls, j - 1, i);
    }
  }

  /** The rolls the multiplicative kernel handles: those of the series itself, gaps included. */
  lemma RollsArePresent(s: seq<Cell>)
    ensures RollsPresent(s, DetectRoll(s, RollThreshold))
  {
    var rolls := DetectRoll(s, RollThreshold);
    forall k | 0 <= k < |rolls|
      ensures 0 < rolls[k] < |s| && s[rolls[k]].Some? && s[rolls[k] - 1].Some?
    {
      assert rolls[k] in rolls;
      RollsStartAtTen(s, RollThreshold, rolls[k]);
    }
  }

  /**
   * `_ratio_adjust`, corrected: the rolls of the series, each looked up with
   * the label one calendar day before it, which fails when that day is not
   * in the index.
   */
  function RatioAdjusted(s: seq<Cell>, days: seq<int>): (r: Result<seq<Cell>>)
    requires |days| == |s| && PresentNonZero(s)
    ensures r.Ok? ==> SamePresence(s, r.value) && PresentNonZero(r.value)
  {
    RollsArePresent(s);
    var rolls := DetectRoll(s, RollThreshold);
    RatioRolls(s, days, rolls, |rolls|)
  }

  /** `_ratio_adjust` as written, with the ratios squared. */
  function RatioAdjustedAsWritten(s: seq<Cell>, days: seq<int>): (r: Result<seq<Cell>>)
    requires |days| == |s| && PresentNonZero(s)
    ensures r.Ok? ==> SamePresence(s, r.value) && PresentNonZero(r.value)
  {
    RollsArePresent(s);
    var rolls := DetectRoll(s, RollThreshold);
    RatioRollsAsWritten(s, days, rolls, |rolls|)
  }

  /** The next roll bar and the bar before it hold present prices, the roll's nonzero, after the rolls so far. */
  lemma RatioRollsNext(x: seq<Cell>, days: seq<int>, rolls: seq<nat>, j: nat)
    requires |days| == |x| && PresentNonZero(x) && RollsPresent(x, rolls) && j < |rolls|
    requires RatioRolls(x, days, rolls, j).Ok?
    ensures var y := RatioRolls(x, days, rolls, j).value;
      0 < rolls[j] < |y| && y[rolls[j]].Some? && y[rolls[j] - 1].Some? && y[rolls[j]].value != 0.0
  {
  }

  /** One more roll whose previous day is present: the prices before it are scaled by the price ratio. */
  lemma RatioRollsStep(x: seq<Cell>, days: seq<int>, rolls: seq<nat>, j: nat, factor: real)
    requires |days| == |x| && PresentNonZero(x) && RollsPresent(x, rolls) && j < |rolls|
    requires RatioRolls(x, days, rolls, j).Ok? && !MissingPrevDay(days, rolls[j])
    requires var y := RatioRolls(x, days, rolls, j).value;
      0 < rolls[j] < |y| && y[rolls[j]].Some? && y[rolls[j] - 1].Some? && y[rolls[j]].value != 0.0
      && factor == y[rolls[j] - 1].value / y[rolls[j]].value
    ensures RatioRolls(x, days, rolls, j + 1) == Ok(ScalePrefix(RatioRolls(x, days, rolls, j).value, rolls[j], factor))
  {
  }

  /** An error stays: once the loop fails on a roll it stops there with that error. */
  lemma {:induction false} RatioRollsErrStays(x: seq<Cell>, days: seq<int>, rolls: seq<nat>, j: nat, n: nat, e: Error)
    requires |days| == |x| && PresentNonZero(x) && RollsPresent(x, rolls)
    requires j <= n <= |rolls|
    requires RatioRolls(x, days, rolls, j) == Err(e)
    ensures RatioRolls(x, days, rolls, n) == Err(e)
    decreases n - j
  {
    if n > j {
      RatioRollsErrStays(x, days, rolls, j, n - 1, e);
    }
  }

  /** `adj.loc[:label] /= factor` in place. */
  method ScalePrefixInPlace(a: array<Cell>, rd: nat, factor: real)
    requires rd <= a.Length && factor != 0.0
    modifies a
    ensures a[..] == ScalePrefix(old(a[..]), rd, factor)
  {
    var i := 0;
    while i < rd
      invariant 0 <= i <= rd
      invariant forall k :: 0 <= k < i ==> a[k] == if old(a[k]).Some? then Some(old(a[k]).value / factor) else old(a[k])
      invariant forall k :: i <= k < a.Length ==> a[k] == old(a[k])
    {
      if a[i].Some? {
        a[i] := Some(a[i].value / factor);
      }
      i := i + 1;
    }
  }

  /** The corrected loop over the rolls, in place; a roll whose previous day is missing stops it with an error. */
  method RatioRollsInPlace(a: array<Cell>, days: seq<int>, rolls: seq<nat>) returns (r: Result<seq<Cell>>)
    requires |days| == a.Length && PresentNonZero(a[..]) && RollsPresent(a[..], rolls)
    modifies a
    ensures r == RatioRolls(old(a[..]), days, rolls, |rolls|)
  {
    ghost var x := a[..];
    var j := 0;
    while j < |rolls|
      invariant 0 <= j <= |rolls|
      invariant RatioRolls(x, days, rolls, j) == Ok(a[..])
    {
      var rd := rolls[j];
      if MissingPrevDay(days, rd) {
        RatioRollsErrStays(x, days, rolls, j + 1, |rolls|, MissingDay(days[rd] - 1));
        return Err(MissingDay(days[rd] - 1));
      }
      RatioRollsNext(x, days, rolls, j);
      var factor := a[rd - 1].value / a[rd].value;
      RatioRollsStep(x, days, rolls, j, factor);
      ScalePrefixInPlace(a, rd, factor);
      j := j + 1;
    }
    r := Ok(a[..]);
  }

  /** `_ratio_adjust`, corrected, computed as the source does: one copy of the series adjusted in place. */
  method RatioAdjust(s: seq<Cell>, days: seq<int>) returns (r: Result<seq<Cell>>)
    requires |days| == |s| && PresentNonZero(s)
    ensures r == RatioAdjusted(s, days)
  {
    var rolls := DetectRoll(s, RollThreshold);
    RollsArePresent(s);
    var a := new Cell[|s|](i requires 0 <= i < |s| => s[i]);
    assert a[..] == s;
    r := RatioRollsInPlace(a, days, rolls);
  }

  // ---------------------------------------------------------------------
  // The gateway
  // ---------------------------------------------------------------------

  /** The kernels of the method map. */
  datatype Kernel = Diff | RatioKernel | Panama

  /** `str.lower()` on ASCII letters. */
  function ToLower(s: string): (r: string)
    ensures |r| == |s|
  {
    seq(|s|, i requires 0 <= i < |s| => if 'A' <= s[i] <= 'Z' then (s[i] as int + 32) as char else s[i])
  }

  /** `_METHOD_MAP[method.lower()]`: an unknown name fails with the name as given. */
  function KernelOf(name: string): (r: Result<Kernel>)
    ensures r.Ok? <==> ToLower(name) in {"diff", "ratio", "panama"}
    ensures r.Err? ==> r.error == UnknownMethod(name)
  {
    var key := ToLower(name);
    if key == "diff" then Ok(Diff)
    else if key == "ratio" then Ok(RatioKernel)
    else if key == "panama" then Ok(Panama)
    else Err(UnknownMethod(name))
  }

  /** Lower-casing twice is lower-casing once, so the lookup ignores case. */
  lemma ToLowerIdempotent(s: string)
    ensures ToLower(ToLower(s)) == ToLower(s)
  {
  }

  lemma KernelOfIgnoresCase(name: string)
    ensures KernelOf(ToLower(name)).Ok? == KernelOf(name).Ok?
    ensures KernelOf(name).Ok? ==> KernelOf(ToLower(name)) == KernelOf(name)
  {
    ToLowerIdempotent(name);
  }

  /** The names in capitals reach the same kernels. */
  lemma UpperCaseNames(diff: string, ratio: string, panama: string)
    requires diff == "DIFF" && ratio == "Ratio" && panama == "PaNaMa"
    ensures KernelOf(diff) == Ok(Diff) && KernelOf(ratio) == Ok(RatioKernel) && KernelOf(panama) == Ok(Panama)
  {
    assert ToLower(diff) == "diff";
    assert ToLower(ratio) == "ratio";
    assert ToLower(panama) == "panama";
  }

  /** The kernel applied to one column; the Panama kernel is the additive one. */
  function AdjustColumn(k: Kernel, col: seq<Cell>, days: seq<int>): (r: Result<seq<Cell>>)
    requires |days| == |col|
    requires k == RatioKernel ==> PresentNonZero(col)
    ensures r.Ok? ==> |r.value| == |col|
  {
    match k
    case Diff => Ok(DiffAdjusted(col))
    case Panama => Ok(DiffAdjusted(col))
    case RatioKernel => RatioAdjusted(col, days)
  }

  /** The kernel's result on every column, in column order. */
  function ColumnResults(k: Kernel, df: Panel, m: nat, days: seq<int>): (rs: seq<Result<seq<Cell>>>)
    requires IsPanel(df, m) && |days| == |df|
    requires k == RatioKernel ==> forall i :: 0 <= i < m ==> PresentNonZero(Column(df, i))
    ensures |rs| == m
    ensures forall i :: 0 <= i < m ==> rs[i] == AdjustColumn(k, Column(df, i), days)
    ensures forall i :: 0 <= i < m && rs[i].Ok? ==> |rs[i].value| == |df|
  {
    seq(m, i requires 0 <= i < m => AdjustColumn(k, Column(df, i), days))
  }

  /** `df.apply` in column order: every column's value, or the error of the first column that fails. */
  function Collect<T>(rs: seq<Result<T>>): (r: Result<seq<T>>)
    ensures r.Ok? <==> forall i :: 0 <= i < |rs| ==> rs[i].Ok?
    ensures r.Ok? ==> |r.value| == |rs| && forall i :: 0 <= i < |rs| ==> rs[i] == Ok(r.value[i])
  {
    if rs == [] then Ok([])
    else
      var front := Collect(rs[..|rs| - 1]);
      var last := rs[|rs| - 1];
      assert forall i :: 0 <= i < |rs| - 1 ==> rs[..|rs| - 1][i] == rs[i];
      if front.Err? then Err(front.error)
      else if last.Err? then Err(last.error)
      else Ok(front.value + [last.value])
  }

  /** A failure is the error of the first column that fails. */
  lemma {:induction false} CollectFirstError<T>(rs: seq<Result<T>>)
    ensures Collect(rs).Err? ==> exists i :: (0 <= i < |rs| && rs[i] == Err(Collect(rs).error)
      && forall j :: 0 <= j < i ==> rs[j].Ok?)
  {
    if rs != [] {
      var front := rs[..|rs| - 1];
      CollectFirstError(front);
      assert forall i :: 0 <= i < |rs| - 1 ==> front[i] == rs[i];
      if Collect(front).Err? {
        var i :| 0 <= i < |front| && front[i] == Err(Collect(front).error) && forall j :: 0 <= j < i ==> front[j].Ok?;
        assert rs[i] == Err(Collect(rs).error);
      } else if rs[|rs| - 1].Err? {
        assert rs[|rs| - 1] == Err(Collect(rs).error);
      }
    }
  }

  /** The input the gateway accepts: a panel with one calendar day per row, nonzero prices for the ratio kernel. */
  ghost predicate GatewayInput(df: Panel, m: nat, name: string, days: seq<int>)
  {
    IsPanel(df, m) && |days| == |df| &&
    (ToLower(name) == "ratio" ==> forall i :: 0 <= i < m ==> PresentNonZero(Column(df, i)))
  }

  /**
   * `back_adjust(df, method)`: the kernel named, case-insensitively, applied
   * to every column; an unknown name fails before any column is touched, and
   * otherwise the first column that fails decides the error. Every cell of
   * the result is the kernel's value on that cell's column.
   */
  function BackAdjust(df: Panel, m: nat, name: string, days: seq<int>): (r: Result<Panel>)
    requires GatewayInput(df, m, name, days)
    ensures KernelOf(name).Err? ==> r == Err(UnknownMethod(name))
    ensures KernelOf(name).Ok? ==>
      (r.Ok? <==> forall i :: 0 <= i < m ==> AdjustColumn(KernelOf(name).value, Column(df, i), days).Ok?)
    ensures r.Ok? ==> |r.value| == |df| && IsPanel(r.value, m)
    ensures r.Ok? ==> forall t, i :: 0 <= t < |df| && 0 <= i < m ==>
      r.value[t][i] == AdjustColumn(KernelOf(name).value, Column(df, i), days).value[t]
  {
    var k := KernelOf(name);
    if k.Err? then Err(k.error)
    else
      var rs := ColumnResults(k.value, df, m, days);
      var cols := Collect(rs);
      if cols.Err? then Err(cols.error)
      else
        assert forall i :: 0 <= i < m ==> |cols.value[i]| == |df|;
        Ok(seq(|df|, t requires 0 <= t < |df| => seq(m, i requires 0 <= i < m => cols.value[i][t])))
  }

  /** "panama" gives exactly the "diff" result. */
  lemma PanamaIsDiff(df: Panel, m: nat, days: seq<int>)
    requires IsPanel(df, m) && |days| == |df|
    ensures BackAdjust(df, m, "panama", days) == BackAdjust(df, m, "diff", days)
  {
    assert ToLower("panama") == "panama" && ToLower("diff") == "diff";
    assert ColumnResults(Panama, df, m, days) == ColumnResults(Diff, df, m, days);
  }

  /** The additive kernels never fail: "diff" and "panama" always give a panel. */
  lemma AdditiveNeverFails(df: Panel, m: nat, name: string, days: seq<int>)
    requires GatewayInput(df, m, name, days) && ToLower(name) in {"diff", "panama"}
    ensures BackAdjust(df, m, name, days).Ok?
  {
  }
}
