/**
 * `buy_n_hold`: the signal series of a buy-and-hold trade, written into a
 * zero series in place, and what the backtester makes of it.
 */
module BuyNHold {
  import opened Wrappers
  import opened Series
  import opened Backtester

  /**
   * The signal of `n` bars: +1 on the first bar, -1 on the last and 0
   * elsewhere; on a single bar the later write of -1 wins, and with no bars
   * the first write fails.
   */
  function BuyNHoldSignal(n: nat): (r: Result<seq<int>>)
  {
    if n == 0 then Err(EmptySeries)
    else Ok(seq(n, i requires 0 <= i < n => if i == n - 1 then -1 else if i == 0 then 1 else 0))
  }

  /** `buy_n_hold`: a zero series of the index's length, then the first and the last entry overwritten. */
  method BuyNHold(n: nat) returns (r: Result<seq<int>>)
    ensures r == BuyNHoldSignal(n)
  {
    if n == 0 {
      return Err(EmptySeries);
    }
    var sig := new int[n](i => 0);
    sig[0] := 1;
    sig[n - 1] := -1;
    assert forall i :: 0 <= i < n ==> sig[i] == if i == n - 1 then -1 else if i == 0 then 1 else 0;
    assert sig[..] == BuyNHoldSignal(n).value;
    r := Ok(sig[..]);
  }

  /** The shape of the signal: its length, its values in {-1, 0, 1}, entry first and exit last. */
  lemma BuyNHoldShape(n: nat)
    ensures BuyNHoldSignal(n).Err? <==> n == 0
    ensures n > 0 ==> |BuyNHoldSignal(n).value| == n
    ensures n > 0 ==> forall i :: 0 <= i < n ==> BuyNHoldSignal(n).value[i] in {-1, 0, 1}
    ensures n == 1 ==> BuyNHoldSignal(n).value == [-1]
    ensures n >= 2 ==> BuyNHoldSignal(n).value[0] == 1 && BuyNHoldSignal(n).value[n - 1] == -1
    ensures n >= 2 ==> forall i :: 0 < i < n - 1 ==> BuyNHoldSignal(n).value[i] == 0
  {
  }

  /** Integer signals as the backtester's series of cells, every one present. */
  function AsCells(s: seq<int>): (r: seq<Cell>)
    ensures |r| == |s|
    ensures forall i :: 0 <= i < |s| ==> r[i] == Some(s[i] as real)
  {
    seq(|s|, i requires 0 <= i < |s| => Some(s[i] as real))
  }

  /** A series whose only non-zero entry is the first: that entry is the last non-zero one. */
  lemma {:induction false} LastNonZeroIsFirst(s: seq<real>)
    requires |s| > 0 && s[0] != 0.0
    requires forall j :: 0 < j < |s| ==> s[j] == 0.0
    ensures LastNonZero(s) == s[0]
  {
    if |s| > 1 {
      LastNonZeroIsFirst(s[..|s| - 1]);
    }
  }

  /** Entries from `k` on that are all zero add nothing to the sum. */
  lemma {:induction false} SumZeroTail(s: seq<real>, k: nat)
    requires k <= |s|
    requires forall j :: k <= j < |s| ==> s[j] == 0.0
    ensures Sum(s) == Sum(s[..k])
    decreases |s|
  {
    if |s| > k {
      SumZeroTail(s[..|s| - 1], k);
      assert s[..|s| - 1][..k] == s[..k];
    } else {
      assert s[..k] == s;
    }
  }

  /**
   * The positions of a buy-and-hold signal of two or more bars: +1 from the
   * second bar to the end. The exit on the last bar is shifted past the end
   * and never taken.
   */
  lemma BuyNHoldPositions(n: nat)
    requires n >= 2
    ensures Positions(AsCells(BuyNHoldSignal(n).value)) == [0.0] + seq(n - 1, _ => 1.0)
  {
    var signals := AsCells(BuyNHoldSignal(n).value);
    var pos := Positions(signals);
    forall t | 1 <= t < n
      ensures pos[t] == 1.0
    {
      LastNonZeroIsFirst(Instructions(signals)[..t]);
    }
  }

  /** Those positions turn over exactly once, on entry. */
  lemma HoldingTurnover(pos: seq<real>)
    requires |pos| >= 2 && pos[0] == 0.0
    requires forall t :: 1 <= t < |pos| ==> pos[t] == 1.0
    ensures Sum(Trades(pos)) == 1.0
  {
    var trades := Trades(pos);
    assert trades[0] == 0.0 && trades[1] == 1.0;
    assert forall j :: 2 <= j < |trades| ==> trades[j] == Abs(pos[j] - pos[j - 1]) == 0.0;
    SumZeroTail(trades, 2);
    SumOfTwo(trades[..2]);
  }

  lemma SumOfTwo(h: seq<real>)
    requires |h| == 2
    ensures Sum(h) == h[0] + h[1]
  {
    assert h[..1][..0] == [];
    assert Sum(h[..1]) == Sum(h[..1][..0]) + h[0];
    assert Sum(h) == Sum(h[..1]) + h[1];
  }

  /** Fed to the backtester, a buy-and-hold signal of two or more bars makes a trade total of 1. */
  lemma BuyNHoldBacktest(prices: seq<Cell>, tc: real)
    requires |prices| >= 2 && PresentDivisorsNonZero(prices)
    ensures BacktestStrategy(prices, AsCells(BuyNHoldSignal(|prices|).value), tc).Ok?
    ensures BacktestStrategy(prices, AsCells(BuyNHoldSignal(|prices|).value), tc).value.metrics.totalTrades == 1
  {
    var signals := AsCells(BuyNHoldSignal(|prices|).value);
    var pos := Positions(signals);
    BuyNHoldPositions(|prices|);
    HoldingTurnover(pos);
    assert TotalTrades(Trades(pos)) == 1;
    MetricsOfSteps(prices, signals, tc);
  }
}
