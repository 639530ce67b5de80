/**
 Two simulators of "hold while the close is near the 252-bar high": a loop with a percent stop and
 same-bar re-entry, and the separate block that holds every near bar until the next close.
 With close fills they earn the same total, whatever the stop.
 */
module NearHigh {
  import opened Options
  import opened MarketData

  const LOOKBACK: nat := 252

  predicate Input(s: Series, idx: seq<nat>) {
    Aligned(s) && Window(s, idx)
  }

  /** `ph is not None and C[t] >= ph * (1 - band / 100)`. */
  predicate Near(s: Series, t: nat, band: real)
    requires Aligned(s) && t < |s.close|
  {
    match PriorMax(s.high, t, LOOKBACK)
    case None => false
    case Some(ph) => s.close[t] >= ph * (1.0 - band / 100.0)
  }

  /** `ph and C[t] >= ...`: Python's truth test also rejects a prior high of exactly zero. */
  predicate NearTruthy(s: Series, t: nat, band: real)
    requires Aligned(s) && t < |s.close|
  {
    PriorMax(s.high, t, LOOKBACK) != Some(0.0) && Near(s, t, band)
  }

  /** The close of the n-th bar of the window. */
  function Close(s: Series, idx: seq<nat>, n: nat): real
    requires Input(s, idx) && n < |idx|
  {
    s.close[idx[n]]
  }

  /** Close-to-next-close moves after the near bars among the first n. */
  function NearMoves(s: Series, idx: seq<nat>, band: real, n: nat): real
    requires Input(s, idx) && n < |idx|
  {
    if n == 0 then 0.0
    else NearMoves(s, idx, band, n - 1) +
         if Near(s, idx[n - 1], band) then Close(s, idx, n) - Close(s, idx, n - 1) else 0.0
  }

  function StopLevel(entry: real, stopPct: real): real {
    entry * (1.0 - stopPct / 100.0)
  }

  /** The stop is hit at bar n by a position entered at `entry`. */
  predicate Hit(s: Series, idx: seq<nat>, n: nat, entry: real, stopPct: real, useLow: bool)
    requires Input(s, idx) && n < |idx|
  {
    (if useLow then s.low[idx[n]] else s.close[idx[n]]) <= StopLevel(entry, stopPct)
  }

  /** Near the high, on the bars alone: there are 252 bars before, and the close is within the band of
      every one of their highs. */
  lemma NearExactly(s: Series, t: nat, band: real)
    requires Aligned(s) && t < |s.close| && band <= 100.0
    ensures Near(s, t, band) <==>
            t >= 252 && forall i :: t - 252 <= i < t ==> s.close[t] >= s.high[i] * (1.0 - band / 100.0)
  {
    if t >= LOOKBACK {
      var ph := PriorMax(s.high, t, LOOKBACK).value;
      var f := 1.0 - band / 100.0;
      forall i | t - LOOKBACK <= i < t
        ensures s.high[i] * f <= ph * f
      {
        ProductOrder(s.high[i], ph, f);
      }
    }
  }

  lemma ProductOrder(a: real, b: real, f: real)
    requires a <= b && f >= 0.0
    ensures a * f <= b * f
  {}

  datatype Position = Flat | Held(entry: real)

  /** The loop's state after bar n: a hit or a bar that is not near closes the position, and a near
      bar opens one at once when there is none. */
  function PositionAfter(s: Series, idx: seq<nat>, band: real, stopPct: real, useLow: bool, n: nat): Position
    requires Input(s, idx) && n < |idx|
  {
    var near := Near(s, idx[n], band);
    var before := if n == 0 then Flat else PositionAfter(s, idx, band, stopPct, useLow, n - 1);
    var kept := if before.Held? && (Hit(s, idx, n, before.entry, stopPct, useLow) || !near) then Flat else before;
    if kept.Flat? && near then Held(Close(s, idx, n)) else kept
  }

  /** Whatever the stop, the loop is in a position after a bar exactly when that bar is near. */
  lemma HeldIffNear(s: Series, idx: seq<nat>, band: real, stopPct: real, useLow: bool, n: nat)
    requires Input(s, idx) && n < |idx|
    ensures PositionAfter(s, idx, band, stopPct, useLow, n).Held? <==> Near(s, idx[n], band)
  {
    hide Near, StopLevel;
  }

  /** The price that bar n is tested against the stop with. */
  function Tested(s: Series, idx: seq<nat>, n: nat, useLow: bool): real
    requires Input(s, idx) && n < |idx|
  {
    if useLow then s.low[idx[n]] else s.close[idx[n]]
  }

  /** A position held after bar n was opened at the close of some bar m, since when every bar was near
      and none reached the stop; at m there was no position to keep: m is the first bar, or the one
      before it was not near, or m itself stopped the position before out. */
  lemma {:induction false} HeldSince(s: Series, idx: seq<nat>, band: real, stopPct: real, useLow: bool, n: nat) returns (m: nat)
    requires Input(s, idx) && n < |idx| && PositionAfter(s, idx, band, stopPct, useLow, n).Held?
    ensures m <= n && PositionAfter(s, idx, band, stopPct, useLow, n) == Held(Close(s, idx, m))
    ensures forall q :: m <= q <= n ==> Near(s, idx[q], band)
    ensures forall q :: m < q <= n ==> Tested(s, idx, q, useLow) > Close(s, idx, m) * (1.0 - stopPct / 100.0)
    ensures m == 0 || !Near(s, idx[m - 1], band) || StoppedOut(s, idx, band, stopPct, useLow, m)
  {
    hide Near, StopLevel;
    HeldIffNear(s, idx, band, stopPct, useLow, n);
    if n == 0 {
      m := 0;
    } else {
      HeldIffNear(s, idx, band, stopPct, useLow, n - 1);
      var before := PositionAfter(s, idx, band, stopPct, useLow, n - 1);
      if before.Held? && !Hit(s, idx, n, before.entry, stopPct, useLow) {
        m := HeldSince(s, idx, band, stopPct, useLow, n - 1);
        StopLevelIs(Close(s, idx, m), stopPct);
      } else {
        m := n;
        if before.Held? {
          StopLevelIs(before.entry, stopPct);
        }
      }
    }
  }

  lemma StopLevelIs(entry: real, stopPct: real)
    ensures StopLevel(entry, stopPct) == entry * (1.0 - stopPct / 100.0)
  {}

  /** Bar m reaches the stop of the position held before it. */
  predicate StoppedOut(s: Series, idx: seq<nat>, band: real, stopPct: real, useLow: bool, m: nat)
    requires Input(s, idx) && 0 < m < |idx|
  {
    var before := PositionAfter(s, idx, band, stopPct, useLow, m - 1);
    before.Held? && Tested(s, idx, m, useLow) <= before.entry * (1.0 - stopPct / 100.0)
  }

  /** What filling at the stop level instead of the close costs over the first n bars. */
  function StopSlippage(s: Series, idx: seq<nat>, band: real, stopPct: real, useLow: bool, n: nat): real
    requires Input(s, idx) && n <= |idx|
  {
    if n < 2 then 0.0
    else
      var before := PositionAfter(s, idx, band, stopPct, useLow, n - 2);
      StopSlippage(s, idx, band, stopPct, useLow, n - 1) +
      if before.Held? && useLow && Hit(s, idx, n - 1, before.entry, stopPct, useLow)
      then StopLevel(before.entry, stopPct) - Close(s, idx, n - 1)
      else 0.0
  }

  lemma {:induction false} NoSlippageOnClose(s: Series, idx: seq<nat>, band: real, stopPct: real, n: nat)
    requires Input(s, idx) && n <= |idx|
    ensures StopSlippage(s, idx, band, stopPct, false, n) == 0.0
  {
    if n >= 2 {
      NoSlippageOnClose(s, idx, band, stopPct, n - 1);
    }
  }

  lemma SumAppend(xs: seq<real>, x: real)
    ensures Sum(xs + [x]) == Sum(xs) + x
  {
    assert (xs + [x])[..|xs|] == xs;
  }

  /** What bar n adds to the two totals. */
  lemma BarAdds(s: Series, idx: seq<nat>, band: real, stopPct: real, useLow: bool, n: nat)
    requires Input(s, idx) && 0 < n < |idx|
    ensures var before := PositionAfter(s, idx, band, stopPct, useLow, n - 1);
            && NearMoves(s, idx, band, n) - NearMoves(s, idx, band, n - 1)
               == (if before.Held? then Close(s, idx, n) - Close(s, idx, n - 1) else 0.0)
            && StopSlippage(s, idx, band, stopPct, useLow, n + 1) - StopSlippage(s, idx, band, stopPct, useLow, n)
               == if before.Held? && useLow && Hit(s, idx, n, before.entry, stopPct, useLow)
                  then StopLevel(before.entry, stopPct) - Close(s, idx, n) else 0.0
  {
    hide Near, StopLevel;
    HeldIffNear(s, idx, band, stopPct, useLow, n - 1);
  }

  lemma FirstBar(s: Series, idx: seq<nat>, band: real, stopPct: real, useLow: bool)
    requires Input(s, idx)
    ensures Sum([]) == 0.0
    ensures idx != [] ==> NearMoves(s, idx, band, 0) == 0.0 == StopSlippage(s, idx, band, stopPct, useLow, 1)
  {}

  /** The loop. After every bar it holds a position exactly when that bar is near the high, so its
      total is the near-bar moves, plus the slippage of stop fills when the low triggers them. */
  method NearHighLoop(s: Series, idx: seq<nat>, band: real, stopPct: real, useLow: bool) returns (pnls: seq<real>)
    requires Input(s, idx)
    ensures idx == [] ==> pnls == []
    ensures idx != [] ==>
              Sum(pnls) == NearMoves(s, idx, band, |idx| - 1) + StopSlippage(s, idx, band, stopPct, useLow, |idx|)
    ensures idx != [] && !useLow ==> Sum(pnls) == NearMoves(s, idx, band, |idx| - 1)
  {
    hide Near, NearMoves, StopSlippage, StopLevel, Sum;
    pnls := [];
    var held, entry := false, 0.0;
    FirstBar(s, idx, band, stopPct, useLow);
    for n := 0 to |idx|
      invariant n == 0 ==> pnls == []
      invariant (if held then Held(entry) else Flat) ==
                if n == 0 then Flat else PositionAfter(s, idx, band, stopPct, useLow, n - 1)
      invariant n > 0 ==>
                  Sum(pnls) + (if held then Close(s, idx, n - 1) - entry else 0.0)
                  == NearMoves(s, idx, band, n - 1) + StopSlippage(s, idx, band, stopPct, useLow, n)
    {
      if n > 0 {
        BarAdds(s, idx, band, stopPct, useLow, n);
      }
      var t := idx[n];
      var near := Near(s, t, band);
      if held {
        var stop := StopLevel(entry, stopPct);
        var hit := if useLow then s.low[t] <= stop else s.close[t] <= stop;
        if hit {
          var px := if useLow then stop else s.close[t];
          SumAppend(pnls, px - entry);
          pnls := pnls + [px - entry];
          held := false;
        } else if !near {
          SumAppend(pnls, s.close[t] - entry);
          pnls := pnls + [s.close[t] - entry];
          held := false;
        }
      }
      if !held && near {
        held := true;
        entry := s.close[t];
      }
    }
    if held {
      SumAppend(pnls, s.close[idx[|idx| - 1]] - entry);
      pnls := pnls + [s.close[idx[|idx| - 1]] - entry];
    }
    NoSlippageOnClose(s, idx, band, stopPct, |idx|);
  }

  predicate PositiveHighs(s: Series) {
    forall i :: 0 <= i < |s.high| ==> s.high[i] > 0.0
  }

  /** Close-to-next-close moves after the near bars with a prior high other than zero. */
  function BlockMoves(s: Series, idx: seq<nat>, band: real, n: nat): real
    requires Input(s, idx) && n < |idx|
  {
    if n == 0 then 0.0
    else
      var t := idx[n - 1];
      BlockMoves(s, idx, band, n - 1) +
      if Near(s, t, band) && exists i :: t - 252 <= i < t && s.high[i] != 0.0 && s.high[i] == PriorMax(s.high, t, 252).value
      then Close(s, idx, n) - Close(s, idx, n - 1) else 0.0
  }

  lemma TruthyMeans(s: Series, t: nat, band: real)
    requires Aligned(s) && t < |s.close|
    ensures NearTruthy(s, t, band) <==>
            Near(s, t, band) && exists i :: t - 252 <= i < t && s.high[i] != 0.0 && s.high[i] == PriorMax(s.high, t, 252).value
  {
    if Near(s, t, band) {
      var ph := PriorMax(s.high, t, LOOKBACK).value;
      var i :| t - LOOKBACK <= i < t && s.high[i] == ph;
    }
  }

  lemma {:induction false} BlockIsNear(s: Series, idx: seq<nat>, band: real, n: nat)
    requires Input(s, idx) && n < |idx| && PositiveHighs(s)
    ensures BlockMoves(s, idx, band, n) == NearMoves(s, idx, band, n)
  {
    if n > 0 {
      BlockIsNear(s, idx, band, n - 1);
      TruthyMeans(s, idx[n - 1], band);
    }
  }

  /** The block: hold from every near close to the next one. */
  method OneBarBlock(s: Series, idx: seq<nat>, band: real) returns (pnls: seq<real>)
    requires Input(s, idx)
    ensures idx == [] ==> pnls == []
    ensures idx != [] ==> Sum(pnls) == BlockMoves(s, idx, band, |idx| - 1)
    ensures idx != [] && PositiveHighs(s) ==> Sum(pnls) == NearMoves(s, idx, band, |idx| - 1)
  {
    hide Near, NearTruthy, BlockMoves, NearMoves, Sum;
    pnls := [];
    NoMoves(s, idx, band);
    if idx == [] {
      return;
    }
    for n := 0 to |idx| - 1
      invariant Sum(pnls) == BlockMoves(s, idx, band, n)
    {
      BlockAdds(s, idx, band, n + 1);
      if NearTruthy(s, idx[n], band) {
        SumAppend(pnls, s.close[idx[n + 1]] - s.close[idx[n]]);
        pnls := pnls + [s.close[idx[n + 1]] - s.close[idx[n]]];
      }
    }
    if PositiveHighs(s) {
      BlockIsNear(s, idx, band, |idx| - 1);
    }
  }

  lemma NoMoves(s: Series, idx: seq<nat>, band: real)
    requires Input(s, idx)
    ensures Sum([]) == 0.0 && (idx != [] ==> BlockMoves(s, idx, band, 0) == 0.0)
  {}

  lemma BlockAdds(s: Series, idx: seq<nat>, band: real, n: nat)
    requires Input(s, idx) && 0 < n < |idx|
    ensures BlockMoves(s, idx, band, n) == BlockMoves(s, idx, band, n - 1) +
            if NearTruthy(s, idx[n - 1], band) then Close(s, idx, n) - Close(s, idx, n - 1) else 0.0
  {
    TruthyMeans(s, idx[n - 1], band);
    hide Near, NearTruthy;
  }

  /** The two simulators side by side: with close fills and positive highs their totals are equal,
      whatever the stop and however many trades the loop makes of a stretch of near bars. */
  method SameTotal(s: Series, idx: seq<nat>, band: real, stopPct: real) returns (loop: seq<real>, block: seq<real>)
    requires Input(s, idx) && PositiveHighs(s)
    ensures Sum(loop) == Sum(block)
  {
    loop := NearHighLoop(s, idx, band, stopPct, false);
    block := OneBarBlock(s, idx, band);
  }
}
