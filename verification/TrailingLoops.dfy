/**
 The four simulator loops themselves, with their running high-water mark or trailing stop level,
 proved to produce the profits of the declarative trades.
 */
module TrailingLoops {
  import opened Options
  import opened MarketData
  import opened TrailingStops

  /** The profits of the declarative trade list over the usable bars. */
  ghost function Expected(rule: Rule, bars: seq<Bar>): seq<real>
    requires HasAtr(rule, bars)
  {
    TradesChained(rule, bars, 0);
    ChainedEntries(bars, 0, TradesFrom(rule, bars, 0));
    Pnls(bars, TradesFrom(rule, bars, 0))
  }

  /** A loop before bar t: `done` are the finished trades; if held, the trade entered at bar i has
      not breached yet and `level` is its running maximum. */
  ghost predicate Running(rule: Rule, bars: seq<Bar>, t: nat, held: bool, i: nat, level: real,
                          done: seq<Trade>, pnls: seq<real>)
    requires HasAtr(rule, bars)
  {
    && t <= |bars|
    && (forall d :: d in done ==> d.entry < |bars|)
    && pnls == Pnls(bars, done)
    && i <= t && TradesFrom(rule, bars, 0) == done + TradesFrom(rule, bars, i)
    && (!held ==> i == t)
    && (held ==> i < t && level == MaxLevel(rule, bars, i, t - 1)
                 && forall m :: i < m < t ==> !Breached(rule, bars, i, m))
  }

  lemma Begin(rule: Rule, bars: seq<Bar>)
    requires HasAtr(rule, bars)
    ensures Running(rule, bars, 0, false, 0, 0.0, [], [])
  {}

  lemma Enter(rule: Rule, bars: seq<Bar>, t: nat, level: real, done: seq<Trade>, pnls: seq<real>)
    requires HasAtr(rule, bars) && t < |bars| && Running(rule, bars, t, false, t, level, done, pnls)
    ensures Running(rule, bars, t + 1, true, t, Level(rule, bars, t, t), done, pnls)
  {}

  lemma Hold(rule: Rule, bars: seq<Bar>, t: nat, i: nat, level: real, done: seq<Trade>, pnls: seq<real>)
    requires HasAtr(rule, bars) && t < |bars| && Running(rule, bars, t, true, i, level, done, pnls)
    requires !Breached(rule, bars, i, t)
    ensures Running(rule, bars, t + 1, true, i, Max(level, Level(rule, bars, i, t)), done, pnls)
  {}

  /** The stop computed from the running maximum is the declarative one. */
  lemma StopNow(rule: Rule, bars: seq<Bar>, t: nat, i: nat, level: real, done: seq<Trade>, pnls: seq<real>)
    requires HasAtr(rule, bars) && t < |bars| && Running(rule, bars, t, true, i, level, done, pnls)
    ensures i < t && StopAt(rule, bars, i, t) == Stop(rule, Max(level, Level(rule, bars, i, t)))
  {}

  lemma FirstIs(rule: Rule, bars: seq<Bar>, i: nat, j: nat, b: nat)
    requires HasAtr(rule, bars) && i < j <= b <= |bars|
    requires forall m :: j <= m < b ==> !Breached(rule, bars, i, m)
    requires b < |bars| ==> Breached(rule, bars, i, b)
    ensures FirstBreach(rule, bars, i, j) == b
  {}

  lemma AddTrade(bars: seq<Bar>, done: seq<Trade>, trade: Trade)
    requires trade.entry < |bars| && forall d :: d in done ==> d.entry < |bars|
    ensures forall d :: d in done + [trade] ==> d.entry < |bars|
    ensures Pnls(bars, done + [trade]) == Pnls(bars, done) + [Pnl(bars, trade)]
  {}

  lemma ExitTradeAt(rule: Rule, bars: seq<Bar>, i: nat, t: nat)
    requires HasAtr(rule, bars) && i < t < |bars|
    requires Breached(rule, bars, i, t) && forall m :: i < m < t ==> !Breached(rule, bars, i, m)
    ensures TradeAt(rule, bars, i) == Trade(i, t, false, ExitPrice(rule, bars, i, t))
  {
    FirstIs(rule, bars, i, i + 1, t);
    hide Breached, ExitPrice, HasAtr;
  }

  /** `after` is whatever the running maximum holds once the trade is closed. */
  lemma Exit(rule: Rule, bars: seq<Bar>, t: nat, i: nat, level: real, after: real, done: seq<Trade>, pnls: seq<real>)
    requires HasAtr(rule, bars) && t < |bars| && Running(rule, bars, t, true, i, level, done, pnls)
    requires Breached(rule, bars, i, t)
    ensures var trade := Trade(i, t, false, ExitPrice(rule, bars, i, t));
            Running(rule, bars, t + 1, false, t + 1, after, done + [trade], pnls + [Pnl(bars, trade)])
  {
    hide Breached, StopAt, HasAtr, TradesFrom, ExitPrice, TradeAt;
    ExitTradeAt(rule, bars, i, t);
    EntryTrade(rule, bars, i);
    var trade := Trade(i, t, false, ExitPrice(rule, bars, i, t));
    AddTrade(bars, done, trade);
    assert done + ([trade] + TradesFrom(rule, bars, t + 1)) == done + [trade] + TradesFrom(rule, bars, t + 1);
  }

  /** The mark after the loop: an open trade is closed at the last close. */
  lemma Mark(rule: Rule, bars: seq<Bar>, held: bool, i: nat, level: real, done: seq<Trade>, pnls: seq<real>)
    requires HasAtr(rule, bars) && Running(rule, bars, |bars|, held, i, level, done, pnls)
    ensures held ==> Expected(rule, bars) == pnls + [bars[|bars| - 1].close - bars[i].close]
    ensures !held ==> Expected(rule, bars) == pnls
  {
    hide Breached, StopAt, HasAtr;
    if held {
      FirstIs(rule, bars, i, i + 1, |bars|);
      var trade := TradeAt(rule, bars, i);
      AddTrade(bars, done, trade);
      assert TradesFrom(rule, bars, i) == [trade];
    } else {
      assert TradesFrom(rule, bars, i) == [];
    }
  }

  method PercentTrailClose(bars: seq<Bar>, s: real) returns (pnls: seq<real>)
    ensures pnls == Expected(PercentClose(s), bars)
  {
    hide Running, Expected, StopAt, MaxLevel, TradesFrom, PercentBelow;
    ghost var rule := PercentClose(s);
    ghost var i: nat, done := 0, [];
    pnls := [];
    var held, entry, hwm := false, 0.0, 0.0;
    Begin(rule, bars);
    for t := 0 to |bars|
      invariant Running(rule, bars, t, held, i, hwm, done, pnls)
      invariant if held then i < t && entry == bars[i].close else i == t
    {
      if !held {
        Enter(rule, bars, t, hwm, done, pnls);
        held, entry, hwm, i := true, bars[t].close, bars[t].close, t;
      } else {
        ghost var before := hwm;
        StopNow(rule, bars, t, i, before, done, pnls);
        hwm := Max(hwm, bars[t].close);
        var stop := PercentBelow(hwm, s);
        if bars[t].close < stop {
          Exit(rule, bars, t, i, before, hwm, done, pnls);
          assert ExitPrice(rule, bars, i, t) == bars[t].close;
          pnls := pnls + [bars[t].close - entry];
          done, i, held := done + [Trade(i, t, false, bars[t].close)], t + 1, false;
        } else {
          Hold(rule, bars, t, i, before, done, pnls);
        }
      }
    }
    Mark(rule, bars, held, i, hwm, done, pnls);
    if held {
      pnls := pnls + [bars[|bars| - 1].close - entry];
    }
  }

  method PercentTrailLow(bars: seq<Bar>, s: real) returns (pnls: seq<real>)
    ensures pnls == Expected(PercentLow(s), bars)
  {
    hide Running, Expected, StopAt, MaxLevel, TradesFrom, PercentBelow;
    ghost var rule := PercentLow(s);
    ghost var i: nat, done := 0, [];
    pnls := [];
    var held, entry, hwm := false, 0.0, 0.0;
    Begin(rule, bars);
    for t := 0 to |bars|
      invariant Running(rule, bars, t, held, i, hwm, done, pnls)
      invariant if held then i < t && entry == bars[i].close else i == t
    {
      if !held {
        Enter(rule, bars, t, hwm, done, pnls);
        held, entry, hwm, i := true, bars[t].close, bars[t].close, t;
      } else {
        ghost var before := hwm;
        StopNow(rule, bars, t, i, before, done, pnls);
        hwm := Max(hwm, bars[t].high);
        var stop := PercentBelow(hwm, s);
        if bars[t].low <= stop {
          Exit(rule, bars, t, i, before, hwm, done, pnls);
          assert ExitPrice(rule, bars, i, t) == stop;
          pnls := pnls + [stop - entry];
          done, i, held := done + [Trade(i, t, false, stop)], t + 1, false;
        } else {
          Hold(rule, bars, t, i, before, done, pnls);
        }
      }
    }
    Mark(rule, bars, held, i, hwm, done, pnls);
    if held {
      pnls := pnls + [bars[|bars| - 1].close - entry];
    }
  }

  /** Where the usable bars start. */
  lemma {:induction false} UsableSuffix(rule: Rule, bars: seq<Bar>) returns (first: nat)
    requires AtrOnceReady(bars)
    ensures first <= |bars| && Usable(rule, bars) == bars[first..]
    ensures HasAtr(rule, Usable(rule, bars))
    ensures forall n :: first <= n < |bars| && !rule.Percent() ==> bars[n].atr.Some?
    ensures forall n :: 0 <= n < first ==> bars[n].atr.None?
  {
    if bars == [] || rule.Percent() || bars[0].atr.Some? {
      first := 0;
    } else {
      var rest := UsableSuffix(rule, bars[1..]);
      first := rest + 1;
    }
  }

  method AtrTrailClose(bars: seq<Bar>, k: real) returns (pnls: seq<real>)
    requires AtrOnceReady(bars)
    ensures HasAtr(AtrClose(k), Usable(AtrClose(k), bars))
    ensures pnls == Expected(AtrClose(k), Usable(AtrClose(k), bars))
  {
    hide Running, Expected, StopAt, MaxLevel, Usable, TradesFrom, AtrLevel;
    ghost var rule := AtrClose(k);
    ghost var first := UsableSuffix(rule, bars);
    ghost var u := Usable(rule, bars);
    ghost var p: nat, i: nat, done := 0, 0, [];
    pnls := [];
    var held, entry, tsl := false, 0.0, 0.0;
    Begin(rule, u);
    for t := 0 to |bars|
      invariant p == if t < first then 0 else t - first
      invariant Running(rule, u, p, held, i, tsl, done, pnls)
      invariant if held then i < p && entry == u[i].close else i == p
    {
      if bars[t].atr.None? {
        continue;
      }
      var level := AtrLevel(bars[t], k);
      if !held {
        Enter(rule, u, p, tsl, done, pnls);
        held, entry, tsl, i, p := true, bars[t].close, level, p, p + 1;
      } else {
        ghost var before := tsl;
        StopNow(rule, u, p, i, before, done, pnls);
        tsl := Max(tsl, level);
        if bars[t].close < tsl {
          Exit(rule, u, p, i, before, tsl, done, pnls);
          assert ExitPrice(rule, u, i, p) == bars[t].close;
          pnls := pnls + [bars[t].close - entry];
          done, i, held := done + [Trade(i, p, false, bars[t].close)], p + 1, false;
        } else {
          Hold(rule, u, p, i, before, done, pnls);
        }
        p := p + 1;
      }
    }
    Mark(rule, u, held, i, tsl, done, pnls);
    if held {
      pnls := pnls + [bars[|bars| - 1].close - entry];
    }
  }

  /** The `skip` flag of this loop delays nothing: the next usable bar is entered either way. */
  method AtrTrailLow(bars: seq<Bar>, k: real) returns (pnls: seq<real>)
    requires AtrOnceReady(bars)
    ensures HasAtr(AtrLow(k), Usable(AtrLow(k), bars))
    ensures pnls == Expected(AtrLow(k), Usable(AtrLow(k), bars))
  {
    hide Running, Expected, StopAt, MaxLevel, Usable, TradesFrom, AtrLevel;
    ghost var rule := AtrLow(k);
    ghost var first := UsableSuffix(rule, bars);
    ghost var u := Usable(rule, bars);
    ghost var p: nat, i: nat, done := 0, 0, [];
    pnls := [];
    var held, entry, tsl, skip := false, 0.0, 0.0, false;
    Begin(rule, u);
    for t := 0 to |bars|
      invariant p == if t < first then 0 else t - first
      invariant Running(rule, u, p, held, i, tsl, done, pnls)
      invariant if held then i < p && entry == u[i].close && !skip else i == p
    {
      if bars[t].atr.None? {
        continue;
      }
      var level := AtrLevel(bars[t], k);
      if skip {
        Enter(rule, u, p, tsl, done, pnls);
        skip, held, entry, tsl, i, p := false, true, bars[t].close, level, p, p + 1;
        continue;
      }
      if !held {
        Enter(rule, u, p, tsl, done, pnls);
        held, entry, tsl, i, p := true, bars[t].close, level, p, p + 1;
        continue;
      }
      ghost var before := tsl;
      StopNow(rule, u, p, i, before, done, pnls);
      tsl := Max(tsl, level);
      if bars[t].low <= tsl {
        Exit(rule, u, p, i, before, tsl, done, pnls);
        assert ExitPrice(rule, u, i, p) == tsl;
        pnls := pnls + [tsl - entry];
        done, i, held, skip := done + [Trade(i, p, false, tsl)], p + 1, false, true;
      } else {
        Hold(rule, u, p, i, before, done, pnls);
      }
      p := p + 1;
    }
    Mark(rule, u, held, i, tsl, done, pnls);
    if held {
      pnls := pnls + [bars[|bars| - 1].close - entry];
    }
  }

  /** Both ATR loops over the bars of a date window, with the ATR computed from the whole series. */
  method AtrTrails(s: Series, idx: seq<nat>, k: real) returns (onClose: seq<real>, onLow: seq<real>)
    requires Aligned(s) && Window(s, idx)
    ensures var bars := Bars(s, idx);
            && HasAtr(AtrClose(k), Usable(AtrClose(k), bars)) && HasAtr(AtrLow(k), Usable(AtrLow(k), bars))
            && onClose == Expected(AtrClose(k), Usable(AtrClose(k), bars))
            && onLow == Expected(AtrLow(k), Usable(AtrLow(k), bars))
  {
    hide Expected, Usable, SmaAtr;
    var bars := Bars(s, idx);
    onClose := AtrTrailClose(bars, k);
    onLow := AtrTrailLow(bars, k);
  }
}
