/**
 The always-in long simulators: four loops that keep a high-water mark or a trailing stop level,
 against the rule they stand for. A trade entered at bar i exits at the first later bar whose price
 breaches the stop computed afresh from bars i to j; the next trade enters on the bar after.
 Prices are reals.
 */
module TrailingStops {
  import opened Options
  import opened MarketData

  /** The four families: percent trail or ATR trail, exit on the close or on the low. */
  datatype Rule =
    | PercentClose(s: real)
    | PercentLow(s: real)
    | AtrClose(k: real)
    | AtrLow(k: real)
  {
    predicate OnLow() {
      PercentLow? || AtrLow?
    }

    predicate Percent() {
      PercentClose? || PercentLow?
    }
  }

  /** The bars the loop works on: the ATR families skip those before the first ATR. */
  function Usable(rule: Rule, bars: seq<Bar>): seq<Bar> {
    if bars == [] || rule.Percent() || bars[0].atr.Some? then bars else Usable(rule, bars[1..])
  }

  predicate HasAtr(rule: Rule, bars: seq<Bar>) {
    !rule.Percent() ==> forall i :: 0 <= i < |bars| ==> bars[i].atr.Some?
  }

  /** k ATRs below the close. */
  function AtrLevel(bar: Bar, k: real): real
    requires bar.atr.Some?
  {
    bar.close - k * bar.atr.value
  }

  function PercentBelow(level: real, s: real): real {
    level * (1.0 - s / 100.0)
  }

  // ---------------------------------------------------------------- the declarative rule

  /** What bar j contributes to the maximum of a trade entered at bar i. */
  function Level(rule: Rule, bars: seq<Bar>, i: nat, j: nat): real
    requires i <= j < |bars| && HasAtr(rule, bars)
  {
    match rule
    case PercentClose(_) => bars[j].close
    case PercentLow(_) => if j == i then bars[j].close else bars[j].high
    case AtrClose(k) => AtrLevel(bars[j], k)
    case AtrLow(k) => AtrLevel(bars[j], k)
  }

  function MaxLevel(rule: Rule, bars: seq<Bar>, i: nat, j: nat): real
    requires i <= j < |bars| && HasAtr(rule, bars)
    decreases j - i
  {
    if j == i then Level(rule, bars, i, i)
    else Max(MaxLevel(rule, bars, i, j - 1), Level(rule, bars, i, j))
  }

  function Stop(rule: Rule, maxLevel: real): real {
    match rule
    case PercentClose(s) => PercentBelow(maxLevel, s)
    case PercentLow(s) => PercentBelow(maxLevel, s)
    case AtrClose(_) => maxLevel
    case AtrLow(_) => maxLevel
  }

  /** The stop at bar j of a trade entered at bar i. */
  function StopAt(rule: Rule, bars: seq<Bar>, i: nat, j: nat): real
    requires i <= j < |bars| && HasAtr(rule, bars)
  {
    Stop(rule, MaxLevel(rule, bars, i, j))
  }

  predicate Breached(rule: Rule, bars: seq<Bar>, i: nat, j: nat)
    requires i <= j < |bars| && HasAtr(rule, bars)
  {
    if rule.OnLow() then bars[j].low <= StopAt(rule, bars, i, j) else bars[j].close < StopAt(rule, bars, i, j)
  }

  /** The first breach at or after bar j. */
  function FirstBreach(rule: Rule, bars: seq<Bar>, i: nat, j: nat): (b: nat)
    requires i < j <= |bars| && HasAtr(rule, bars)
    ensures j <= b <= |bars|
    ensures b < |bars| ==> Breached(rule, bars, i, b)
    ensures forall m :: j <= m < b ==> !Breached(rule, bars, i, m)
    decreases |bars| - j
  {
    if j == |bars| || Breached(rule, bars, i, j) then j else FirstBreach(rule, bars, i, j + 1)
  }

  /** A trade: its entry bar, its exit bar, and the price it is closed or marked at. */
  datatype Trade = Trade(entry: nat, exit: nat, open: bool, price: real)

  function ExitPrice(rule: Rule, bars: seq<Bar>, i: nat, j: nat): real
    requires i <= j < |bars| && HasAtr(rule, bars)
  {
    if rule.OnLow() then StopAt(rule, bars, i, j) else bars[j].close
  }

  /** The trade entered at bar i; without a breach it stays open and is marked at the last close. */
  function TradeAt(rule: Rule, bars: seq<Bar>, i: nat): Trade
    requires i < |bars| && HasAtr(rule, bars)
  {
    var j := FirstBreach(rule, bars, i, i + 1);
    if j == |bars| then Trade(i, |bars| - 1, true, bars[|bars| - 1].close)
    else Trade(i, j, false, ExitPrice(rule, bars, i, j))
  }

  /** The trades of a strategy that enters at bar i. */
  function TradesFrom(rule: Rule, bars: seq<Bar>, i: nat): seq<Trade>
    requires i <= |bars| && HasAtr(rule, bars)
    decreases |bars| - i
  {
    if i == |bars| then []
    else
      var trade := TradeAt(rule, bars, i);
      [trade] + if trade.open then [] else TradesFrom(rule, bars, trade.exit + 1)
  }

  function Pnl(bars: seq<Bar>, t: Trade): real
    requires t.entry < |bars|
  {
    t.price - bars[t.entry].close
  }

  lemma TradeShape(rule: Rule, bars: seq<Bar>, i: nat)
    requires i < |bars| && HasAtr(rule, bars)
    ensures var trade := TradeAt(rule, bars, i);
            && trade.entry == i <= trade.exit < |bars|
            && (if trade.open then trade.exit == |bars| - 1 else trade.exit > i)
            && (!rule.OnLow() ==> trade.price == bars[trade.exit].close)
  {}

  /** The bar on which trade n must enter: i, and then the one after the previous exit. */
  function EntryBar(i: nat, trades: seq<Trade>, n: nat): nat
    requires n < |trades|
  {
    if n == 0 then i else trades[n - 1].exit + 1
  }

  /** Trades are in order and disjoint, each entering on the bar after the previous exit. */
  predicate Chained(bars: seq<Bar>, i: nat, trades: seq<Trade>)
  {
    forall n :: 0 <= n < |trades| ==>
      && trades[n].entry == EntryBar(i, trades, n)
      && trades[n].entry <= trades[n].exit < |bars|
      && (trades[n].open ==> n == |trades| - 1)
      && (!trades[n].open ==> trades[n].entry < trades[n].exit)
  }

  lemma ChainedCons(bars: seq<Bar>, i: nat, trade: Trade, rest: seq<Trade>)
    requires trade.entry == i <= trade.exit < |bars|
    requires if trade.open then rest == [] else i < trade.exit && Chained(bars, trade.exit + 1, rest)
    ensures Chained(bars, i, [trade] + rest)
  {
    var trades := [trade] + rest;
    assert forall n :: 0 < n < |trades| ==> trades[n] == rest[n - 1];
  }

  lemma {:induction false} TradesChained(rule: Rule, bars: seq<Bar>, i: nat)
    requires i <= |bars| && HasAtr(rule, bars)
    ensures Chained(bars, i, TradesFrom(rule, bars, i))
    decreases |bars| - i
  {
    hide TradeAt, HasAtr, Chained;
    if i == |bars| {
      assert Chained(bars, i, []) by {
        NothingChained(bars, i);
      }
    } else {
      var trade := TradeAt(rule, bars, i);
      TradeShape(rule, bars, i);
      if trade.open {
        ChainedCons(bars, i, trade, []);
        assert [trade] + [] == [trade];
      } else {
        TradesChained(rule, bars, trade.exit + 1);
        ChainedCons(bars, i, trade, TradesFrom(rule, bars, trade.exit + 1));
      }
    }
  }

  lemma NothingChained(bars: seq<Bar>, i: nat)
    ensures Chained(bars, i, [])
  {}

  function Pnls(bars: seq<Bar>, trades: seq<Trade>): seq<real>
    requires forall t :: t in trades ==> t.entry < |bars|
  {
    seq(|trades|, n requires 0 <= n < |trades| => assert trades[n] in trades; Pnl(bars, trades[n]))
  }

  // ---------------------------------------------------------------- what the rule guarantees

  /** During a trade the stop never falls (for a percent rule: as long as s is at most 100). */
  lemma {:induction false} StopNeverFalls(rule: Rule, bars: seq<Bar>, i: nat, j: nat, m: nat)
    requires i <= j <= m < |bars| && HasAtr(rule, bars)
    requires rule.Percent() ==> rule.s <= 100.0
    ensures StopAt(rule, bars, i, j) <= StopAt(rule, bars, i, m)
    decreases m - j
  {
    if j < m {
      StopNeverFalls(rule, bars, i, j, m - 1);
      StopMonotone(rule, MaxLevel(rule, bars, i, m - 1), MaxLevel(rule, bars, i, m));
    }
  }

  lemma StopMonotone(rule: Rule, a: real, b: real)
    requires a <= b && (rule.Percent() ==> rule.s <= 100.0)
    ensures Stop(rule, a) <= Stop(rule, b)
  {
    if rule.Percent() {
      var f := 1.0 - rule.s / 100.0;
      assert f >= 0.0;
      assert a * f <= b * f;
    }
  }

  /** The moves of the close from each exit price to the next entry. */
  function Gaps(bars: seq<Bar>, trades: seq<Trade>): (gaps: seq<real>)
    requires forall t :: t in trades ==> t.entry < |bars|
    ensures |gaps| == if |trades| < 2 then 0 else |trades| - 1
  {
    if |trades| < 2 then []
    else
      var n := |trades| - 1;
      assert trades[n] in trades;
      Gaps(bars, trades[..n]) + [bars[trades[n].entry].close - trades[n - 1].price]
  }

  /** Profits and gaps of successive trades telescope. */
  lemma {:induction false} Telescope(bars: seq<Bar>, trades: seq<Trade>)
    requires trades != [] && forall t :: t in trades ==> t.entry < |bars|
    ensures Sum(Pnls(bars, trades)) + Sum(Gaps(bars, trades))
            == trades[|trades| - 1].price - bars[trades[0].entry].close
  {
    var n := |trades| - 1;
    assert Pnls(bars, trades)[..n] == Pnls(bars, trades[..n]);
    if n > 0 {
      Telescope(bars, trades[..n]);
      assert Gaps(bars, trades)[..n - 1] == Gaps(bars, trades[..n]);
    }
  }

  lemma {:induction false} LastPrice(rule: Rule, bars: seq<Bar>, i: nat)
    requires i < |bars| && HasAtr(rule, bars) && !rule.OnLow()
    ensures var trades := TradesFrom(rule, bars, i);
            trades != [] && trades[0].entry == i && trades[|trades| - 1].price == bars[|bars| - 1].close
    decreases |bars| - i
  {
    hide TradeAt, HasAtr;
    var trade := TradeAt(rule, bars, i);
    TradeShape(rule, bars, i);
    if trade.open || trade.exit + 1 == |bars| {
      assert TradesFrom(rule, bars, i) == [trade];
    } else {
      assert TradesFrom(rule, bars, i) == [trade] + TradesFrom(rule, bars, trade.exit + 1);
      LastPrice(rule, bars, trade.exit + 1);
    }
  }

  lemma ChainedEntries(bars: seq<Bar>, i: nat, trades: seq<Trade>)
    requires Chained(bars, i, trades)
    ensures forall t :: t in trades ==> t.entry < |bars|
  {
    forall t | t in trades
      ensures t.entry < |bars|
    {
      var n :| 0 <= n < |trades| && trades[n] == t;
    }
  }

  /** Conservation: with close fills, profits plus exit-to-entry gaps add up to the move of the
      close over the whole window. */
  lemma PnlConserved(rule: Rule, bars: seq<Bar>)
    requires bars != [] && HasAtr(rule, bars) && !rule.OnLow()
    ensures var trades := TradesFrom(rule, bars, 0);
            && (forall t :: t in trades ==> t.entry < |bars|)
            && Sum(Pnls(bars, trades)) + Sum(Gaps(bars, trades)) == bars[|bars| - 1].close - bars[0].close
  {
    hide TradesFrom;
    TradesChained(rule, bars, 0);
    ChainedEntries(bars, 0, TradesFrom(rule, bars, 0));
    LastPrice(rule, bars, 0);
    Telescope(bars, TradesFrom(rule, bars, 0));
  }

  /** How far the stop of the entry bar stands below the entry. */
  function EntryRisk(rule: Rule, bars: seq<Bar>, i: nat): real
    requires i < |bars| && HasAtr(rule, bars)
  {
    bars[i].close - StopAt(rule, bars, i, i)
  }

  predicate Sane(rule: Rule, bars: seq<Bar>)
    requires HasAtr(rule, bars)
  {
    && (forall n :: 0 <= n < |bars| ==> bars[n].low <= bars[n].close)
    && if rule.Percent() then 0.0 <= rule.s <= 100.0 && forall n :: 0 <= n < |bars| ==> bars[n].close >= 0.0
       else 0.0 <= rule.k && forall n :: 0 <= n < |bars| ==> bars[n].atr.value >= 0.0
  }

  lemma ProductNotNegative(a: real, b: real)
    requires a >= 0.0 && b >= 0.0
    ensures a * b >= 0.0
  {}

  /** The entry risk is s percent of the entry, or k ATRs; it is never negative. */
  lemma EntryRiskValue(rule: Rule, bars: seq<Bar>, i: nat)
    requires i < |bars| && HasAtr(rule, bars)
    ensures EntryRisk(rule, bars, i) ==
            if rule.Percent() then (rule.s / 100.0) * bars[i].close else rule.k * bars[i].atr.value
    ensures Sane(rule, bars) ==> EntryRisk(rule, bars, i) >= 0.0
  {
    if Sane(rule, bars) {
      if rule.Percent() {
        ProductNotNegative(rule.s / 100.0, bars[i].close);
      } else {
        ProductNotNegative(rule.k, bars[i].atr.value);
      }
    }
  }

  lemma EntryTrade(rule: Rule, bars: seq<Bar>, i: nat)
    requires HasAtr(rule, bars) && i < |bars|
    ensures var trade := TradeAt(rule, bars, i);
            TradesFrom(rule, bars, i) == [trade] + if trade.open then [] else TradesFrom(rule, bars, trade.exit + 1)
  {
    hide Breached, ExitPrice, TradeAt, HasAtr;
  }

  predicate WithinRisk(rule: Rule, bars: seq<Bar>, t: Trade)
    requires HasAtr(rule, bars)
  {
    t.entry < |bars| && Pnl(bars, t) >= -EntryRisk(rule, bars, t.entry)
  }

  lemma TradeLossBound(rule: Rule, bars: seq<Bar>, i: nat)
    requires i < |bars| && HasAtr(rule, bars) && Sane(rule, bars) && rule.OnLow()
    ensures WithinRisk(rule, bars, TradeAt(rule, bars, i))
  {
    hide Stop;
    var trade := TradeAt(rule, bars, i);
    StopNeverFalls(rule, bars, i, i, trade.exit);
    EntryRiskValue(rule, bars, i);
    if trade.open && trade.exit > i {
      assert !Breached(rule, bars, i, trade.exit);
    }
  }

  lemma NoTradesAtEnd(rule: Rule, bars: seq<Bar>, i: nat)
    requires i == |bars| && HasAtr(rule, bars)
    ensures TradesFrom(rule, bars, i) == []
  {}

  /** Loss bound of the trails filled at the stop: no trade, the final marked one included, loses
      more than the risk of its entry bar (s percent of the entry, or k ATRs). */
  lemma {:induction false} LossBound(rule: Rule, bars: seq<Bar>, i: nat)
    requires i <= |bars| && HasAtr(rule, bars) && Sane(rule, bars) && rule.OnLow()
    ensures forall t :: t in TradesFrom(rule, bars, i) ==> WithinRisk(rule, bars, t)
    decreases |bars| - i
  {
    hide *;
    if i < |bars| {
      TradeLossBound(rule, bars, i);
      EntryTrade(rule, bars, i);
      TradeShape(rule, bars, i);
      var trade := TradeAt(rule, bars, i);
      if !trade.open {
        LossBound(rule, bars, trade.exit + 1);
      }
    } else {
      NoTradesAtEnd(rule, bars, i);
    }
  }
}
