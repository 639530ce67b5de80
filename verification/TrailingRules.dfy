/**
 The trades of the four trailing rules in terms of the bars alone: where the stop stands, which bar
 closes a trade and at what price, and that this leaves no choice.
 */
module TrailingRules {
  import opened Options
  import opened MarketData
  import opened TrailingStops

  /** What bar m of a trade entered at bar i puts into its maximum: its close; the entry close and the
      later highs; its close less k average true ranges. */
  function Mark(rule: Rule, bars: seq<Bar>, i: nat, m: nat): real
    requires i <= m < |bars| && HasAtr(rule, bars)
  {
    match rule
    case PercentClose(_) => bars[m].close
    case PercentLow(_) => if m == i then bars[i].close else bars[m].high
    case AtrClose(k) => bars[m].close - k * bars[m].atr.value
    case AtrLow(k) => bars[m].close - k * bars[m].atr.value
  }

  function Marks(rule: Rule, bars: seq<Bar>, i: nat, j: nat): (xs: seq<real>)
    requires i <= j < |bars| && HasAtr(rule, bars)
    ensures |xs| == j - i + 1 && forall n :: 0 <= n <= j - i ==> xs[n] == Mark(rule, bars, i, i + n)
  {
    seq(j - i + 1, n requires 0 <= n <= j - i => Mark(rule, bars, i, i + n))
  }

  function TopMark(rule: Rule, bars: seq<Bar>, i: nat, j: nat): real
    requires i <= j < |bars| && HasAtr(rule, bars)
  {
    MaxOf(Marks(rule, bars, i, j))
  }

  /** s percent below the maximum, or the maximum itself. */
  function StopPrice(rule: Rule, bars: seq<Bar>, i: nat, j: nat): real
    requires i <= j < |bars| && HasAtr(rule, bars)
  {
    var top := TopMark(rule, bars, i, j);
    match rule
    case PercentClose(s) => (1.0 - s / 100.0) * top
    case PercentLow(s) => (1.0 - s / 100.0) * top
    case AtrClose(_) => top
    case AtrLow(_) => top
  }

  /** Bar m does not close the trade entered at bar i: its close is at or above the stop, or its low is
      above it. */
  predicate Holds(rule: Rule, bars: seq<Bar>, i: nat, m: nat)
    requires i <= m < |bars| && HasAtr(rule, bars)
  {
    match rule
    case PercentClose(_) => bars[m].close >= StopPrice(rule, bars, i, m)
    case AtrClose(_) => bars[m].close >= StopPrice(rule, bars, i, m)
    case PercentLow(_) => bars[m].low > StopPrice(rule, bars, i, m)
    case AtrLow(_) => bars[m].low > StopPrice(rule, bars, i, m)
  }

  /** Close rules are filled at the close, low rules at the stop. */
  function FillPrice(rule: Rule, bars: seq<Bar>, i: nat, j: nat): real
    requires i <= j < |bars| && HasAtr(rule, bars)
  {
    if rule.PercentClose? || rule.AtrClose? then bars[j].close else StopPrice(rule, bars, i, j)
  }

  /** The trade is held through every bar after its entry that does not close it; it is closed by its
      exit bar at the fill price, or still open at the end and marked at the last close. */
  predicate ByTheRule(rule: Rule, bars: seq<Bar>, t: Trade)
    requires HasAtr(rule, bars)
  {
    && t.entry <= t.exit < |bars|
    && (forall m :: t.entry < m < t.exit ==> Holds(rule, bars, t.entry, m))
    && if t.open then
         && t.exit == |bars| - 1 && t.price == bars[t.exit].close
         && (t.entry < t.exit ==> Holds(rule, bars, t.entry, t.exit))
       else
         && t.entry < t.exit && !Holds(rule, bars, t.entry, t.exit)
         && t.price == FillPrice(rule, bars, t.entry, t.exit)
  }

  lemma MaxOfAppend(xs: seq<real>, x: real)
    requires xs != []
    ensures MaxOf(xs + [x]) == Max(MaxOf(xs), x)
  {
    var more := xs + [x];
    assert forall i :: 0 <= i < |xs| ==> more[i] == xs[i];
    assert more[|xs|] == x;
    var i :| 0 <= i < |xs| && xs[i] == MaxOf(xs);
    assert more[i] <= MaxOf(more) && x <= MaxOf(more);
    var j :| 0 <= j < |more| && more[j] == MaxOf(more);
    assert j < |xs| ==> more[j] == xs[j] <= MaxOf(xs);
  }

  lemma TopMarkGrows(rule: Rule, bars: seq<Bar>, i: nat, j: nat)
    requires i <= j < |bars| && HasAtr(rule, bars)
    ensures TopMark(rule, bars, i, j) ==
            if j == i then Mark(rule, bars, i, i) else Max(TopMark(rule, bars, i, j - 1), Mark(rule, bars, i, j))
  {
    hide Mark, HasAtr;
    if j > i {
      assert Marks(rule, bars, i, j) == Marks(rule, bars, i, j - 1) + [Mark(rule, bars, i, j)];
      MaxOfAppend(Marks(rule, bars, i, j - 1), Mark(rule, bars, i, j));
    }
  }

  lemma {:induction false} MaxLevelIs(rule: Rule, bars: seq<Bar>, i: nat, j: nat)
    requires i <= j < |bars| && HasAtr(rule, bars)
    ensures MaxLevel(rule, bars, i, j) == TopMark(rule, bars, i, j)
    decreases j - i
  {
    MarkIsLevel(rule, bars, i, j);
    TopMarkGrows(rule, bars, i, j);
    hide Mark, Level, HasAtr, TopMark;
    if j > i {
      MaxLevelIs(rule, bars, i, j - 1);
    }
  }

  lemma MarkIsLevel(rule: Rule, bars: seq<Bar>, i: nat, m: nat)
    requires i <= m < |bars| && HasAtr(rule, bars)
    ensures Mark(rule, bars, i, m) == Level(rule, bars, i, m)
  {}

  lemma StopIs(rule: Rule, bars: seq<Bar>, i: nat, j: nat)
    requires i <= j < |bars| && HasAtr(rule, bars)
    ensures StopAt(rule, bars, i, j) == StopPrice(rule, bars, i, j)
    ensures Breached(rule, bars, i, j) <==> !Holds(rule, bars, i, j)
    ensures ExitPrice(rule, bars, i, j) == FillPrice(rule, bars, i, j)
  {
    hide MaxLevel, TopMark;
    MaxLevelIs(rule, bars, i, j);
  }

  lemma TradeIsByTheRule(rule: Rule, bars: seq<Bar>, i: nat)
    requires i < |bars| && HasAtr(rule, bars)
    ensures TradeAt(rule, bars, i).entry == i && ByTheRule(rule, bars, TradeAt(rule, bars, i))
  {
    hide Holds, Breached, StopPrice, ExitPrice, FillPrice, HasAtr;
    forall m | i <= m < |bars|
      ensures Breached(rule, bars, i, m) <==> !Holds(rule, bars, i, m)
      ensures ExitPrice(rule, bars, i, m) == FillPrice(rule, bars, i, m)
    {
      StopIs(rule, bars, i, m);
    }
  }

  /** Every trade of the list, read off the bars. */
  lemma {:induction false} TradesByTheRule(rule: Rule, bars: seq<Bar>, i: nat)
    requires i <= |bars| && HasAtr(rule, bars)
    ensures forall t :: t in TradesFrom(rule, bars, i) ==> ByTheRule(rule, bars, t)
    decreases |bars| - i
  {
    hide *;
    if i < |bars| {
      TradeIsByTheRule(rule, bars, i);
      EntryTrade(rule, bars, i);
      TradeShape(rule, bars, i);
      var trade := TradeAt(rule, bars, i);
      if !trade.open {
        TradesByTheRule(rule, bars, trade.exit + 1);
      }
    } else {
      NoTradesAtEnd(rule, bars, i);
    }
  }

  /** The list goes on until the window ends. */
  predicate ReachesEnd(bars: seq<Bar>, i: nat, trades: seq<Trade>) {
    if trades == [] then i == |bars|
    else trades[|trades| - 1].open || trades[|trades| - 1].exit == |bars| - 1
  }

  lemma OneTradeOnly(rule: Rule, bars: seq<Bar>, s: Trade, t: Trade)
    requires HasAtr(rule, bars) && ByTheRule(rule, bars, s) && ByTheRule(rule, bars, t) && s.entry == t.entry
    ensures s == t
  {
    hide Holds, FillPrice, HasAtr;
  }

  lemma ChainedHead(bars: seq<Bar>, i: nat, trades: seq<Trade>)
    requires Chained(bars, i, trades) && trades != []
    ensures trades[0].entry == i <= trades[0].exit < |bars|
    ensures if trades[0].open then |trades| == 1 else Chained(bars, trades[0].exit + 1, trades[1..])
  {
    assert trades[0].entry == EntryBar(i, trades, 0);
    if !trades[0].open {
      var rest := trades[1..];
      forall m | 0 <= m < |rest|
        ensures rest[m] == trades[m + 1] && (m > 0 ==> rest[m - 1] == trades[m])
      {}
    }
  }

  /** That leaves no choice: chained trades that all follow the rule and go on until the window ends
      are the trades of the list. */
  lemma {:induction false} TradesUnique(rule: Rule, bars: seq<Bar>, i: nat, trades: seq<Trade>)
    requires i <= |bars| && HasAtr(rule, bars)
    requires Chained(bars, i, trades) && ReachesEnd(bars, i, trades)
    requires forall t :: t in trades ==> ByTheRule(rule, bars, t)
    ensures trades == TradesFrom(rule, bars, i)
    decreases |trades|
  {
    hide ByTheRule, HasAtr, TradesFrom, TradeAt, Chained;
    if trades == [] {
      NoTradesAtEnd(rule, bars, i);
    } else {
      var first, rest := trades[0], trades[1..];
      ChainedHead(bars, i, trades);
      assert trades == [first] + rest && first in trades;
      TradeIsByTheRule(rule, bars, i);
      OneTradeOnly(rule, bars, first, TradeAt(rule, bars, i));
      EntryTrade(rule, bars, i);
      if !first.open {
        assert forall t :: t in rest ==> t in trades;
        TradesUnique(rule, bars, first.exit + 1, rest);
      } else {
        assert rest == [];
      }
    }
  }
}
