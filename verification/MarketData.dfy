/** Daily price series and the two pure indicators of the rule search. Prices are reals. */
module MarketData {
  import opened Options

  datatype Series = Series(high: seq<real>, low: seq<real>, close: seq<real>)

  predicate Aligned(s: Series) {
    |s.high| == |s.low| == |s.close|
  }

  /** One bar of the window; `atr` is None while fewer than 14 bars precede it. */
  datatype Bar = Bar(high: real, low: real, close: real, atr: Option<real>)

  function Max(a: real, b: real): real {
    if a >= b then a else b
  }

  function Abs(a: real): real {
    if a >= 0.0 then a else -a
  }

  function MaxOf(xs: seq<real>): (m: real)
    requires xs != []
    ensures m in xs && forall i :: 0 <= i < |xs| ==> xs[i] <= m
  {
    if |xs| == 1 then xs[0]
    else
      assert forall i :: 0 < i < |xs| ==> xs[i] == xs[1..][i - 1];
      Max(xs[0], MaxOf(xs[1..]))
  }

  /** The maximum of the `lookback` values before t. */
  function PriorMax(xs: seq<real>, t: nat, lookback: nat): (m: Option<real>)
    requires t <= |xs| && lookback > 0
    ensures m.None? <==> t < lookback
    ensures m.Some? ==> (exists i :: t - lookback <= i < t && xs[i] == m.value)
                        && forall i :: t - lookback <= i < t ==> xs[i] <= m.value
  {
    if t < lookback then None
    else
      var from := t - lookback;
      assert forall i :: from <= i < t ==> xs[i] == xs[from..t][i - from];
      Some(MaxOf(xs[from..t]))
  }

  function TrueRange(s: Series, i: nat): real
    requires Aligned(s) && i < |s.close|
  {
    var prev := if i > 0 then s.close[i - 1] else s.close[i];
    Max(Max(s.high[i] - s.low[i], Abs(s.high[i] - prev)), Abs(s.low[i] - prev))
  }

  function PriorClose(s: Series, i: nat): real
    requires Aligned(s) && i < |s.close|
  {
    if i > 0 then s.close[i - 1] else s.close[i]
  }

  /** The true range is the span of the bar together with the close before it. */
  lemma TrueRangeIsSpan(s: Series, i: nat)
    requires Aligned(s) && i < |s.close| && s.low[i] <= s.high[i]
    ensures TrueRange(s, i) == Max(s.high[i], PriorClose(s, i)) - -Max(-s.low[i], -PriorClose(s, i))
  {}

  /** The true ranges of bars lo to hi - 1 added up. */
  function TrueRangeSum(s: Series, lo: nat, hi: nat): (total: real)
    requires Aligned(s) && lo <= hi <= |s.close|
    ensures total >= 0.0
  {
    if lo == hi then 0.0 else TrueRangeSum(s, lo, hi - 1) + TrueRange(s, hi - 1)
  }

  const ATR_BARS: nat := 14

  function SmaAtr(s: Series, t: nat): (atr: Option<real>)
    requires Aligned(s) && t < |s.close|
    ensures atr.Some? <==> t >= ATR_BARS
    ensures atr.Some? ==> atr.value >= 0.0
  {
    if t < ATR_BARS then None
    else Some(TrueRangeSum(s, t - ATR_BARS + 1, t + 1) / ATR_BARS as real)
  }

  lemma {:induction false} DropOldest(s: Series, lo: nat, hi: nat)
    requires Aligned(s) && lo < hi <= |s.close|
    ensures TrueRangeSum(s, lo, hi) == TrueRange(s, lo) + TrueRangeSum(s, lo + 1, hi)
    decreases hi
  {
    if lo + 1 < hi {
      DropOldest(s, lo, hi - 1);
    }
  }

  /** The average slides: every bar adds its true range and drops the one 14 bars back. */
  lemma AtrSlides(s: Series, t: nat)
    requires Aligned(s) && ATR_BARS < t < |s.close|
    ensures 14.0 * (SmaAtr(s, t).value - SmaAtr(s, t - 1).value) == TrueRange(s, t) - TrueRange(s, t - ATR_BARS)
  {
    hide TrueRange;
    DropOldest(s, t - ATR_BARS, t);
  }

  /** It lies between any two bounds of its 14 true ranges. */
  lemma AtrBetween(s: Series, t: nat, low: real, high: real)
    requires Aligned(s) && ATR_BARS <= t < |s.close|
    requires forall i :: t - ATR_BARS < i <= t ==> low <= TrueRange(s, i) <= high
    ensures low <= SmaAtr(s, t).value <= high
  {
    hide TrueRange;
    SumBetween(s, t - ATR_BARS + 1, t + 1, low, high);
  }

  lemma {:induction false} SumBetween(s: Series, lo: nat, hi: nat, low: real, high: real)
    requires Aligned(s) && lo <= hi <= |s.close|
    requires forall i :: lo <= i < hi ==> low <= TrueRange(s, i) <= high
    ensures (hi - lo) as real * low <= TrueRangeSum(s, lo, hi) <= (hi - lo) as real * high
  {
    hide TrueRange;
    if lo < hi {
      SumBetween(s, lo, hi - 1, low, high);
      assert (hi - lo) as real == (hi - 1 - lo) as real + 1.0;
    }
  }

  /** idx lists the bars inside the date window, oldest first. */
  predicate Window(s: Series, idx: seq<nat>) {
    && (forall n :: 0 <= n < |idx| ==> idx[n] < |s.close|)
    && forall m, n :: 0 <= m < n < |idx| ==> idx[m] < idx[n]
  }

  function Bars(s: Series, idx: seq<nat>): (bars: seq<Bar>)
    requires Aligned(s) && Window(s, idx)
    ensures |bars| == |idx|
    ensures forall n :: 0 <= n < |idx| ==>
              bars[n] == Bar(s.high[idx[n]], s.low[idx[n]], s.close[idx[n]], SmaAtr(s, idx[n]))
    ensures AtrOnceReady(bars)
    ensures forall n :: 0 <= n < |bars| && bars[n].atr.Some? ==> bars[n].atr.value >= 0.0
  {
    seq(|idx|, n requires 0 <= n < |idx| =>
        Bar(s.high[idx[n]], s.low[idx[n]], s.close[idx[n]], SmaAtr(s, idx[n])))
  }

  /** Bars without an ATR come before all others. */
  predicate AtrOnceReady(bars: seq<Bar>) {
    forall m, n :: 0 <= m < n < |bars| && bars[m].atr.Some? ==> bars[n].atr.Some?
  }

  function Sum(xs: seq<real>): real {
    if xs == [] then 0.0 else Sum(xs[..|xs| - 1]) + xs[|xs| - 1]
  }
}
