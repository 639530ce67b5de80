/**
 Drawdown by running peak, and the composite score built on it. Equities are reals; the compound
 growth rate enters the score as a given number.
 */
module Drawdown {
  import opened Options

  predicate Positive(eq: seq<real>) {
    forall i :: 0 <= i < |eq| ==> eq[i] > 0.0
  }

  predicate NeverNegative(eq: seq<real>) {
    forall i :: 0 <= i < |eq| ==> eq[i] >= 0.0
  }

  function Min(a: real, b: real): real {
    if a <= b then a else b
  }

  function Max(a: real, b: real): real {
    if a >= b then a else b
  }

  /** `to / base - 1`. */
  function Change(base: real, to: real): real
    requires base != 0.0
  {
    to / base - 1.0
  }

  // ---------------------------------------------------------------- the loops

  function Peak(eq: seq<real>): (p: real)
    requires eq != []
    ensures p in eq && forall i :: 0 <= i < |eq| ==> eq[i] <= p
  {
    var n := |eq| - 1;
    if n == 0 then eq[0]
    else
      assert forall i :: 0 <= i < n ==> eq[i] == eq[..n][i];
      Max(Peak(eq[..n]), eq[n])
  }

  /** The lowest change from the running peak over the points with a peak other than zero, or 0. */
  function PeakDrop(eq: seq<real>): real {
    if eq == [] then 0.0
    else
      var n := |eq| - 1;
      if Peak(eq) == 0.0 then PeakDrop(eq[..n]) else Min(PeakDrop(eq[..n]), Change(Peak(eq), eq[n]))
  }

  /** One more point. */
  lemma AppendPoint(eq: seq<real>, v: real)
    ensures var more := eq + [v];
            && Peak(more) == (if eq == [] then v else Max(Peak(eq), v))
            && PeakDrop(more) == if Peak(more) == 0.0 then PeakDrop(eq) else Min(PeakDrop(eq), Change(Peak(more), v))
  {
    hide Change;
    assert (eq + [v])[..|eq|] == eq;
  }

  /** The loop of book_stats: the peak starts at the first equity. */
  method MaxDrawdown(eq: seq<real>, initial: real) returns (maxDd: real)
    ensures maxDd == PeakDrop(eq)
  {
    hide PeakDrop, Peak, Change;
    var peak := if eq != [] then eq[0] else initial;
    maxDd := 0.0;
    NoPoint();
    for n := 0 to |eq|
      invariant maxDd == PeakDrop(eq[..n])
      invariant eq != [] ==> peak == if n == 0 then eq[0] else Peak(eq[..n])
    {
      assert eq[..n + 1] == eq[..n] + [eq[n]];
      AppendPoint(eq[..n], eq[n]);
      peak := Max(peak, eq[n]);
      if peak != 0.0 {
        maxDd := Min(maxDd, Change(peak, eq[n]));
      }
    }
    assert eq[..|eq|] == eq;
  }

  lemma NoPoint()
    ensures PeakDrop([]) == 0.0 && Present([]) == []
  {}

  /** The points of a curve that carry a number. */
  function Present(curve: seq<Option<real>>): seq<real> {
    if curve == [] then []
    else Present(curve[..|curve| - 1]) +
         match curve[|curve| - 1] case None => [] case Some(v) => [v]
  }

  lemma PresentNext(curve: seq<Option<real>>, n: nat)
    requires n < |curve|
    ensures curve[n].None? ==> Present(curve[..n + 1]) == Present(curve[..n])
    ensures curve[n].Some? ==> Present(curve[..n + 1]) == Present(curve[..n]) + [curve[n].value]
  {
    assert curve[..n + 1][..n] == curve[..n];
  }

  /** The loop of summarize: no peak before the first number, points without one are skipped. */
  method MaxDrawdownSkipping(curve: seq<Option<real>>) returns (maxDd: real)
    ensures maxDd == PeakDrop(Present(curve))
  {
    hide PeakDrop, Peak, Present, Change;
    var peak: Option<real> := None;
    maxDd := 0.0;
    NoPoint();
    assert curve[..0] == [];
    for n := 0 to |curve|
      invariant maxDd == PeakDrop(Present(curve[..n]))
      invariant peak == if Present(curve[..n]) == [] then None else Some(Peak(Present(curve[..n])))
    {
      PresentNext(curve, n);
      if curve[n].Some? {
        var v := curve[n].value;
        AppendPoint(Present(curve[..n]), v);
        var highest := if peak.None? then v else Max(peak.value, v);
        peak := Some(highest);
        if highest != 0.0 {
          maxDd := Min(maxDd, Change(highest, v));
        }
      }
    }
    assert curve[..|curve|] == curve;
  }

  // ---------------------------------------------------------------- what they find

  /** The return from point i to point j. */
  function Return(eq: seq<real>, i: nat, j: nat): real
    requires i < |eq| && j < |eq| && eq[i] > 0.0
  {
    Change(eq[i], eq[j])
  }

  /** dd is the worst return from any point above zero to a later (or the same) one. */
  ghost predicate IsDrawdown(eq: seq<real>, dd: real) {
    && (forall i, j :: 0 <= i <= j < |eq| && eq[i] > 0.0 ==> dd <= Return(eq, i, j))
    && (dd == 0.0 || exists i, j :: 0 <= i <= j < |eq| && eq[i] > 0.0 && dd == Return(eq, i, j))
    && dd <= 0.0
  }

  lemma RatioBounds(v: real, a: real, b: real)
    requires v >= 0.0 && 0.0 < a <= b
    ensures 0.0 <= v / b <= v / a
    ensures v > 0.0 ==> v / v == 1.0 && v / b > 0.0
  {}

  lemma LastReturn(eq: seq<real>, i: nat, peak: real)
    requires NeverNegative(eq) && i < |eq| && 0.0 < eq[i] <= peak
    ensures Change(peak, eq[|eq| - 1]) <= Return(eq, i, |eq| - 1)
  {
    RatioBounds(eq[|eq| - 1], eq[i], peak);
  }

  lemma SamePairs(eq: seq<real>, n: nat)
    requires n <= |eq|
    ensures forall i, j :: 0 <= i <= j < n && eq[i] > 0.0 ==> Return(eq[..n], i, j) == Return(eq, i, j)
  {}

  /** `last` is the worst return to the last point. */
  lemma NextPoint(eq: seq<real>, dd: real, last: real, top: nat)
    requires top < |eq| && eq[top] > 0.0 && Return(eq, top, |eq| - 1) == last
    requires forall i :: 0 <= i < |eq| && eq[i] > 0.0 ==> last <= Return(eq, i, |eq| - 1)
    requires IsDrawdown(eq[..|eq| - 1], dd)
    ensures IsDrawdown(eq, Min(dd, last))
  {
    hide Return;
    var n := |eq| - 1;
    var pre := eq[..n];
    SamePairs(eq, n);
    if dd <= last && dd != 0.0 {
      var i, j :| 0 <= i <= j < n && pre[i] > 0.0 && dd == Return(pre, i, j);
      assert Return(eq, i, j) == dd;
    }
  }

  lemma LastPoint(eq: seq<real>, dd: real)
    requires NeverNegative(eq) && eq != [] && Peak(eq) > 0.0 && IsDrawdown(eq[..|eq| - 1], dd)
    ensures IsDrawdown(eq, Min(dd, Change(Peak(eq), eq[|eq| - 1])))
  {
    hide IsDrawdown, Change;
    var n, peak := |eq| - 1, Peak(eq);
    var top :| 0 <= top <= n && eq[top] == peak;
    forall i | 0 <= i <= n && eq[i] > 0.0
      ensures Change(peak, eq[n]) <= Return(eq, i, n)
    {
      LastReturn(eq, i, peak);
    }
    NextPoint(eq, dd, Change(peak, eq[n]), top);
  }

  /** What the running peak finds is the drawdown of every curve that never goes below zero. */
  lemma {:induction false} PeakDropIsDrawdown(eq: seq<real>)
    requires NeverNegative(eq)
    ensures IsDrawdown(eq, PeakDrop(eq))
  {
    if eq != [] {
      PeakDropIsDrawdown(eq[..|eq| - 1]);
      if Peak(eq) > 0.0 {
        hide IsDrawdown, Peak;
        LastPoint(eq, PeakDrop(eq[..|eq| - 1]));
      } else {
        assert forall i :: 0 <= i < |eq| ==> eq[i] == 0.0;
      }
    }
  }

  /** Two drawdowns of one curve are equal. */
  lemma DrawdownUnique(eq: seq<real>, a: real, b: real)
    requires IsDrawdown(eq, a) && IsDrawdown(eq, b)
    ensures a == b
  {}

  /** A drawdown lies between -1 and 0, at or below the total return, and above -1 for a positive
      curve. */
  lemma DrawdownRange(eq: seq<real>, dd: real)
    requires NeverNegative(eq) && IsDrawdown(eq, dd)
    ensures -1.0 <= dd <= 0.0 && (Positive(eq) ==> -1.0 < dd)
    ensures eq != [] && eq[0] > 0.0 ==> dd <= eq[|eq| - 1] / eq[0] - 1.0
  {
    if dd != 0.0 {
      var i, j :| 0 <= i <= j < |eq| && eq[i] > 0.0 && dd == Return(eq, i, j);
      RatioBounds(eq[j], eq[i], eq[i]);
    }
    if eq != [] && eq[0] > 0.0 {
      assert dd <= Return(eq, 0, |eq| - 1);
    }
  }

  function Scaled(eq: seq<real>, c: real): seq<real> {
    seq(|eq|, i requires 0 <= i < |eq| => eq[i] * c)
  }

  lemma RatioScales(a: real, b: real, c: real)
    requires b > 0.0 && c > 0.0
    ensures b * c > 0.0 && (a * c) / (b * c) == a / b
  {
    assert (a / b) * (b * c) == a * c;
  }

  lemma SignScales(a: real, c: real)
    requires c > 0.0
    ensures a * c > 0.0 <==> a > 0.0
  {}

  /** The currency unit does not matter. */
  lemma DrawdownScales(eq: seq<real>, c: real, dd: real)
    requires c > 0.0 && IsDrawdown(eq, dd)
    ensures IsDrawdown(Scaled(eq, c), dd)
  {
    var scaled := Scaled(eq, c);
    forall i | 0 <= i < |eq|
      ensures scaled[i] > 0.0 <==> eq[i] > 0.0
    {
      SignScales(eq[i], c);
    }
    forall i, j | 0 <= i < |eq| && 0 <= j < |eq| && eq[i] > 0.0
      ensures Return(scaled, i, j) == Return(eq, i, j)
    {
      RatioScales(eq[j], eq[i], c);
    }
    hide Return, Scaled;
    if dd != 0.0 {
      var i, j :| 0 <= i <= j < |eq| && eq[i] > 0.0 && dd == Return(eq, i, j);
      assert dd == Return(scaled, i, j);
    }
  }

  // ---------------------------------------------------------------- the composite score

  /** Profit factor: None without trades, Infinite when nothing was lost. */
  datatype ProfitFactor = NoTrades | Finite(value: real) | Infinite

  /** The inputs of the score. The numbers a book brings along may be missing; `calmar` is the ratio
      found in the book, always missing in book_stats. */
  datatype Metrics = Metrics(cagr: Option<real>, maxDd: Option<real>, calmar: Option<real>, pf: ProfitFactor,
                             winRate: Option<real>, avgTrade: Option<real>)

  function Clip(x: real): real {
    Max(0.0, Min(100.0, x))
  }

  function Abs(x: real): real {
    if x < 0.0 then -x else x
  }

  function OrZero(x: Option<real>): real {
    match x case None => 0.0 case Some(v) => v
  }

  /** The ratio of the book, or growth over drawdown; none at zero drawdown. */
  function Calmar(m: Metrics): Option<real> {
    if m.calmar.Some? then m.calmar
    else if m.cagr.Some? && m.maxDd.Some? && m.maxDd.value < 0.0 then Some(m.cagr.value / Abs(m.maxDd.value))
    else None
  }

  function CalmarScore(m: Metrics): real {
    Clip(OrZero(Calmar(m)) / 2.0 * 100.0)
  }

  function DrawdownScore(m: Metrics): real {
    match m.maxDd case None => 0.0 case Some(dd) => Clip((1.0 - (Abs(dd) - 0.10) / 0.40) * 100.0)
  }

  function Score(m: Metrics): real {
    var pfValue := match m.pf case NoTrades => 0.0 case Finite(v) => v case Infinite => 3.0;
    0.25 * Clip(OrZero(m.cagr) / 0.40 * 100.0)
    + 0.20 * CalmarScore(m)
    + 0.20 * Clip(pfValue / 3.0 * 100.0)
    + 0.15 * Clip(OrZero(m.winRate) / 0.70 * 100.0)
    + 0.15 * DrawdownScore(m)
    + 0.05 * Clip(OrZero(m.avgTrade) / 0.08 * 100.0)
  }

  lemma ScoreRange(m: Metrics)
    ensures 0.0 <= Score(m) <= 100.0
  {
    assert forall x :: 0.0 <= Clip(x) <= 100.0;
    hide Clip, Calmar;
  }

  lemma QuotientOrder(a: real, d: real, e: real)
    requires 0.0 < e <= d
    ensures a >= 0.0 ==> a / d <= a / e
    ensures a < 0.0 ==> a / d < 0.0 && a / e < 0.0
  {
    if a > 0.0 {
      RatioBounds(a, e, d);
    } else if a < 0.0 {
      RatioBounds(-a, e, d);
      assert a / d == -((-a) / d) && a / e == -((-a) / e);
    }
  }

  lemma CalmarMonotone(m: Metrics, shallower: real)
    requires m.maxDd.Some? && m.maxDd.value <= shallower < 0.0
    ensures CalmarScore(m) <= CalmarScore(m.(maxDd := Some(shallower)))
  {
    if m.cagr.Some? {
      QuotientOrder(m.cagr.value, -m.maxDd.value, -shallower);
    }
  }

  lemma DrawdownScoreMonotone(m: Metrics, shallower: real)
    requires m.maxDd.Some? && m.maxDd.value <= shallower <= 0.0
    ensures DrawdownScore(m) <= DrawdownScore(m.(maxDd := Some(shallower)))
  {}

  /** A shallower drawdown never lowers the score, as long as it is not exactly zero. */
  lemma ScoreMonotoneInDrawdown(m: Metrics, shallower: real)
    requires m.maxDd.Some? && m.maxDd.value <= shallower < 0.0
    ensures Score(m) <= Score(m.(maxDd := Some(shallower)))
  {
    hide Clip;
    CalmarMonotone(m, shallower);
    DrawdownScoreMonotone(m, shallower);
  }

  /** At exactly zero it can: without a Calmar ratio a book that never lost anything scores lower
      than the same book with a drawdown of one percent. */
  lemma ZeroDrawdownScoresLower()
    ensures var m := Metrics(Some(0.40), Some(0.0), None, Infinite, Some(1.0), Some(0.08));
            Score(m) == 80.0 && Score(m.(maxDd := Some(-0.01))) == 100.0
  {
  }

  function Unit(x: real): real {
    Max(0.0, Min(1.0, x))
  }

  /** The share of the drawdown points that a drawdown of depth d costs. */
  function DrawdownCost(d: real): real {
    Unit((d - 0.10) / 0.40)
  }

  /** Reaching zero drawdown keeps the score from falling if and only if the book brings its own
      Calmar ratio or its growth is at most 1.5 times the drawdown points it wins back: the exact
      balance of the Calmar points lost against the drawdown points won. */
  lemma ZeroDrawdownCondition(m: Metrics)
    requires m.maxDd.Some? && m.maxDd.value < 0.0
    ensures var d := -m.maxDd.value;
            Score(m) <= Score(m.(maxDd := Some(0.0))) <==>
            m.calmar.Some? || OrZero(m.cagr) <= 1.5 * DrawdownCost(d) * d
  {
    hide DrawdownScore, DrawdownCost, CalmarScore, Clip;
    DrawdownPoints(m);
    DrawdownPoints(m.(maxDd := Some(0.0)));
    if m.calmar.None? {
      CalmarPoints(m, DrawdownCost(-m.maxDd.value));
    } else {
      SameCalmar(m);
    }
  }

  lemma SameCalmar(m: Metrics)
    requires m.calmar.Some?
    ensures CalmarScore(m.(maxDd := Some(0.0))) == CalmarScore(m)
  {}

  lemma CalmarPoints(m: Metrics, u: real)
    requires m.maxDd.Some? && m.maxDd.value < 0.0 && m.calmar.None? && 0.0 <= u <= 1.0
    ensures CalmarScore(m.(maxDd := Some(0.0))) == 0.0
    ensures CalmarScore(m) <= 75.0 * u <==> OrZero(m.cagr) <= 1.5 * u * -m.maxDd.value
  {
    QuotientAtMost(OrZero(m.cagr), 1.5 * u, -m.maxDd.value);
    assert OrZero(Calmar(m)) == OrZero(m.cagr) / -m.maxDd.value;
    hide Calmar;
  }

  lemma DrawdownPoints(m: Metrics)
    requires m.maxDd.Some? && m.maxDd.value <= 0.0
    ensures DrawdownScore(m) == 100.0 - 100.0 * DrawdownCost(-m.maxDd.value)
    ensures 0.0 <= DrawdownCost(-m.maxDd.value) <= 1.0 && DrawdownCost(-0.0) == 0.0
  {}

  lemma QuotientAtMost(a: real, b: real, d: real)
    requires d > 0.0
    ensures a / d <= b <==> a <= b * d
    ensures 0.0 / d == 0.0
  {
    assert (a / d) * d == a;
  }

  // ---------------------------------------------------------------- what each metric is worth

  /** A book that brings nothing. */
  const NOTHING := Metrics(None, None, None, NoTrades, None, None)

  /** Each metric alone earns its share in proportion up to its mark: growth 25 points at 40 percent,
      the Calmar ratio 20 at 2, the profit factor 20 at 3, the win rate 15 at 70 percent, the average
      trade 5 at 8 percent; a drawdown earns 15 less its cost. */
  lemma EachMetricAlone(x: real)
    ensures Score(NOTHING) == 0.0
    ensures Score(NOTHING.(cagr := Some(x))) == 25.0 * Unit(x / 0.40)
    ensures Score(NOTHING.(calmar := Some(x))) == 20.0 * Unit(x / 2.0)
    ensures Score(NOTHING.(pf := Finite(x))) == 20.0 * Unit(x / 3.0) && Score(NOTHING.(pf := Infinite)) == 20.0
    ensures Score(NOTHING.(winRate := Some(x))) == 15.0 * Unit(x / 0.70)
    ensures Score(NOTHING.(avgTrade := Some(x))) == 5.0 * Unit(x / 0.08)
    ensures x <= 0.0 ==> Score(NOTHING.(maxDd := Some(x))) == 15.0 - 15.0 * DrawdownCost(-x)
  {}

  /** The metrics do not interact, except that growth and drawdown make the Calmar ratio of a book
      that brings none. */
  lemma MetricsAddUp(m: Metrics)
    ensures Score(m) ==
            Score(NOTHING.(cagr := m.cagr)) + Score(NOTHING.(calmar := Calmar(m))) + Score(NOTHING.(pf := m.pf))
            + Score(NOTHING.(winRate := m.winRate)) + Score(NOTHING.(avgTrade := m.avgTrade))
            + Score(NOTHING.(maxDd := m.maxDd))
    ensures Calmar(m) ==
            if m.calmar.Some? then m.calmar
            else if m.cagr.Some? && m.maxDd.Some? && m.maxDd.value < 0.0 then Some(m.cagr.value / -m.maxDd.value)
            else None
  {
    assert Calmar(NOTHING.(cagr := m.cagr)) == None && Calmar(NOTHING.(maxDd := m.maxDd)) == None;
    assert Clip(0.0) == 0.0;
    hide Clip;
  }

  /** Full marks take every metric at its mark. */
  lemma FullMarks(m: Metrics)
    ensures Score(m) == 100.0 <==>
            && OrZero(m.cagr) >= 0.40 && OrZero(Calmar(m)) >= 2.0
            && (m.pf == Infinite || (m.pf.Finite? && m.pf.value >= 3.0))
            && OrZero(m.winRate) >= 0.70 && OrZero(m.avgTrade) >= 0.08
            && m.maxDd.Some? && -0.10 <= m.maxDd.value <= 0.10
  {
    assert forall x :: 0.0 <= Clip(x) <= 100.0 && (Clip(x) == 100.0 <==> x >= 100.0);
    hide Clip, Calmar;
  }
}
