/**
 The decimal cast of the migration: `Decimal(str(value)).quantize(Decimal("1e-p"))`
 in Python's default decimal context (28 significant digits, ties to even).
 A value is the exact decimal number that `str(value)` writes, modelled as a real.
 */
module Decimals {
  import opened Options

  /** Digits kept by Python's default decimal context. */
  const CONTEXT_PRECISION: nat := 28

  function Pow10(p: nat): (r: int)
    ensures r >= 1
  {
    if p == 0 then 1 else 10 * Pow10(p - 1)
  }

  /** The integer nearest to x; a tie goes to the even neighbour. */
  function HalfEven(x: real): int {
    var lo := x.Floor;
    var fraction := x - lo as real;
    if fraction < 0.5 || (fraction == 0.5 && lo % 2 == 0) then lo else lo + 1
  }

  /** 10^p as a positive real: one over the last place kept. */
  function Scale(p: nat): (d: real)
    ensures d > 0.0
  {
    Pow10(p) as real
  }

  function Times(v: real, d: real): real {
    v * d
  }

  /** v rounded to a multiple of 1/d. */
  function RoundTo(v: real, d: real): real
    requires d > 0.0
  {
    HalfEven(Times(v, d)) as real / d
  }

  /** The integer coefficient of v quantised to p places. */
  function Coefficient(v: real, p: nat): int {
    HalfEven(Times(v, Scale(p)))
  }

  function Quantized(v: real, p: nat): real {
    RoundTo(v, Scale(p))
  }

  /** quantize signals InvalidOperation when the coefficient needs more than 28 digits. */
  predicate Representable(v: real, p: nat) {
    -Pow10(CONTEXT_PRECISION) < Coefficient(v, p) < Pow10(CONTEXT_PRECISION)
  }

  /** A stored SQLite value: NULL, a number, or something Decimal or quantize refuses (text, infinity). */
  datatype Cell = Null | Number(v: real) | Malformed

  /** cast_decimal: outer None means an exception, inner None a NULL. */
  function CastDecimal(cell: Cell, p: nat): Option<Option<real>> {
    match cell
    case Null => Some(None)
    case Malformed => None
    case Number(v) => if Representable(v, p) then Some(Some(Quantized(v, p))) else None
  }

  /** HalfEven is the only integer at distance below one half, or at one half and even. */
  lemma HalfEvenIsNearest(x: real, r: int)
    ensures r == HalfEven(x) <==>
            -0.5 < x - r as real < 0.5 || ((x - r as real == 0.5 || x - r as real == -0.5) && r % 2 == 0)
  {
    var lo := x.Floor;
    assert lo as real <= x < lo as real + 1.0;
    if r < lo {
      assert r as real <= lo as real - 1.0;
    } else if r > lo + 1 {
      assert r as real >= lo as real + 2.0;
    }
  }

  lemma HalfEvenMonotone(x: real, y: real)
    requires x <= y
    ensures HalfEven(x) <= HalfEven(y)
  {
    assert x.Floor <= y.Floor;
  }

  lemma HalfEvenFixesIntegers(n: int)
    ensures HalfEven(n as real) == n
  {
    HalfEvenIsNearest(n as real, n);
  }

  lemma DivideMonotone(a: real, b: real, d: real)
    requires a <= b && d > 0.0
    ensures a / d <= b / d
  {}

  lemma RoundToError(v: real, d: real)
    requires d > 0.0
    ensures -(0.5 / d) <= RoundTo(v, d) - v <= 0.5 / d
  {
    var c := HalfEven(Times(v, d));
    HalfEvenIsNearest(Times(v, d), c);
    DivideMonotone(-0.5, c as real - v * d, d);
    DivideMonotone(c as real - v * d, 0.5, d);
    assert (v * d) / d == v;
    assert (c as real - v * d) / d == c as real / d - v;
  }

  lemma RoundToIdempotent(v: real, d: real)
    requires d > 0.0
    ensures RoundTo(RoundTo(v, d), d) == RoundTo(v, d)
  {
    var c := HalfEven(Times(v, d));
    HalfEvenFixesIntegers(c);
    var q := RoundTo(v, d);
    assert Times(q, d) == c as real;
  }

  lemma RoundToMonotone(v: real, w: real, d: real)
    requires v <= w && d > 0.0
    ensures RoundTo(v, d) <= RoundTo(w, d)
  {
    assert Times(v, d) <= Times(w, d);
    HalfEvenMonotone(Times(v, d), Times(w, d));
    assert HalfEven(Times(v, d)) as real <= HalfEven(Times(w, d)) as real;
    DivideMonotone(HalfEven(Times(v, d)) as real, HalfEven(Times(w, d)) as real, d);
  }

  /** Half a unit in the last of p places. */
  function HalfUnit(p: nat): real {
    0.5 / Scale(p)
  }

  /** The cast stays within half a unit, changes nothing when repeated and keeps order. */
  lemma QuantizeLaws(v: real, w: real, p: nat)
    ensures -HalfUnit(p) <= Quantized(v, p) - v <= HalfUnit(p)
    ensures Quantized(Quantized(v, p), p) == Quantized(v, p)
    ensures v <= w ==> Quantized(v, p) <= Quantized(w, p)
  {
    RoundToError(v, Scale(p));
    RoundToIdempotent(v, Scale(p));
    if v <= w {
      RoundToMonotone(v, w, Scale(p));
    }
  }

  /** n units in the last of p places are as near to v as any multiple, or just as near and even. */
  predicate Nearest(v: real, p: nat, n: int) {
    var off := v * Scale(p) - n as real;
    -0.5 < off < 0.5 || ((off == 0.5 || off == -0.5) && n % 2 == 0)
  }

  /** What the cast accepts and what it makes of it: NULL stays NULL, anything but a number is refused,
      and a number becomes its nearest multiple of 10^-p if that needs at most 28 digits. */
  lemma CastDecimalExactly(cell: Cell, p: nat, out: Option<real>)
    ensures CastDecimal(cell, p) == Some(out) <==>
            match cell
            case Null => out == None
            case Malformed => false
            case Number(v) =>
              out.Some? && exists n: int :: Nearest(v, p, n) && -Pow10(28) < n < Pow10(28) && out.value * Scale(p) == n as real
  {
    hide Pow10, Scale;
    match cell
    case Number(v) =>
      var d, c := Scale(p), Coefficient(v, p);
      forall n: int
        ensures Nearest(v, p, n) <==> n == c
      {
        HalfEvenIsNearest(Times(v, d), n);
      }
      DivideBack(c as real, d);
      assert Nearest(v, p, c) && Quantized(v, p) * d == c as real;
      if out.Some? {
        DivideTimes(out.value, d);
        hide Nearest, Coefficient;
        assert out.value == Quantized(v, p) <==> out.value * d == c as real;
      }
    case _ =>
  }

  lemma DivideBack(c: real, d: real)
    requires d > 0.0
    ensures (c / d) * d == c
  {}

  lemma DivideTimes(q: real, d: real)
    requires d > 0.0
    ensures (q * d) / d == q
  {}

  /** The total of a column; a NULL adds nothing. */
  function ColumnSum(column: seq<Option<real>>): real {
    if column == [] then 0.0
    else ColumnSum(column[..|column| - 1]) +
         (match column[|column| - 1] case None => 0.0 case Some(v) => v)
  }

  function SourceSum(column: seq<Cell>): real {
    if column == [] then 0.0
    else SourceSum(column[..|column| - 1]) +
         (match column[|column| - 1] case Number(v) => v case _ => 0.0)
  }

  lemma CellDrift(cell: Cell, cast: Option<real>, p: nat)
    requires CastDecimal(cell, p) == Some(cast)
    ensures var moved := (match cast case None => 0.0 case Some(v) => v) - (match cell case Number(v) => v case _ => 0.0);
            -HalfUnit(p) <= moved <= HalfUnit(p)
  {
    match cell
    case Number(v) => QuantizeLaws(v, v, p);
    case _ => DivideMonotone(0.0, 0.5, Scale(p));
  }

  predicate CastOf(source: seq<Cell>, target: seq<Option<real>>, p: nat) {
    |source| == |target| && forall i :: 0 <= i < |source| ==> CastDecimal(source[i], p) == Some(target[i])
  }

  /** n half units, added up one by one. */
  function HalfUnits(n: nat, p: nat): real {
    if n == 0 then 0.0 else HalfUnits(n - 1, p) + HalfUnit(p)
  }

  lemma {:induction false} HalfUnitsProduct(n: nat, p: nat)
    ensures HalfUnits(n, p) == n as real * HalfUnit(p)
  {
    if n > 0 {
      HalfUnitsProduct(n - 1, p);
      assert n as real == (n - 1) as real + 1.0;
    }
  }

  /** Casting a column of n values moves its total by at most n/2 units in the last place. */
  lemma {:induction false} ColumnDrift(source: seq<Cell>, target: seq<Option<real>>, p: nat)
    requires CastOf(source, target, p)
    ensures -HalfUnits(|source|, p) <= ColumnSum(target) - SourceSum(source) <= HalfUnits(|source|, p)
  {
    if source != [] {
      var n := |source| - 1;
      ColumnDrift(source[..n], target[..n], p);
      CellDrift(source[n], target[n], p);
    }
  }
}
