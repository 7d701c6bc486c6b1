/** Values on a tangent: bounds on how far sums, products and quotients of them are from the tangent of the result. */
module Tangents {
  import opened Reals
  import opened Symbolic

  /** Is `w` within `k` times the square of `h` of the line through a value with a rate? */
  predicate OnTangent(w: real, d: Dual, k: real, h: real) {
    Abs(w - d.value - Times(d.rate, h)) <= Times(k, Times(h, h))
  }

  // ----- sums -----

  lemma SumOnTangent(f: real, g: real, a: Dual, b: Dual, k: real, l: real, h: real)
    requires OnTangent(f, a, k, h) && OnTangent(g, b, l, h)
    ensures OnTangent(f + g, Dual(a.value + b.value, a.rate + b.rate), k + l, h)
    ensures OnTangent(f - g, Dual(a.value - b.value, a.rate - b.rate), k + l, h)
  {
    hide Times;
    var x, y := f - a.value - Times(a.rate, h), g - b.value - Times(b.rate, h);
    TimesSum(a.rate, b.rate, h);
    TimesSum(a.rate, -b.rate, h);
    TimesMinus(b.rate, h);
    TwoBounds(x, y, k, l, Times(h, h));
    TwoBounds(x, -y, k, l, Times(h, h));
  }

  lemma TimesMinus(x: real, y: real)
    ensures Times(-x, y) == -Times(x, y) && Times(x, -y) == -Times(x, y)
  {
  }

  lemma MinusOnTangent(f: real, a: Dual, k: real, h: real)
    requires OnTangent(f, a, k, h)
    ensures OnTangent(-f, Dual(-a.value, -a.rate), k, h)
  {
    hide Times;
    TimesMinus(a.rate, h);
  }

  // ----- products -----

  lemma SquareSmall(h: real)
    requires Abs(h) <= 1.0
    ensures 0.0 <= Times(h, h) <= Abs(h)
  {
    AbsTimes(h, h);
    TimesLeq(Abs(h), 1.0, Abs(h));
  }

  /** A bound near the point on a value that is on a tangent. */
  function Cap(d: Dual, k: real): real { Abs(d.value) + Abs(d.rate) + k }

  lemma Capped(f: real, d: Dual, k: real, h: real)
    requires OnTangent(f, d, k, h) && k >= 0.0 && Abs(h) <= 1.0
    ensures Abs(f) <= Cap(d, k) && Abs(d.value + Times(d.rate, h)) <= Abs(d.value) + Abs(d.rate)
  {
    hide Times;
    SquareSmall(h);
    AbsTimes(d.rate, h);
    ShrinkBy(Abs(d.rate), Abs(h));
    ShrinkBy(k, Times(h, h));
  }

  lemma ShrinkBy(x: real, y: real)
    requires x >= 0.0 && 0.0 <= y <= 1.0
    ensures 0.0 <= Times(x, y) <= x
  {
    TimesLeq(y, 1.0, x);
    TimesLeq(0.0, y, x);
  }

  /** A remainder times something bounded is a remainder. */
  lemma ScaledRemainder(r: real, g: real, k: real, square: real, bound: real)
    requires Abs(r) <= Times(k, square) && Abs(g) <= bound
    ensures Abs(Times(r, g)) <= Times(Times(k, bound), square)
  {
    AbsTimes(r, g);
    TimesLeq(Abs(g), bound, Abs(r));
    TimesLeq(Abs(r), Times(k, square), bound);
    assert Times(Times(k, square), bound) == Times(Times(k, bound), square);
  }

  function ProductFactor(a: Dual, b: Dual, k: real, l: real): real {
    Abs(Times(a.rate, b.rate)) + Times(k, Cap(b, l)) + Times(l, Abs(a.value) + Abs(a.rate))
  }

  lemma ProductOnTangent(f: real, g: real, a: Dual, b: Dual, k: real, l: real, h: real)
    requires OnTangent(f, a, k, h) && OnTangent(g, b, l, h) && k >= 0.0 && l >= 0.0 && Abs(h) <= 1.0
    ensures OnTangent(Times(f, g), DualTimes(a, b), ProductFactor(a, b, k, l), h)
  {
    hide Times;
    var q := Times(h, h);
    var r, s := f - a.value - Times(a.rate, h), g - b.value - Times(b.rate, h);
    var line := a.value + Times(a.rate, h);
    var rates := Times(a.rate, b.rate);
    Capped(g, b, l, h);
    Capped(f, a, k, h);
    SquareSmall(h);
    ScaledRemainder(r, g, k, q, Cap(b, l));
    ScaledRemainder(s, line, l, q, Abs(a.value) + Abs(a.rate));
    ScaledBound(rates, q, Abs(rates));
    TwoBounds(Times(rates, q), Times(r, g), Abs(rates), Times(k, Cap(b, l)), q);
    TwoBounds(Times(rates, q) + Times(r, g), Times(s, line), Abs(rates) + Times(k, Cap(b, l)),
              Times(l, Abs(a.value) + Abs(a.rate)), q);
    ProductExpands(f, g, a, b, h, r, s);
  }

  lemma ProductExpands(f: real, g: real, a: Dual, b: Dual, h: real, r: real, s: real)
    requires r == f - a.value - Times(a.rate, h) && s == g - b.value - Times(b.rate, h)
    ensures Times(f, g) - DualTimes(a, b).value - Times(DualTimes(a, b).rate, h)
      == Times(Times(a.rate, b.rate), Times(h, h)) + Times(r, g) + Times(s, a.value + Times(a.rate, h))
  {
    var u, v, x, y := a.value, a.rate, b.value, b.rate;
    assert f == u + v * h + r && g == x + y * h + s;
    assert f * g == (u + v * h) * g + r * g;
    assert (u + v * h) * g == (u + v * h) * (x + y * h) + (u + v * h) * s;
    assert (u + v * h) * (x + y * h) == u * x + (v * x + y * u) * h + (v * y) * (h * h);
  }

  // ----- quotients -----

  /** How far from the point a divisor keeps half of its size. */
  function Near(b: Dual, l: real): real
    requires l >= 0.0
  {
    var reach := Abs(b.value) / 2.0 / (Abs(b.rate) + l + 1.0);
    if reach < 1.0 then reach else 1.0
  }

  lemma NearPositive(b: Dual, l: real)
    requires l >= 0.0 && b.value != 0.0
    ensures 0.0 < Near(b, l) <= 1.0 && Times(Near(b, l), Abs(b.rate) + l) <= Abs(b.value) / 2.0
  {
    var half, slope := Abs(b.value) / 2.0, Abs(b.rate) + l + 1.0;
    var reach := half / slope;
    assert Times(reach, slope) == half && reach > 0.0 by { QuotientTimes(half, slope); }
    hide Times;
    TimesLeq(Near(b, l), reach, slope);
    TimesSum(Abs(b.rate) + l, 1.0, Near(b, l));
    TimesSum(slope, 0.0, Near(b, l));
    TimesSum(Near(b, l), 0.0, Abs(b.rate) + l);
    TimesLeq(0.0, Near(b, l), 1.0);
    TimesSum(Near(b, l), 0.0, 1.0);
    TimesSum(0.0, 0.0, 1.0);
  }

  lemma QuotientTimes(x: real, y: real)
    requires y != 0.0
    ensures Times(x / y, y) == x && (x > 0.0 && y > 0.0 ==> x / y > 0.0)
  {
  }

  lemma StaysAway(g: real, b: Dual, l: real, h: real)
    requires OnTangent(g, b, l, h) && l >= 0.0 && b.value != 0.0 && Abs(h) <= Near(b, l)
    ensures Abs(g) >= Abs(b.value) / 2.0 > 0.0
  {
    hide Times, Near;
    NearPositive(b, l);
    SquareSmall(h);
    AbsTimes(b.rate, h);
    TimesLeq(Times(h, h), Abs(h), l);
    TimesSum(l, 0.0, Times(h, h));
    TimesSum(l, 0.0, Abs(h));
    TimesSum(Abs(b.rate), l, Abs(h));
    TimesLeq(Abs(h), Near(b, l), Abs(b.rate) + l);
    TimesSum(Abs(b.rate) + l, 0.0, Abs(h));
  }

  function Reciprocal(b: Dual): Dual
    requires b.value != 0.0
  {
    SquareNonZero(b.value);
    Dual(1.0 / b.value, -(b.rate / Times(b.value, b.value)))
  }

  /** What the reciprocal is off its tangent, times the divisors. */
  lemma ReciprocalExpands(g: real, b: Dual, h: real, r: real)
    requires b.value != 0.0 && g != 0.0 && r == g - b.value - Times(b.rate, h)
    ensures Times(1.0 / g - Reciprocal(b).value - Times(Reciprocal(b).rate, h), Times(Times(b.value, b.value), g))
      == Times(Times(b.rate, b.rate), Times(h, h)) + Times(r, -b.value) + Times(r, Times(b.rate, h))
  {
    var v, d := b.value, b.rate;
    var square := v * v;
    SquareNonZero(v);
    assert (1.0 / g) * (square * g) == square by { assert (1.0 / g) * g == 1.0; }
    assert (1.0 / v) * (square * g) == v * g by { assert (1.0 / v) * v == 1.0; }
    assert (d / square) * (square * g) == d * g by { assert (d / square) * square == d; }
    assert g == v + d * h + r;
    assert ((d / square) * h) * (square * g) == ((d / square) * (square * g)) * h == (d * g) * h;
    assert v * g == v * v + v * d * h + v * r;
    assert (d * g) * h == d * h * v + (d * d) * (h * h) + r * (d * h);
  }

  function ReciprocalFactor(b: Dual, l: real): real
    requires b.value != 0.0
  {
    SquareNonZero(b.value);
    HalfCubePositive(b.value);
    (Abs(Times(b.rate, b.rate)) + Times(l, Abs(b.value)) + Times(l, Abs(b.rate))) / HalfCube(b.value)
  }

  function HalfCube(v: real): real { Times(Times(v, v), Abs(v) / 2.0) }

  lemma HalfCubePositive(v: real)
    requires v != 0.0
    ensures HalfCube(v) > 0.0
  {
    SquareNonZero(v);
    TimesLess(0.0, Times(v, v), Abs(v) / 2.0);
  }

  lemma ReciprocalOnTangent(g: real, b: Dual, l: real, h: real)
    requires OnTangent(g, b, l, h) && l >= 0.0 && b.value != 0.0 && Abs(h) <= Near(b, l)
    ensures g != 0.0 && OnTangent(1.0 / g, Reciprocal(b), ReciprocalFactor(b, l), h)
  {
    hide Times, Near;
    StaysAway(g, b, l, h);
    NearPositive(b, l);
    SquareSmall(h);
    var q, r := Times(h, h), g - b.value - Times(b.rate, h);
    var off := 1.0 / g - Reciprocal(b).value - Times(Reciprocal(b).rate, h);
    var n := Abs(Times(b.rate, b.rate)) + Times(l, Abs(b.value)) + Times(l, Abs(b.rate));
    ReciprocalExpands(g, b, h, r);
    ScaledBound(Times(b.rate, b.rate), q, Abs(Times(b.rate, b.rate)));
    ScaledRemainder(r, -b.value, l, q, Abs(b.value));
    AbsTimes(b.rate, h);
    ShrinkBy(Abs(b.rate), Abs(h));
    ScaledRemainder(r, Times(b.rate, h), l, q, Abs(b.rate));
    TwoBounds(Times(Times(b.rate, b.rate), q), Times(r, -b.value), Abs(Times(b.rate, b.rate)), Times(l, Abs(b.value)), q);
    TwoBounds(Times(Times(b.rate, b.rate), q) + Times(r, -b.value), Times(r, Times(b.rate, h)),
              Abs(Times(b.rate, b.rate)) + Times(l, Abs(b.value)), Times(l, Abs(b.rate)), q);
    HalfCubePositive(b.value);
    DivisorLarge(g, b.value);
    DividedBound(off, Times(Times(b.value, b.value), g), n, q, HalfCube(b.value));
  }

  lemma DivisorLarge(g: real, v: real)
    requires Abs(g) >= Abs(v) / 2.0 && v != 0.0
    ensures Abs(Times(Times(v, v), g)) >= HalfCube(v)
  {
    hide Times;
    SquareNonZero(v);
    AbsTimes(Times(v, v), g);
    TimesLeq(Abs(v) / 2.0, Abs(g), Times(v, v));
    TimesSum(Abs(v) / 2.0, 0.0, Times(v, v));
    TimesSum(Abs(g), 0.0, Times(v, v));
  }

  /** A bound on a product gives one on its first factor when the second is large. */
  lemma DividedBound(off: real, divisor: real, n: real, q: real, least: real)
    requires Abs(Times(off, divisor)) <= Times(n, q) && Abs(divisor) >= least > 0.0
    ensures Abs(off) <= Times(n / least, q)
  {
    AbsTimes(off, divisor);
    TimesLeq(least, Abs(divisor), Abs(off));
    assert Abs(off) * least <= n * q;
    var bound := (n / least) * q;
    assert bound * least == n * q by { assert (n / least) * least == n; }
    if Abs(off) > bound {
      TimesLess(bound, Abs(off), least);
    }
  }

  lemma RatioIsProduct(f: real, g: real, a: Dual, b: Dual)
    requires g != 0.0 && b.value != 0.0
    ensures f / g == Times(f, 1.0 / g) && DualRatio(a, b) == DualTimes(a, Reciprocal(b))
  {
    var v := b.value;
    SquareNonZero(v);
    var square := v * v;
    assert a.rate * (1.0 / v) == (a.rate * v) / square by {
      assert (a.rate * (1.0 / v)) * square == a.rate * v by { assert (1.0 / v) * v == 1.0; }
    }
    assert (b.rate / square) * a.value == (b.rate * a.value) / square;
  }

  // ----- factors and uniqueness -----

  lemma CapNotNegative(d: Dual, k: real, l: real)
    requires k >= 0.0 && l >= 0.0
    ensures Times(l, Cap(d, k)) >= 0.0 && Times(l, Abs(d.value) + Abs(d.rate)) >= 0.0
  {
    TimesLeq(0.0, l, Cap(d, k));
    TimesLeq(0.0, l, Abs(d.value) + Abs(d.rate));
  }

  lemma ProductFactorNotNegative(a: Dual, b: Dual, k: real, m: real)
    requires k >= 0.0 && m >= 0.0
    ensures ProductFactor(a, b, k, m) >= 0.0
  {
    CapNotNegative(b, m, k);
    CapNotNegative(a, k, m);
  }

  lemma ReciprocalFactorNotNegative(b: Dual, m: real)
    requires m >= 0.0 && b.value != 0.0
    ensures ReciprocalFactor(b, m) >= 0.0
  {
    HalfCubePositive(b.value);
    var n := Abs(Times(b.rate, b.rate)) + Times(m, Abs(b.value)) + Times(m, Abs(b.rate));
    TimesLeq(0.0, m, Abs(b.value));
    TimesLeq(0.0, m, Abs(b.rate));
    QuotientNotNegative(n, HalfCube(b.value));
  }

  lemma QuotientNotNegative(x: real, y: real)
    requires x >= 0.0 && y > 0.0
    ensures x / y >= 0.0
  {
  }

  lemma AtThePoint(w: real, a: Dual, b: Dual, k: real, m: real)
    requires OnTangent(w, a, k, 0.0) && OnTangent(w, b, m, 0.0)
    ensures a.value == b.value
  {
  }

  function Smaller(x: real, y: real): real { if x < y then x else y }

  lemma SmallStep(gap: real, slope: real, delta: real)
    requires gap > 0.0 && slope >= 0.0 && delta > 0.0
    ensures var h := Smaller(delta, gap / (2.0 * (slope + 1.0))); 0.0 < h <= delta && Times(slope, h) < gap
  {
    var step := gap / (2.0 * (slope + 1.0));
    var h := Smaller(delta, step);
    assert step * (2.0 * (slope + 1.0)) == gap && step > 0.0 by { QuotientTimes(gap, 2.0 * (slope + 1.0)); }
    assert slope * h <= slope * step;
  }

  lemma GapShrinks(w: real, a: Dual, b: Dual, k: real, m: real, h: real)
    requires OnTangent(w, a, k, h) && OnTangent(w, b, m, h) && a.value == b.value && h > 0.0
    ensures Abs(a.rate - b.rate) <= Times(k + m, h)
  {
    hide Times;
    var gap, limit := a.rate - b.rate, Times(k + m, h);
    TwoBounds(-(w - a.value - Times(a.rate, h)), w - b.value - Times(b.rate, h), k, m, Times(h, h));
    TimesSum(a.rate, -b.rate, h);
    TimesMinus(b.rate, h);
    AbsTimes(gap, h);
    TimesTwice(k + m, h);
    if Abs(gap) > limit {
      TimesLess(limit, Abs(gap), h);
    }
  }

  lemma TimesTwice(x: real, y: real)
    ensures Times(x, Times(y, y)) == Times(Times(x, y), y)
  {
  }
}
