/** Exact reals: absolute values, and products by the few laws that the proofs need. */
module Reals {

  function Abs(x: real): (r: real)
    ensures r >= 0.0 && -r <= x <= r && (r == x || r == -x)
  {
    if x < 0.0 then -x else x
  }

  function Times(x: real, y: real): real { x * y }

  lemma TimesLeq(x: real, y: real, z: real)
    requires x <= y && z >= 0.0
    ensures Times(x, z) <= Times(y, z)
  {
  }

  lemma TimesLess(x: real, y: real, z: real)
    requires x < y && z > 0.0
    ensures Times(x, z) < Times(y, z)
  {
  }

  lemma TimesSum(x: real, y: real, z: real)
    ensures Times(x + y, z) == Times(x, z) + Times(y, z) && Times(x, z) == Times(z, x)
  {
  }

  lemma AbsTimes(x: real, y: real)
    ensures Abs(Times(x, y)) == Times(Abs(x), Abs(y))
  {
    if x >= 0.0 {
      TimesLeq(0.0, x, Abs(y));
    } else {
      TimesLeq(0.0, -x, Abs(y));
    }
  }

  lemma ScaledBound(x: real, y: real, bound: real)
    requires Abs(x) <= bound
    ensures Abs(Times(x, y)) <= Times(bound, Abs(y))
  {
    hide Times, Abs;
    AbsTimes(x, y);
    TimesLeq(Abs(x), bound, Abs(y));
  }

  lemma TwoBounds(x: real, y: real, u: real, v: real, factor: real)
    requires Abs(x) <= Times(u, factor) && Abs(y) <= Times(v, factor)
    ensures Abs(x + y) <= Times(u + v, factor)
  {
    hide Times;
    TimesSum(u, v, factor);
  }

  lemma AbsSum(x: real, y: real, z: real, u: real, v: real)
    requires Abs(x) <= u && Abs(y) <= v
    ensures Abs(x + y + z) <= u + v + Abs(z)
  {
  }
}
