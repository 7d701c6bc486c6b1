/** A polynomial that is not zero has a value that is not zero: every variable becomes a power of one large number, so
    that different monomials become different powers of it, and the highest one outweighs the rest. */
module RationalCodes {
  import opened FlowTree
  import opened Rational
  import opened RationalValue
  import opened RationalNormal
  import opened PowerSums

  // ----- different exponents as different powers -----

  /** The power that a variable becomes: 1, `d`, `d * d` and so on, in the order of the variables. */
  function Place(vs: seq<string>, d: nat, k: string): nat {
    if vs == [] then 0 else if vs[0] == k then 1 else d * Place(vs[1..], d, k)
  }

  function Spread(vs: seq<string>, d: nat, x: real): Valuation {
    k => Pow(x, Place(vs, d, k))
  }

  /** The power that a monomial becomes. */
  function Code(degree: Tree<string, nat>, vs: seq<string>, d: nat): nat {
    if degree == [] then 0 else degree[0].1 * Place(vs, d, degree[0].0) + Code(degree[1..], vs, d)
  }

  function Exponent(degree: Tree<string, nat>, k: string): nat {
    if degree == [] then 0 else (if degree[0].0 == k then degree[0].1 else 0) + Exponent(degree[1..], k)
  }

  lemma {:induction false} MonomialPower(degree: Tree<string, nat>, vs: seq<string>, d: nat, x: real)
    ensures MonomialValue(degree, Spread(vs, d, x)) == Pow(x, Code(degree, vs, d))
  {
    hide Pow;
    if degree == [] {
      NoPower(x);
    } else {
      var w, n := Place(vs, d, degree[0].0), degree[0].1;
      MonomialPower(degree[1..], vs, d, x);
      PowPow(x, w, n);
      PowAdd(x, n * w, Code(degree[1..], vs, d));
    }
  }

  lemma NoPower(x: real)
    ensures Pow(x, 0) == 1.0
  {
  }

  lemma {:induction false} NoPlace(vs: seq<string>, d: nat, k: string)
    requires k !in vs
    ensures Place(vs, d, k) == 0
  {
    if vs != [] {
      NoPlace(vs[1..], d, k);
    }
  }

  /** A code written in base `d` has the exponents as its digits. */
  lemma {:induction false} CodeDigits(degree: Tree<string, nat>, vs: seq<string>, d: nat)
    requires vs != [] && vs[0] !in vs[1..]
    ensures Code(degree, vs, d) == Exponent(degree, vs[0]) + d * Code(degree, vs[1..], d)
  {
    if degree != [] {
      CodeDigits(degree[1..], vs, d);
      var (k, n) := degree[0];
      NoPlace(vs[1..], d, vs[0]);
      var p, c := Place(vs[1..], d, k), Code(degree[1..], vs[1..], d);
      NextDigit(n, d, p, c);
    }
  }

  lemma NextDigit(n: nat, d: nat, p: nat, c: nat)
    ensures n * (d * p) + d * c == d * (n * p + c)
    ensures n * 1 == n && n * 0 == 0
  {
  }

  lemma {:induction false} NextMultiple(d: nat, x: nat, y: nat)
    requires x < y
    ensures d * y >= d * x + d
  {
    OneMore(d, y - 1);
    if x < y - 1 { NextMultiple(d, x, y - 1); }
  }

  lemma SameDigits(a: nat, b: nat, d: nat, x: nat, y: nat, dx: nat, dy: nat)
    requires dx == d * x && dy == d * y && a < d && b < d && a + dx == b + dy
    ensures a == b && x == y
  {
    if x < y {
      NextMultiple(d, x, y);
    } else if y < x {
      NextMultiple(d, y, x);
    }
  }

  ghost predicate Small(degree: Tree<string, nat>, vs: seq<string>, d: nat) {
    forall k :: k in vs ==> Exponent(degree, k) < d
  }

  lemma {:induction false} CodeInjective(a: Tree<string, nat>, b: Tree<string, nat>, vs: seq<string>, d: nat)
    requires Distinct(vs) && Small(a, vs, d) && Small(b, vs, d) && Code(a, vs, d) == Code(b, vs, d)
    ensures forall k :: k in vs ==> Exponent(a, k) == Exponent(b, k)
    decreases vs
  {
    hide Code, Exponent, Distinct;
    if vs != [] {
      assert vs[0] in vs && forall k :: k in vs[1..] ==> k in vs;
      TailDistinct(vs);
      CodeDigits(a, vs, d);
      CodeDigits(b, vs, d);
      var x, y := Code(a, vs[1..], d), Code(b, vs[1..], d);
      SameDigits(Exponent(a, vs[0]), Exponent(b, vs[0]), d, x, y, d * x, d * y);
      CodeInjective(a, b, vs[1..], d);
      assert forall k :: k in vs ==> k == vs[0] || k in vs[1..];
    }
  }

  lemma {:induction false} ExponentIs(degree: Tree<string, nat>, k: string)
    requires DistinctKeys(degree)
    ensures Exponent(degree, k) == if k in Content(degree) then Content(degree)[k] else 0
  {
    hide DistinctKeys;
    if degree != [] {
      HeadNotInTail(degree);
      ExponentIs(degree[1..], k);
    }
  }

  /** Every variable of the monomial is among `vs`, with an exponent below `d`. */
  predicate Within(degree: Tree<string, nat>, vs: seq<string>, d: nat) {
    forall i :: 0 <= i < |degree| ==> degree[i].0 in vs && degree[i].1 < d
  }

  lemma ContentWithin(degree: Tree<string, nat>, vs: seq<string>, d: nat, k: string)
    requires MonomialOk(degree) && Within(degree, vs, d)
    ensures k in Content(degree) <==> Exponent(degree, k) > 0
    ensures k in Content(degree) ==> k in vs && Exponent(degree, k) == Content(degree)[k] < d
  {
    hide DistinctKeys, Content, Exponent;
    ExponentIs(degree, k);
    ContentLookup(degree, k);
    LookupFinds(degree, k);
    if k in Content(degree) {
      var i :| 0 <= i < |degree| && degree[i] == (k, Content(degree)[k]);
    }
  }

  /** Monomials with different exponents become different powers. */
  lemma DifferentCodes(a: Tree<string, nat>, b: Tree<string, nat>, vs: seq<string>, d: nat)
    requires Distinct(vs) && d > 0 && MonomialOk(a) && MonomialOk(b)
    requires Within(a, vs, d) && Within(b, vs, d) && Code(a, vs, d) == Code(b, vs, d)
    ensures Content(a) == Content(b)
  {
    hide Code, MonomialOk, Content, Within, Exponent, Distinct;
    forall k
      ensures k in Content(a) <==> Exponent(a, k) > 0
      ensures k in Content(a) ==> k in vs && Exponent(a, k) == Content(a)[k] < d
    {
      ContentWithin(a, vs, d, k);
    }
    forall k
      ensures k in Content(b) <==> Exponent(b, k) > 0
      ensures k in Content(b) ==> k in vs && Exponent(b, k) == Content(b)[k] < d
    {
      ContentWithin(b, vs, d, k);
    }
    CodeInjective(a, b, vs, d);
  }

  // ----- polynomials that are not zero -----

  function Coded(t: Tree<PolyDegree, int>, vs: seq<string>, d: nat): Powers {
    if t == [] then [] else [(Code(t[0].0.degree, vs, d), t[0].1)] + Coded(t[1..], vs, d)
  }

  lemma {:induction false} CodedIs(t: Tree<PolyDegree, int>, vs: seq<string>, d: nat)
    ensures var s := Coded(t, vs, d);
            && |s| == |t| && Weight(s) == Weight(t)
            && forall i :: 0 <= i < |t| ==> s[i] == (Code(t[i].0.degree, vs, d), t[i].1)
  {
    hide Code;
    if t != [] {
      CodedIs(t[1..], vs, d);
      var s := Coded(t, vs, d);
      assert s[1..] == Coded(t[1..], vs, d);
    }
  }

  lemma {:induction false} CodedSum(t: Tree<PolyDegree, int>, vs: seq<string>, d: nat, x: real)
    ensures SumValue(t, Spread(vs, d, x)) == PowSum(Coded(t, vs, d), x)
  {
    hide Code, Spread, MonomialValue, Pow;
    if t != [] {
      MonomialPower(t[0].0.degree, vs, d, x);
      CodedSum(t[1..], vs, d, x);
      var s := Coded(t, vs, d);
      assert s[1..] == Coded(t[1..], vs, d);
    }
  }

  /** The variables `vs`, the base `d` and the number `x` are enough to tell the terms apart. */
  predicate Room(t: Tree<PolyDegree, int>, vs: seq<string>, d: nat, x: real) {
    && x >= 1.0 + Weight(t) as real
    && forall i :: 0 <= i < |t| ==> Within(t[i].0.degree, vs, d)
  }

  /** A polynomial in normal form with a term left has a value that is not zero wherever there is room. */
  lemma TermsNonzero(t: Tree<PolyDegree, int>, vs: seq<string>, d: nat, x: real)
    requires t != [] && TermsOk(t) && Canonical(t) && AllNonzero(t) && Distinct(vs) && d > 0 && Room(t, vs, d, x)
    ensures SumValue(t, Spread(vs, d, x)) != 0.0
  {
    hide Code, Spread, SumValue, PowSum, MonomialOk, Within, Content, SortedMonomial, Weight, Distinct;
    CodedIs(t, vs, d);
    CodedSum(t, vs, d, x);
    var s := Coded(t, vs, d);
    forall i, j | 0 <= i < j < |s| ensures s[i].0 != s[j].0 {
      if s[i].0 == s[j].0 {
        DifferentCodes(t[i].0.degree, t[j].0.degree, vs, d);
        SortedIsCanonical(t[i].0, t[j].0);
      }
    }
    PowersNonzero(s, x);
  }
}
