/** The rules of differentiation: tangents of compound expressions from those of their parts. */
module TangentRules {
  import opened Options
  import opened Reals
  import opened Symbolic
  import opened Tangents

  /** The value of an expression when one variable is moved by `h`. */
  function Moved(exp: Expression, variables: Variables, name: string, h: real): Maybe<real>
    requires name in variables
  {
    Calculate(exp, variables[name := variables[name] + h])
  }

  ghost predicate HasTangent(exp: Expression, variables: Variables, name: string, d: Dual, k: real, delta: real)
    requires name in variables
  {
    forall h: real :: Abs(h) <= delta ==>
      Moved(exp, variables, name, h).Some? && OnTangent(Moved(exp, variables, name, h).value, d, k, h)
  }

  predicate Fits(k: real, delta: real) { k >= 0.0 && 0.0 < delta <= 1.0 }

  lemma NegativeTangent(e: Expression, variables: Variables, name: string, d: Dual, k: real, delta: real)
    requires name in variables && HasTangent(e, variables, name, d, k, delta)
    ensures HasTangent(Negative(e), variables, name, Dual(-d.value, -d.rate), k, delta)
  {
    hide OnTangent;
    forall h: real | Abs(h) <= delta
      ensures Moved(Negative(e), variables, name, h).Some?
      ensures OnTangent(Moved(Negative(e), variables, name, h).value, Dual(-d.value, -d.rate), k, h)
    {
      MinusOnTangent(Moved(e, variables, name, h).value, d, k, h);
    }
  }

  lemma SumTangent(l: Expression, r: Expression, variables: Variables, name: string, a: Dual, b: Dual,
                   k: real, m: real, delta: real)
    requires name in variables
    requires HasTangent(l, variables, name, a, k, delta) && HasTangent(r, variables, name, b, m, delta)
    ensures HasTangent(Add(l, r), variables, name, Dual(a.value + b.value, a.rate + b.rate), k + m, delta)
    ensures HasTangent(Subtract(l, r), variables, name, Dual(a.value - b.value, a.rate - b.rate), k + m, delta)
  {
    hide OnTangent;
    forall h: real | Abs(h) <= delta
      ensures var x, y := Moved(Add(l, r), variables, name, h), Moved(Subtract(l, r), variables, name, h);
        && x.Some? && OnTangent(x.value, Dual(a.value + b.value, a.rate + b.rate), k + m, h)
        && y.Some? && OnTangent(y.value, Dual(a.value - b.value, a.rate - b.rate), k + m, h)
    {
      SumOnTangent(Moved(l, variables, name, h).value, Moved(r, variables, name, h).value, a, b, k, m, h);
    }
  }

  lemma ProductTangent(l: Expression, r: Expression, variables: Variables, name: string, a: Dual, b: Dual,
                       k: real, m: real, delta: real)
    requires name in variables && Fits(k, delta) && Fits(m, delta)
    requires HasTangent(l, variables, name, a, k, delta) && HasTangent(r, variables, name, b, m, delta)
    ensures HasTangent(Multiply(l, r), variables, name, DualTimes(a, b), ProductFactor(a, b, k, m), delta)
    ensures ProductFactor(a, b, k, m) >= 0.0
  {
    hide OnTangent, Times, ProductFactor, DualTimes;
    ProductFactorNotNegative(a, b, k, m);
    forall h: real | Abs(h) <= delta
      ensures Moved(Multiply(l, r), variables, name, h).Some?
      ensures OnTangent(Moved(Multiply(l, r), variables, name, h).value, DualTimes(a, b), ProductFactor(a, b, k, m), h)
    {
      ProductOnTangent(Moved(l, variables, name, h).value, Moved(r, variables, name, h).value, a, b, k, m, h);
    }
  }

  lemma QuotientTangent(l: Expression, r: Expression, variables: Variables, name: string, a: Dual, b: Dual,
                        k: real, m: real, delta: real)
    requires name in variables && Fits(k, delta) && Fits(m, delta) && b.value != 0.0 && delta <= Near(b, m)
    requires HasTangent(l, variables, name, a, k, delta) && HasTangent(r, variables, name, b, m, delta)
    ensures HasTangent(Divide(l, r), variables, name, DualRatio(a, b),
      ProductFactor(a, Reciprocal(b), k, ReciprocalFactor(b, m)), delta)
    ensures ProductFactor(a, Reciprocal(b), k, ReciprocalFactor(b, m)) >= 0.0
  {
    hide OnTangent, Times, ProductFactor, ReciprocalFactor, DualTimes, DualRatio, Reciprocal, Near;
    ReciprocalFactorNotNegative(b, m);
    var c, n := Reciprocal(b), ReciprocalFactor(b, m);
    ProductFactorNotNegative(a, c, k, n);
    forall h: real | Abs(h) <= delta
      ensures Moved(Divide(l, r), variables, name, h).Some?
      ensures OnTangent(Moved(Divide(l, r), variables, name, h).value, DualRatio(a, b), ProductFactor(a, c, k, n), h)
    {
      var f, g := Moved(l, variables, name, h).value, Moved(r, variables, name, h).value;
      ReciprocalOnTangent(g, b, m, h);
      ProductOnTangent(f, 1.0 / g, a, c, k, n, h);
      RatioIsProduct(f, g, a, b);
    }
  }
}
