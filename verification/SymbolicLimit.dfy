/** The rate that the evaluation with rates gives is the derivative: it is the slope of the tangent, from which the
    values of the expression nearby differ by no more than a multiple of the square of the distance. */
module SymbolicLimit {
  import opened Reals
  import opened Symbolic
  import opened Tangents
  import opened TangentRules

  /** A tangent in a wide neighbourhood is one in a narrow neighbourhood. */
  lemma Narrower(exp: Expression, variables: Variables, name: string, d: Dual, k: real, wide: real, delta: real)
    requires name in variables && HasTangent(exp, variables, name, d, k, wide) && delta <= wide
    ensures HasTangent(exp, variables, name, d, k, delta)
  {
  }

  lemma LeafTangent(exp: Expression, variables: Variables, name: string)
    requires name in variables && (exp.Number? || exp.Variable?) && Evaluate(exp, variables, name).Some?
    ensures HasTangent(exp, variables, name, Evaluate(exp, variables, name).value, 0.0, 1.0)
  {
  }

  /** Wherever an expression has a value, its rate of change is the slope of its tangent. */
  lemma {:induction false} RateIsSlope(exp: Expression, variables: Variables, name: string) returns (k: real, delta: real)
    requires name in variables && Evaluate(exp, variables, name).Some?
    ensures Fits(k, delta) && HasTangent(exp, variables, name, Evaluate(exp, variables, name).value, k, delta)
    decreases exp, 1
  {
    hide OnTangent, HasTangent, DualTimes, DualRatio, Near;
    match exp
    case Number(_) =>
      k, delta := 0.0, 1.0;
      LeafTangent(exp, variables, name);
    case Variable(_) =>
      k, delta := 0.0, 1.0;
      LeafTangent(exp, variables, name);
    case Negative(e) =>
      k, delta := RateIsSlope(e, variables, name);
      NegativeTangent(e, variables, name, Evaluate(e, variables, name).value, k, delta);
    case Add(l, r) =>
      var a, b, m;
      a, b, k, m, delta := BothTangents(exp, l, r, variables, name);
      SumTangent(l, r, variables, name, a, b, k, m, delta);
      k := k + m;
    case Subtract(l, r) =>
      var a, b, m;
      a, b, k, m, delta := BothTangents(exp, l, r, variables, name);
      SumTangent(l, r, variables, name, a, b, k, m, delta);
      k := k + m;
    case Multiply(l, r) =>
      var a, b, m;
      a, b, k, m, delta := BothTangents(exp, l, r, variables, name);
      ProductTangent(l, r, variables, name, a, b, k, m, delta);
      k := ProductFactor(a, b, k, m);
    case Divide(l, r) =>
      var a, b, m, wide;
      a, b, k, m, wide := BothTangents(exp, l, r, variables, name);
      NearPositive(b, m);
      delta := Smaller(wide, Near(b, m));
      Narrower(l, variables, name, a, k, wide, delta);
      Narrower(r, variables, name, b, m, wide, delta);
      QuotientTangent(l, r, variables, name, a, b, k, m, delta);
      k := ProductFactor(a, Reciprocal(b), k, ReciprocalFactor(b, m));
  }

  lemma {:induction false} BothTangents(whole: Expression, l: Expression, r: Expression, variables: Variables,
                                        name: string)
    returns (a: Dual, b: Dual, k: real, m: real, delta: real)
    requires l < whole && r < whole && name in variables
    requires Evaluate(l, variables, name).Some? && Evaluate(r, variables, name).Some?
    ensures a == Evaluate(l, variables, name).value && b == Evaluate(r, variables, name).value
    ensures Fits(k, delta) && Fits(m, delta)
    ensures HasTangent(l, variables, name, a, k, delta) && HasTangent(r, variables, name, b, m, delta)
    decreases whole, 0
  {
    hide HasTangent;
    var x, y;
    a, b := Evaluate(l, variables, name).value, Evaluate(r, variables, name).value;
    k, x := RateIsSlope(l, variables, name);
    m, y := RateIsSlope(r, variables, name);
    delta := Smaller(x, y);
    Narrower(l, variables, name, a, k, x, delta);
    Narrower(r, variables, name, b, m, y, delta);
  }

  /** There is only one tangent. */
  lemma TangentUnique(exp: Expression, variables: Variables, name: string, a: Dual, b: Dual, k: real, m: real, delta: real)
    requires name in variables && Fits(k, delta) && Fits(m, delta)
    requires HasTangent(exp, variables, name, a, k, delta) && HasTangent(exp, variables, name, b, m, delta)
    ensures a == b
  {
    hide OnTangent, Moved;
    assert OnTangent(Moved(exp, variables, name, 0.0).value, a, k, 0.0);
    assert OnTangent(Moved(exp, variables, name, 0.0).value, b, m, 0.0);
    AtThePoint(Moved(exp, variables, name, 0.0).value, a, b, k, m);
    if a.rate != b.rate {
      var gap := Abs(a.rate - b.rate);
      var h := Smaller(delta, gap / (2.0 * (k + m + 1.0)));
      SmallStep(gap, k + m, delta);
      assert Moved(exp, variables, name, h).Some?;
      GapShrinks(Moved(exp, variables, name, h).value, a, b, k, m, h);
    }
  }

  /** The program's way to a derivative gives the slope of the tangent of the expression it started with. */
  lemma PipelineIsSlope(exp: Expression, variables: Variables, name: string) returns (k: real, delta: real)
    requires name in variables && Calculate(exp, variables).Some?
    ensures Calculate(DerivativeAndSimplify(Simplify(exp), name), variables).Some?
    ensures Fits(k, delta)
    ensures HasTangent(exp, variables, name,
      Dual(Calculate(exp, variables).value, Calculate(DerivativeAndSimplify(Simplify(exp), name), variables).value), k, delta)
  {
    hide HasTangent, Evaluate, Calculate, Simplify, Derivative;
    PipelineIsRate(exp, variables, name);
    DerivativeIsRate(exp, variables, name);
    k, delta := RateIsSlope(exp, variables, name);
  }
}
