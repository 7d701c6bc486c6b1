/** The normal form of an expression has the value of the expression. */
module RationalCorrect {
  import opened Options
  import opened Ints
  import opened FlowTree
  import opened Rational
  import opened RationalValue
  import opened RationalNormal

  predicate TermsOkBoth(rf: RationalFunction) {
    TermsOk(rf.num.sum) && TermsOk(rf.den.sum)
  }

  /** The quotient stands for `v` at `rho`: its denominator is not zero there, and its numerator is `v` times it. */
  ghost predicate StandsFor(rf: RationalFunction, v: real, rho: Valuation) {
    PolyValue(rf.den, rho) != 0.0 && PolyValue(rf.num, rho) == v * PolyValue(rf.den, rho)
  }

  // ----- the operators -----

  lemma SumStands(l: RationalFunction, r: RationalFunction, x: real, y: real, rho: Valuation)
    requires StandsFor(l, x, rho) && StandsFor(r, y, rho)
    ensures StandsFor(SumRationalFunctions(l, r), x + y, rho)
  {
    hide PolyValue, MultPolynoms, SumPolynoms;
    MultPolynomsValue(l.num, r.den, rho);
    MultPolynomsValue(r.num, l.den, rho);
    MultPolynomsValue(l.den, r.den, rho);
    SumPolynomsValue(MultPolynoms(l.num, r.den), MultPolynoms(r.num, l.den), rho);
    SumIdentity(x, y, PolyValue(l.den, rho), PolyValue(r.den, rho));
  }

  lemma SumIdentity(x: real, y: real, c: real, d: real)
    ensures (x * c) * d + (y * d) * c == (x + y) * (c * d)
    ensures (x * c) * d - (y * d) * c == (x - y) * (c * d)
    ensures (x * c) * (y * d) == (x * y) * (c * d)
    ensures c != 0.0 && d != 0.0 ==> c * d != 0.0
  {
    Regroup(x, c, d);
    Regroup(y, d, c);
    assert (y * d) * c == y * (c * d);
    Distribute(c * d, x, y);
    assert (x - y) * (c * d) == x * (c * d) - y * (c * d);
    CrossProduct(x, y, c, d);
    CrossProduct(x, c, y, d);
  }

  lemma MinusPolynomValue(p: Polynom, rho: Valuation)
    ensures PolyValue(MinusPolynom(p), rho) == -PolyValue(p, rho)
  {
    MinusValue(p.sum, rho);
  }

  lemma SubStands(l: RationalFunction, r: RationalFunction, x: real, y: real, rho: Valuation)
    requires StandsFor(l, x, rho) && StandsFor(r, y, rho)
    ensures StandsFor(SubRationalFunctions(l, r), x - y, rho)
  {
    hide PolyValue, MultPolynoms, SumPolynoms, MinusPolynom;
    var m := MultPolynoms(r.num, l.den);
    MinusPolynomValue(m, rho);
    MultPolynomsValue(l.num, r.den, rho);
    MultPolynomsValue(r.num, l.den, rho);
    MultPolynomsValue(l.den, r.den, rho);
    SumPolynomsValue(MultPolynoms(l.num, r.den), MinusPolynom(m), rho);
    SumIdentity(x, y, PolyValue(l.den, rho), PolyValue(r.den, rho));
  }

  lemma MultStands(l: RationalFunction, r: RationalFunction, x: real, y: real, rho: Valuation)
    requires StandsFor(l, x, rho) && StandsFor(r, y, rho)
    ensures StandsFor(MultRationalFunctions(l, r), x * y, rho)
  {
    hide PolyValue, MultPolynoms;
    MultPolynomsValue(l.num, r.num, rho);
    MultPolynomsValue(l.den, r.den, rho);
    SumIdentity(x, y, PolyValue(l.den, rho), PolyValue(r.den, rho));
  }

  lemma DivStands(l: RationalFunction, r: RationalFunction, x: real, y: real, rho: Valuation)
    requires StandsFor(l, x, rho) && StandsFor(r, y, rho) && y != 0.0
    ensures StandsFor(DivRationalFunctions(l, r), x / y, rho)
  {
    hide PolyValue, MultPolynoms;
    MultPolynomsValue(l.num, r.den, rho);
    MultPolynomsValue(l.den, r.num, rho);
    DivIdentity(x, y, PolyValue(l.den, rho), PolyValue(r.den, rho));
  }

  lemma DivIdentity(x: real, y: real, c: real, d: real)
    requires y != 0.0
    ensures (x * c) * d == (x / y) * (c * (y * d))
    ensures c != 0.0 && d != 0.0 ==> c * (y * d) != 0.0
  {
    var q := x / y;
    assert q * y == x;
    Regroup(c, y, d);
    assert c * (y * d) == y * (c * d) by { Regroup(y, c, d); }
    Regroup(q, y, c * d);
    Regroup(x, c, d);
    if c != 0.0 && d != 0.0 {
      assert c * d != 0.0 && y * (c * d) != 0.0;
    }
  }

  lemma NegStands(rf: RationalFunction, x: real, rho: Valuation)
    requires StandsFor(rf, x, rho)
    ensures StandsFor(MinusRationalFunction(rf), -x, rho)
  {
    MinusValue(rf.num.sum, rho);
  }

  // ----- normalisation -----

  lemma {:induction false} DividedValue(t: Tree<PolyDegree, int>, c: int, rho: Valuation)
    requires c != 0 && AllDivisible(t, c)
    ensures SumValue(MapTree(t, v => TruncDiv(v, c)), rho) * c as real == SumValue(t, rho)
  {
    hide TruncDiv, MonomialValue;
    if t != [] {
      assert Divides(c, t[0].1);
      ExactDiv(t[0].1, c);
      forall i | 0 <= i < |t[1..]| ensures Divides(c, t[1..][i].1) { assert t[1..][i] == t[i+1]; }
      DividedValue(t[1..], c, rho);
      var r := MapTree(t, v => TruncDiv(v, c));
      assert r[1..] == MapTree(t[1..], v => TruncDiv(v, c));
      var q, m := TruncDiv(t[0].1, c), MonomialValue(t[0].0.degree, rho);
      ScaledTerm(q, c, m);
      Distribute(c as real, q as real * m, SumValue(r[1..], rho));
    }
  }

  lemma ScaledTerm(q: int, c: int, m: real)
    ensures (q as real * m) * c as real == (q * c) as real * m
  {
    assert (q * c) as real == q as real * c as real;
    Regroup(q as real, m, c as real);
  }

  lemma Cancel(n: real, d: real, v: real, c: real)
    requires c != 0.0 && n * c == v * (d * c)
    ensures n == v * d
  {
    Regroup(v, d, c);
    assert (n - v * d) * c == 0.0;
  }

  /** Filtering, dividing by the common content and the shortcut for equal polynomials all keep what a quotient
      stands for. */
  lemma NormaliseStands(rf: RationalFunction, v: real, rho: Valuation)
    requires TermsOkBoth(rf) && StandsFor(rf, v, rho) && Normalise(rf).Some?
    ensures StandsFor(Normalise(rf).value, v, rho)
  {
    hide FilterPolynom, CoefGCD, TruncDiv, Divides, Gcd, SumValue, AllDivisible, TermsOk, AllNonzero;
    var num2, den2 := FilterPolynom(rf.num), FilterPolynom(rf.den);
    FilterPolynomKeeps(rf.num, rho);
    FilterPolynomKeeps(rf.den, rho);
    FilteredHasContent(rf.num);
    FilteredHasContent(rf.den);
    var g := Gcd(CoefGCD(num2), CoefGCD(den2));
    GcdDivides(CoefGCD(num2), CoefGCD(den2));
    DividedHasContent(num2, g);
    DividedHasContent(den2, g);
    DividedValue(num2.sum, g, rho);
    DividedValue(den2.sum, g, rho);
    var num3, den3 := DivPolynomByInt(num2, g), DivPolynomByInt(den2, g);
    Cancel(PolyValue(num3, rho), PolyValue(den3, rho), v, g as real);
    var h := CoefGCD(num3);
    ContentDivides(num3);
    DividedValue(num3.sum, h, rho);
    if DivPolynomByInt(num3, h) == den3 {
      ConstantValue(h, rho);
      ConstantValue(1, rho);
      SameFactor(PolyValue(den3, rho), v, h as real);
    }
  }

  lemma SameFactor(d: real, v: real, h: real)
    requires d != 0.0 && d * h == v * d
    ensures h == v
  {
    assert (h - v) * d == 0.0;
  }

  lemma DivPolynomOk(p: Polynom, c: int)
    requires c != 0 && TermsOk(p.sum)
    ensures TermsOk(DivPolynomByInt(p, c).sum)
  {
    MapTermsOk(p.sum, v => TruncDiv(v, c));
  }

  lemma NormaliseOk(rf: RationalFunction)
    requires TermsOkBoth(rf) && Normalise(rf).Some?
    ensures TermsOkBoth(Normalise(rf).value)
  {
    hide FilterPolynom, CoefGCD, TruncDiv, Divides, Gcd, AllDivisible, AllNonzero, DivPolynomByInt;
    var num2, den2 := FilterPolynom(rf.num), FilterPolynom(rf.den);
    FilterPolynomKeeps(rf.num, _ => 0.0);
    FilterPolynomKeeps(rf.den, _ => 0.0);
    FilteredHasContent(rf.num);
    GcdDivides(CoefGCD(num2), CoefGCD(den2));
    var g := Gcd(CoefGCD(num2), CoefGCD(den2));
    DivPolynomOk(num2, g);
    DivPolynomOk(den2, g);
    ConstantOk(1);
    DividedHasContent(num2, g);
    ConstantOk(CoefGCD(DivPolynomByInt(num2, g)));
  }

  lemma ConstantOk(n: int)
    ensures TermsOk(Constant(n).sum)
  {
  }

  lemma MultOk(l: Polynom, r: Polynom)
    requires TermsOk(l.sum) && TermsOk(r.sum)
    ensures TermsOk(MultPolynoms(l, r).sum)
  {
    EmptyOk();
    MultTermsOk(l.sum, r.sum, []);
  }

  lemma MinusOk(p: Polynom)
    requires TermsOk(p.sum)
    ensures TermsOk(MinusPolynom(p).sum)
  {
    MapTermsOk(p.sum, r => -r);
  }

  lemma OperatorsOk(l: RationalFunction, r: RationalFunction)
    requires TermsOkBoth(l) && TermsOkBoth(r)
    ensures TermsOkBoth(SumRationalFunctions(l, r)) && TermsOkBoth(SubRationalFunctions(l, r))
    ensures TermsOkBoth(MultRationalFunctions(l, r)) && TermsOkBoth(DivRationalFunctions(l, r))
  {
    hide TermsOk, MultPolynoms, MinusPolynom;
    MultOk(l.num, r.den);
    MultOk(r.num, l.den);
    MultOk(l.den, r.den);
    MultOk(l.num, r.num);
    MultOk(l.den, r.num);
    MinusOk(MultPolynoms(r.num, l.den));
    MergeTermsOk(MultPolynoms(l.num, r.den).sum, MultPolynoms(r.num, l.den).sum);
    MergeTermsOk(MultPolynoms(l.num, r.den).sum, MinusPolynom(MultPolynoms(r.num, l.den)).sum);
  }

  // ----- the theorem -----

  lemma {:induction false} ExprOk(e: Expression)
    ensures Raw(e).Some? ==> TermsOkBoth(Raw(e).value)
    ensures Expr2rf(e).Some? ==> TermsOkBoth(Expr2rf(e).value)
  {
    hide TermsOk, Normalise;
    match e {
      case Number(v) => ConstantOk(v); ConstantOk(1);
      case Var(x) => ConstantOk(1); VariableOk(x);
      case Neg(e1) =>
        ExprOk(e1);
        if Expr2rf(e1).Some? { MinusOk(Expr2rf(e1).value.num); }
      case _ =>
        ExprOk(e.left);
        ExprOk(e.right);
        if Expr2rf(e.left).Some? && Expr2rf(e.right).Some? {
          OperatorsOk(Expr2rf(e.left).value, Expr2rf(e.right).value);
        }
    }
    if Expr2rf(e).Some? {
      NormaliseOk(Raw(e).value);
    }
  }

  lemma VariableOk(x: string)
    ensures TermsOk([(PolyDegree([(x, 1)]), 1)])
  {
  }

  lemma VariableValue(x: string, rho: Valuation)
    ensures PolyValue(Polynom([(PolyDegree([(x, 1)]), 1)]), rho) == rho(x)
  {
    var m := PolyDegree([(x, 1)]);
    assert [(x, 1 as nat)][1..] == [] && [(m, 1)][1..] == [];
    assert Pow(rho(x), 1) == rho(x) * Pow(rho(x), 0);
    assert MonomialValue(m.degree, rho) == Pow(rho(x), 1) * MonomialValue([], rho);
    assert SumValue([(m, 1)], rho) == Term(m, 1, rho) + SumValue([], rho);
  }

  lemma {:induction false} RawStands(e: Expression, rho: Valuation)
    requires Value(e, rho).Some? && Raw(e).Some?
    requires e.Neg? ==> Expr2rf(e.exp).Some? ==> StandsFor(Expr2rf(e.exp).value, Value(e.exp, rho).value, rho)
    requires !e.Neg? && !e.Number? && !e.Var? ==>
               && (Expr2rf(e.left).Some? ==> StandsFor(Expr2rf(e.left).value, Value(e.left, rho).value, rho))
               && (Expr2rf(e.right).Some? ==> StandsFor(Expr2rf(e.right).value, Value(e.right, rho).value, rho))
    ensures StandsFor(Raw(e).value, Value(e, rho).value, rho)
  {
    hide Normalise, StandsFor, SumRationalFunctions, SubRationalFunctions, MultRationalFunctions,
      DivRationalFunctions, MinusRationalFunction;
    match e
    case Number(v) => NumberStands(v, rho);
    case Var(x) => VariableStands(x, rho);
    case Neg(e1) => NegStands(Expr2rf(e1).value, Value(e1, rho).value, rho);
    case _ => BinaryStands(e, rho);
  }

  lemma NumberStands(v: int, rho: Valuation)
    ensures StandsFor(RationalFunction(Constant(v), Constant(1)), v as real, rho)
  {
    ConstantValue(v, rho);
    ConstantValue(1, rho);
  }

  lemma VariableStands(x: string, rho: Valuation)
    ensures StandsFor(RationalFunction(Polynom([(PolyDegree([(x, 1)]), 1)]), Constant(1)), rho(x), rho)
  {
    VariableValue(x, rho);
    ConstantValue(1, rho);
  }

  lemma BinaryStands(e: Expression, rho: Valuation)
    requires e.Add? || e.Sub? || e.Mult? || e.Div?
    requires Value(e, rho).Some? && Raw(e).Some?
    requires Expr2rf(e.left).Some? ==> StandsFor(Expr2rf(e.left).value, Value(e.left, rho).value, rho)
    requires Expr2rf(e.right).Some? ==> StandsFor(Expr2rf(e.right).value, Value(e.right, rho).value, rho)
    ensures StandsFor(Raw(e).value, Value(e, rho).value, rho)
  {
    hide Normalise, StandsFor, SumRationalFunctions, SubRationalFunctions, MultRationalFunctions,
      DivRationalFunctions;
    var lo, ro := Expr2rf(e.left), Expr2rf(e.right);
    var l, r, x, y := lo.value, ro.value, Value(e.left, rho).value, Value(e.right, rho).value;
    match e
    case Add(_, _) => SumStands(l, r, x, y, rho);
    case Sub(_, _) => SubStands(l, r, x, y, rho);
    case Mult(_, _) =>
      MultStands(l, r, x, y, rho);
      assert Value(e, rho).value == x * y;
      assert Raw(e).value == MultRationalFunctions(l, r);
    case Div(_, _) => DivStands(l, r, x, y, rho);
  }

  /** Value preservation: wherever no divisor is zero, the normal form has a denominator that is not zero and a
      numerator that is the expression's value times it. */
  lemma {:induction false} ValuePreserved(e: Expression, rho: Valuation)
    requires Value(e, rho).Some? && Expr2rf(e).Some?
    ensures StandsFor(Expr2rf(e).value, Value(e, rho).value, rho)
  {
    hide Normalise, StandsFor, TermsOkBoth;
    match e {
      case Number(_) =>
      case Var(_) =>
      case Neg(e1) => ValuePreserved(e1, rho);
      case _ => ValuePreserved(e.left, rho); ValuePreserved(e.right, rho);
    }
    RawStands(e, rho);
    ExprOk(e);
    NormaliseStands(Raw(e).value, Value(e, rho).value, rho);
  }

  lemma NonzeroValueIsNotZero(p: Polynom, rho: Valuation)
    requires TermsOk(p.sum) && PolyValue(p, rho) != 0.0
    ensures !FormalZero(p)
  {
    FilterEmptyExactly(p);
    FilterPolynomKeeps(p, rho);
  }

  lemma StandingDenominator(rf: RationalFunction, v: real, rho: Valuation)
    requires TermsOkBoth(rf) && StandsFor(rf, v, rho)
    ensures !FormalZero(rf.den)
  {
    NonzeroValueIsNotZero(rf.den, rho);
  }

  lemma {:induction false} MergeSumCoefficient(l: Tree<PolyDegree, int>, r: Tree<PolyDegree, int>, c: map<string, nat>)
    ensures Coefficient(MergeTreeCustom(l, r, AddInt), c) == Coefficient(l, c) + Coefficient(r, c)
    decreases r
  {
    hide CombineAt, Content;
    if r != [] {
      CombineCoefficient(l, r[0].0, r[0].1, c);
      MergeSumCoefficient(CombineAt(l, r[0].0, r[0].1, AddInt), r[1..], c);
    }
  }

  lemma {:induction false} MinusCoefficient(t: Tree<PolyDegree, int>, c: map<string, nat>)
    ensures Coefficient(MapTree(t, r => -r), c) == -Coefficient(t, c)
  {
    if t != [] {
      MinusCoefficient(t[1..], c);
      assert MapTree(t, r => -r)[1..] == MapTree(t[1..], r => -r);
    }
  }

  /** An expression subtracted from itself never has a normal form, although its value is zero wherever the
      expression has one. */
  lemma SelfDifferenceFails(e: Expression)
    ensures Expr2rf(Sub(e, e)).None?
  {
    hide Normalise;
    if Expr2rf(e).Some? {
      var rf := Expr2rf(e).value;
      var m := MultPolynoms(rf.num, rf.den);
      var raw := SubRationalFunctions(rf, rf);
      assert Raw(Sub(e, e)) == Some(raw);
      ExprOk(e);
      OperatorsOk(rf, rf);
      forall c: map<string, nat> ensures Coefficient(raw.num.sum, c) == 0 {
        MergeSumCoefficient(m.sum, MinusPolynom(m).sum, c);
        MinusCoefficient(m.sum, c);
      }
      NormaliseZero(raw);
    }
  }

  lemma NormaliseZero(rf: RationalFunction)
    requires TermsOkBoth(rf) && FormalZero(rf.num)
    ensures Normalise(rf).None?
  {
    FilterEmptyExactly(rf.num);
  }
}
