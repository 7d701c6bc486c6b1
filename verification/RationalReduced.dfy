/** The normal form is reduced: no whole number divides it, and a numerator that is a multiple of the denominator leaves
    the factor alone. */
module RationalReduced {
  import opened Ints
  import opened FlowTree
  import opened Rational
  import opened RationalValue
  import opened RationalNormal
  import opened RationalCorrect
  import opened RationalZeros

  type Terms = Tree<PolyDegree, int>

  /** The same monomials in the same order, with `k` times the coefficients. */
  predicate Scaled(t: Terms, s: Terms, k: int) {
    |t| == |s| && forall i :: 0 <= i < |t| ==> t[i].0 == s[i].0 && t[i].1 == k * s[i].1
  }

  /** Only one and minus one divide all coefficients. */
  ghost predicate Reduced(rf: RationalFunction) {
    forall d :: AllDivisible(rf.num.sum, d) && AllDivisible(rf.den.sum, d) ==> d == 1 || d == -1
  }

  // ----- contents -----

  lemma {:induction false} FoldGcdGreatest(t: Terms, acc: int, d: int)
    requires Divides(d, acc) && AllDivisible(t, d)
    ensures Divides(d, FoldGcd(t, acc))
  {
    hide Divides;
    if t != [] {
      GcdGreatest(d, acc, t[0].1);
      FoldGcdGreatest(t[1..], Gcd(acc, t[0].1), d);
    }
  }

  lemma ContentGreatest(p: Polynom, d: int)
    requires p.sum != [] && AllDivisible(p.sum, d)
    ensures Divides(d, CoefGCD(p))
  {
    FoldGcdGreatest(p.sum, p.sum[0].1, d);
  }

  lemma {:induction false} FoldGcdScaled(t: Terms, s: Terms, k: nat, acc: int)
    requires k > 0 && Scaled(t, s, k)
    ensures FoldGcd(t, k * acc) == k * FoldGcd(s, acc)
    decreases t
  {
    hide Gcd;
    if t != [] {
      GcdScaled(k, acc, s[0].1);
      FoldGcdScaled(t[1..], s[1..], k, Gcd(acc, s[0].1));
    }
  }

  lemma ContentScaled(p: Polynom, q: Polynom, k: nat)
    requires k > 0 && p.sum != [] && Scaled(p.sum, q.sum, k)
    ensures CoefGCD(p) == k * CoefGCD(q)
  {
    FoldGcdScaled(p.sum, q.sum, k, q.sum[0].1);
  }

  lemma {:induction false} FoldGcdNat(t: Terms, acc: int)
    requires t != [] || acc >= 0
    ensures FoldGcd(t, acc) >= 0
  {
    hide Gcd;
    if t != [] {
      FoldGcdNat(t[1..], Gcd(acc, t[0].1));
    }
  }

  lemma ContentPositive(p: Polynom)
    requires p.sum != [] && AllNonzero(p.sum)
    ensures CoefGCD(p) > 0
  {
    ContentDivides(p);
    FoldGcdNat(p.sum, p.sum[0].1);
  }

  lemma DividedScaled(p: Polynom, c: int)
    requires c != 0 && AllDivisible(p.sum, c)
    ensures Scaled(p.sum, DivPolynomByInt(p, c).sum, c)
  {
    hide TruncDiv, Divides;
    MapDivided(p.sum, c);
    var q := DivPolynomByInt(p, c).sum;
    forall i | 0 <= i < |p.sum| ensures p.sum[i].0 == q[i].0 && p.sum[i].1 == c * q[i].1 {
      assert q[i].1 * c == p.sum[i].1;
    }
  }

  /** A factor can be taken out of both sides. */
  lemma ScaledCancel(t: Terms, s: Terms, t': Terms, s': Terms, g: int, k: int)
    requires g != 0 && Scaled(t, t', g) && Scaled(s, s', g)
    ensures Scaled(t, s, k) <==> Scaled(t', s', k)
  {
    if |t| == |s| {
      forall i | 0 <= i < |t|
        ensures (t[i].0 == s[i].0 && t[i].1 == k * s[i].1) <==> (t'[i].0 == s'[i].0 && t'[i].1 == k * s'[i].1)
      {
        CancelFactor(g, k, t[i].1, s[i].1, t'[i].1, s'[i].1);
      }
    }
  }

  lemma CancelFactor(g: int, k: int, x: int, y: int, x': int, y': int)
    requires g != 0 && x == g * x' && y == g * y'
    ensures x == k * y <==> x' == k * y'
  {
    assert x - k * y == g * (x' - k * y');
  }

  lemma ScaledSame(t: Terms, s: Terms, s': Terms, k: int)
    requires k != 0 && Scaled(t, s, k) && Scaled(t, s', k)
    ensures s == s'
  {
    forall i | 0 <= i < |s| ensures s[i] == s'[i] {
      assert k * (s[i].1 - s'[i].1) == 0;
    }
  }

  // ----- dividing by the common content -----

  lemma AllDivisibleMore(t: Terms, s: Terms, g: int, d: int)
    requires Scaled(t, s, g) && AllDivisible(s, d)
    ensures AllDivisible(t, d * g)
  {
    forall i | 0 <= i < |t| ensures Divides(d * g, t[i].1) {
      assert Divides(d, s[i].1);
      var q :| s[i].1 == d * q;
      FactorOut(g, d, q);
      assert t[i].1 == (d * g) * q;
    }
  }

  lemma FactorOut(g: int, d: int, q: int)
    ensures g * (d * q) == (d * g) * q
  {
  }

  lemma UnitFactor(d: int, g: int)
    requires g > 0 && Divides(d * g, g)
    ensures d == 1 || d == -1
  {
    var q :| g == d * g * q;
    FactorOut(g, d, q);
    assert g * (d * q - 1) == 0;
    assert d * q == 1;
    UnitProduct(d, q);
  }

  lemma UnitProduct(d: int, q: int)
    requires d * q == 1
    ensures d == 1 || d == -1
  {
    AbsProduct(d, q);
    var x: nat, y: nat := Abs(d), Abs(q);
    MulAtLeast(x, y);
    assert y == 0 ==> x * y == 0;
    assert x == 0 ==> x * y == 0;
  }

  lemma CommonDivisor(num2: Polynom, den2: Polynom, num3: Polynom, den3: Polynom, d: int)
    requires num2.sum != [] && den2.sum != [] && AllNonzero(num2.sum) && AllNonzero(den2.sum)
    requires var g := Gcd(CoefGCD(num2), CoefGCD(den2)); Scaled(num2.sum, num3.sum, g) && Scaled(den2.sum, den3.sum, g)
    requires AllDivisible(num3.sum, d) && AllDivisible(den3.sum, d)
    ensures d == 1 || d == -1
  {
    hide Gcd, CoefGCD, Divides, Scaled, AllDivisible, AllNonzero;
    var a, b := CoefGCD(num2), CoefGCD(den2);
    var g := Gcd(a, b);
    ContentPositive(num2);
    GcdDivides(a, b);
    AllDivisibleMore(num2.sum, num3.sum, g, d);
    AllDivisibleMore(den2.sum, den3.sum, g, d);
    ContentGreatest(num2, d * g);
    ContentGreatest(den2, d * g);
    GcdGreatest(d * g, a, b);
    UnitFactor(d, g);
  }

  /** Divided by their common content, two polynomials have no common divisor left. */
  lemma NothingLeft(num2: Polynom, den2: Polynom, num3: Polynom, den3: Polynom)
    requires num2.sum != [] && den2.sum != [] && AllNonzero(num2.sum) && AllNonzero(den2.sum)
    requires var g := Gcd(CoefGCD(num2), CoefGCD(den2)); Scaled(num2.sum, num3.sum, g) && Scaled(den2.sum, den3.sum, g)
    ensures Reduced(RationalFunction(num3, den3))
  {
    hide Gcd, CoefGCD, Scaled, AllNonzero;
    forall d | AllDivisible(num3.sum, d) && AllDivisible(den3.sum, d) ensures d == 1 || d == -1 {
      CommonDivisor(num2, den2, num3, den3, d);
    }
  }

  // ----- the normal form of a quotient -----

  /** What is left of a quotient after filtering and division by the common content. */
  lemma Parts(rf: RationalFunction) returns (num2: Polynom, den2: Polynom, num3: Polynom, den3: Polynom, g: nat)
    requires Normalise(rf).Some?
    ensures num2 == FilterPolynom(rf.num) && den2 == FilterPolynom(rf.den) && num2.sum != [] && den2.sum != []
    ensures num3.sum != [] && den3.sum != []
    ensures AllNonzero(num2.sum) && AllNonzero(den2.sum) && AllNonzero(num3.sum) && AllNonzero(den3.sum)
    ensures g > 0 && g == Gcd(CoefGCD(num2), CoefGCD(den2))
    ensures Scaled(num2.sum, num3.sum, g) && Scaled(den2.sum, den3.sum, g)
    ensures CoefGCD(num3) > 0 && Scaled(num3.sum, DivPolynomByInt(num3, CoefGCD(num3)).sum, CoefGCD(num3))
    ensures Normalise(rf).value
            == if DivPolynomByInt(num3, CoefGCD(num3)) == den3
               then RationalFunction(Constant(CoefGCD(num3)), Constant(1)) else RationalFunction(num3, den3)
  {
    hide FilterPolynom, CoefGCD, TruncDiv, Divides, Gcd, AllDivisible, AllNonzero, DivPolynomByInt, Scaled;
    num2, den2 := FilterPolynom(rf.num), FilterPolynom(rf.den);
    FilteredHasContent(rf.num);
    FilteredHasContent(rf.den);
    ContentPositive(num2);
    g := Gcd(CoefGCD(num2), CoefGCD(den2));
    GcdDivides(CoefGCD(num2), CoefGCD(den2));
    DividedHasContent(num2, g);
    DividedHasContent(den2, g);
    num3, den3 := DivPolynomByInt(num2, g), DivPolynomByInt(den2, g);
    DividedScaled(num2, g);
    DividedScaled(den2, g);
    ContentPositive(num3);
    ContentDivides(num3);
    DividedScaled(num3, CoefGCD(num3));
  }

  /** Exactly when the numerator is, after filtering, a positive multiple of the denominator, the result is the factor over
      one. Otherwise it is the quotient divided by the greatest number that divides it. */
  lemma NormaliseExactly(rf: RationalFunction)
    requires Normalise(rf).Some?
    ensures var num2, den2, r := FilterPolynom(rf.num).sum, FilterPolynom(rf.den).sum, Normalise(rf).value;
            && (forall k: nat :: k > 0 && Scaled(num2, den2, k) ==> r == RationalFunction(Constant(k), Constant(1)))
            && ((exists k: nat :: k > 0 && Scaled(num2, den2, k))
                || (Reduced(r) && exists g: nat :: g > 0 && Scaled(num2, r.num.sum, g) && Scaled(den2, r.den.sum, g)))
  {
    hide FilterPolynom, CoefGCD, Gcd, AllNonzero, DivPolynomByInt, Scaled, Normalise, Reduced;
    var num2, den2, num3, den3, g := Parts(rf);
    forall k: nat | k > 0 && Scaled(num2.sum, den2.sum, k)
      ensures Normalise(rf).value == RationalFunction(Constant(k), Constant(1))
    {
      MultipleShortened(num2, den2, num3, den3, g, k);
    }
    var h := CoefGCD(num3);
    if DivPolynomByInt(num3, h) == den3 {
      ScaledCancel(num2.sum, den2.sum, num3.sum, den3.sum, g, h);
    } else {
      NothingLeft(num2, den2, num3, den3);
    }
  }

  lemma MultipleShortened(num2: Polynom, den2: Polynom, num3: Polynom, den3: Polynom, g: nat, k: nat)
    requires num2.sum != [] && den2.sum != [] && AllNonzero(den2.sum) && g > 0 && k > 0
    requires g == Gcd(CoefGCD(num2), CoefGCD(den2)) && Scaled(num2.sum, num3.sum, g) && Scaled(den2.sum, den3.sum, g)
    requires num3.sum != [] && den3.sum != [] && Scaled(num2.sum, den2.sum, k)
    requires CoefGCD(num3) > 0 && Scaled(num3.sum, DivPolynomByInt(num3, CoefGCD(num3)).sum, CoefGCD(num3))
    ensures CoefGCD(num3) == k && DivPolynomByInt(num3, k) == den3
  {
    hide CoefGCD, Gcd, AllNonzero, DivPolynomByInt, Scaled;
    ScaledCancel(num2.sum, den2.sum, num3.sum, den3.sum, g, k);
    ContentPositive(den2);
    ContentScaled(num2, den2, k);
    GcdOfMultiple(k, CoefGCD(den2));
    ContentScaled(den2, den3, g);
    OneFactor(g, CoefGCD(den3));
    ScaledLength(num3.sum, den3.sum, k);
    ContentScaled(num3, den3, k);
    ScaledSame(num3.sum, den3.sum, DivPolynomByInt(num3, k).sum, k);
  }

  lemma ScaledLength(t: Terms, s: Terms, k: int)
    requires Scaled(t, s, k)
    ensures |t| == |s|
  {
  }

  lemma GcdOfMultiple(k: nat, c: nat)
    requires c > 0
    ensures Gcd(k * c, c) == c
  {
    hide Gcd;
    assert c == c * 1 && k * c == c * k;
    assert Divides(c, c) && Divides(c, k * c);
    forall d | Divides(d, k * c) && Divides(d, c) ensures Divides(d, c) {}
    GcdUnique(c, k * c, c);
  }

  lemma OneFactor(g: nat, c: int)
    requires g > 0 && g == g * c
    ensures c == 1
  {
    assert g * (c - 1) == 0;
  }

  // ----- the normal form of an expression -----

  /** Numerator and denominator each with its terms in sorted form, none twice and none zero; reduced; and a numerator that
      is a positive multiple of its denominator only over one. */
  ghost predicate InNormalForm(rf: RationalFunction) {
    && rf.num.sum != [] && AllNonzero(rf.num.sum) && Canonical(rf.num.sum)
    && rf.den.sum != [] && AllNonzero(rf.den.sum) && Canonical(rf.den.sum)
    && Reduced(rf)
    && forall k: nat :: k > 0 && Scaled(rf.num.sum, rf.den.sum, k) ==> rf == RationalFunction(Constant(k), Constant(1))
  }

  lemma ScaledCanonical(t: Terms, s: Terms, k: int)
    requires Scaled(t, s, k) && Canonical(t)
    ensures Canonical(s)
  {
    hide SortedMonomial;
  }

  lemma ConstantCanonical(n: int)
    ensures Canonical(Constant(n).sum)
  {
    assert SortedMonomial(One) == One;
  }

  lemma NumberInNormalForm(k: nat)
    requires k > 0
    ensures InNormalForm(RationalFunction(Constant(k), Constant(1)))
  {
    hide Canonical, Divides;
    ConstantCanonical(k);
    ConstantCanonical(1);
    var rf := RationalFunction(Constant(k), Constant(1));
    forall d | AllDivisible(rf.den.sum, d) ensures d == 1 || d == -1 {
      assert Divides(d, rf.den.sum[0].1);
      DividesOne(d);
    }
  }

  lemma DividesOne(d: int)
    requires Divides(d, 1)
    ensures d == 1 || d == -1
  {
    var q :| 1 == d * q;
    UnitProduct(d, q);
  }

  /** The result for an expression is in normal form. */
  lemma ResultInNormalForm(e: Expression)
    requires Expr2rf(e).Some?
    ensures InNormalForm(Expr2rf(e).value)
  {
    hide FilterPolynom, CoefGCD, Gcd, DivPolynomByInt, Scaled, Normalise, Reduced, Raw, Canonical, TermsOk, AllNonzero;
    var rf := Raw(e).value;
    ExprOk(e);
    var num2, den2, num3, den3, g := Parts(rf);
    NormaliseExactly(rf);
    FilteredCanonical(rf.num);
    FilteredCanonical(rf.den);
    ScaledCanonical(num2.sum, num3.sum, g);
    ScaledCanonical(den2.sum, den3.sum, g);
    ScaledLength(num2.sum, num3.sum, g);
    ScaledLength(den2.sum, den3.sum, g);
    var h := CoefGCD(num3);
    if DivPolynomByInt(num3, h) == den3 {
      NumberInNormalForm(h);
    } else {
      NothingLeft(num2, den2, num3, den3);
      forall k: nat | k > 0 && Scaled(num3.sum, den3.sum, k)
        ensures RationalFunction(num3, den3) == RationalFunction(Constant(k), Constant(1))
      {
        ScaledCancel(num2.sum, den2.sum, num3.sum, den3.sum, g, k);
      }
    }
  }
}
