/** Multivariate integer polynomials stored as trees of trees, and the normaliser that turns an expression into a
    quotient of two of them. */
module Rational {
  import opened Options
  import opened Ints
  import opened Strings
  import opened FlowTree

  datatype Expression =
    | Add(left: Expression, right: Expression)
    | Mult(left: Expression, right: Expression)
    | Sub(left: Expression, right: Expression)
    | Neg(exp: Expression)
    | Div(left: Expression, right: Expression)
    | Var(name: string)
    | Number(n: int)

  /** The exponents of a monomial. Equal exponents in a different order are different monomials. */
  datatype PolyDegree = PolyDegree(degree: Tree<string, nat>)

  datatype Polynom = Polynom(sum: Tree<PolyDegree, int>)

  datatype RationalFunction = RationalFunction(num: Polynom, den: Polynom)

  const One := PolyDegree([])

  function Constant(n: int): Polynom { Polynom([(One, n)]) }

  // ----- monomials -----

  function AddNat(a: nat, b: nat): nat { a + b }
  function AddInt(a: int, b: int): int { a + b }

  function MultPolyDegrees(l: PolyDegree, r: PolyDegree): PolyDegree {
    PolyDegree(MergeTreeCustom(l.degree, r.degree, AddNat))
  }

  function Insert(keys: seq<string>, k: string): seq<string> {
    if keys == [] then [k] else if StringLess(keys[0], k) then [keys[0]] + Insert(keys[1..], k) else [k] + keys
  }

  function Sort(keys: seq<string>): seq<string> {
    if keys == [] then [] else Insert(Sort(keys[1..]), keys[0])
  }

  /** The keys of a monomial without repetitions. */
  function CollectKeys(degree: Tree<string, nat>, acc: seq<string>): seq<string> {
    if degree == [] then acc
    else CollectKeys(degree[1..], if degree[0].0 in acc then acc else [degree[0].0] + acc)
  }

  /** The exponents of `degree` under `keys`, set one after the other. */
  function Rebuild(degree: Tree<string, nat>, keys: seq<string>, acc: Tree<string, nat>): Tree<string, nat>
    decreases keys
  {
    if keys == [] then acc
    else
      match LookupTree(degree, keys[0])
      case None => Rebuild(degree, keys[1..], [("0", 0)])
      case Some(n) => Rebuild(degree, keys[1..], SetTree(acc, keys[0], n))
  }

  /** The monomial with its keys in sorted order. */
  function SortedMonomial(m: PolyDegree): PolyDegree {
    PolyDegree(Rebuild(m.degree, Sort(CollectKeys(m.degree, [])), []))
  }

  // ----- polynomials -----

  function MergeMonomials(p: Polynom, keys: seq<PolyDegree>, acc: Tree<PolyDegree, int>): Tree<PolyDegree, int>
    decreases keys
  {
    if keys == [] then acc
    else
      var found := LookupTree(p.sum, keys[0]);
      var val := if found.Some? then found.value else 0;
      var pd := SortedMonomial(keys[0]);
      var before := LookupTree(acc, pd);
      var koef := if before.Some? then before.value else 0;
      MergeMonomials(p, keys[1..], SetTree(acc, pd, val + koef))
  }

  /** Monomials with the same exponents merged, and those with coefficient zero dropped. */
  function FilterPolynom(p: Polynom): Polynom {
    Polynom(FilterTree(MergeMonomials(p, GetTreeKeys(p.sum), []), v => v != 0))
  }

  function FoldGcd(t: Tree<PolyDegree, int>, acc: int): int {
    if t == [] then acc else FoldGcd(t[1..], Gcd(acc, t[0].1))
  }

  /** The greatest common divisor of the coefficients; there must be one to start from. */
  function CoefGCD(p: Polynom): int
    requires p.sum != []
  {
    FoldGcd(p.sum, p.sum[0].1)
  }

  function DivPolynomByInt(p: Polynom, c: int): Polynom
    requires c != 0
  {
    Polynom(MapTree(p.sum, v => TruncDiv(v, c)))
  }

  function DivRationalFunctionByInt(rf: RationalFunction, c: int): RationalFunction
    requires c != 0
  {
    RationalFunction(DivPolynomByInt(rf.num, c), DivPolynomByInt(rf.den, c))
  }

  function SumPolynoms(l: Polynom, r: Polynom): Polynom {
    Polynom(MergeTreeCustom(l.sum, r.sum, AddInt))
  }

  function MultByTerm(lp: PolyDegree, lc: int, r: Tree<PolyDegree, int>, acc: Tree<PolyDegree, int>): Tree<PolyDegree, int>
    decreases r
  {
    if r == [] then acc
    else MultByTerm(lp, lc, r[1..], CombineAt(acc, MultPolyDegrees(lp, r[0].0), lc * r[0].1, AddInt))
  }

  function MultTerms(l: Tree<PolyDegree, int>, r: Tree<PolyDegree, int>, acc: Tree<PolyDegree, int>): Tree<PolyDegree, int>
    decreases l
  {
    if l == [] then acc else MultTerms(l[1..], r, MultByTerm(l[0].0, l[0].1, r, acc))
  }

  function MultPolynoms(l: Polynom, r: Polynom): Polynom {
    Polynom(MultTerms(l.sum, r.sum, []))
  }

  function MinusPolynom(p: Polynom): Polynom {
    Polynom(MapTree(p.sum, r => -r))
  }

  // ----- rational functions -----

  function SumRationalFunctions(l: RationalFunction, r: RationalFunction): RationalFunction {
    RationalFunction(SumPolynoms(MultPolynoms(l.num, r.den), MultPolynoms(r.num, l.den)), MultPolynoms(l.den, r.den))
  }

  function SubRationalFunctions(l: RationalFunction, r: RationalFunction): RationalFunction {
    RationalFunction(SumPolynoms(MultPolynoms(l.num, r.den), MinusPolynom(MultPolynoms(r.num, l.den))),
                     MultPolynoms(l.den, r.den))
  }

  function MultRationalFunctions(l: RationalFunction, r: RationalFunction): RationalFunction {
    RationalFunction(MultPolynoms(l.num, r.num), MultPolynoms(l.den, r.den))
  }

  function DivRationalFunctions(l: RationalFunction, r: RationalFunction): RationalFunction {
    RationalFunction(MultPolynoms(l.num, r.den), MultPolynoms(l.den, r.num))
  }

  function MinusRationalFunction(rf: RationalFunction): RationalFunction {
    RationalFunction(MinusPolynom(rf.num), rf.den)
  }

  /** The quotient of an operator applied to normalised operands, before it is normalised itself. None when an
      operand has none. */
  function Raw(e: Expression): Maybe<RationalFunction>
    decreases e, 0
  {
    match e
    case Number(v) => Some(RationalFunction(Constant(v), Constant(1)))
    case Var(x) => Some(RationalFunction(Polynom([(PolyDegree([(x, 1)]), 1)]), Constant(1)))
    case Neg(e1) =>
      (match Expr2rf(e1)
       case None => None
       case Some(rf) => Some(MinusRationalFunction(rf)))
    case _ =>
      (match (Expr2rf(e.left), Expr2rf(e.right))
       case (Some(l), Some(r)) =>
         Some(match e
              case Add(_, _) => SumRationalFunctions(l, r)
              case Mult(_, _) => MultRationalFunctions(l, r)
              case Sub(_, _) => SubRationalFunctions(l, r)
              case _ => DivRationalFunctions(l, r))
       case _ => None)
  }

  /** The normal form of a quotient. None when the numerator or denominator has no term left: the content of a
      polynomial without terms is taken from the first element of an empty list. */
  function Normalise(rf: RationalFunction): Maybe<RationalFunction> {
    var rf2 := RationalFunction(FilterPolynom(rf.num), FilterPolynom(rf.den));
    if rf2.num.sum == [] || rf2.den.sum == [] then None
    else
      FilteredHasContent(rf.num);
      FilteredHasContent(rf.den);
      var polyGCD := Gcd(CoefGCD(rf2.num), CoefGCD(rf2.den));
      GcdDivides(CoefGCD(rf2.num), CoefGCD(rf2.den));
      var rf3 := DivRationalFunctionByInt(rf2, polyGCD);
      DividedHasContent(rf2.num, polyGCD);
      var numGCD := CoefGCD(rf3.num);
      var rf3num := DivPolynomByInt(rf3.num, numGCD);
      if rf3num == rf3.den then Some(RationalFunction(Constant(numGCD), Constant(1))) else Some(rf3)
  }

  function Expr2rf(e: Expression): Maybe<RationalFunction>
    decreases e, 1
  {
    match Raw(e)
    case None => None
    case Some(rf) => Normalise(rf)
  }

  // ----- contents of polynomials -----

  predicate AllNonzero(t: Tree<PolyDegree, int>) {
    forall i :: 0 <= i < |t| ==> t[i].1 != 0
  }

  ghost predicate AllDivisible(t: Tree<PolyDegree, int>, d: int) {
    forall i :: 0 <= i < |t| ==> Divides(d, t[i].1)
  }

  lemma {:induction false} FoldGcdDivides(t: Tree<PolyDegree, int>, acc: int)
    ensures var g := FoldGcd(t, acc);
            && Divides(g, acc) && AllDivisible(t, g)
            && (acc != 0 ==> g != 0)
  {
    var g := FoldGcd(t, acc);
    if t == [] {
      assert acc == g * 1;
    } else {
      var h := Gcd(acc, t[0].1);
      GcdDivides(acc, t[0].1);
      FoldGcdDivides(t[1..], h);
      DividesTrans(g, h, acc);
      DividesTrans(g, h, t[0].1);
      forall i | 0 <= i < |t| ensures Divides(g, t[i].1) {
        if i > 0 { assert t[1..][i-1] == t[i]; }
      }
    }
  }

  /** The content divides every coefficient and is not zero. */
  lemma ContentDivides(p: Polynom)
    requires p.sum != [] && AllNonzero(p.sum)
    ensures CoefGCD(p) != 0 && AllDivisible(p.sum, CoefGCD(p))
  {
    FoldGcdDivides(p.sum, p.sum[0].1);
  }

  lemma {:induction false} FilterNonzero(t: Tree<PolyDegree, int>)
    ensures AllNonzero(FilterTree(t, v => v != 0))
  {
    if t != [] {
      FilterNonzero(t[1..]);
    }
  }

  lemma FilteredHasContent(p: Polynom)
    ensures AllNonzero(FilterPolynom(p).sum)
    ensures FilterPolynom(p).sum != [] ==> CoefGCD(FilterPolynom(p)) != 0
  {
    FilterNonzero(MergeMonomials(p, GetTreeKeys(p.sum), []));
    if FilterPolynom(p).sum != [] {
      ContentDivides(FilterPolynom(p));
    }
  }

  lemma {:induction false} MapDivided(t: Tree<PolyDegree, int>, c: int)
    requires c != 0 && AllDivisible(t, c)
    ensures var r := MapTree(t, v => TruncDiv(v, c));
            && |r| == |t|
            && forall i :: 0 <= i < |t| ==> r[i].0 == t[i].0 && r[i].1 * c == t[i].1
  {
    if t != [] {
      assert Divides(c, t[0].1);
      ExactDiv(t[0].1, c);
      MapDivided(t[1..], c);
      var r := MapTree(t, v => TruncDiv(v, c));
      var rest := MapTree(t[1..], v => TruncDiv(v, c));
      forall i | 0 <= i < |t| ensures r[i].0 == t[i].0 && r[i].1 * c == t[i].1 {
        if i > 0 { assert r[i] == rest[i-1] && t[i] == t[1..][i-1]; }
      }
    }
  }

  lemma DividedHasContent(p: Polynom, c: int)
    requires p.sum != [] && AllNonzero(p.sum) && c != 0 && Divides(c, CoefGCD(p))
    ensures var q := DivPolynomByInt(p, c);
            q.sum != [] && AllNonzero(q.sum) && CoefGCD(q) != 0 && AllDivisible(p.sum, c)
  {
    ContentDivides(p);
    forall i | 0 <= i < |p.sum| ensures Divides(c, p.sum[i].1) {
      DividesTrans(c, CoefGCD(p), p.sum[i].1);
    }
    MapDivided(p.sum, c);
    var q := DivPolynomByInt(p, c);
    forall i | 0 <= i < |q.sum| ensures q.sum[i].1 != 0 {
      assert q.sum[i].1 * c == p.sum[i].1;
    }
    ContentDivides(q);
  }
}
