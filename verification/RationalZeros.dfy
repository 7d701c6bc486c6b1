/** When an expression has a normal form: exactly when it and its parts are not zero everywhere. */
module RationalZeros {
  import opened FlowTree
  import opened Rational
  import opened RationalValue
  import opened RationalNormal
  import opened RationalCorrect
  import opened PowerSums
  import opened RationalCodes

  // ----- room for every part of an expression -----

  function Union(a: seq<string>, b: seq<string>): seq<string> {
    if a == [] then b else if a[0] in Union(a[1..], b) then Union(a[1..], b) else [a[0]] + Union(a[1..], b)
  }

  lemma {:induction false} UnionIs(a: seq<string>, b: seq<string>)
    requires Distinct(b)
    ensures Distinct(Union(a, b)) && forall k :: k in Union(a, b) <==> k in a || k in b
  {
    if a != [] {
      UnionIs(a[1..], b);
    }
  }

  function Larger(a: nat, b: nat): nat { if a < b then b else a }

  lemma WithinMore(degree: Tree<string, nat>, vs: seq<string>, d: nat, vs': seq<string>, d': nat)
    requires Within(degree, vs, d) && (forall k :: k in vs ==> k in vs') && d <= d'
    ensures Within(degree, vs', d')
  {
  }

  lemma RoomMore(t: Tree<PolyDegree, int>, vs: seq<string>, d: nat, x: real, vs': seq<string>, d': nat, x': real)
    requires Room(t, vs, d, x) && (forall k :: k in vs ==> k in vs') && d <= d' && x <= x'
    ensures Room(t, vs', d', x')
  {
    hide Within, Weight;
    forall i | 0 <= i < |t| ensures Within(t[i].0.degree, vs', d') {
      WithinMore(t[i].0.degree, vs, d, vs', d');
    }
  }

  lemma {:induction false} MonomialFits(degree: Tree<string, nat>) returns (vs: seq<string>, d: nat)
    ensures Distinct(vs) && Within(degree, vs, d)
  {
    if degree == [] {
      vs, d := [], 0;
    } else {
      var ws, b := MonomialFits(degree[1..]);
      vs, d := Union([degree[0].0], ws), Larger(degree[0].1 + 1, b);
      UnionIs([degree[0].0], ws);
      WithinMore(degree[1..], ws, b, vs, d);
      forall i | 0 <= i < |degree| ensures degree[i].0 in vs && degree[i].1 < d {
        if i > 0 { assert degree[i] == degree[1..][i-1]; }
      }
    }
  }

  lemma {:induction false} TermsFit(t: Tree<PolyDegree, int>) returns (vs: seq<string>, d: nat, x: real)
    ensures Distinct(vs) && Room(t, vs, d, x)
  {
    hide Distinct, Within, Larger, Union;
    if t == [] {
      vs, d, x := [], 0, 1.0;
      NoneDistinct();
    } else {
      var ws, b, y := TermsFit(t[1..]);
      var us, c := MonomialFits(t[0].0.degree);
      vs, d, x := Union(us, ws), b + c, y + AbsInt(t[0].1) as real;
      UnionIs(us, ws);
      WithinMore(t[0].0.degree, us, c, vs, d);
      RoomMore(t[1..], ws, b, y, vs, d, y);
      forall i | 0 <= i < |t| ensures Within(t[i].0.degree, vs, d) {
        if i > 0 { assert t[i] == t[1..][i-1]; }
      }
    }
  }

  lemma NoneDistinct()
    ensures Distinct([])
  {
  }

  ghost predicate RoomAtNode(e: Expression, vs: seq<string>, d: nat, x: real) {
    Raw(e).Some? ==> Room(FilterPolynom(Raw(e).value.num).sum, vs, d, x)
  }

  /** There is room for the numerator at every node. */
  ghost predicate RoomInside(e: Expression, vs: seq<string>, d: nat, x: real) {
    && RoomAtNode(e, vs, d, x)
    && match e
       case Number(_) => true
       case Var(_) => true
       case Neg(e1) => RoomInside(e1, vs, d, x)
       case _ => RoomInside(e.left, vs, d, x) && RoomInside(e.right, vs, d, x)
  }

  lemma {:induction false} RoomInsideMore(e: Expression, vs: seq<string>, d: nat, x: real, vs': seq<string>, d': nat,
                                          x': real)
    requires RoomInside(e, vs, d, x) && (forall k :: k in vs ==> k in vs') && d <= d' && x <= x'
    ensures RoomInside(e, vs', d', x')
  {
    hide Room, FilterPolynom, Raw;
    if Raw(e).Some? { RoomMore(FilterPolynom(Raw(e).value.num).sum, vs, d, x, vs', d', x'); }
    match e
    case Number(_) =>
    case Var(_) =>
    case Neg(e1) => RoomInsideMore(e1, vs, d, x, vs', d', x');
    case _ =>
      RoomInsideMore(e.left, vs, d, x, vs', d', x');
      RoomInsideMore(e.right, vs, d, x, vs', d', x');
  }

  lemma {:induction false} RoomAtNodeExists(e: Expression) returns (vs: seq<string>, d: nat, x: real)
    ensures Distinct(vs) && RoomAtNode(e, vs, d, x)
  {
    hide Room, FilterPolynom, Raw, Distinct;
    if Raw(e).Some? {
      vs, d, x := TermsFit(FilterPolynom(Raw(e).value.num).sum);
    } else {
      vs, d, x := [], 0, 1.0;
      NoneDistinct();
    }
  }

  /** What is enough for one expression and what is enough for another, together. */
  lemma BothFit(e: Expression, vs: seq<string>, d: nat, x: real, f: Expression, vs': seq<string>, d': nat, x': real)
    returns (us: seq<string>, b: nat, y: real)
    requires RoomInside(e, vs, d, x) && RoomInside(f, vs', d', x') && Distinct(vs) && Distinct(vs')
    ensures RoomInside(e, us, b, y) && RoomInside(f, us, b, y) && Distinct(us)
    ensures (forall k :: k in vs ==> k in us) && d <= b && x <= y
  {
    hide RoomInside, Distinct, Union;
    us, b, y := Union(vs, vs'), d + d', if x < x' then x' else x;
    UnionIs(vs, vs');
    RoomInsideMore(e, vs, d, x, us, b, y);
    RoomInsideMore(f, vs', d', x', us, b, y);
  }

  lemma {:induction false} RoomExists(e: Expression) returns (vs: seq<string>, d: nat, x: real)
    ensures Distinct(vs) && RoomInside(e, vs, d, x)
  {
    hide Distinct, RoomAtNode, Union;
    var us, c, z := RoomAtNodeExists(e);
    match e {
      case Number(_) => vs, d, x := us, c, z;
      case Var(_) => vs, d, x := us, c, z;
      case Neg(e1) =>
        var ws, b, y := RoomExists(e1);
        vs, d, x := Union(us, ws), b + c, if y < z then z else y;
        UnionIs(us, ws);
        RoomInsideMore(e1, ws, b, y, vs, d, x);
        NodeMore(e, us, c, z, vs, d, x);
      case _ =>
        var ls, l, v := RoomExists(e.left);
        var rs, r, w := RoomExists(e.right);
        var ws, b, y := BothFit(e.left, ls, l, v, e.right, rs, r, w);
        vs, d, x := Union(us, ws), b + c, if y < z then z else y;
        UnionIs(us, ws);
        RoomInsideMore(e.left, ws, b, y, vs, d, x);
        RoomInsideMore(e.right, ws, b, y, vs, d, x);
        NodeMore(e, us, c, z, vs, d, x);
    }
  }

  lemma NodeMore(e: Expression, vs: seq<string>, d: nat, x: real, vs': seq<string>, d': nat, x': real)
    requires RoomAtNode(e, vs, d, x) && (forall k :: k in vs ==> k in vs') && d <= d' && x <= x'
    ensures RoomAtNode(e, vs', d', x')
  {
    hide Room, FilterPolynom, Raw;
    if Raw(e).Some? { RoomMore(FilterPolynom(Raw(e).value.num).sum, vs, d, x, vs', d', x'); }
  }

  // ----- when there is a normal form -----

  ghost predicate NonzeroAt(e: Expression, rho: Valuation) {
    Value(e, rho).Some? && Value(e, rho).value != 0.0
  }

  /** The expression has a value that is not zero somewhere, and so has each part of it. */
  ghost predicate NoPartVanishes(e: Expression) {
    && (exists rho :: NonzeroAt(e, rho))
    && match e
       case Number(_) => true
       case Var(_) => true
       case Neg(e1) => NoPartVanishes(e1)
       case _ => NoPartVanishes(e.left) && NoPartVanishes(e.right)
  }

  /** At this valuation the expression and every part of it have a value that is not zero. */
  ghost predicate NonzeroInside(e: Expression, rho: Valuation) {
    && NonzeroAt(e, rho)
    && match e
       case Number(_) => true
       case Var(_) => true
       case Neg(e1) => NonzeroInside(e1, rho)
       case _ => NonzeroInside(e.left, rho) && NonzeroInside(e.right, rho)
  }

  lemma FilteredCanonical(p: Polynom)
    requires TermsOk(p.sum)
    ensures Canonical(FilterPolynom(p).sum)
  {
    hide Canonical, MergeTerms, MergeMonomials, TermsOk;
    MergedIs(p);
    EmptyCanonical();
    MergeCanonical(p.sum, []);
    FilterCanonical(Merged(p));
  }

  lemma {:induction false} FilterCanonical(t: Tree<PolyDegree, int>)
    requires Canonical(t)
    ensures Canonical(FilterTree(t, v => v != 0)) && forall e :: e in FilterTree(t, v => v != 0) ==> e in t
  {
    hide SortedMonomial;
    if t != [] {
      FilterCanonical(t[1..]);
      var rest := FilterTree(t[1..], v => v != 0);
      forall i | 0 <= i < |rest| ensures rest[i].0 != t[0].0 {
        assert rest[i] in t[1..];
      }
      assert forall i :: 0 <= i < |t[1..]| ==> t[1..][i] == t[i+1];
      assert forall e :: e in t[1..] ==> e in t;
    }
  }

  /** Where there is room, a numerator with a term left is not zero. */
  lemma NumeratorNonzero(p: Polynom, vs: seq<string>, d: nat, x: real)
    requires TermsOk(p.sum) && FilterPolynom(p).sum != [] && Room(FilterPolynom(p).sum, vs, d, x)
    requires Distinct(vs) && d > 0
    ensures PolyValue(p, Spread(vs, d, x)) != 0.0
  {
    hide TermsOk, FilterPolynom, Room, Distinct, Canonical, SumValue, Spread;
    FilterPolynomKeeps(p, Spread(vs, d, x));
    FilteredCanonical(p);
    FilteredHasContent(p);
    TermsNonzero(FilterPolynom(p).sum, vs, d, x);
  }

  /** Before it is normalised, the quotient of a node stands for the value of the node. */
  lemma NodeStands(e: Expression, rho: Valuation)
    requires Value(e, rho).Some? && Raw(e).Some?
    ensures TermsOkBoth(Raw(e).value) && StandsFor(Raw(e).value, Value(e, rho).value, rho)
  {
    hide TermsOk, Normalise, StandsFor;
    match e {
      case Number(_) =>
      case Var(_) =>
      case Neg(e1) => ValuePreserved(e1, rho);
      case _ => ValuePreserved(e.left, rho); ValuePreserved(e.right, rho);
    }
    RawStands(e, rho);
    ExprOk(e);
  }

  lemma NodeNonzero(e: Expression, vs: seq<string>, d: nat, x: real)
    requires Expr2rf(e).Some? && Value(e, Spread(vs, d, x)).Some?
    requires RoomAtNode(e, vs, d, x) && Distinct(vs) && d > 0
    ensures NonzeroAt(e, Spread(vs, d, x))
  {
    hide TermsOk, FilterPolynom, Room, Distinct, Spread, PolyValue, CoefGCD, Raw, Value;
    var rho := Spread(vs, d, x);
    NodeStands(e, rho);
    NumeratorNonzero(Raw(e).value.num, vs, d, x);
    FactorNonzero(PolyValue(Raw(e).value.num, rho), Value(e, rho).value, PolyValue(Raw(e).value.den, rho));
  }

  lemma {:induction false} NonzeroWhereRoom(e: Expression, vs: seq<string>, d: nat, x: real)
    requires Expr2rf(e).Some? && RoomInside(e, vs, d, x) && Distinct(vs) && d > 0
    ensures NonzeroInside(e, Spread(vs, d, x))
  {
    hide Distinct, Spread, Normalise, RoomAtNode;
    match e {
      case Number(_) =>
      case Var(_) =>
      case Neg(e1) => NonzeroWhereRoom(e1, vs, d, x);
      case _ => NonzeroWhereRoom(e.left, vs, d, x); NonzeroWhereRoom(e.right, vs, d, x);
    }
    NodeNonzero(e, vs, d, x);
  }

  lemma FactorNonzero(n: real, v: real, d: real)
    requires n == v * d && n != 0.0
    ensures v != 0.0
  {
  }

  /** A quotient that stands for a value that is not zero can be normalised. */
  lemma NodeNormalises(e: Expression, rho: Valuation)
    requires NonzeroAt(e, rho) && Raw(e).Some?
    ensures Expr2rf(e).Some?
  {
    hide TermsOk, FilterPolynom, PolyValue, CoefGCD, FormalZero, Raw, Value;
    NodeStands(e, rho);
    var rf, v := Raw(e).value, Value(e, rho).value;
    StandingDenominator(rf, v, rho);
    ProductNonzero(v, PolyValue(rf.den, rho));
    NonzeroValueIsNotZero(rf.num, rho);
    FilterEmptyExactly(rf.num);
    FilterEmptyExactly(rf.den);
  }

  lemma {:induction false} NormalFormFound(e: Expression)
    requires NoPartVanishes(e)
    ensures Expr2rf(e).Some?
  {
    hide NonzeroAt, Normalise;
    match e {
      case Number(_) =>
      case Var(_) =>
      case Neg(e1) => NormalFormFound(e1);
      case _ => NormalFormFound(e.left); NormalFormFound(e.right);
    }
    var rho :| NonzeroAt(e, rho);
    NodeNormalises(e, rho);
  }

  lemma ProductNonzero(v: real, d: real)
    requires v != 0.0 && d != 0.0
    ensures v * d != 0.0
  {
  }

  lemma {:induction false} CommonPoint(e: Expression, rho: Valuation)
    requires NonzeroInside(e, rho)
    ensures NoPartVanishes(e)
  {
    match e
    case Number(_) =>
    case Var(_) =>
    case Neg(e1) => CommonPoint(e1, rho);
    case _ => CommonPoint(e.left, rho); CommonPoint(e.right, rho);
  }

  /** An expression has a normal form exactly when it and each of its parts have a value that is not zero somewhere,
      and then one valuation serves them all. */
  lemma NormalFormExactly(e: Expression)
    ensures Expr2rf(e).Some? <==> NoPartVanishes(e)
    ensures Expr2rf(e).Some? <==> exists rho :: NonzeroInside(e, rho)
  {
    hide Expr2rf, NonzeroInside, NoPartVanishes, Distinct;
    if NoPartVanishes(e) {
      NormalFormFound(e);
    }
    if Expr2rf(e).Some? {
      var vs, d, x := RoomExists(e);
      RoomInsideMore(e, vs, d, x, vs, d + 1, x);
      NonzeroWhereRoom(e, vs, d + 1, x);
      assert NonzeroInside(e, Spread(vs, d + 1, x));
    }
    if rho :| NonzeroInside(e, rho) {
      CommonPoint(e, rho);
    }
  }
}
