/** The normaliser preserves value. */
module RationalValue {
  import opened Options
  import opened FlowTree
  import opened Rational

  type Valuation = string -> real

  // ----- values -----

  function Pow(x: real, n: nat): real {
    if n == 0 then 1.0 else x * Pow(x, n - 1)
  }

  function MonomialValue(degree: Tree<string, nat>, rho: Valuation): real {
    if degree == [] then 1.0 else Pow(rho(degree[0].0), degree[0].1) * MonomialValue(degree[1..], rho)
  }

  function Term(m: PolyDegree, c: int, rho: Valuation): real {
    c as real * MonomialValue(m.degree, rho)
  }

  function SumValue(t: Tree<PolyDegree, int>, rho: Valuation): real {
    if t == [] then 0.0 else Term(t[0].0, t[0].1, rho) + SumValue(t[1..], rho)
  }

  function PolyValue(p: Polynom, rho: Valuation): real { SumValue(p.sum, rho) }

  /** The value of an expression over the reals; none when some divisor in it is zero. */
  function Value(e: Expression, rho: Valuation): Maybe<real> {
    match e
    case Number(v) => Some(v as real)
    case Var(x) => Some(rho(x))
    case Neg(e1) => (match Value(e1, rho) case None => None case Some(v) => Some(-v))
    case _ =>
      (match (Value(e.left, rho), Value(e.right, rho))
       case (Some(l), Some(r)) =>
         (match e
          case Add(_, _) => Some(l + r)
          case Mult(_, _) => Some(l * r)
          case Sub(_, _) => Some(l - r)
          case _ => if r == 0.0 then None else Some(l / r))
       case _ => None)
  }

  // ----- monomials -----

  lemma {:induction false} PowAdd(x: real, a: nat, b: nat)
    ensures Pow(x, a + b) == Pow(x, a) * Pow(x, b)
  {
    if a > 0 {
      PowAdd(x, a - 1, b);
      Regroup(x, Pow(x, a - 1), Pow(x, b));
    }
  }

  lemma {:induction false} CombineMonomial(t: Tree<string, nat>, k: string, n: nat, rho: Valuation)
    ensures MonomialValue(CombineAt(t, k, n, AddNat), rho) == MonomialValue(t, rho) * Pow(rho(k), n)
  {
    var r := CombineAt(t, k, n, AddNat);
    MonomialParts(t, rho);
    MonomialParts(r, rho);
    MonomialParts([], rho);
    hide Pow, MonomialValue;
    if t == [] {
      assert r == [(k, n)] && r[1..] == [];
    } else if t[0].0 == k {
      assert r == [(k, t[0].1 + n)] + t[1..] && r[1..] == t[1..];
      PowAdd(rho(k), t[0].1, n);
      Regroup(Pow(rho(k), t[0].1), Pow(rho(k), n), MonomialValue(t[1..], rho));
    } else {
      CombineMonomial(t[1..], k, n, rho);
      assert r == [t[0]] + CombineAt(t[1..], k, n, AddNat);
      Regroup(Pow(rho(t[0].0), t[0].1), MonomialValue(t[1..], rho), Pow(rho(k), n));
    }
  }

  lemma Regroup(a: real, b: real, c: real)
    ensures (a * b) * c == a * (b * c) == (a * c) * b == (b * a) * c
  {
  }

  lemma Chain(x: real, y: real, z: real, xy: real, yz: real, w: real)
    requires xy == x * y && yz == y * z && w == xy * z
    ensures w == x * yz
  {
    Regroup(x, y, z);
  }

  lemma MonomialParts(t: Tree<string, nat>, rho: Valuation)
    ensures t == [] ==> MonomialValue(t, rho) == 1.0
    ensures t != [] ==> MonomialValue(t, rho) == Pow(rho(t[0].0), t[0].1) * MonomialValue(t[1..], rho)
  {
    hide Pow;
  }

  lemma {:induction false} MergeMonomial(l: Tree<string, nat>, r: Tree<string, nat>, rho: Valuation)
    ensures MonomialValue(MergeTreeCustom(l, r, AddNat), rho) == MonomialValue(l, rho) * MonomialValue(r, rho)
    decreases r
  {
    hide CombineAt, Pow, MonomialValue;
    MonomialParts(r, rho);
    if r != [] {
      var l1 := CombineAt(l, r[0].0, r[0].1, AddNat);
      var x, y, z := MonomialValue(l, rho), Pow(rho(r[0].0), r[0].1), MonomialValue(r[1..], rho);
      MergeMonomial(l1, r[1..], rho);
      CombineMonomial(l, r[0].0, r[0].1, rho);
      Chain(x, y, z, MonomialValue(l1, rho), MonomialValue(r, rho), MonomialValue(MergeTreeCustom(l, r, AddNat), rho));
    }
  }

  // ----- polynomials -----

  lemma {:induction false} CombineSum(t: Tree<PolyDegree, int>, m: PolyDegree, c: int, rho: Valuation)
    ensures SumValue(CombineAt(t, m, c, AddInt), rho) == SumValue(t, rho) + Term(m, c, rho)
  {
    hide MonomialValue;
    if t == [] {
      assert CombineAt(t, m, c, AddInt) == [(m, c)] && [(m, c)][1..] == [];
      assert SumValue([(m, c)], rho) == Term(m, c, rho) + SumValue([], rho);
    } else if t[0].0 == m {
      assert CombineAt(t, m, c, AddInt) == [(m, t[0].1 + c)] + t[1..];
      TermAdd(m, t[0].1, c, rho);
    } else {
      CombineSum(t[1..], m, c, rho);
      assert CombineAt(t, m, c, AddInt) == [t[0]] + CombineAt(t[1..], m, c, AddInt);
    }
  }

  lemma TermAdd(m: PolyDegree, a: int, b: int, rho: Valuation)
    ensures Term(m, a + b, rho) == Term(m, a, rho) + Term(m, b, rho)
  {
    Distribute(MonomialValue(m.degree, rho), a as real, b as real);
  }

  lemma Distribute(x: real, a: real, b: real)
    ensures (a + b) * x == a * x + b * x && x * (a + b) == x * a + x * b
  {
  }

  lemma {:induction false} MergeSum(l: Tree<PolyDegree, int>, r: Tree<PolyDegree, int>, rho: Valuation)
    ensures SumValue(MergeTreeCustom(l, r, AddInt), rho) == SumValue(l, rho) + SumValue(r, rho)
    decreases r
  {
    hide CombineAt, Term;
    if r != [] {
      CombineSum(l, r[0].0, r[0].1, rho);
      MergeSum(CombineAt(l, r[0].0, r[0].1, AddInt), r[1..], rho);
    }
  }

  lemma TermProduct(l: PolyDegree, lc: int, r: PolyDegree, rc: int, rho: Valuation)
    ensures Term(MultPolyDegrees(l, r), lc * rc, rho) == Term(l, lc, rho) * Term(r, rc, rho)
  {
    hide MonomialValue, MergeTreeCustom;
    MergeMonomial(l.degree, r.degree, rho);
    CrossTerms(lc, rc, MonomialValue(l.degree, rho), MonomialValue(r.degree, rho));
  }

  lemma CrossTerms(a: int, b: int, x: real, y: real)
    ensures (a * b) as real * (x * y) == (a as real * x) * (b as real * y)
  {
    assert (a * b) as real == a as real * b as real;
    CrossProduct(a as real, b as real, x, y);
  }

  lemma CrossProduct(a: real, b: real, x: real, y: real)
    ensures (a * b) * (x * y) == (a * x) * (b * y)
  {
    Regroup(a, b, x * y);
    Regroup(b, x, y);
    Regroup(a, x, b * y);
    Regroup(x, b, y);
  }

  lemma {:induction false} MultByTermValue(m: PolyDegree, c: int, r: Tree<PolyDegree, int>,
                                           acc: Tree<PolyDegree, int>, rho: Valuation)
    ensures SumValue(MultByTerm(m, c, r, acc), rho) == SumValue(acc, rho) + Term(m, c, rho) * SumValue(r, rho)
    decreases r
  {
    hide CombineAt, Term, MultPolyDegrees;
    if r != [] {
      var pp, k := MultPolyDegrees(m, r[0].0), c * r[0].1;
      CombineSum(acc, pp, k, rho);
      TermProduct(m, c, r[0].0, r[0].1, rho);
      MultByTermValue(m, c, r[1..], CombineAt(acc, pp, k, AddInt), rho);
      Distribute(Term(m, c, rho), Term(r[0].0, r[0].1, rho), SumValue(r[1..], rho));
    }
  }

  lemma {:induction false} MultTermsValue(l: Tree<PolyDegree, int>, r: Tree<PolyDegree, int>,
                                          acc: Tree<PolyDegree, int>, rho: Valuation)
    ensures SumValue(MultTerms(l, r, acc), rho) == SumValue(acc, rho) + SumValue(l, rho) * SumValue(r, rho)
    decreases l
  {
    hide MultByTerm, Term;
    if l != [] {
      var x, y, z := Term(l[0].0, l[0].1, rho), SumValue(l[1..], rho), SumValue(r, rho);
      assert SumValue(l, rho) == x + y;
      hide SumValue;
      MultByTermValue(l[0].0, l[0].1, r, acc, rho);
      MultTermsValue(l[1..], r, MultByTerm(l[0].0, l[0].1, r, acc), rho);
      Distribute(z, x, y);
    }
  }

  /** Products of polynomials have the product of the values. */
  lemma MultPolynomsValue(l: Polynom, r: Polynom, rho: Valuation)
    ensures PolyValue(MultPolynoms(l, r), rho) == PolyValue(l, rho) * PolyValue(r, rho)
  {
    assert SumValue([], rho) == 0.0;
    hide SumValue, MultTerms;
    MultTermsValue(l.sum, r.sum, [], rho);
  }

  lemma SumPolynomsValue(l: Polynom, r: Polynom, rho: Valuation)
    ensures PolyValue(SumPolynoms(l, r), rho) == PolyValue(l, rho) + PolyValue(r, rho)
  {
    MergeSum(l.sum, r.sum, rho);
  }

  lemma {:induction false} MinusValue(t: Tree<PolyDegree, int>, rho: Valuation)
    ensures SumValue(MapTree(t, r => -r), rho) == -SumValue(t, rho)
  {
    if t != [] {
      MinusValue(t[1..], rho);
      var neg := MapTree(t, r => -r);
      assert neg[1..] == MapTree(t[1..], r => -r);
      assert Term(t[0].0, -t[0].1, rho) == -Term(t[0].0, t[0].1, rho);
    }
  }

  lemma ConstantValue(n: int, rho: Valuation)
    ensures PolyValue(Constant(n), rho) == n as real
  {
    assert [(One, n)][1..] == [];
    assert SumValue([(One, n)], rho) == Term(One, n, rho) + SumValue([], rho);
  }

  // ----- well-formed polynomials -----

  /** Distinct variables, each with a positive exponent. */
  predicate MonomialOk(degree: Tree<string, nat>) {
    DistinctKeys(degree) && forall i :: 0 <= i < |degree| ==> degree[i].1 > 0
  }

  /** Distinct monomials of distinct variables. */
  predicate TermsOk(t: Tree<PolyDegree, int>) {
    DistinctKeys(t) && forall i :: 0 <= i < |t| ==> MonomialOk(t[i].0.degree)
  }

  lemma SetTermsOk(t: Tree<PolyDegree, int>, m: PolyDegree, c: int)
    requires TermsOk(t) && MonomialOk(m.degree)
    ensures TermsOk(SetTree(t, m, c))
  {
    SetKeys(t, m, c);
    var s := SetTree(t, m, c);
    forall i | 0 <= i < |s| ensures MonomialOk(s[i].0.degree) {
      assert s[i] in s;
    }
  }

  lemma CombineTermsOk(t: Tree<PolyDegree, int>, m: PolyDegree, c: int)
    requires TermsOk(t) && MonomialOk(m.degree)
    ensures TermsOk(CombineAt(t, m, c, AddInt))
  {
    hide TermsOk, SetTree;
    match LookupTree(t, m)
    case Some(old_) => SetTermsOk(t, m, AddInt(old_, c));
    case None => SetTermsOk(t, m, c);
  }

  lemma {:induction false} MergeMonomialOk(l: Tree<string, nat>, r: Tree<string, nat>)
    requires MonomialOk(l) && MonomialOk(r)
    ensures MonomialOk(MergeTreeCustom(l, r, AddNat))
    decreases r
  {
    hide CombineAt;
    if r != [] {
      var l1 := CombineAt(l, r[0].0, r[0].1, AddNat);
      CombineMonomialOk(l, r[0].0, r[0].1);
      assert MonomialOk(r[1..]);
      MergeMonomialOk(l1, r[1..]);
    }
  }

  lemma CombineMonomialOk(t: Tree<string, nat>, k: string, n: nat)
    requires MonomialOk(t) && n > 0
    ensures MonomialOk(CombineAt(t, k, n, AddNat))
  {
    match LookupTree(t, k)
    case Some(old_) => SetMonomialOk(t, k, AddNat(old_, n));
    case None => SetMonomialOk(t, k, n);
  }

  lemma SetMonomialOk(t: Tree<string, nat>, k: string, n: nat)
    requires MonomialOk(t) && n > 0
    ensures MonomialOk(SetTree(t, k, n))
  {
    hide DistinctKeys, SetTree;
    SetKeys(t, k, n);
    var s := SetTree(t, k, n);
    forall i | 0 <= i < |s| ensures s[i].1 > 0 {
      assert s[i] in s && (s[i] == (k, n) || s[i] in t);
    }
  }

  lemma TailOk(t: Tree<PolyDegree, int>)
    requires TermsOk(t) && t != []
    ensures TermsOk(t[1..]) && MonomialOk(t[0].0.degree)
  {
  }

  lemma {:induction false} MergeTermsOk(l: Tree<PolyDegree, int>, r: Tree<PolyDegree, int>)
    requires TermsOk(l) && TermsOk(r)
    ensures TermsOk(MergeTreeCustom(l, r, AddInt))
    decreases r
  {
    hide TermsOk, CombineAt;
    if r != [] {
      TailOk(r);
      CombineTermsOk(l, r[0].0, r[0].1);
      MergeTermsOk(CombineAt(l, r[0].0, r[0].1, AddInt), r[1..]);
    }
  }

  lemma {:induction false} MultByTermOk(m: PolyDegree, c: int, r: Tree<PolyDegree, int>, acc: Tree<PolyDegree, int>)
    requires TermsOk(acc) && TermsOk(r) && MonomialOk(m.degree)
    ensures TermsOk(MultByTerm(m, c, r, acc))
    decreases r
  {
    hide TermsOk, CombineAt, MonomialOk;
    if r != [] {
      TailOk(r);
      var pp, k := MultPolyDegrees(m, r[0].0), c * r[0].1;
      MergeMonomialOk(m.degree, r[0].0.degree);
      CombineTermsOk(acc, pp, k);
      MultByTermOk(m, c, r[1..], CombineAt(acc, pp, k, AddInt));
    }
  }

  lemma {:induction false} MultTermsOk(l: Tree<PolyDegree, int>, r: Tree<PolyDegree, int>, acc: Tree<PolyDegree, int>)
    requires TermsOk(l) && TermsOk(r) && TermsOk(acc)
    ensures TermsOk(MultTerms(l, r, acc))
    decreases l
  {
    hide TermsOk, MultByTerm, MonomialOk;
    if l != [] {
      TailOk(l);
      MultByTermOk(l[0].0, l[0].1, r, acc);
      MultTermsOk(l[1..], r, MultByTerm(l[0].0, l[0].1, r, acc));
    }
  }

  lemma {:induction false} MapTermsOk(t: Tree<PolyDegree, int>, f: int -> int)
    requires TermsOk(t)
    ensures TermsOk(MapTree(t, f))
  {
    MapKeys(t, f);
  }

  lemma {:induction false} MapKeys<K, V>(t: Tree<K, V>, f: V -> V)
    ensures |MapTree(t, f)| == |t| && forall i :: 0 <= i < |t| ==> MapTree(t, f)[i].0 == t[i].0
  {
    if t != [] {
      MapKeys(t[1..], f);
    }
  }

  lemma {:induction false} FilterTermsOk(t: Tree<PolyDegree, int>, keep: int -> bool)
    requires TermsOk(t)
    ensures TermsOk(FilterTree(t, keep)) && forall e :: e in FilterTree(t, keep) ==> e in t
  {
    if t != [] {
      FilterTermsOk(t[1..], keep);
      var rest := FilterTree(t[1..], keep);
      forall i | 0 <= i < |rest| ensures rest[i].0 != t[0].0 && MonomialOk(rest[i].0.degree) {
        assert rest[i] in t[1..];
      }
    }
  }
}
