/** Sums of different powers of a large number: the highest outweighs the rest. */
module PowerSums {
  import opened Reals
  import opened RationalValue

  // ----- powers -----

  lemma {:induction false} PowPow(x: real, m: nat, n: nat)
    ensures Pow(Pow(x, m), n) == Pow(x, n * m)
  {
    if n > 0 {
      PowPow(x, m, n - 1);
      var rest := (n - 1) * m;
      OneMore(m, n - 1);
      assert n * m == m + rest;
      PowAdd(x, m, rest);
    }
  }

  lemma OneMore(d: nat, x: nat)
    ensures d * (x + 1) == d * x + d
  {
  }

  lemma {:induction false} PowPositive(x: real, n: nat)
    requires x >= 1.0
    ensures Pow(x, n) >= 1.0
  {
    if n > 0 {
      PowPositive(x, n - 1);
      ProductAtLeast(x, Pow(x, n - 1));
    }
  }

  lemma ProductAtLeast(x: real, y: real)
    requires x >= 1.0 && y >= 0.0
    ensures x * y >= y
  {
    assert x * y - y == (x - 1.0) * y;
  }

  lemma {:induction false} PowMonotone(x: real, m: nat, n: nat)
    requires x >= 1.0 && m <= n
    ensures Pow(x, m) <= Pow(x, n)
  {
    if m < n {
      PowMonotone(x, m, n - 1);
      PowPositive(x, n - 1);
      ProductAtLeast(x, Pow(x, n - 1));
    }
  }

  // ----- sums of different powers of a large number -----

  type Powers = seq<(nat, int)>

  function PowTerm(t: (nat, int), x: real): real { Times(t.1 as real, Pow(x, t.0)) }

  function PowSum(s: Powers, x: real): real {
    if s == [] then 0.0 else PowTerm(s[0], x) + PowSum(s[1..], x)
  }

  function AbsInt(n: int): nat { if n < 0 then -n else n }

  /** The sizes of the coefficients together. */
  function Weight<K>(s: seq<(K, int)>): nat {
    if s == [] then 0 else AbsInt(s[0].1) + Weight(s[1..])
  }

  predicate DistinctPowers(s: Powers) { forall i, j :: 0 <= i < j < |s| ==> s[i].0 != s[j].0 }

  predicate Below(s: Powers, n: nat) { forall i :: 0 <= i < |s| ==> s[i].0 <= n }

  /** Lower powers together stay below the coefficients times the highest. */
  lemma {:induction false} LowerPowers(s: Powers, x: real, n: nat)
    requires x >= 1.0 && Below(s, n)
    ensures Abs(PowSum(s, x)) <= Times(Weight(s) as real, Pow(x, n))
  {
    hide Times, Pow, Abs, PowTerm;
    PowPositive(x, n);
    if s == [] {
      ZeroTimes(Pow(x, n));
    } else {
      LowerPowers(s[1..], x, n);
      LowerPower(s[0], x, n);
      TwoBounds(PowTerm(s[0], x), PowSum(s[1..], x), AbsInt(s[0].1) as real, Weight(s[1..]) as real, Pow(x, n));
    }
  }

  lemma ZeroTimes(z: real)
    ensures Times(0.0, z) == 0.0 == Abs(0.0)
  {
  }

  lemma LowerPower(t: (nat, int), x: real, n: nat)
    requires x >= 1.0 && t.0 <= n
    ensures Abs(PowTerm(t, x)) <= Times(AbsInt(t.1) as real, Pow(x, n))
  {
    hide Times, Pow;
    PowPositive(x, t.0);
    PowMonotone(x, t.0, n);
    AbsTimes(t.1 as real, Pow(x, t.0));
    var c := Abs(t.1 as real);
    assert c == AbsInt(t.1) as real;
    TimesSum(c, 0.0, Pow(x, n));
    TimesSum(c, 0.0, Pow(x, t.0));
    TimesLeq(Pow(x, t.0), Pow(x, n), c);
    assert Abs(Pow(x, t.0)) == Pow(x, t.0);
    assert Abs(PowTerm(t, x)) == Times(c, Pow(x, t.0));
  }

  lemma {:induction false} TakeOut(s: Powers, m: nat, x: real)
    requires m < |s|
    ensures PowSum(s, x) == PowTerm(s[m], x) + PowSum(s[..m] + s[m+1..], x)
    ensures Weight(s) == AbsInt(s[m].1) + Weight(s[..m] + s[m+1..])
  {
    hide PowTerm, AbsInt;
    var r := s[..m] + s[m+1..];
    if m == 0 {
      assert r == s[1..];
    } else {
      TakeOut(s[1..], m - 1, x);
      assert r[0] == s[0] && r[1..] == s[1..][..m-1] + s[1..][m..];
    }
  }

  lemma {:induction false} Highest(s: Powers) returns (m: nat)
    requires s != []
    ensures m < |s| && Below(s, s[m].0)
  {
    m := 0;
    if |s| > 1 {
      var k := Highest(s[1..]);
      if s[1..][k].0 > s[0].0 { m := k + 1; }
      assert forall i :: 0 < i < |s| ==> s[i] == s[1..][i-1];
    }
  }

  lemma Others(s: Powers, m: nat)
    requires m < |s| && DistinctPowers(s) && Below(s, s[m].0)
    ensures s[m].0 == 0 ==> s[..m] + s[m+1..] == []
    ensures s[m].0 > 0 ==> Below(s[..m] + s[m+1..], s[m].0 - 1)
  {
    var r := s[..m] + s[m+1..];
    forall i | 0 <= i < |r| ensures r[i].0 < s[m].0 {
      assert r[i] == if i < m then s[i] else s[i+1];
    }
    assert |r| > 0 ==> r[0].0 < s[m].0;
  }

  /** The highest of some different powers outweighs the others when the number exceeds all coefficients. */
  lemma PowersNonzero(s: Powers, x: real)
    requires s != [] && DistinctPowers(s) && (forall i :: 0 <= i < |s| ==> s[i].1 != 0)
    requires x >= 1.0 + Weight(s) as real
    ensures PowSum(s, x) != 0.0
  {
    hide PowSum, Weight, Below, DistinctPowers, Pow, Times, Abs;
    var m := Highest(s);
    var rest, n := s[..m] + s[m+1..], s[m].0;
    TakeOut(s, m, x);
    Others(s, m);
    if n == 0 {
      NothingLeft(x);
      PowPositive(x, n);
      Outweighs(s[m].1, 0.0, Pow(x, n), 0.0);
    } else {
      LowerPowers(rest, x, n - 1);
      PowPositive(x, n - 1);
      NextPower(Weight(rest) as real, x, n);
      Outweighs(s[m].1, Times(Weight(rest) as real, Pow(x, n - 1)), Pow(x, n), PowSum(rest, x));
    }
  }

  lemma NothingLeft(x: real)
    ensures PowSum([], x) == 0.0 == Abs(0.0)
  {
  }

  lemma NextPower(a: real, x: real, n: nat)
    requires n > 0 && x > a && Pow(x, n - 1) >= 1.0
    ensures Times(a, Pow(x, n - 1)) < Pow(x, n)
  {
    TimesLess(a, x, Pow(x, n - 1));
  }

  lemma Outweighs(c: int, bound: real, y: real, rest: real)
    requires c != 0 && bound < y && 0.0 < y && Abs(rest) <= bound
    ensures Times(c as real, y) + rest != 0.0
  {
    if c > 0 { TimesLeq(1.0, c as real, y); } else { TimesLeq(c as real, -1.0, y); }
  }
}
