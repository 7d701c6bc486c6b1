/** The sweep for a tridiagonal system, over exact reals. */
module Sweep {
  import opened Reals

  /** Equation `i` of the system with the off-diagonals `-a` and `-b` and the diagonal `c`. */
  predicate Equation(a: seq<real>, b: seq<real>, c: seq<real>, f: seq<real>, x: seq<real>, i: nat)
    requires Shape(a, b, c, f) && |x| == |c| && i < |c|
  {
    (if i > 0 then -Times(a[i-1], x[i-1]) else 0.0) + Times(c[i], x[i])
      - (if i + 1 < |c| then Times(b[i], x[i+1]) else 0.0) == f[i]
  }

  predicate Band(a: seq<real>, b: seq<real>, c: seq<real>) {
    |c| >= 2 && |a| == |c| - 1 && |b| == |c| - 1
  }

  predicate Shape(a: seq<real>, b: seq<real>, c: seq<real>, f: seq<real>) {
    Band(a, b, c) && |f| == |c|
  }

  predicate Solves(a: seq<real>, b: seq<real>, c: seq<real>, f: seq<real>, x: seq<real>)
    requires Shape(a, b, c, f)
  {
    |x| == |c| && forall i :: 0 <= i < |c| ==> Equation(a, b, c, f, x, i)
  }

  /** The diagonal outweighs the rest of every row. */
  predicate Dominant(a: seq<real>, b: seq<real>, c: seq<real>)
    requires Band(a, b, c)
  {
    forall i :: 0 <= i < |c| ==> Abs(c[i]) > Below(a, i) + Beside(b, i)
  }

  /** The determinant of the first `i` equations in the first `i` unknowns. */
  function Minor(a: seq<real>, b: seq<real>, c: seq<real>, i: nat): real
    requires Band(a, b, c) && i <= |c|
  {
    if i == 0 then 1.0
    else if i == 1 then c[0]
    else Times(c[i-1], Minor(a, b, c, i - 1)) - Times(Times(a[i-2], b[i-2]), Minor(a, b, c, i - 2))
  }

  /** None of the first `n` of these determinants is zero. */
  predicate Regular(a: seq<real>, b: seq<real>, c: seq<real>, n: nat)
    requires Band(a, b, c) && n <= |c|
  {
    forall i :: 0 < i <= n ==> Minor(a, b, c, i) != 0.0
  }

  function Below(a: seq<real>, i: nat): (r: real)
    requires i <= |a|
  {
    if i > 0 then Abs(a[i-1]) else 0.0
  }

  function Beside(b: seq<real>, i: nat): (r: real)
    requires i <= |b|
    ensures r >= 0.0
  {
    if i < |b| then Abs(b[i]) else 0.0
  }

  /** What the forward sweep divides by in row `i`, given the coefficient before. */
  function Divisor(a: seq<real>, c: seq<real>, alpha: seq<real>, i: nat): real
    requires i < |c| && |a| == |c| - 1 && i <= |alpha|
  {
    if i > 0 then c[i] - Times(a[i-1], alpha[i-1]) else c[i]
  }

  /** Row `i` has the coefficient that its divisor gives. */
  predicate Divided(a: seq<real>, b: seq<real>, c: seq<real>, alpha: seq<real>, i: nat)
    requires Band(a, b, c) && i < |c| && i < |alpha|
  {
    var divisor := Divisor(a, c, alpha, i);
    divisor != 0.0 && Times(divisor, alpha[i]) == if i < |b| then b[i] else 0.0
  }

  /** Row `i` has been swept: it gives unknown `i` by the next one. */
  predicate Swept(a: seq<real>, b: seq<real>, c: seq<real>, f: seq<real>, alpha: seq<real>, betta: seq<real>, i: nat)
    requires Shape(a, b, c, f) && i < |c| && i < |alpha| && i < |betta|
  {
    && Divided(a, b, c, alpha, i)
    && Times(Divisor(a, c, alpha, i), betta[i]) == f[i] + (if i > 0 then Times(a[i-1], betta[i-1]) else 0.0)
  }

  /** The sweep gets through its first `n` rows, dividing by nothing that is zero, with these coefficients. */
  predicate GetsThrough(a: seq<real>, b: seq<real>, c: seq<real>, alpha: seq<real>, n: nat)
    requires Band(a, b, c) && n <= |c| && n <= |alpha|
  {
    forall i :: 0 <= i < n ==> Divided(a, b, c, alpha, i)
  }

  // ----- when no divisor is zero -----

  lemma Cofactors(c: real, a: real, b: real, alpha: real, before: real, divisor: real, m0: real, m1: real)
    requires Times(before, alpha) == b && Times(before, m0) == m1 && divisor == c - Times(a, alpha)
    ensures Times(divisor, m1) == Times(c, m1) - Times(Times(a, b), m0)
  {
    assert divisor * m1 == c * m1 - (a * alpha) * m1;
    assert (a * alpha) * m1 == (a * alpha) * (before * m0) == (a * (before * alpha)) * m0;
  }

  /** A divisor takes one leading determinant to the next. */
  lemma {:induction false} DivisorMinor(a: seq<real>, b: seq<real>, c: seq<real>, alpha: seq<real>, i: nat)
    requires Band(a, b, c) && i < |c| && i <= |alpha| && GetsThrough(a, b, c, alpha, i)
    ensures Times(Divisor(a, c, alpha, i), Minor(a, b, c, i)) == Minor(a, b, c, i + 1)
  {
    hide Times;
    if i == 0 {
      TimesOne(c[0]);
    } else {
      DivisorMinor(a, b, c, alpha, i - 1);
      assert Divided(a, b, c, alpha, i - 1);
      Cofactors(c[i], a[i-1], b[i-1], alpha[i-1], Divisor(a, c, alpha, i - 1), Divisor(a, c, alpha, i),
                Minor(a, b, c, i - 1), Minor(a, b, c, i));
    }
  }

  lemma Factors(x: real, y: real)
    ensures Times(x, y) != 0.0 <==> x != 0.0 && y != 0.0
  {
  }

  lemma {:induction false} ThroughRegular(a: seq<real>, b: seq<real>, c: seq<real>, alpha: seq<real>, n: nat)
    requires Band(a, b, c) && n <= |c| && n <= |alpha| && GetsThrough(a, b, c, alpha, n)
    ensures Regular(a, b, c, n)
  {
    hide Times, Minor, Divisor;
    if n > 0 {
      ThroughRegular(a, b, c, alpha, n - 1);
      NextDivisor(a, b, c, alpha, n - 1);
      assert Divided(a, b, c, alpha, n - 1);
    }
  }

  /** The next divisor is zero exactly when the next determinant is. */
  lemma NextDivisor(a: seq<real>, b: seq<real>, c: seq<real>, alpha: seq<real>, n: nat)
    requires Band(a, b, c) && n < |c| && n <= |alpha| && GetsThrough(a, b, c, alpha, n) && Regular(a, b, c, n)
    ensures Divisor(a, c, alpha, n) != 0.0 <==> Minor(a, b, c, n + 1) != 0.0
  {
    hide Times, Divisor;
    DivisorMinor(a, b, c, alpha, n);
    Factors(Divisor(a, c, alpha, n), Minor(a, b, c, n));
  }

  lemma {:induction false} RegularThrough(a: seq<real>, b: seq<real>, c: seq<real>, n: nat) returns (alpha: seq<real>)
    requires Band(a, b, c) && n <= |c| && Regular(a, b, c, n)
    ensures |alpha| == n && GetsThrough(a, b, c, alpha, n)
  {
    hide Times, Minor;
    alpha := [];
    if n > 0 {
      var before := RegularThrough(a, b, c, n - 1);
      NextDivisor(a, b, c, before, n - 1);
      var divisor := Divisor(a, c, before, n - 1);
      alpha := before + [Ratio(if n - 1 < |b| then b[n-1] else 0.0, divisor)];
      OneMoreRow(a, b, c, before, alpha, n - 1);
    }
  }

  lemma OneMoreRow(a: seq<real>, b: seq<real>, c: seq<real>, before: seq<real>, alpha: seq<real>, n: nat)
    requires Band(a, b, c) && n < |c| && n <= |before| && n < |alpha| && before[..n] == alpha[..n]
    requires GetsThrough(a, b, c, before, n) && Divided(a, b, c, alpha, n)
    ensures GetsThrough(a, b, c, alpha, n + 1)
  {
    hide Times;
    forall i | 0 <= i < n ensures Divided(a, b, c, alpha, i) {
      assert Divided(a, b, c, before, i);
      assert before[i] == before[..n][i] == alpha[..n][i] == alpha[i];
      assert i > 0 ==> before[i-1] == before[..n][i-1] == alpha[..n][i-1] == alpha[i-1];
    }
  }

  /** The sweep gets through its first `n` rows exactly when none of the first `n` determinants is zero. */
  lemma ThroughExactly(a: seq<real>, b: seq<real>, c: seq<real>, n: nat)
    requires Band(a, b, c) && n <= |c|
    ensures (exists alpha: seq<real> :: |alpha| == n && GetsThrough(a, b, c, alpha, n)) <==> Regular(a, b, c, n)
  {
    if alpha: seq<real> :| |alpha| == n && GetsThrough(a, b, c, alpha, n) {
      ThroughRegular(a, b, c, alpha, n);
    }
    if Regular(a, b, c, n) {
      var alpha := RegularThrough(a, b, c, n);
    }
  }

  // ----- a case in which none is -----

  /** The divisor outweighs what is left of a row whose diagonal does. */
  lemma DivisorDominates(a: seq<real>, b: seq<real>, c: seq<real>, alpha: seq<real>, i: nat)
    requires Band(a, b, c) && Dominant(a, b, c) && i < |c| && i <= |alpha|
    requires i > 0 ==> Abs(alpha[i-1]) < 1.0
    ensures Abs(Divisor(a, c, alpha, i)) > Beside(b, i)
  {
    hide Times;
    assert Abs(c[i]) > Below(a, i) + Beside(b, i);
    if i > 0 {
      ScaledBound(alpha[i-1], a[i-1], 1.0);
      TimesSum(a[i-1], 0.0, alpha[i-1]);
      TimesOne(Abs(a[i-1]));
    }
  }

  /** With dominant diagonal the coefficients stay below one, so errors do not grow on the way back. */
  lemma {:induction false} SmallCoefficients(a: seq<real>, b: seq<real>, c: seq<real>, alpha: seq<real>, n: nat)
    requires Band(a, b, c) && Dominant(a, b, c) && n <= |c| && n <= |alpha| && GetsThrough(a, b, c, alpha, n)
    ensures forall i :: 0 <= i < n ==> Abs(alpha[i]) < 1.0
  {
    hide Times, Dominant, Abs;
    if n > 0 {
      SmallCoefficients(a, b, c, alpha, n - 1);
      DivisorDominates(a, b, c, alpha, n - 1);
      assert Divided(a, b, c, alpha, n - 1);
      LastSmall(if n - 1 < |b| then b[n-1] else 0.0, Divisor(a, c, alpha, n - 1), alpha[n-1], Beside(b, n - 1));
    }
  }

  lemma LastSmall(x: real, y: real, r: real, bound: real)
    requires Times(y, r) == x && Abs(x) <= bound < Abs(y)
    ensures Abs(r) < 1.0
  {
    hide Times;
    SmallRatio(x, y, r);
  }

  /** A dominant diagonal is enough for the sweep to get through. */
  lemma {:induction false} DominantThrough(a: seq<real>, b: seq<real>, c: seq<real>, n: nat) returns (alpha: seq<real>)
    requires Band(a, b, c) && Dominant(a, b, c) && n <= |c|
    ensures |alpha| == n && GetsThrough(a, b, c, alpha, n)
  {
    hide Times, Dominant, Abs;
    alpha := [];
    if n > 0 {
      var before := DominantThrough(a, b, c, n - 1);
      SmallCoefficients(a, b, c, before, n - 1);
      DivisorDominates(a, b, c, before, n - 1);
      var divisor := Divisor(a, c, before, n - 1);
      NotZero(divisor, Beside(b, n - 1));
      alpha := before + [Ratio(if n - 1 < |b| then b[n-1] else 0.0, divisor)];
      OneMoreRow(a, b, c, before, alpha, n - 1);
    }
  }

  lemma NotZero(x: real, bound: real)
    requires 0.0 <= bound < Abs(x)
    ensures x != 0.0
  {
  }

  lemma DominantRegular(a: seq<real>, b: seq<real>, c: seq<real>)
    requires Band(a, b, c) && Dominant(a, b, c)
    ensures Regular(a, b, c, |c|)
  {
    var alpha := DominantThrough(a, b, c, |c|);
    ThroughRegular(a, b, c, alpha, |c|);
  }

  lemma TimesOne(x: real)
    ensures Times(1.0, x) == x && Times(x, 1.0) == x
  {
  }

  function Ratio(x: real, y: real): (r: real)
    requires y != 0.0
    ensures Times(y, r) == x
  {
    x / y
  }

  lemma SmallRatio(x: real, y: real, r: real)
    requires Times(y, r) == x && Abs(x) < Abs(y)
    ensures Abs(r) < 1.0
  {
    hide Times;
    AbsTimes(y, r);
    TimesSum(Abs(y), 0.0, Abs(r));
    TimesOne(Abs(y));
    if Abs(r) >= 1.0 {
      TimesLeq(1.0, Abs(r), Abs(y));
    }
  }

  lemma TimesZero(x: real)
    ensures Times(x, 0.0) == 0.0 == Times(0.0, x)
  {
  }

  predicate AllSwept(a: seq<real>, b: seq<real>, c: seq<real>, f: seq<real>, alpha: seq<real>, betta: seq<real>, n: nat)
    requires Shape(a, b, c, f) && n <= |c| == |alpha| == |betta|
  {
    forall j :: 0 <= j < n ==> Swept(a, b, c, f, alpha, betta, j)
  }

  lemma NextSwept(a: seq<real>, b: seq<real>, c: seq<real>, f: seq<real>, alpha: seq<real>, betta: seq<real>,
                  newAlpha: seq<real>, newBetta: seq<real>, i: nat)
    requires Shape(a, b, c, f) && i < |c| == |alpha| == |betta| == |newAlpha| == |newBetta|
    requires AllSwept(a, b, c, f, alpha, betta, i) && alpha[..i] == newAlpha[..i] && betta[..i] == newBetta[..i]
    requires Swept(a, b, c, f, newAlpha, newBetta, i)
    ensures AllSwept(a, b, c, f, newAlpha, newBetta, i + 1)
  {
    forall j | 0 <= j < i ensures Swept(a, b, c, f, newAlpha, newBetta, j) {
      assert Swept(a, b, c, f, alpha, betta, j);
      assert alpha[j] == alpha[..i][j] == newAlpha[..i][j] && betta[j] == betta[..i][j] == newBetta[..i][j];
      if j > 0 {
        assert alpha[j-1] == alpha[..i][j-1] == newAlpha[..i][j-1] && betta[j-1] == betta[..i][j-1] == newBetta[..i][j-1];
      }
    }
  }

  /** The sweep forwards: every row gives its unknown by the next one. */
  method Forward(f: array<real>, a: array<real>, b: array<real>, c: array<real>, n: nat)
    returns (alpha: array<real>, betta: array<real>)
    requires c.Length == n && Shape(a[..], b[..], c[..], f[..]) && Regular(a[..], b[..], c[..], n)
    ensures fresh(alpha) && fresh(betta) && alpha.Length == betta.Length == n
    ensures AllSwept(a[..], b[..], c[..], f[..], alpha[..], betta[..], n)
  {
    hide Times, Regular, Swept, AllSwept, Minor;
    ghost var as_, bs, cs, fs := a[..], b[..], c[..], f[..];
    alpha := new real[n](_ => 0.0);
    betta := new real[n](_ => 0.0);
    FirstDivisor(as_, bs, cs);
    alpha[0] := Ratio(b[0], c[0]);
    betta[0] := Ratio(f[0], c[0]);
    SweptFirst(as_, bs, cs, fs, alpha[..], betta[..]);
    for i := 1 to n
      invariant fresh(alpha) && fresh(betta)
      invariant AllSwept(as_, bs, cs, fs, alpha[..], betta[..], i)
      invariant alpha[n-1] == 0.0
    {
      ghost var alpha0, betta0 := alpha[..], betta[..];
      SweptDivisor(as_, bs, cs, fs, alpha0, betta0, i);
      TimesZero(Divisor(as_, cs, alpha0, i));
      if i < n - 1 {
        alpha[i] := Ratio(b[i], c[i] - Times(a[i-1], alpha[i-1]));
      }
      betta[i] := Ratio(f[i] + Times(a[i-1], betta[i-1]), c[i] - Times(a[i-1], alpha[i-1]));
      RowSwept(as_, bs, cs, fs, alpha[..], betta[..], i);
      NextSwept(as_, bs, cs, fs, alpha0, betta0, alpha[..], betta[..], i);
    }
  }

  lemma FirstDivisor(a: seq<real>, b: seq<real>, c: seq<real>)
    requires Band(a, b, c) && Regular(a, b, c, |c|)
    ensures c[0] != 0.0
  {
    assert Minor(a, b, c, 1) != 0.0;
  }

  lemma RowSwept(a: seq<real>, b: seq<real>, c: seq<real>, f: seq<real>, alpha: seq<real>, betta: seq<real>, i: nat)
    requires Shape(a, b, c, f) && i < |c| == |alpha| == |betta| && Divisor(a, c, alpha, i) != 0.0
    requires Times(Divisor(a, c, alpha, i), alpha[i]) == if i < |b| then b[i] else 0.0
    requires Times(Divisor(a, c, alpha, i), betta[i]) == f[i] + if i > 0 then Times(a[i-1], betta[i-1]) else 0.0
    ensures Swept(a, b, c, f, alpha, betta, i)
  {
  }

  lemma SweptFirst(a: seq<real>, b: seq<real>, c: seq<real>, f: seq<real>, alpha: seq<real>, betta: seq<real>)
    requires Shape(a, b, c, f) && |c| == |alpha| == |betta| && c[0] != 0.0
    requires Times(c[0], alpha[0]) == b[0] && Times(c[0], betta[0]) == f[0]
    ensures AllSwept(a, b, c, f, alpha, betta, 1)
  {
  }

  lemma SweptThrough(a: seq<real>, b: seq<real>, c: seq<real>, f: seq<real>, alpha: seq<real>, betta: seq<real>, n: nat)
    requires Shape(a, b, c, f) && n <= |c| == |alpha| == |betta| && AllSwept(a, b, c, f, alpha, betta, n)
    ensures GetsThrough(a, b, c, alpha, n)
  {
    forall i | 0 <= i < n ensures Divided(a, b, c, alpha, i) {
      assert Swept(a, b, c, f, alpha, betta, i);
    }
  }

  lemma SweptDivisor(a: seq<real>, b: seq<real>, c: seq<real>, f: seq<real>, alpha: seq<real>, betta: seq<real>, i: nat)
    requires Shape(a, b, c, f) && i < |c| == |alpha| == |betta| && AllSwept(a, b, c, f, alpha, betta, i)
    requires Regular(a, b, c, |c|)
    ensures Divisor(a, c, alpha, i) != 0.0
  {
    hide Times, AllSwept, Minor, Divisor;
    SweptThrough(a, b, c, f, alpha, betta, i);
    assert Minor(a, b, c, i + 1) != 0.0;
    NextDivisor(a, b, c, alpha, i);
  }

  /** Row `i` as the backward sweep uses it. */
  predicate RowHolds(alpha: seq<real>, betta: seq<real>, x: seq<real>, j: nat)
    requires j < |x| == |alpha| == |betta|
  {
    x[j] == if j + 1 < |x| then Times(alpha[j], x[j+1]) + betta[j] else betta[j]
  }

  /** Do the values from `i` on follow from the swept rows? */
  predicate Follows(alpha: seq<real>, betta: seq<real>, x: seq<real>, i: nat)
    requires i <= |x| == |alpha| == |betta|
  {
    forall j :: i <= j < |x| ==> RowHolds(alpha, betta, x, j)
  }

  lemma FollowsMore(alpha: seq<real>, betta: seq<real>, x: seq<real>, y: seq<real>, i: nat)
    requires i < |x| == |y| == |alpha| == |betta| && Follows(alpha, betta, x, i + 1)
    requires x[i+1..] == y[i+1..] && RowHolds(alpha, betta, y, i)
    ensures Follows(alpha, betta, y, i)
  {
    hide Times;
    forall j | i < j < |x| ensures RowHolds(alpha, betta, y, j) {
      assert RowHolds(alpha, betta, x, j);
      assert x[j] == x[i+1..][j-i-1] == y[i+1..][j-i-1] == y[j];
      assert j + 1 < |x| ==> x[j+1] == x[i+1..][j-i] == y[i+1..][j-i] == y[j+1];
    }
  }

  /** The method solves the system, and nothing else does. */
  method Solution(f: array<real>, a: array<real>, b: array<real>, c: array<real>, n: nat) returns (x: array<real>)
    requires c.Length == n && Shape(a[..], b[..], c[..], f[..]) && Regular(a[..], b[..], c[..], n)
    ensures fresh(x) && x.Length == n
    ensures forall y: seq<real> :: Solves(a[..], b[..], c[..], f[..], y) <==> y == x[..]
  {
    hide Times, Regular, Swept, AllSwept, Solves;
    ghost var as_, bs, cs, fs := a[..], b[..], c[..], f[..];
    var alpha, betta := Forward(f, a, b, c, n);
    ghost var alphas, bettas := alpha[..], betta[..];
    x := new real[n](_ => 0.0);
    x[n-1] := betta[n-1];
    for i := n - 1 downto 0
      invariant Follows(alphas, bettas, x[..], i)
      invariant alpha[..] == alphas && betta[..] == bettas && fresh(x)
    {
      ghost var x0 := x[..];
      x[i] := Times(alpha[i], x[i+1]) + betta[i];
      FollowsMore(alphas, bettas, x0, x[..], i);
    }
    forall y: seq<real> ensures Solves(as_, bs, cs, fs, y) <==> y == x[..] {
      SolvesExactly(as_, bs, cs, fs, alphas, bettas, x[..], y);
    }
  }

  /** Putting the row before into an equation leaves the divisor times the swept row. */
  lemma Elimination(a: real, b: real, c: real, f: real, alpha0: real, betta0: real, alpha: real, betta: real, divisor: real,
                    y0: real, y1: real, y2: real)
    requires y0 == Times(alpha0, y1) + betta0 && divisor == c - Times(a, alpha0) && divisor != 0.0
    requires Times(divisor, alpha) == b && Times(divisor, betta) == f + Times(a, betta0)
    ensures -Times(a, y0) + Times(c, y1) - Times(b, y2) == f <==> y1 == Times(alpha, y2) + betta
  {
    var rest := y1 - (alpha * y2 + betta);
    assert a * y0 == (a * alpha0) * y1 + a * betta0;
    assert b * y2 == divisor * (alpha * y2);
    assert divisor * y1 == c * y1 - (a * alpha0) * y1;
    assert -Times(a, y0) + Times(c, y1) - Times(b, y2) - f == divisor * y1 - divisor * (alpha * y2) - divisor * betta
      == divisor * rest;
    assert divisor * rest == 0.0 <==> rest == 0.0;
  }

  lemma RowStep(a: seq<real>, b: seq<real>, c: seq<real>, f: seq<real>, alpha: seq<real>, betta: seq<real>, y: seq<real>, i: nat)
    requires Shape(a, b, c, f) && |alpha| == |betta| == |c| == |y| && i < |c|
    requires Swept(a, b, c, f, alpha, betta, i) && (i > 0 ==> RowHolds(alpha, betta, y, i - 1))
    ensures Equation(a, b, c, f, y, i) <==> RowHolds(alpha, betta, y, i)
  {
    hide Times;
    TimesZero(0.0);
    TimesZero(alpha[i]);
    TimesZero(y[i]);
    var lower, upper := if i > 0 then a[i-1] else 0.0, if i < |b| then b[i] else 0.0;
    Elimination(lower, upper, c[i], f[i], if i > 0 then alpha[i-1] else 0.0, if i > 0 then betta[i-1] else 0.0,
                alpha[i], betta[i], Divisor(a, c, alpha, i),
                if i > 0 then y[i-1] else 0.0, y[i], if i < |b| then y[i+1] else 0.0);
  }

  lemma {:induction false} RowsStep(a: seq<real>, b: seq<real>, c: seq<real>, f: seq<real>, alpha: seq<real>, betta: seq<real>,
                                    y: seq<real>, n: nat)
    requires Shape(a, b, c, f) && |alpha| == |betta| == |c| == |y| && n <= |c| && AllSwept(a, b, c, f, alpha, betta, |c|)
    ensures (forall i :: 0 <= i < n ==> Equation(a, b, c, f, y, i))
      <==> (forall i :: 0 <= i < n ==> RowHolds(alpha, betta, y, i))
  {
    hide Equation, RowHolds, Swept, Shape;
    if n > 0 {
      RowsStep(a, b, c, f, alpha, betta, y, n - 1);
      if forall i :: 0 <= i < n - 1 ==> RowHolds(alpha, betta, y, i) {
        RowStep(a, b, c, f, alpha, betta, y, n - 1);
      }
    }
  }

  /** The system has the solutions that the swept rows have. */
  lemma SweepKeeps(a: seq<real>, b: seq<real>, c: seq<real>, f: seq<real>, alpha: seq<real>, betta: seq<real>, y: seq<real>)
    requires Shape(a, b, c, f) && |alpha| == |betta| == |c| == |y| && AllSwept(a, b, c, f, alpha, betta, |c|)
    ensures Solves(a, b, c, f, y) <==> Follows(alpha, betta, y, 0)
  {
    hide Equation, AllSwept, Times;
    RowsStep(a, b, c, f, alpha, betta, y, |c|);
    assert Follows(alpha, betta, y, 0) <==> forall i :: 0 <= i < |y| ==> RowHolds(alpha, betta, y, i);
  }

  lemma SolvesExactly(a: seq<real>, b: seq<real>, c: seq<real>, f: seq<real>, alpha: seq<real>, betta: seq<real>,
                      x: seq<real>, y: seq<real>)
    requires Shape(a, b, c, f) && |alpha| == |betta| == |c| == |x| && AllSwept(a, b, c, f, alpha, betta, |c|)
    requires Follows(alpha, betta, x, 0)
    ensures Solves(a, b, c, f, y) <==> y == x
  {
    hide Times, AllSwept;
    SweepKeeps(a, b, c, f, alpha, betta, x);
    if Solves(a, b, c, f, y) {
      SweepKeeps(a, b, c, f, alpha, betta, y);
      FollowsUnique(alpha, betta, x, y, 0);
    }
  }

  lemma {:induction false} FollowsUnique(alpha: seq<real>, betta: seq<real>, x: seq<real>, y: seq<real>, i: nat)
    requires i <= |x| == |y| == |alpha| == |betta| && Follows(alpha, betta, x, i) && Follows(alpha, betta, y, i)
    ensures x[i..] == y[i..]
    decreases |x| - i
  {
    hide Times;
    if i < |x| {
      FollowsUnique(alpha, betta, x, y, i + 1);
      assert RowHolds(alpha, betta, x, i) && RowHolds(alpha, betta, y, i);
      assert i + 1 < |x| ==> x[i+1] == x[i+1..][0] == y[i+1..][0] == y[i+1];
      assert x[i..] == [x[i]] + x[i+1..] && y[i..] == [y[i]] + y[i+1..];
    }
  }

  /** A system with exactly one solution that the sweep cannot find: the first determinant is zero. */
  lemma SolvableNotRegular()
    ensures var a, b, c, f := [1.0], [1.0], [0.0, 1.0], [1.0, 1.0];
            && Shape(a, b, c, f) && !Regular(a, b, c, 1)
            && forall y: seq<real> :: Solves(a, b, c, f, y) <==> y == [-2.0, -1.0]
  {
    var a, b, c, f := [1.0], [1.0], [0.0, 1.0], [1.0, 1.0];
    assert Minor(a, b, c, 1) == 0.0;
    forall y: seq<real> ensures Solves(a, b, c, f, y) <==> y == [-2.0, -1.0] {
      if |y| == 2 {
        TimesOne(y[0]);
        TimesOne(y[1]);
        TimesZero(y[0]);
        assert Equation(a, b, c, f, y, 0) <==> -y[1] == 1.0;
        assert Equation(a, b, c, f, y, 1) <==> -y[0] + y[1] == 1.0;
      }
    }
  }
}
