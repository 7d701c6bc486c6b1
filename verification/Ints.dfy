/** Integer division and greatest common divisors. */
module Ints {

  function Abs(x: int): nat { if x < 0 then -x else x }

  /** Division truncates towards zero. */
  function TruncDiv(x: int, y: int): int
    requires y != 0
  {
    var q := Abs(x) / Abs(y);
    if (x < 0) == (y < 0) then q else -q
  }

  ghost predicate Divides(d: int, x: int) {
    exists q :: x == d * q
  }

  function Gcd(a: int, b: int): nat
    decreases Abs(b)
  {
    if b == 0 then Abs(a) else Gcd(b, Abs(a) % Abs(b))
  }

  lemma DividesSum(d: int, x: int, y: int, k: int)
    requires Divides(d, x) && Divides(d, y)
    ensures Divides(d, x + k * y)
  {
    var p :| x == d * p;
    var q :| y == d * q;
    assert x + k * y == d * (p + k * q);
  }

  lemma DividesAbs(d: int, x: int)
    ensures Divides(d, Abs(x)) <==> Divides(d, x)
  {
    if q :| x == d * q { assert -x == d * (-q); }
    var n: int := Abs(x);
    if q :| n == d * q { assert -n == d * (-q); }
  }

  /** The greatest common divisor divides both numbers, and is zero only when both are. */
  lemma {:induction false} GcdDivides(a: int, b: int)
    ensures Divides(Gcd(a, b), a) && Divides(Gcd(a, b), b)
    ensures Gcd(a, b) == 0 ==> a == 0 && b == 0
    decreases Abs(b)
  {
    var g := Gcd(a, b);
    if b == 0 {
      assert Abs(a) == g * 1 && b == g * 0;
      DividesAbs(g, a);
    } else {
      var n, m := Abs(a), Abs(b);
      var q, r := n / m, n % m;
      assert n == r + q * m && r < m && Gcd(b, r) == g;
      hide Divides, Gcd;
      GcdDivides(b, r);
      DividesAbs(g, b);
      DividesSum(g, r, m, q);
      DividesAbs(g, a);
    }
  }

  lemma DividesRest(d: int, x: int, y: int, k: int)
    requires Divides(d, y) && Divides(d, x + k * y)
    ensures Divides(d, x)
  {
    DividesSum(d, x + k * y, y, -k);
    assert x + k * y + (-k) * y == x;
  }

  /** Every common divisor divides the greatest one. */
  lemma {:induction false} GcdGreatest(d: int, a: int, b: int)
    requires Divides(d, a) && Divides(d, b)
    ensures Divides(d, Gcd(a, b))
    decreases Abs(b)
  {
    DividesAbs(d, a);
    if b != 0 {
      var n, m := Abs(a), Abs(b);
      var q, r := n / m, n % m;
      Quotient(n, m);
      assert Gcd(b, r) == Gcd(a, b);
      hide Divides, Gcd, Abs;
      assert n == r + q * m;
      DividesAbs(d, b);
      DividesRest(d, r, m, q);
      GcdGreatest(d, b, r);
    }
  }

  lemma DividesAtMost(a: nat, b: nat)
    requires Divides(a, b) && b > 0
    ensures 0 < a <= b
  {
    var q :| b == a * q;
    ProductSign(a, q);
    MulAtLeast(a, q);
  }

  lemma ProductSign(a: nat, q: int)
    requires a * q > 0
    ensures a > 0 && q > 0
  {
  }

  lemma DividesBoth(a: nat, b: nat)
    requires Divides(a, b) && Divides(b, a)
    ensures a == b
  {
    if a > 0 {
      DividesAtMost(b, a);
      DividesAtMost(a, b);
    } else if b > 0 {
      DividesAtMost(a, b);
    }
  }

  /** The greatest common divisor is the only number that divides both and that every common divisor divides. */
  lemma GcdUnique(g: nat, a: int, b: int)
    requires Divides(g, a) && Divides(g, b) && forall d :: Divides(d, a) && Divides(d, b) ==> Divides(d, g)
    ensures g == Gcd(a, b)
  {
    hide Divides, Gcd;
    GcdDivides(a, b);
    GcdGreatest(g, a, b);
    DividesBoth(g, Gcd(a, b));
  }

  /** Taking one number from the other changes nothing. */
  lemma GcdDifference(a: int, b: int)
    ensures Gcd(a - b, b) == Gcd(a, b) == Gcd(b, a)
  {
    hide Divides, Gcd;
    var g := Gcd(a, b);
    GcdDivides(a, b);
    DividesSum(g, a, b, -1);
    forall d | Divides(d, a - b) && Divides(d, b) ensures Divides(d, g) {
      DividesSum(d, a - b, b, 1);
      GcdGreatest(d, a, b);
    }
    GcdUnique(g, a - b, b);
    forall d | Divides(d, b) && Divides(d, a) ensures Divides(d, g) {
      GcdGreatest(d, a, b);
    }
    GcdUnique(g, b, a);
  }

  /** The quotient is cut off towards zero. */
  lemma TruncDivIs(x: int, y: int)
    requires y != 0
    ensures var q := TruncDiv(x, y);
            && Abs(x - q * y) < Abs(y) && Abs(q * y) <= Abs(x)
            && (q != 0 ==> (q > 0 <==> (x < 0) == (y < 0)))
  {
    var n: int, m: int := Abs(x), Abs(y);
    var d: int, r: int := n / m, n % m;
    var q := TruncDiv(x, y);
    var p := q * y;
    Quotient(n, m);
    AbsProduct(q, y);
    SignOfProduct(y, q);
    assert y * q == p && Abs(q) == d && Abs(p) == d * m;
    hide Abs;
    SameSide(x, p);
  }

  lemma Quotient(n: int, m: int)
    requires n >= 0 && m > 0
    ensures n == n / m * m + n % m && n / m >= 0 && n / m * m >= 0
  {
  }

  lemma SameSide(x: int, p: int)
    requires Abs(p) <= Abs(x) && (p != 0 ==> (p < 0) == (x < 0))
    ensures Abs(x - p) == Abs(x) - Abs(p)
  {
  }

  lemma DividesTrans(d: int, x: int, y: int)
    requires Divides(d, x) && Divides(x, y)
    ensures Divides(d, y)
  {
    var p :| x == d * p;
    var q :| y == x * q;
    assert y == d * (p * q);
  }

  /** Dividing by a divisor is exact. */
  lemma ExactDiv(x: int, d: int)
    requires d != 0 && Divides(d, x)
    ensures TruncDiv(x, d) * d == x
  {
    var q :| x == d * q;
    var n, m := Abs(x), Abs(d);
    AbsProduct(d, q);
    assert n == m * Abs(q);
    DivCancels(Abs(q), m);
    assert TruncDiv(x, d) == q || x == 0 by {
      SignOfProduct(d, q);
    }
    if x == 0 {
      assert TruncDiv(x, d) == 0;
    } else {
      assert q * d == x;
    }
  }

  lemma AbsProduct(d: int, q: int)
    ensures Abs(d * q) == Abs(d) * Abs(q)
  {
    if d >= 0 && q >= 0 {
      assert d * q >= 0;
    } else if d >= 0 {
      assert d * q == -(d * -q);
      assert d * -q >= 0;
    } else if q >= 0 {
      assert d * q == -(-d * q);
      assert -d * q >= 0;
    } else {
      assert d * q == -d * -q;
      assert -d * -q >= 0;
    }
  }

  lemma SignOfProduct(d: int, q: int)
    requires d != 0
    ensures d * q != 0 ==> ((d * q < 0) == (d < 0) <==> q > 0)
  {
    if q > 0 {
      if d > 0 { assert d * q > 0; } else { assert -d * q > 0; assert d * q == -(-d * q); }
    } else if q < 0 {
      if d > 0 { assert d * -q > 0; assert d * q == -(d * -q); } else { assert -d * -q > 0; assert d * q == -d * -q; }
    }
  }

  lemma DivCancels(q: nat, m: nat)
    requires m > 0
    ensures (m * q) / m == q
  {
    var n := m * q;
    QuotientUnique(n, m, q, n / m, n % m);
  }

  lemma QuotientUnique(n: int, m: nat, q: int, d: int, r: int)
    requires n == m * q && n == m * d + r && 0 <= r < m
    ensures d == q
  {
    assert m * (q - d) == r && m * (d - q) == -r;
    MulAtLeast(m, q - d);
    MulAtLeast(m, d - q);
  }

  lemma MulAtLeast(m: nat, k: int)
    ensures k >= 1 ==> m * k >= m
  {
  }

  lemma ModScaled(k: nat, n: nat, m: nat)
    requires k > 0 && m > 0
    ensures k * m > 0 && (k * n) % (k * m) == k * (n % m)
  {
    var d, r := n / m, n % m;
    var kn: nat, km: nat, kr: int := k * n, k * m, k * r;
    Quotient(n, m);
    ScaledSum(k, d, m, n, r);
    MulAtLeast(k, m);
    ScaledLess(k, r, m);
    Remainder(kn, km, d, kr);
  }

  lemma ScaledSum(k: int, d: int, m: int, n: int, r: int)
    requires n == d * m + r
    ensures k * n == (k * m) * d + k * r
  {
  }

  lemma ScaledLess(k: nat, r: nat, m: nat)
    requires k > 0 && r < m
    ensures 0 <= k * r < k * m
  {
    assert k * (m - r) > 0;
  }

  lemma Remainder(n: nat, m: nat, d: int, r: int)
    requires m > 0 && n == m * d + r && 0 <= r < m
    ensures n % m == r
  {
    var p := n - n % m;
    Quotient(n, m);
    assert m * (n / m - d) == r - n % m;
    MulAtLeast(m, n / m - d);
    MulAtLeast(m, d - n / m);
    assert m * (d - n / m) == -(m * (n / m - d));
  }

  lemma {:induction false} GcdScaled(k: nat, a: int, b: int)
    requires k > 0
    ensures Gcd(k * a, k * b) == k * Gcd(a, b)
    decreases Abs(b)
  {
    AbsProduct(k, a);
    AbsProduct(k, b);
    if b != 0 {
      var n, m := Abs(a), Abs(b);
      ModScaled(k, n, m);
      GcdScaled(k, b, n % m);
      assert k * b != 0;
      assert Gcd(k * a, k * b) == Gcd(k * b, (k * n) % (k * m));
    }
  }
}
