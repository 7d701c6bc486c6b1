/** Finding a root of a cubic by halving a bracket, over exact reals. */
module Bisection {
  import opened Reals

  function Signum(x: real): real { if x > 0.0 then 1.0 else if x < 0.0 then -1.0 else 0.0 }

  function Pow2(n: nat): (r: real)
    ensures r >= n as real + 1.0
  {
    if n == 0 then 1.0 else 2.0 * Pow2(n - 1)
  }

  function Sq(x: real): real { Times(x, x) }

  function Line(c: real, d: real, x: real): real { Times(c, x) + d }

  function Parabola(b: real, c: real, d: real, x: real): real { Times(b, Sq(x)) + Line(c, d, x) }

  /** Different signs, or a zero. */
  predicate SignChange(x: real, y: real) { x <= 0.0 <= y || y <= 0.0 <= x }

  /** The border that is moved to the middle keeps the sign change, and the sign on the left. */
  lemma SignStep(left: real, right: real, middle: real, grow: real)
    requires SignChange(left, right) && Signum(left) == 0.0 - grow
    ensures if middle * grow < 0.0 then SignChange(middle, right) && Signum(middle) == Signum(left)
            else SignChange(left, middle)
  {
    assert grow == 1.0 || grow == 0.0 || grow == -1.0;
  }

  /** Between two borders, whichever of them is the smaller. */
  predicate Between(x: real, l: real, r: real) { l <= x <= r || r <= x <= l }

  const STEP := 1024.0

  class Equation {
    const a: real
    const b: real
    const c: real
    const d: real
    const epsilon: real

    constructor (a: real, b: real, c: real, d: real, epsilon: real)
      ensures this.a == a && this.b == b && this.c == c && this.d == d && this.epsilon == epsilon
    {
      this.a := a;
      this.b := b;
      this.c := c;
      this.d := d;
      this.epsilon := epsilon;
    }

    function CheckAnswerInPoint(point: real): real {
      a * point * point * point + b * point * point + c * point + d
    }

    // ----- the bracket -----

    /** Does a bracket have a sign change? */
    predicate Brackets(l: real, r: real) { SignChange(CheckAnswerInPoint(l), CheckAnswerInPoint(r)) }

    /** How steep the cubic can be where no coordinate is beyond `m`. */
    function Steepness(m: real): real { SlopeLimit(SquareCap(m), 2.0 * m) }

    static function SquareCap(m: real): real { 3.0 * Times(m, m) }

    function SlopeLimit(square: real, sum: real): real { Times(square, Abs(a)) + Times(sum, Abs(b)) + Abs(c) }

    function Reach(l: real, r: real): (m: real)
      ensures m >= 0.0 && -m <= l <= m && -m <= r <= m
    {
      if Abs(l) < Abs(r) then Abs(r) else Abs(l)
    }

    static function Square(x: real, y: real): real { Times(x, x) + Times(x, y) + Times(y, y) }

    /** The slope of the line through two points of the cubic. */
    function Slope(x: real, y: real): real { Times(Square(x, y), a) + Times(x + y, b) + c }

    lemma Difference(x: real, y: real)
      ensures CheckAnswerInPoint(x) - CheckAnswerInPoint(y) == Times(Slope(x, y), x - y)
    {
      var u, v := x * x + x * y + y * y, x + y;
      assert x * x * x - y * y * y == u * (x - y);
      assert x * x - y * y == v * (x - y);
      assert a * (x * x * x) - a * (y * y * y) == a * (u * (x - y)) == (a * u) * (x - y);
      assert b * (x * x) - b * (y * y) == b * (v * (x - y)) == (b * v) * (x - y);
      assert CheckAnswerInPoint(x) == a * (x * x * x) + b * (x * x) + c * x + d;
      assert CheckAnswerInPoint(y) == a * (y * y * y) + b * (y * y) + c * y + d;
    }

    lemma SlopeBound(x: real, y: real, u: real, v: real)
      requires Abs(Square(x, y)) <= u && Abs(x + y) <= v
      ensures Abs(Slope(x, y)) <= SlopeLimit(u, v)
    {
      hide Times, Abs, Square;
      ScaledBound(Square(x, y), a, u);
      ScaledBound(x + y, b, v);
      AbsSum(Times(Square(x, y), a), Times(x + y, b), c, Times(u, Abs(a)), Times(v, Abs(b)));
    }

    lemma SquareBound(x: real, y: real, m: real)
      requires m >= 0.0 && -m <= x <= m && -m <= y <= m
      ensures Abs(Square(x, y)) <= SquareCap(m)
    {
      hide Times;
      ProductBound(x, x, m);
      ProductBound(x, y, m);
      ProductBound(y, y, m);
    }

    lemma ProductBound(x: real, y: real, m: real)
      requires -m <= x <= m && -m <= y <= m && m >= 0.0
      ensures Abs(Times(x, y)) <= Times(m, m)
    {
      hide Times;
      ScaledBound(x, y, m);
      TimesLeq(Abs(y), m, m);
      TimesSum(m, 0.0, Abs(y));
    }

    /** A bound on the difference of two values of the cubic. */
    lemma Lipschitz(x: real, y: real, m: real)
      requires m >= 0.0 && -m <= x <= m && -m <= y <= m
      ensures Abs(CheckAnswerInPoint(x) - CheckAnswerInPoint(y)) <= Times(Steepness(m), Abs(x - y))
    {
      hide CheckAnswerInPoint, Slope, SlopeLimit, SquareCap, Square, Times;
      Difference(x, y);
      SquareBound(x, y, m);
      SlopeBound(x, y, SquareCap(m), 2.0 * m);
      ScaledBound(Slope(x, y), x - y, Steepness(m));
    }

    /** In a bracket with a sign change the value in the middle is at most half the width times the steepness. */
    lemma MiddleIsSmall(l: real, r: real, m: real)
      requires m >= 0.0 && -m <= l <= m && -m <= r <= m && Brackets(l, r)
      ensures Abs(CheckAnswerInPoint((l + r) / 2.0)) <= Times(Steepness(m), Abs(r - l) / 2.0)
    {
      hide CheckAnswerInPoint, Steepness, Times;
      var mid := (l + r) / 2.0;
      Lipschitz(mid, l, m);
      Lipschitz(mid, r, m);
      assert Abs(mid - l) == Abs(r - l) / 2.0 && Abs(mid - r) == Abs(r - l) / 2.0;
    }

    /** Is a bracket, after `n` halvings, so narrow that the value in its middle is within the accuracy? */
    predicate Enough(l: real, r: real, n: nat) {
      Steepness(Reach(l, r)) * Abs(r - l) <= 2.0 * epsilon * Pow2(n)
    }

    lemma SomeEnough(l: real, r: real) returns (n: nat)
      requires epsilon > 0.0
      ensures Enough(l, r, n)
    {
      var s := Steepness(Reach(l, r)) * Abs(r - l);
      var q := s / (2.0 * epsilon);
      n := if q < 0.0 then 0 else q.Floor;
      assert q <= n as real + 1.0 <= Pow2(n);
      TimesLeq(q, Pow2(n), 2.0 * epsilon);
    }

    /** When the value in the middle of the bracket that `k` halvings have left is not within the accuracy, `k` halvings
        were not enough. */
    lemma NotYet(l: real, r: real, left: real, right: real, k: nat)
      requires Between(left, l, r) && Between(right, l, r) && Brackets(left, right)
      requires Width(left, right, Abs(r - l), k)
      requires Abs(CheckAnswerInPoint((left + right) / 2.0)) > epsilon
      ensures forall n: nat :: Enough(l, r, n) ==> k < n
    {
      hide CheckAnswerInPoint, Steepness, Reach, Pow2, Brackets;
      var s, v := Steepness(Reach(l, r)), Abs(right - left);
      MiddleIsSmall(left, right, Reach(l, r));
      assert s * v > 2.0 * epsilon;
      forall n: nat | Enough(l, r, n)
        ensures k < n
      {
        assert s * (v * Pow2(k)) == (s * v) * Pow2(k);
        if n <= k {
          Pow2Grows(n, k);
          TimesLeq(Pow2(n), Pow2(k), 2.0 * epsilon);
          TimesLess(2.0 * epsilon, s * v, Pow2(k));
        }
      }
    }

    /** Halves a bracket until the value in the middle is within the accuracy. The bracket may be given with its greater
        border first. There is one more iteration than there are halvings, and no more halvings than needed. */
    method Bisect(lineSegment: seq<real>) returns (middlePoint: real, iteration: nat)
      requires |lineSegment| == 2 && epsilon > 0.0 && Brackets(lineSegment[0], lineSegment[1])
      ensures -epsilon <= CheckAnswerInPoint(middlePoint) <= epsilon
      ensures Between(middlePoint, lineSegment[0], lineSegment[1])
      ensures forall n: nat :: Enough(lineSegment[0], lineSegment[1], n) ==> 1 <= iteration <= n + 1
    {
      var leftBorder := lineSegment[0];
      var rightBorder := lineSegment[1];
      ghost var l, r := leftBorder, rightBorder;
      assert Width(l, r, Abs(r - l), 0);
      hide CheckAnswerInPoint, Steepness, Reach, Enough, SignChange, Signum, Width;
      ghost var bound := SomeEnough(l, r);
      var funcGrow := 0.0 - Signum(CheckAnswerInPoint(leftBorder));
      middlePoint := (leftBorder + rightBorder) / 2.0;
      var answerInPoint := CheckAnswerInPoint(middlePoint);
      iteration := 1;
      while answerInPoint > epsilon || answerInPoint < 0.0 - epsilon
        invariant iteration >= 1 && middlePoint == (leftBorder + rightBorder) / 2.0
        invariant answerInPoint == CheckAnswerInPoint(middlePoint)
        invariant Between(leftBorder, l, r) && Between(rightBorder, l, r)
        invariant Brackets(leftBorder, rightBorder)
        invariant Signum(CheckAnswerInPoint(leftBorder)) == 0.0 - funcGrow
        invariant Width(leftBorder, rightBorder, Abs(r - l), iteration - 1)
        invariant forall n: nat :: Enough(l, r, n) ==> iteration <= n + 1
        decreases bound - iteration
      {
        NotYet(l, r, leftBorder, rightBorder, iteration - 1);
        Halved(leftBorder, rightBorder, Abs(r - l), iteration - 1);
        SignStep(CheckAnswerInPoint(leftBorder), CheckAnswerInPoint(rightBorder), answerInPoint, funcGrow);
        if CheckAnswerInPoint(middlePoint) * funcGrow < 0.0 {
          leftBorder := middlePoint;
        } else {
          rightBorder := middlePoint;
        }
        middlePoint := (leftBorder + rightBorder) / 2.0;
        answerInPoint := CheckAnswerInPoint(middlePoint);
        iteration := iteration + 1;
      }
    }

    // ----- looking for a bracket -----

    /** Does the search from `startPoint` go downwards? */
    predicate Above(startPoint: real) { CheckAnswerInPoint(startPoint) > 0.0 }

    /** The point after `k` steps of the search. */
    function StepPoint(startPoint: real, k: nat): real {
      if Above(startPoint) then startPoint - k as real * STEP else startPoint + k as real * STEP
    }

    /** Has the cubic, after `k` steps of the search, still the sign it started with? */
    predicate SameSign(startPoint: real, k: nat) {
      if Above(startPoint) then CheckAnswerInPoint(StepPoint(startPoint, k)) > 0.0
      else CheckAnswerInPoint(StepPoint(startPoint, k)) < 0.0
    }

    /** Does the search end? */
    ghost predicate SearchEnds(startPoint: real) { exists k: nat :: k > 0 && !SameSign(startPoint, k) }

    /** Steps of a fixed length, downwards from a positive value and upwards from any other, until the sign changes: the
        last two points of the search. */
    method FindLineSegment(startPoint: real) returns (answer: seq<real>, ghost k: nat)
      requires SearchEnds(startPoint)
      ensures |answer| == 2 && Brackets(answer[0], answer[1])
      ensures answer == [StepPoint(startPoint, k), StepPoint(startPoint, k + 1)]
      ensures !SameSign(startPoint, k + 1) && forall j: nat :: 0 < j <= k ==> SameSign(startPoint, j)
    {
      hide CheckAnswerInPoint;
      var addStep, sgnStartPoint;
      if CheckAnswerInPoint(startPoint) > 0.0 {
        addStep := -1024.0;
        sgnStartPoint := 1.0;
      } else {
        addStep := 1024.0;
        sgnStartPoint := -1.0;
      }
      ghost var end: nat :| end > 0 && !SameSign(startPoint, end);
      var firstPoint := startPoint;
      k := 0;
      while CheckAnswerInPoint(firstPoint + addStep) * sgnStartPoint > 0.0
        invariant firstPoint == StepPoint(startPoint, k) && k < end
        invariant forall j: nat :: 0 < j <= k ==> SameSign(startPoint, j)
        decreases end - k
      {
        firstPoint := firstPoint + addStep;
        k := k + 1;
        assert SameSign(startPoint, k);
      }
      var secondPoint := firstPoint + addStep;
      answer := [firstPoint, secondPoint];
      assert secondPoint == StepPoint(startPoint, k + 1);
      assert k > 0 ==> SameSign(startPoint, k);
    }

    // ----- when the search ends -----

    lemma Splits(x: real)
      ensures CheckAnswerInPoint(x) == Times(Times(a, x), Sq(x)) + Parabola(b, c, d, x)
      ensures a == 0.0 ==> CheckAnswerInPoint(x) == Times(Times(b, Abs(x)), Abs(x)) + Line(c, d, x)
    {
      assert a * x * x * x == (a * x) * (x * x);
      assert b * x * x == b * (x * x) == b * (Abs(x) * Abs(x)) == (b * Abs(x)) * Abs(x);
    }

    /** Far from zero the cubic has the sign `s` of its leading term. */
    lemma CubicFar(x: real, s: real)
      requires IsSign(s) && Abs(x) > 1.0 && s * Times(a, x) > Abs(b) + Abs(c) + Abs(d)
      ensures s * CheckAnswerInPoint(x) > 0.0
    {
      hide CheckAnswerInPoint, Abs, Sq, Parabola, Line, Times;
      Splits(x);
      ParabolaBound(b, c, d, x);
      Dominates(CheckAnswerInPoint(x), Times(a, x), Sq(x), Parabola(b, c, d, x), Abs(b) + (Abs(c) + Abs(d)), s);
    }

    lemma QuadraticFar(x: real, s: real)
      requires IsSign(s) && a == 0.0 && Abs(x) > 1.0 && s * Times(b, Abs(x)) > Abs(c) + Abs(d)
      ensures s * CheckAnswerInPoint(x) > 0.0
    {
      hide CheckAnswerInPoint, Abs, Sq, Parabola, Line, Times;
      Splits(x);
      LineBound(c, d, x, Abs(x));
      Dominates(CheckAnswerInPoint(x), Times(b, Abs(x)), Abs(x), Line(c, d, x), Abs(c) + Abs(d), s);
    }

    lemma LinearFar(x: real, s: real)
      requires IsSign(s) && a == 0.0 && b == 0.0 && s * Times(c, x) > Abs(d)
      ensures s * CheckAnswerInPoint(x) > 0.0
    {
      assert CheckAnswerInPoint(x) == c * x + d;
    }

    /** A search upwards from where the cubic is below zero for good never ends, nor does one downwards from where it is
        above zero. */
    lemma RunsAway(startPoint: real)
      requires (forall x: real :: x >= startPoint ==> CheckAnswerInPoint(x) < 0.0)
            || (forall x: real :: x <= startPoint ==> CheckAnswerInPoint(x) > 0.0)
      ensures !SearchEnds(startPoint)
    {
      hide CheckAnswerInPoint;
      assert CheckAnswerInPoint(startPoint) != 0.0;
    }

    /** The sign of the cubic is that of `x` beyond `limit` on both sides. */
    ghost predicate Crosses(limit: real) {
      forall x: real :: (x >= limit ==> CheckAnswerInPoint(x) > 0.0) && (x <= -limit ==> CheckAnswerInPoint(x) < 0.0)
    }

    lemma CrossingEnds(limit: real, startPoint: real)
      requires limit > 0.0 && Crosses(limit)
      ensures SearchEnds(startPoint)
    {
      hide CheckAnswerInPoint;
      var k := ((Abs(startPoint) + limit) / STEP).Floor + 1;
      assert k as real * STEP >= Abs(startPoint) + limit;
      var x := StepPoint(startPoint, k);
      assert (x <= -limit ==> CheckAnswerInPoint(x) < 0.0) && (x >= limit ==> CheckAnswerInPoint(x) > 0.0);
      assert !SameSign(startPoint, k);
    }

    /** Where the leading term has settled the sign. */
    function Far(lead: real, limit: real): real
      requires lead != 0.0
    {
      2.0 + limit / Abs(lead)
    }

    lemma BeyondFar(lead: real, limit: real, x: real)
      requires lead != 0.0 && limit >= 0.0 && Abs(x) >= Far(lead, limit)
      ensures Abs(lead) * Abs(x) > limit && Abs(x) > 1.0
    {
      TimesLeq(Far(lead, limit), Abs(x), Abs(lead));
    }

    lemma CubicSettles(x: real)
      requires a != 0.0 && Abs(x) >= Far(a, Abs(b) + Abs(c) + Abs(d))
      ensures (a > 0.0) == (x > 0.0) ==> CheckAnswerInPoint(x) > 0.0
      ensures (a > 0.0) != (x > 0.0) ==> CheckAnswerInPoint(x) < 0.0
    {
      hide CheckAnswerInPoint, Far;
      BeyondFar(a, Abs(b) + Abs(c) + Abs(d), x);
      AbsTimes(a, x);
      ProductSign(a, x);
      CubicFar(x, if (a > 0.0) == (x > 0.0) then 1.0 else -1.0);
    }

    lemma QuadraticSettles(x: real)
      requires a == 0.0 && b != 0.0 && Abs(x) >= Far(b, Abs(c) + Abs(d))
      ensures if b > 0.0 then CheckAnswerInPoint(x) > 0.0 else CheckAnswerInPoint(x) < 0.0
    {
      hide CheckAnswerInPoint, Far;
      BeyondFar(b, Abs(c) + Abs(d), x);
      QuadraticFar(x, if b > 0.0 then 1.0 else -1.0);
    }

    lemma LinearSettles(x: real)
      requires a == 0.0 && b == 0.0 && c != 0.0 && Abs(x) >= Far(c, Abs(d))
      ensures (c > 0.0) == (x > 0.0) ==> CheckAnswerInPoint(x) > 0.0
      ensures (c > 0.0) != (x > 0.0) ==> CheckAnswerInPoint(x) < 0.0
    {
      hide CheckAnswerInPoint, Far;
      BeyondFar(c, Abs(d), x);
      AbsTimes(c, x);
      ProductSign(c, x);
      LinearFar(x, if (c > 0.0) == (x > 0.0) then 1.0 else -1.0);
    }

    /** Does the cubic go from below zero on the left to above zero on the right, or is it zero everywhere? */
    predicate Rises() {
      a > 0.0 || (a == 0.0 && b == 0.0 && (c > 0.0 || (c == 0.0 && d == 0.0)))
    }

    lemma RisingEnds(startPoint: real)
      requires Rises()
      ensures SearchEnds(startPoint)
    {
      hide CheckAnswerInPoint, Far;
      if a > 0.0 {
        var limit := Far(a, Abs(b) + Abs(c) + Abs(d));
        FarPositive(a, Abs(b) + Abs(c) + Abs(d));
        forall x: real | Abs(x) >= limit { CubicSettles(x); }
        CrossingEnds(limit, startPoint);
      } else if c > 0.0 {
        var limit := Far(c, Abs(d));
        FarPositive(c, Abs(d));
        forall x: real | Abs(x) >= limit { LinearSettles(x); }
        CrossingEnds(limit, startPoint);
      } else {
        ZeroEnds(startPoint);
      }
    }

    lemma FarPositive(lead: real, limit: real)
      requires lead != 0.0 && limit >= 0.0
      ensures Far(lead, limit) >= 2.0
    {
    }

    lemma ZeroEnds(startPoint: real)
      requires a == 0.0 && b == 0.0 && c == 0.0 && d == 0.0
      ensures SearchEnds(startPoint)
    {
      assert !SameSign(startPoint, 1);
    }

    /** Somewhere the search for a sign change runs away. */
    lemma OthersRunAway() returns (startPoint: real)
      requires !Rises()
      ensures !SearchEnds(startPoint)
    {
      hide Far, SearchEnds;
      if a != 0.0 {
        startPoint := Far(a, Abs(b) + Abs(c) + Abs(d));
        FarPositive(a, Abs(b) + Abs(c) + Abs(d));
        forall x: real | x >= startPoint { CubicSettles(x); }
      } else if b != 0.0 {
        var limit := Far(b, Abs(c) + Abs(d));
        FarPositive(b, Abs(c) + Abs(d));
        startPoint := if b > 0.0 then -limit else limit;
        forall x: real | Abs(x) >= limit { QuadraticSettles(x); }
      } else if c != 0.0 {
        startPoint := Far(c, Abs(d));
        FarPositive(c, Abs(d));
        forall x: real | x >= startPoint { LinearSettles(x); }
      } else {
        startPoint := 0.0;
      }
      RunsAway(startPoint);
    }

    /** The search ends from wherever it starts exactly when the leading coefficient is positive and its power odd, or
        the cubic is zero everywhere. */
    lemma SearchEndsExactly()
      ensures (forall startPoint: real :: SearchEnds(startPoint)) <==> Rises()
    {
      hide CheckAnswerInPoint, SearchEnds, Rises;
      if Rises() {
        forall startPoint: real ensures SearchEnds(startPoint) {
          RisingEnds(startPoint);
        }
      } else {
        var startPoint := OthersRunAway();
      }
    }

    /** The root that `run` finds from one extremum: a bracket is looked for and then halved. */
    method RootFrom(startPoint: real) returns (root: real)
      requires epsilon > 0.0 && Rises()
      ensures -epsilon <= CheckAnswerInPoint(root) <= epsilon
      ensures if Above(startPoint) then root <= startPoint else root >= startPoint
    {
      hide CheckAnswerInPoint, SearchEnds, Rises;
      RisingEnds(startPoint);
      ghost var k;
      var lineBorder;
      lineBorder, k := FindLineSegment(startPoint);
      var iteration;
      root, iteration := Bisect(lineBorder);
    }
  }

  lemma ProductSign(x: real, y: real)
    ensures x > 0.0 && y > 0.0 ==> Times(x, y) > 0.0
    ensures x < 0.0 && y < 0.0 ==> Times(x, y) > 0.0
    ensures x > 0.0 && y < 0.0 ==> Times(x, y) < 0.0
    ensures x < 0.0 && y > 0.0 ==> Times(x, y) < 0.0
  {
  }

  predicate IsSign(s: real) { s == 1.0 || s == -1.0 }

  lemma AtLeast(x: real, factor: real)
    requires x >= 0.0 && factor >= 1.0
    ensures x <= Times(x, factor)
  {
    TimesLeq(1.0, factor, x);
  }

  lemma LineBound(c: real, d: real, x: real, factor: real)
    requires factor >= Abs(x) > 1.0
    ensures Abs(Line(c, d, x)) <= Times(Abs(c) + Abs(d), factor)
  {
    hide Times, Abs;
    AbsTimes(c, x);
    TimesLeq(Abs(x), factor, Abs(c));
    TimesSum(Abs(x), 0.0, Abs(c));
    TimesSum(factor, 0.0, Abs(c));
    AtLeast(Abs(d), factor);
    TwoBounds(Times(c, x), d, Abs(c), Abs(d), factor);
  }

  lemma SqGrows(x: real)
    requires Abs(x) > 1.0
    ensures Sq(x) > Abs(x) && Abs(Sq(x)) == Sq(x)
  {
    TimesLess(1.0, Abs(x), Abs(x));
    AbsTimes(x, x);
  }

  lemma ParabolaBound(b: real, c: real, d: real, x: real)
    requires Abs(x) > 1.0
    ensures Abs(Parabola(b, c, d, x)) <= Times(Abs(b) + (Abs(c) + Abs(d)), Sq(x)) && Sq(x) > 0.0
  {
    hide Sq, Line, Abs, Times;
    SqGrows(x);
    LineBound(c, d, x, Sq(x));
    ScaledBound(b, Sq(x), Abs(b));
    TwoBounds(Times(b, Sq(x)), Line(c, d, x), Abs(b), Abs(c) + Abs(d), Sq(x));
  }

  /** A product beats the rest of a sum when its first factor beats it in proportion to the second. */
  lemma Dominates(sum: real, lead: real, factor: real, rest: real, limit: real, s: real)
    requires sum == Times(lead, factor) + rest
    requires IsSign(s) && s * lead > limit && Abs(rest) <= Times(limit, factor) && factor > 0.0
    ensures s * sum > 0.0
  {
    TimesLess(limit, s * lead, factor);
  }

  lemma Pow2Grows(n: nat, k: nat)
    requires n <= k
    ensures Pow2(n) <= Pow2(k)
  {
    if n < k {
      Pow2Grows(n, k - 1);
    }
  }

  /** Is a bracket what `n` halvings leave of a width? */
  predicate Width(l: real, r: real, width: real, n: nat) { Abs(r - l) * Pow2(n) == width }

  lemma Halved(l: real, r: real, width: real, n: nat)
    requires Width(l, r, width, n)
    ensures Width((l + r) / 2.0, r, width, n + 1) && Width(l, (l + r) / 2.0, width, n + 1)
  {
    var m, p := (l + r) / 2.0, Pow2(n);
    assert Abs(r - m) * 2.0 == Abs(r - l) && Abs(m - l) * 2.0 == Abs(r - l);
    assert Abs(r - m) * (2.0 * p) == (Abs(r - m) * 2.0) * p && Abs(m - l) * (2.0 * p) == (Abs(m - l) * 2.0) * p;
  }
}
