/** Expressions, their values, their simplification and their derivatives, over exact reals. */
module Symbolic {
  import opened Options
  import opened Reals

  datatype Expression =
    | Add(left: Expression, right: Expression)
    | Subtract(left: Expression, right: Expression)
    | Multiply(left: Expression, right: Expression)
    | Divide(left: Expression, right: Expression)
    | Negative(exp: Expression)
    | Variable(name: string)
    | Number(num: real)

  type Variables = map<string, real>

  // ----- values -----

  function Plus(l: Maybe<real>, r: Maybe<real>): Maybe<real> {
    if l.Some? && r.Some? then Some(l.value + r.value) else None
  }

  function Minus(l: Maybe<real>, r: Maybe<real>): Maybe<real> {
    if l.Some? && r.Some? then Some(l.value - r.value) else None
  }

  function Product(l: Maybe<real>, r: Maybe<real>): Maybe<real> {
    if l.Some? && r.Some? then Some(Times(l.value, r.value)) else None
  }

  function Over(l: Maybe<real>, r: Maybe<real>): Maybe<real> {
    if l.Some? && r.Some? && r.value != 0.0 then Some(l.value / r.value) else None
  }

  function Minused(e: Maybe<real>): Maybe<real> { if e.Some? then Some(-e.value) else None }

  function Calculate(exp: Expression, variables: Variables): Maybe<real> {
    match exp
    case Add(l, r) => Plus(Calculate(l, variables), Calculate(r, variables))
    case Subtract(l, r) => Minus(Calculate(l, variables), Calculate(r, variables))
    case Multiply(l, r) => Product(Calculate(l, variables), Calculate(r, variables))
    case Divide(l, r) => Over(Calculate(l, variables), Calculate(r, variables))
    case Negative(e) => Minused(Calculate(e, variables))
    case Number(num) => Some(num)
    case Variable(name) => if name in variables then Some(variables[name]) else None
  }

  // ----- simplification -----

  function SimplifyAdd(left: Expression, right: Expression): Expression {
    if left == Number(0.0) && right == Number(0.0) then Number(0.0)
    else if left == Number(0.0) then right
    else if right == Number(0.0) then left
    else if right.Negative? then Subtract(left, right.exp)
    else Add(left, right)
  }

  function SimplifySubtract(left: Expression, right: Expression): Expression {
    if left == Number(0.0) && right == Number(0.0) then Number(0.0)
    else if left == Number(0.0) then Negative(right)
    else if right == Number(0.0) then left
    else if right.Negative? then Add(left, right.exp)
    else Subtract(left, right)
  }

  function SimplifyMultiply(left: Expression, right: Expression): Expression {
    if left == Number(1.0) then right
    else if right == Number(1.0) then left
    else if left == Number(0.0) || right == Number(0.0) then Number(0.0)
    else if right == left then Multiply(right, right)
    else Multiply(left, right)
  }

  function SimplifyDivide(left: Expression, right: Expression): Expression {
    if right == Number(0.0) then Divide(left, right)
    else if left == Number(0.0) && right != Number(0.0) then Number(0.0)
    else if right == Number(1.0) then left
    else if right == left then Number(1.0)
    else Divide(left, right)
  }

  function SimplifyNegative(simplified: Expression): Expression {
    if simplified.Negative? then simplified.exp
    else if simplified == Number(0.0) then Number(0.0)
    else Negative(simplified)
  }

  function Simplify(exp: Expression): Expression {
    match exp
    case Add(l, r) => SimplifyAdd(Simplify(l), Simplify(r))
    case Subtract(l, r) => SimplifySubtract(Simplify(l), Simplify(r))
    case Multiply(l, r) => SimplifyMultiply(Simplify(l), Simplify(r))
    case Divide(l, r) => SimplifyDivide(Simplify(l), Simplify(r))
    case Negative(e) => SimplifyNegative(Simplify(e))
    case _ => exp
  }

  // ----- derivatives -----

  function Derivative(exp: Expression, name: string): Expression {
    match exp
    case Add(l, r) => Add(Derivative(l, name), Derivative(r, name))
    case Subtract(l, r) => Subtract(Derivative(l, name), Derivative(r, name))
    case Multiply(l, r) => Add(Multiply(Derivative(l, name), r), Multiply(Derivative(r, name), l))
    case Divide(l, r) =>
      Divide(Subtract(Multiply(Derivative(l, name), r), Multiply(Derivative(r, name), l)), Multiply(r, r))
    case Negative(e) => Negative(Derivative(e, name))
    case Number(_) => Number(0.0)
    case Variable(v) => if v == name then Number(1.0) else Number(0.0)
  }

  function DerivativeAndSimplify(exp: Expression, name: string): Expression { Simplify(Derivative(exp, name)) }

  // ----- values with their rates of change -----

  /** A value and how fast it changes with one variable. */
  datatype Dual = Dual(value: real, rate: real)

  function DualPlus(l: Maybe<Dual>, r: Maybe<Dual>): Maybe<Dual> {
    if l.Some? && r.Some? then Some(Dual(l.value.value + r.value.value, l.value.rate + r.value.rate)) else None
  }

  function DualMinus(l: Maybe<Dual>, r: Maybe<Dual>): Maybe<Dual> {
    if l.Some? && r.Some? then Some(Dual(l.value.value - r.value.value, l.value.rate - r.value.rate)) else None
  }

  function DualProduct(l: Maybe<Dual>, r: Maybe<Dual>): Maybe<Dual> {
    if l.Some? && r.Some? then Some(DualTimes(l.value, r.value)) else None
  }

  function DualTimes(a: Dual, b: Dual): Dual {
    Dual(Times(a.value, b.value), Times(a.rate, b.value) + Times(b.rate, a.value))
  }

  function DualOver(l: Maybe<Dual>, r: Maybe<Dual>): Maybe<Dual> {
    if l.Some? && r.Some? && r.value.value != 0.0 then Some(DualRatio(l.value, r.value)) else None
  }

  function DualRatio(a: Dual, b: Dual): Dual
    requires b.value != 0.0
  {
    SquareNonZero(b.value);
    Dual(a.value / b.value, (Times(a.rate, b.value) - Times(b.rate, a.value)) / Times(b.value, b.value))
  }

  lemma SquareNonZero(x: real)
    requires x != 0.0
    ensures Times(x, x) > 0.0
  {
    if x > 0.0 {
      TimesLess(0.0, x, x);
    } else {
      TimesLess(0.0, -x, -x);
    }
  }

  function DualMinused(e: Maybe<Dual>): Maybe<Dual> {
    if e.Some? then Some(Dual(-e.value.value, -e.value.rate)) else None
  }

  /** Evaluates an expression to its value and its rate of change, without building its derivative. */
  function Evaluate(exp: Expression, variables: Variables, name: string): Maybe<Dual> {
    match exp
    case Add(l, r) => DualPlus(Evaluate(l, variables, name), Evaluate(r, variables, name))
    case Subtract(l, r) => DualMinus(Evaluate(l, variables, name), Evaluate(r, variables, name))
    case Multiply(l, r) => DualProduct(Evaluate(l, variables, name), Evaluate(r, variables, name))
    case Divide(l, r) => DualOver(Evaluate(l, variables, name), Evaluate(r, variables, name))
    case Negative(e) => DualMinused(Evaluate(e, variables, name))
    case Number(num) => Some(Dual(num, 0.0))
    case Variable(v) => if v in variables then Some(Dual(variables[v], if v == name then 1.0 else 0.0)) else None
  }

  /** Are the value of an expression and the value of its derivative what the evaluation with rates gives? */
  predicate DerivativeFits(exp: Expression, variables: Variables, name: string) {
    var d := Evaluate(exp, variables, name);
    && (d.Some? <==> Calculate(exp, variables).Some?)
    && (d.Some? ==> Calculate(exp, variables) == Some(d.value.value)
                    && Calculate(Derivative(exp, name), variables) == Some(d.value.rate))
  }

  lemma QuotientFits(l: Expression, r: Expression, variables: Variables, name: string)
    requires DerivativeFits(l, variables, name) && DerivativeFits(r, variables, name)
    ensures DerivativeFits(Divide(l, r), variables, name)
  {
    hide Times;
    if Evaluate(Divide(l, r), variables, name).Some? {
      SquareNonZero(Evaluate(r, variables, name).value.value);
      var dl, dr := Derivative(l, name), Derivative(r, name);
      assert Calculate(Multiply(dl, r), variables) == Product(Calculate(dl, variables), Calculate(r, variables));
      assert Calculate(Multiply(dr, l), variables) == Product(Calculate(dr, variables), Calculate(l, variables));
      assert Calculate(Multiply(r, r), variables) == Product(Calculate(r, variables), Calculate(r, variables));
      var top := Subtract(Multiply(dl, r), Multiply(dr, l));
      assert Calculate(top, variables) == Minus(Calculate(Multiply(dl, r), variables), Calculate(Multiply(dr, l), variables));
      assert Derivative(Divide(l, r), name) == Divide(top, Multiply(r, r));
    }
  }

  lemma ProductFits(l: Expression, r: Expression, variables: Variables, name: string)
    requires DerivativeFits(l, variables, name) && DerivativeFits(r, variables, name)
    ensures DerivativeFits(Multiply(l, r), variables, name)
  {
    hide Times;
    var dl, dr := Derivative(l, name), Derivative(r, name);
    assert Calculate(Multiply(dl, r), variables) == Product(Calculate(dl, variables), Calculate(r, variables));
    assert Calculate(Multiply(dr, l), variables) == Product(Calculate(dr, variables), Calculate(l, variables));
  }

  lemma {:induction false} DerivativeIsRate(exp: Expression, variables: Variables, name: string)
    ensures DerivativeFits(exp, variables, name)
  {
    hide Times;
    match exp
    case Negative(e) => DerivativeIsRate(e, variables, name);
    case Number(_) =>
    case Variable(_) =>
    case Add(l, r) =>
      DerivativeIsRate(l, variables, name);
      DerivativeIsRate(r, variables, name);
    case Subtract(l, r) =>
      DerivativeIsRate(l, variables, name);
      DerivativeIsRate(r, variables, name);
    case Multiply(l, r) =>
      DerivativeIsRate(l, variables, name);
      DerivativeIsRate(r, variables, name);
      ProductFits(l, r, variables, name);
    case Divide(l, r) =>
      DerivativeIsRate(l, variables, name);
      DerivativeIsRate(r, variables, name);
      QuotientFits(l, r, variables, name);
  }

  // ----- what the simplification keeps -----

  lemma Units(a: Dual)
    ensures DualTimes(Dual(1.0, 0.0), a) == a && DualTimes(a, Dual(1.0, 0.0)) == a
    ensures DualTimes(Dual(0.0, 0.0), a) == Dual(0.0, 0.0) && DualTimes(a, Dual(0.0, 0.0)) == Dual(0.0, 0.0)
  {
  }

  lemma Ratios(a: Dual)
    ensures DualRatio(a, Dual(1.0, 0.0)) == a
    ensures a.value != 0.0 ==> DualRatio(Dual(0.0, 0.0), a) == Dual(0.0, 0.0) && DualRatio(a, a) == Dual(1.0, 0.0)
  {
    if a.value != 0.0 {
      SquareNonZero(a.value);
    }
  }

  lemma MultiplyKeeps(left: Expression, right: Expression, variables: Variables, name: string)
    requires Evaluate(Multiply(left, right), variables, name).Some?
    ensures Evaluate(SimplifyMultiply(left, right), variables, name) == Evaluate(Multiply(left, right), variables, name)
  {
    hide DualTimes;
    Units(Evaluate(left, variables, name).value);
    Units(Evaluate(right, variables, name).value);
  }

  lemma DivideKeeps(left: Expression, right: Expression, variables: Variables, name: string)
    requires Evaluate(Divide(left, right), variables, name).Some?
    ensures Evaluate(SimplifyDivide(left, right), variables, name) == Evaluate(Divide(left, right), variables, name)
  {
    hide DualRatio;
    Ratios(Evaluate(left, variables, name).value);
    Ratios(Evaluate(right, variables, name).value);
  }

  lemma AddKeeps(left: Expression, right: Expression, variables: Variables, name: string)
    requires Evaluate(Add(left, right), variables, name).Some?
    ensures Evaluate(SimplifyAdd(left, right), variables, name) == Evaluate(Add(left, right), variables, name)
  {
  }

  lemma SubtractKeeps(left: Expression, right: Expression, variables: Variables, name: string)
    requires Evaluate(Subtract(left, right), variables, name).Some?
    ensures Evaluate(SimplifySubtract(left, right), variables, name) == Evaluate(Subtract(left, right), variables, name)
  {
  }

  lemma NegativeKeeps(e: Expression, variables: Variables, name: string)
    requires Evaluate(Negative(e), variables, name).Some?
    ensures Evaluate(SimplifyNegative(e), variables, name) == Evaluate(Negative(e), variables, name)
  {
  }

  /** Whenever an expression has a value, its simplified form has the same value and the same rate of change. */
  lemma {:induction false} SimplifyKeeps(exp: Expression, variables: Variables, name: string)
    requires Evaluate(exp, variables, name).Some?
    ensures Evaluate(Simplify(exp), variables, name) == Evaluate(exp, variables, name)
  {
    hide DualTimes, DualRatio, SimplifyAdd, SimplifySubtract, SimplifyMultiply, SimplifyDivide, SimplifyNegative;
    match exp
    case Negative(e) =>
      SimplifyKeeps(e, variables, name);
      NegativeKeeps(Simplify(e), variables, name);
    case Number(_) =>
    case Variable(_) =>
    case Add(l, r) =>
      SimplifyKeeps(l, variables, name);
      SimplifyKeeps(r, variables, name);
      AddKeeps(Simplify(l), Simplify(r), variables, name);
    case Subtract(l, r) =>
      SimplifyKeeps(l, variables, name);
      SimplifyKeeps(r, variables, name);
      SubtractKeeps(Simplify(l), Simplify(r), variables, name);
    case Multiply(l, r) =>
      SimplifyKeeps(l, variables, name);
      SimplifyKeeps(r, variables, name);
      MultiplyKeeps(Simplify(l), Simplify(r), variables, name);
    case Divide(l, r) =>
      SimplifyKeeps(l, variables, name);
      SimplifyKeeps(r, variables, name);
      DivideKeeps(Simplify(l), Simplify(r), variables, name);
  }

  /** The program's way to a derivative: simplify, differentiate, simplify, calculate. It gives the rate of change of the
      expression it started with, wherever that expression has a value. */
  lemma PipelineIsRate(exp: Expression, variables: Variables, name: string)
    requires Calculate(exp, variables).Some?
    ensures Evaluate(exp, variables, name).Some?
    ensures Calculate(Simplify(exp), variables) == Calculate(exp, variables)
    ensures Calculate(DerivativeAndSimplify(Simplify(exp), name), variables) == Some(Evaluate(exp, variables, name).value.rate)
  {
    hide Simplify, Calculate, Evaluate, Derivative;
    DerivativeIsRate(exp, variables, name);
    SimplifyKeeps(exp, variables, name);
    DerivativeIsRate(Simplify(exp), variables, name);
    var derivative := Derivative(Simplify(exp), name);
    DerivativeIsRate(derivative, variables, name);
    SimplifyKeeps(derivative, variables, name);
    DerivativeIsRate(Simplify(derivative), variables, name);
  }

  // ----- what the simplification adds -----

  /** Does the simplification leave the number zero? Only the parts that are literally zero count: `x - x` does not. */
  predicate IsZero(exp: Expression) {
    match exp
    case Add(l, r) => IsZero(l) && IsZero(r)
    case Subtract(l, r) => IsZero(l) && IsZero(r)
    case Multiply(l, r) => IsZero(l) || IsZero(r)
    case Divide(l, r) => IsZero(l) && !IsZero(r)
    case Negative(e) => IsZero(e)
    case Number(num) => num == 0.0
    case Variable(_) => false
  }

  predicate NegatedZero(exp: Expression) {
    match exp
    case Number(num) => num == 0.0
    case Negative(e) => NegatedZero(e)
    case _ => false
  }

  lemma {:induction false} SimplifiesToZero(exp: Expression)
    ensures Simplify(exp) == Number(0.0) <==> IsZero(exp)
    ensures NegatedZero(Simplify(exp)) ==> Simplify(exp) == Number(0.0)
  {
    match exp
    case Number(_) =>
    case Variable(_) =>
    case Negative(e) => SimplifiesToZero(e);
    case _ =>
      SimplifiesToZero(exp.left);
      SimplifiesToZero(exp.right);
  }

  /** The value of what is left of an expression: a product with a zero side, a quotient of zero and a quotient of two
      sides that look alike have values whatever becomes of their parts. */
  function Remaining(exp: Expression, variables: Variables): Maybe<real> {
    match exp
    case Add(l, r) => Plus(Remaining(l, variables), Remaining(r, variables))
    case Subtract(l, r) => Minus(Remaining(l, variables), Remaining(r, variables))
    case Multiply(l, r) =>
      if IsZero(l) || IsZero(r) then Some(0.0) else Product(Remaining(l, variables), Remaining(r, variables))
    case Divide(l, r) =>
      if IsZero(r) then None
      else if IsZero(l) then Some(0.0)
      else if Simplify(l) == Simplify(r) then Some(1.0)
      else Over(Remaining(l, variables), Remaining(r, variables))
    case Negative(e) => Minused(Remaining(e, variables))
    case Number(num) => Some(num)
    case Variable(name) => if name in variables then Some(variables[name]) else None
  }

  lemma TimesUnits(x: real)
    ensures Times(1.0, x) == x == Times(x, 1.0) && Times(0.0, x) == 0.0 == Times(x, 0.0)
  {
  }

  lemma ProductRemains(l: Expression, r: Expression, variables: Variables)
    requires Calculate(Simplify(l), variables) == Remaining(l, variables)
    requires Calculate(Simplify(r), variables) == Remaining(r, variables)
    ensures Calculate(Simplify(Multiply(l, r)), variables) == Remaining(Multiply(l, r), variables)
  {
    hide Times, IsZero;
    SimplifiesToZero(l);
    SimplifiesToZero(r);
    assert Simplify(Multiply(l, r)) == SimplifyMultiply(Simplify(l), Simplify(r));
    var x, y := Calculate(Simplify(l), variables), Calculate(Simplify(r), variables);
    hide Simplify;
    if x.Some? { TimesUnits(x.value); }
    if y.Some? { TimesUnits(y.value); }
  }

  lemma QuotientRemains(l: Expression, r: Expression, variables: Variables)
    requires Calculate(Simplify(l), variables) == Remaining(l, variables)
    requires Calculate(Simplify(r), variables) == Remaining(r, variables)
    ensures Calculate(Simplify(Divide(l, r)), variables) == Remaining(Divide(l, r), variables)
  {
    hide Times, IsZero;
    SimplifiesToZero(l);
    SimplifiesToZero(r);
    assert Simplify(Divide(l, r)) == SimplifyDivide(Simplify(l), Simplify(r));
    hide Simplify;
  }

  lemma AddSimplified(left: Expression, right: Expression, variables: Variables)
    ensures Calculate(SimplifyAdd(left, right), variables)
            == Plus(Calculate(left, variables), Calculate(right, variables))
  {
  }

  lemma SubtractSimplified(left: Expression, right: Expression, variables: Variables)
    ensures Calculate(SimplifySubtract(left, right), variables)
            == Minus(Calculate(left, variables), Calculate(right, variables))
  {
  }

  lemma SumRemains(l: Expression, r: Expression, variables: Variables)
    requires Calculate(Simplify(l), variables) == Remaining(l, variables)
    requires Calculate(Simplify(r), variables) == Remaining(r, variables)
    ensures Calculate(Simplify(Add(l, r)), variables) == Remaining(Add(l, r), variables)
  {
    AddSimplified(Simplify(l), Simplify(r), variables);
    hide SimplifyAdd;
  }

  lemma DifferenceRemains(l: Expression, r: Expression, variables: Variables)
    requires Calculate(Simplify(l), variables) == Remaining(l, variables)
    requires Calculate(Simplify(r), variables) == Remaining(r, variables)
    ensures Calculate(Simplify(Subtract(l, r)), variables) == Remaining(Subtract(l, r), variables)
  {
    SubtractSimplified(Simplify(l), Simplify(r), variables);
    hide SimplifySubtract;
  }

  lemma NegativeRemains(e: Expression, variables: Variables)
    requires Calculate(Simplify(e), variables) == Remaining(e, variables)
    ensures Calculate(Simplify(Negative(e)), variables) == Remaining(Negative(e), variables)
  {
    assert Simplify(Negative(e)) == SimplifyNegative(Simplify(e));
    hide Simplify;
  }

  lemma LeafRemains(exp: Expression, variables: Variables)
    requires exp.Number? || exp.Variable?
    ensures Calculate(Simplify(exp), variables) == Remaining(exp, variables)
  {
  }

  lemma {:induction false} SimplifiedRemains(exp: Expression, variables: Variables)
    ensures Calculate(Simplify(exp), variables) == Remaining(exp, variables)
  {
    hide Calculate, Remaining, Simplify;
    match exp
    case Number(_) => LeafRemains(exp, variables);
    case Variable(_) => LeafRemains(exp, variables);
    case Negative(e) =>
      SimplifiedRemains(e, variables);
      NegativeRemains(e, variables);
    case Add(l, r) =>
      SimplifiedRemains(l, variables);
      SimplifiedRemains(r, variables);
      SumRemains(l, r, variables);
    case Subtract(l, r) =>
      SimplifiedRemains(l, variables);
      SimplifiedRemains(r, variables);
      DifferenceRemains(l, r, variables);
    case Multiply(l, r) =>
      SimplifiedRemains(l, variables);
      SimplifiedRemains(r, variables);
      ProductRemains(l, r, variables);
    case Divide(l, r) =>
      SimplifiedRemains(l, variables);
      SimplifiedRemains(r, variables);
      QuotientRemains(l, r, variables);
  }

  lemma ValueKept(exp: Expression, variables: Variables)
    requires Calculate(exp, variables).Some?
    ensures Calculate(Simplify(exp), variables) == Calculate(exp, variables)
  {
    hide Simplify, Calculate, Evaluate, Derivative;
    DerivativeIsRate(exp, variables, "");
    SimplifyKeeps(exp, variables, "");
    DerivativeIsRate(Simplify(exp), variables, "");
  }

  /** For every expression: the simplified form has the value of what is left. So it differs from the expression in value
      exactly where the expression has none and something is left. */
  lemma SimplifyExactly(exp: Expression, variables: Variables)
    ensures Calculate(Simplify(exp), variables) == Remaining(exp, variables)
    ensures Calculate(Simplify(exp), variables) == Calculate(exp, variables)
            <==> Calculate(exp, variables).Some? || Remaining(exp, variables) == None
  {
    hide Simplify, Calculate, Remaining;
    SimplifiedRemains(exp, variables);
    if Calculate(exp, variables).Some? {
      ValueKept(exp, variables);
    }
  }

  /** One such place. */
  lemma SimplifyDefinesMore()
    ensures var x := Variable("x"); var at := map["x" := 0.0];
            Calculate(Divide(x, x), at) == None && Calculate(Simplify(Divide(x, x)), at) == Some(1.0)
  {
    var x := Variable("x");
    assert Simplify(x) == x;
  }
}
