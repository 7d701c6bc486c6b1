/** What simplified expressions look like. */
module SymbolicNormal {
  import opened Symbolic

  const Zero := Number(0.0)
  const Unit := Number(1.0)

  /** No sum, difference or negation has a literal zero in it, no product a literal zero or one, and no quotient is by a
      literal one; unless its divisor is a literal zero, no quotient is of a literal zero or of two sides that look alike. */
  predicate Simple(exp: Expression) {
    match exp
    case Add(l, r) => l != Zero && r != Zero && Simple(l) && Simple(r)
    case Subtract(l, r) => l != Zero && r != Zero && Simple(l) && Simple(r)
    case Multiply(l, r) => l != Zero && r != Zero && l != Unit && r != Unit && Simple(l) && Simple(r)
    case Divide(l, r) => r != Unit && (r != Zero ==> l != Zero && l != r) && Simple(l) && Simple(r)
    case Negative(e) => e != Zero && Simple(e)
    case _ => true
  }

  lemma SumsSimple(l: Expression, r: Expression)
    requires Simple(l) && Simple(r)
    ensures Simple(SimplifyAdd(l, r)) && Simple(SimplifySubtract(l, r))
  {
  }

  lemma ProductsSimple(l: Expression, r: Expression)
    requires Simple(l) && Simple(r)
    ensures Simple(SimplifyMultiply(l, r)) && Simple(SimplifyDivide(l, r)) && Simple(SimplifyNegative(l))
  {
  }

  /** Every simplified expression is simple. */
  lemma {:induction false} SimplifiedIsSimple(exp: Expression)
    ensures Simple(Simplify(exp))
  {
    hide SimplifyAdd, SimplifySubtract, SimplifyMultiply, SimplifyDivide, SimplifyNegative, Simple;
    match exp
    case Number(num) => LeafSimple(exp);
    case Variable(name) => LeafSimple(exp);
    case Negative(e) =>
      SimplifiedIsSimple(e);
      ProductsSimple(Simplify(e), Simplify(e));
    case _ =>
      SimplifiedIsSimple(exp.left);
      SimplifiedIsSimple(exp.right);
      SumsSimple(Simplify(exp.left), Simplify(exp.right));
      ProductsSimple(Simplify(exp.left), Simplify(exp.right));
  }

  lemma LeafSimple(exp: Expression)
    requires exp.Number? || exp.Variable?
    ensures Simple(exp) && Tidy(exp)
  {
  }

  // ----- negations -----

  /** Nothing is negated twice, and no negation is added or taken away. */
  predicate Tidy(exp: Expression) {
    match exp
    case Add(l, r) => !r.Negative? && Tidy(l) && Tidy(r)
    case Subtract(l, r) => !r.Negative? && Tidy(l) && Tidy(r)
    case Multiply(l, r) => Tidy(l) && Tidy(r)
    case Divide(l, r) => Tidy(l) && Tidy(r)
    case Negative(e) => !e.Negative? && Tidy(e)
    case _ => true
  }

  /** A negation is taken away from zero. */
  predicate NegatesNegation(exp: Expression) {
    exp.Subtract? && IsZero(exp.left) && Simplify(exp.right).Negative?
  }

  predicate PartsTidy(exp: Expression) {
    match exp
    case Negative(e) => Tidy(Simplify(e))
    case Number(_) => true
    case Variable(_) => true
    case _ => Tidy(Simplify(exp.left)) && Tidy(Simplify(exp.right))
  }

  lemma TidyOperators(l: Expression, r: Expression)
    requires Tidy(l) && Tidy(r)
    ensures Tidy(SimplifyAdd(l, r)) && Tidy(SimplifyMultiply(l, r)) && Tidy(SimplifyDivide(l, r))
    ensures Tidy(SimplifyNegative(l))
    ensures Tidy(SimplifySubtract(l, r)) <==> !(l == Zero && r.Negative?)
  {
  }

  /** With tidy parts a simplified expression is tidy, unless it takes a negation away from zero: that becomes a negation
      of a negation. */
  lemma TidyExactly(exp: Expression)
    requires PartsTidy(exp)
    ensures Tidy(Simplify(exp)) <==> !NegatesNegation(exp)
  {
    hide SimplifyAdd, SimplifySubtract, SimplifyMultiply, SimplifyDivide, SimplifyNegative, Tidy, IsZero;
    match exp
    case Number(num) => LeafSimple(exp);
    case Variable(name) => LeafSimple(exp);
    case Negative(e) => TidyOperators(Simplify(e), Simplify(e));
    case _ =>
      TidyOperators(Simplify(exp.left), Simplify(exp.right));
      SimplifiesToZero(exp.left);
  }

  predicate NoneNegatesNegation(exp: Expression) {
    && !NegatesNegation(exp)
    && match exp
       case Negative(e) => NoneNegatesNegation(e)
       case Number(_) => true
       case Variable(_) => true
       case _ => NoneNegatesNegation(exp.left) && NoneNegatesNegation(exp.right)
  }

  /** An expression with no such part is simplified to a tidy one. */
  lemma {:induction false} SimplifiedIsTidy(exp: Expression)
    requires NoneNegatesNegation(exp)
    ensures Tidy(Simplify(exp))
  {
    hide Simplify, Tidy, NegatesNegation;
    match exp {
      case Number(_) =>
      case Variable(_) =>
      case Negative(e) => SimplifiedIsTidy(e);
      case _ => SimplifiedIsTidy(exp.left); SimplifiedIsTidy(exp.right);
    }
    TidyExactly(exp);
  }

  // ----- nothing more to simplify -----

  /** A simple and tidy expression is left as it is. */
  lemma {:induction false} NothingToSimplify(exp: Expression)
    requires Simple(exp) && Tidy(exp)
    ensures Simplify(exp) == exp
  {
    match exp
    case Number(_) =>
    case Variable(_) =>
    case Negative(e) => NothingToSimplify(e);
    case _ => NothingToSimplify(exp.left); NothingToSimplify(exp.right);
  }

  /** So simplifying a second time changes nothing. */
  lemma SimplifyTwice(exp: Expression)
    requires NoneNegatesNegation(exp)
    ensures Simplify(Simplify(exp)) == Simplify(exp)
  {
    SimplifiedIsSimple(exp);
    SimplifiedIsTidy(exp);
    NothingToSimplify(Simplify(exp));
  }

  /** The exception: the first time leaves a negation of a negation, and the second time takes it away. */
  lemma NegationLeft(x: string)
    ensures var e := Subtract(Zero, Negative(Variable(x)));
            && NegatesNegation(e) && Simplify(e) == Negative(Negative(Variable(x)))
            && Simplify(Simplify(e)) == Variable(x)
  {
    assert Simplify(Variable(x)) == Variable(x);
    assert Simplify(Negative(Variable(x))) == Negative(Variable(x));
  }
}
