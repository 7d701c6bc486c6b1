/** What expressions and conditions evaluate to, and what a program starts with, said about whole evaluations. */
module NemoValues {
  import opened NemoAst
  import opened Ints
  import opened NemoVm
  import opened NemoRunner

  ghost predicate IsInt(e: NmExp, st: NmState, n: int) { VmEval(e, st) == Value(NmValInt(n)) }

  ghost predicate IsArr(e: NmExp, st: NmState, arr: seq<NmVal>) { VmEval(e, st) == Value(NmValArr(arr)) }

  // ----- arithmetic -----

  /** The operators on integers are those of the integers. */
  lemma Arithmetic(l: NmExp, r: NmExp, st: NmState, x: int, y: int)
    requires IsInt(l, st, x) && IsInt(r, st, y)
    ensures IsInt(NmBinOp("+", l, r), st, x + y)
    ensures IsInt(NmBinOp("-", l, r), st, x - y)
    ensures IsInt(NmBinOp("*", l, r), st, x * y)
    ensures IsInt(NmUnOp("-", l), st, -x) && IsInt(NmUnOp("+", l), st, x)
  {
  }

  /** Division cuts off towards zero: the quotient times the divisor comes as near to the dividend as it can without going
      beyond it. Division by zero stops the machine. */
  lemma Division(l: NmExp, r: NmExp, st: NmState, x: int, y: int)
    requires IsInt(l, st, x) && IsInt(r, st, y)
    ensures y == 0 ==> VmEval(NmBinOp("/", l, r), st) == Abort(DivisionByZero)
    ensures y != 0 ==>
      exists q :: IsInt(NmBinOp("/", l, r), st, q) && Abs(x - q * y) < Abs(y) && Abs(q * y) <= Abs(x)
                  && (q != 0 ==> (q > 0 <==> (x < 0) == (y < 0)))
  {
    hide TruncDiv, Abs;
    if y != 0 {
      TruncDivIs(x, y);
      assert IsInt(NmBinOp("/", l, r), st, TruncDiv(x, y));
    }
  }

  /** An operator that is none of these gives zero; the grammar has one such, the remainder. */
  lemma OtherOperators(op: string, l: NmExp, r: NmExp, st: NmState, x: int, y: int)
    requires IsInt(l, st, x) && IsInt(r, st, y) && op !in ["+", "-", "*", "/"]
    ensures IsInt(NmBinOp(op, l, r), st, 0)
  {
  }

  /** The six conditions are the six orders of the integers. */
  lemma Conditions(l: NmExp, r: NmExp, st: NmState, x: int, y: int)
    requires IsInt(l, st, x) && IsInt(r, st, y)
    ensures VmEvalCond("==", l, r, st) == Value(x == y)
    ensures VmEvalCond("!=", l, r, st) == Value(x != y)
    ensures VmEvalCond("<", l, r, st) == Value(x < y)
    ensures VmEvalCond("<=", l, r, st) == Value(x <= y)
    ensures VmEvalCond(">", l, r, st) == Value(x > y)
    ensures VmEvalCond(">=", l, r, st) == Value(x >= y)
  {
  }

  // ----- arrays -----

  /** An array after a change at `n` holds the new value there and the old ones elsewhere; a change right behind its end
      makes it longer, a change further out has no value, and a change at a negative index changes nothing. */
  lemma ChangedArray(a: NmExp, i: NmExp, v: NmExp, j: NmExp, st: NmState, arr: seq<NmVal>, n: int, x: NmVal, k: int)
    requires IsArr(a, st, arr) && IsInt(i, st, n) && VmEval(v, st) == Value(x) && IsInt(j, st, k)
    ensures n > |arr| ==> VmEval(NmUpd(a, i, v), st).NoValue?
    ensures n <= |arr| ==>
      var size := if n == |arr| then |arr| + 1 else |arr|;
      && (k >= size ==> VmEval(NmApp(NmUpd(a, i, v), j), st) == NoValue(IndexPastEnd))
      && (k < 0 ==> VmEval(NmApp(NmUpd(a, i, v), j), st) == Abort(NegativeIndex))
      && (0 <= k < size && k == n ==> VmEval(NmApp(NmUpd(a, i, v), j), st) == Value(x))
      && (0 <= k < size && k != n ==>
            k < |arr| && VmEval(NmApp(NmUpd(a, i, v), j), st) == VmEval(NmApp(a, j), st) == Value(arr[k]))
  {
    var changed := UpdVal(NmValArr(arr), NmValInt(n), x);
    assert VmEval(NmUpd(a, i, v), st) == changed;
    if n <= |arr| {
      assert VmEval(NmApp(NmUpd(a, i, v), j), st) == AppVal(changed.v, NmValInt(k));
    }
  }

  // ----- what fails -----

  /** When an operation has a value, and when it stops the machine; in all other cases it has no value. Both operands are
      evaluated before either is looked at. */
  lemma OperatorFailures(op: string, l: NmExp, r: NmExp, st: NmState)
    ensures var x, y := VmEval(l, st), VmEval(r, st);
            var byZero := op == "/" && x.Value? && x.v.NmValInt? && y == Value(NmValInt(0));
            && (VmEval(NmBinOp(op, l, r), st).Abort? <==> x.Abort? || y.Abort? || byZero)
            && (VmEval(NmBinOp(op, l, r), st).Value?
                <==> x.Value? && y.Value? && x.v.NmValInt? && y.v.NmValInt? && !byZero)
            && (VmEval(NmUnOp(op, l), st).Abort? <==> x.Abort?)
            && (VmEval(NmUnOp(op, l), st).Value? <==> x.Value? && x.v.NmValInt?)
            && (VmEvalCond(op, l, r, st).Abort? <==> x.Abort? || y.Abort?)
            && (VmEvalCond(op, l, r, st).Value? <==> x.Value? && y.Value? && x.v.NmValInt? && y.v.NmValInt?)
  {
    hide TruncDiv;
  }

  /** The same for arrays. An array to be changed is looked for only when there is a value to put into it. */
  lemma ArrayFailures(a: NmExp, i: NmExp, v: NmExp, st: NmState)
    ensures var x, y, z := VmEval(a, st), VmEval(i, st), VmEval(v, st);
            && (VmEval(NmApp(a, i), st).Abort?
                <==> x.Abort? || y.Abort? || (x.Value? && x.v.NmValArr? && y.Value? && y.v.NmValInt? && y.v.n < 0))
            && (VmEval(NmApp(a, i), st).Value?
                <==> x.Value? && x.v.NmValArr? && y.Value? && y.v.NmValInt? && 0 <= y.v.n < |x.v.arr|)
            && (VmEval(NmUpd(a, i, v), st).Abort? <==> z.Abort? || (z.Value? && (x.Abort? || y.Abort?)))
            && (VmEval(NmUpd(a, i, v), st).Value?
                <==> z.Value? && x.Value? && x.v.NmValArr? && y.Value? && y.v.NmValInt? && y.v.n <= |x.v.arr|)
  {
    hide TruncDiv;
  }

  /** A variable has the value that it is bound to, a literal its number. */
  lemma Leaves(x: string, n: int, st: NmState)
    ensures VmEval(NmInt(n), st) == Value(NmValInt(n))
    ensures VmEval(NmVar(x), st) == if x in st then Value(st[x]) else NoValue(NoSuchVariable)
  {
  }

  // ----- what a program starts with -----

  /** The first declaration of a name. */
  ghost predicate FirstDeclares(decls: seq<NmDecl>, x: string, i: nat) {
    i < |decls| && decls[i].name == x && forall j :: 0 <= j < i ==> decls[j].name != x
  }

  /** The program starts with all given bindings as they are given, and with zero or the empty array for every other
      declared variable, as its first declaration says; and with nothing else. */
  lemma {:induction false} StartsWith(decls: seq<NmDecl>, vars: NmState, x: string)
    ensures x in vars ==> x in StartState(decls, vars) && StartState(decls, vars)[x] == vars[x]
    ensures x !in vars && (forall i :: 0 <= i < |decls| ==> decls[i].name != x) ==> x !in StartState(decls, vars)
    ensures forall i: nat :: x !in vars && FirstDeclares(decls, x, i) ==>
      x in StartState(decls, vars)
      && StartState(decls, vars)[x] == if decls[i].ty.NmIntType? then NmValInt(0) else NmValArr([])
  {
    if decls != [] {
      var d := decls[0];
      var vars1 := if d.name in vars then vars else vars[d.name := MakeDefaultValue(d.ty)];
      StartsWith(decls[1..], vars1, x);
      forall i: nat | x !in vars && FirstDeclares(decls, x, i)
        ensures x in StartState(decls, vars)
        ensures StartState(decls, vars)[x] == if decls[i].ty.NmIntType? then NmValInt(0) else NmValArr([])
      {
        if i > 0 {
          assert FirstDeclares(decls[1..], x, i - 1);
        }
      }
    }
  }
}
