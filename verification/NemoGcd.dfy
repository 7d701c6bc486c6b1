/** The program of `test0.nm`: Euclid's algorithm by subtraction, as a choice inside a loop. */
module NemoGcd {
  import opened NemoAst
  import opened Ints
  import opened NemoVm
  import opened NemoSem
  import opened NemoTransl
  import opened NemoCorrect
  import opened NemoDesugar
  import opened NemoValues

  const X := NmVar("x")
  const Y := NmVar("y")

  /** One of the two alternatives: when one variable is greater, take the other one from it. */
  function Lessen(cond: string, x: string, y: string): PStat {
    PSeq(PTest(cond, X, Y), PAssign(x, NmBinOp("-", NmVar(x), NmVar(y))), [])
  }

  const Test0: PStat :=
    PSeq(PLoop(PChoice(Lessen(">", "x", "y"), Lessen("<", "y", "x"), [])), PTest("==", X, Y), [])

  /** The two variables have these values. */
  ghost predicate Holds(st: NmState, a: int, b: int) {
    "x" in st && "y" in st && st["x"] == NmValInt(a) && st["y"] == NmValInt(b)
  }

  function Put(st: NmState, a: int, b: int): NmState { st["x" := NmValInt(a)]["y" := NmValInt(b)] }

  function Branch(cond: string, x: string, y: string): NmStat {
    NmSeq([NmTest(cond, X, Y), NmAssign(x, NmBinOp("-", NmVar(x), NmVar(y)))])
  }

  const Body := NmChoice([Branch(">", "x", "y"), Branch("<", "y", "x")])

  lemma Test0Is()
    ensures Desugar(Test0) == NmSeq([NmLoop(Body), NmTest("==", X, Y)])
  {
    assert DesugarAll([]) == [];
    LessenIs(">", "x", "y");
    LessenIs("<", "y", "x");
    var l, r := Lessen(">", "x", "y"), Lessen("<", "y", "x");
    assert Desugar(PChoice(l, r, [])) == NmChoice([Desugar(l)] + [Desugar(r)] + []);
    assert [Desugar(l)] + [Desugar(r)] + [] == [Desugar(l), Desugar(r)];
    assert Desugar(Test0) == NmSeq([NmLoop(Body)] + [NmTest("==", X, Y)] + []);
  }

  lemma LessenIs(cond: string, x: string, y: string)
    ensures Desugar(Lessen(cond, x, y)) == Branch(cond, x, y)
  {
    assert DesugarAll([]) == [];
    var test, assign := NmTest(cond, X, Y), NmAssign(x, NmBinOp("-", NmVar(x), NmVar(y)));
    assert [test] + [assign] + [] == [test, assign];
  }

  /** One alternative. */
  lemma BranchRun(cond: string, x: string, y: string, st: NmState, a: int, b: int, tr: seq<NmVal>, end: NmState)
    requires Holds(st, a, b) && x in st && y in st && st[x].NmValInt? && st[y].NmValInt?
    ensures Exec(Branch(cond, x, y), st, tr, end)
            <==> VmEvalCond(cond, X, Y, st) == Value(true) && tr == [] && end == st[x := NmValInt(st[x].n - st[y].n)]
  {
    var assign := NmAssign(x, NmBinOp("-", NmVar(x), NmVar(y)));
    GuardedRun(cond, X, Y, assign, st, tr, end);
    Arithmetic(NmVar(x), NmVar(y), st, st[x].n, st[y].n);
  }

  /** One round: the greater value loses the smaller one, and equal values allow no round. */
  lemma BodyRun(st: NmState, a: int, b: int, tr: seq<NmVal>, end: NmState)
    requires Holds(st, a, b)
    ensures Exec(Body, st, tr, end)
            <==> tr == [] && ((a > b && end == Put(st, a - b, b)) || (a < b && end == Put(st, a, b - a)))
  {
    hide VmEvalCond, VmEval;
    BranchRun(">", "x", "y", st, a, b, tr, end);
    BranchRun("<", "y", "x", st, a, b, tr, end);
    VariablesAre(st, a, b);
    Conditions(X, Y, st, a, b);
    var ss := [Branch(">", "x", "y"), Branch("<", "y", "x")];
    assert Exec(Body, st, tr, end) <==> Exec(ss[0], st, tr, end) || Exec(ss[1], st, tr, end);
    assert st["x" := NmValInt(a - b)] == Put(st, a - b, b) && st["y" := NmValInt(b - a)] == Put(st, a, b - a);
  }

  lemma VariablesAre(st: NmState, a: int, b: int)
    requires Holds(st, a, b)
    ensures IsInt(X, st, a) && IsInt(Y, st, b)
  {
  }

  /** The values from which the loop can come to equal ones, and the value at which it does. */
  predicate Meets(a: int, b: int) { a == b || (a > 0 && b > 0) }

  function Meeting(a: int, b: int): int { if a == b then a else Gcd(a, b) }

  lemma MeetingStep(a: int, b: int)
    ensures a > b ==> (Meets(a - b, b) <==> Meets(a, b)) && (Meets(a, b) ==> Meeting(a - b, b) == Meeting(a, b))
    ensures a < b ==> (Meets(a, b - a) <==> Meets(a, b)) && (Meets(a, b) ==> Meeting(a, b - a) == Meeting(a, b))
  {
    hide Gcd;
    GcdDifference(a, b);
    GcdDifference(b, a);
    GcdDifference(b - a, a);
    GcdSame(a);
    GcdSame(b);
  }

  lemma GcdSame(a: int)
    ensures a > 0 ==> Gcd(a, a) == a
  {
    if a > 0 {
      assert Gcd(a, a) == Gcd(a, 0);
    }
  }

  /** Any number of rounds that end with equal values end with the greatest common divisor. */
  lemma {:induction false} RoundsEnd(n: nat, st: NmState, a: int, b: int, tr: seq<NmVal>, end: NmState)
    requires Holds(st, a, b) && ExecTimes(Body, n, st, tr, end) && VmEvalCond("==", X, Y, end) == Value(true)
    ensures Meets(a, b) && tr == [] && end == Put(st, Meeting(a, b), Meeting(a, b))
    decreases n
  {
    hide Exec, VmEvalCond, Gcd;
    if n == 0 {
      VariablesAre(st, a, b);
      Conditions(X, Y, st, a, b);
      assert st == Put(st, a, b);
    } else {
      var m, t1, t2 := OnceThenRest(Body, n, st, tr, end);
      BodyRun(st, a, b, t1, m);
      MeetingStep(a, b);
      if a > b { RoundsEnd(n - 1, m, a - b, b, t2, end); } else { RoundsEnd(n - 1, m, a, b - a, t2, end); }
    }
  }

  /** From such values some number of rounds does. */
  lemma {:induction false} RoundsMeet(st: NmState, a: int, b: int) returns (n: nat)
    requires Holds(st, a, b) && Meets(a, b)
    ensures ExecTimes(Body, n, st, [], Put(st, Meeting(a, b), Meeting(a, b)))
    decreases if a == b then 0 else a + b
  {
    hide Exec, Gcd;
    if a == b {
      n := 0;
      assert st == Put(st, a, b);
    } else {
      MeetingStep(a, b);
      var x, y := if a > b then a - b else a, if a > b then b else b - a;
      var m := Put(st, x, y);
      BodyRun(st, a, b, [], m);
      n := RoundsMeet(m, x, y);
      assert Put(m, Meeting(a, b), Meeting(a, b)) == Put(st, Meeting(a, b), Meeting(a, b));
      var nothing: seq<NmVal> := [];
      assert nothing + nothing == nothing;
      n := n + 1;
    }
  }

  lemma LoopRun(st: NmState, tr: seq<NmVal>, end: NmState)
    ensures Exec(NmLoop(Body), st, tr, end) <==> exists n: nat :: ExecTimes(Body, n, st, tr, end)
  {
  }

  lemma TestRun(st: NmState, tr: seq<NmVal>, end: NmState)
    ensures Exec(NmTest("==", X, Y), st, tr, end)
            <==> VmEvalCond("==", X, Y, st) == Value(true) && tr == [] && end == st
  {
    hide VmEvalCond;
  }

  /** The runs of the program: it can end exactly when its variables are equal or both positive, and it ends, having printed
      nothing, with both at their greatest common divisor (with equal ones, as they are). */
  lemma Test0Runs(st: NmState, a: int, b: int, tr: seq<NmVal>, end: NmState)
    requires Holds(st, a, b)
    ensures Exec(Desugar(Test0), st, tr, end)
            <==> Meets(a, b) && tr == [] && end == Put(st, Meeting(a, b), Meeting(a, b))
  {
    hide Desugar, VmEvalCond, Gcd, Exec, ExecTimes, Meeting, Meets;
    Test0Is();
    TwoInARow(NmLoop(Body), NmTest("==", X, Y), st, tr, end);
    if Exec(Desugar(Test0), st, tr, end) {
      var m, t1, t2 :| Exec(NmLoop(Body), st, t1, m) && Exec(NmTest("==", X, Y), m, t2, end) && tr == t1 + t2;
      LoopRun(st, t1, m);
      TestRun(m, t2, end);
      var n: nat :| ExecTimes(Body, n, st, t1, m);
      RoundsEnd(n, st, a, b, t1, m);
    }
    if Meets(a, b) && tr == [] && end == Put(st, Meeting(a, b), Meeting(a, b)) {
      Test0Ends(st, a, b);
      var nothing: seq<NmVal> := [];
      assert tr == nothing + nothing;
    }
  }

  lemma Test0Ends(st: NmState, a: int, b: int)
    requires Holds(st, a, b) && Meets(a, b)
    ensures var end := Put(st, Meeting(a, b), Meeting(a, b));
            Exec(NmLoop(Body), st, [], end) && Exec(NmTest("==", X, Y), end, [], end)
  {
    hide VmEvalCond, Gcd, Exec, ExecTimes, Meeting, Meets;
    var end, g := Put(st, Meeting(a, b), Meeting(a, b)), Meeting(a, b);
    var n := RoundsMeet(st, a, b);
    VariablesAre(end, g, g);
    Conditions(X, Y, end, g, g);
    LoopRun(st, [], end);
    TestRun(end, [], end);
  }

  /** From positive numbers every complete run of the machine ends with both variables at their greatest common divisor, and
      there is one. */
  lemma Test0ComputesGcd(st: NmState, a: int, b: int, tr: seq<NmVal>, end: NmState)
    requires Holds(st, a, b) && a > 0 && b > 0
    ensures MachineRun(Transl(Desugar(Test0)), st, tr, end) <==> tr == [] && end == Put(st, Gcd(a, b), Gcd(a, b))
  {
    hide Desugar, Transl, MachineRun, Exec, Gcd;
    ParsedIsNonEmpty(Test0);
    TranslatorCorrect(Desugar(Test0), st, tr, end);
    Test0Runs(st, a, b, tr, end);
    GcdSame(a);
  }
}
