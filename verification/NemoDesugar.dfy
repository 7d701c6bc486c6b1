/** The statements of the grammar, and how the parser's semantic actions build core statements from them. */
module NemoDesugar {
  import opened NemoAst
  import opened NemoVm
  import opened NemoSem

  datatype PStat =
    | PAssign(name: string, val: NmExp)
    | PPrint(e: NmExp)
    | PTest(cond: string, lhs: NmExp, rhs: NmExp)
    | PSeq(first: PStat, second: PStat, rest: seq<PStat>)
    | PChoice(first: PStat, second: PStat, rest: seq<PStat>)
    | PLoop(body: PStat)
    | PIfElse(cond: string, lhs: NmExp, rhs: NmExp, thn: PStat, els: PStat)
    | PWhile(cond: string, lhs: NmExp, rhs: NmExp, body: PStat)

  function NegOp(op: string): string {
    if op == "!=" then "=="
    else if op == "==" then "!="
    else if op == "<" then ">="
    else if op == ">" then "<="
    else if op == "<=" then ">"
    else if op == ">=" then "<"
    else ""
  }

  /** The operators the grammar has for conditions. */
  predicate IsComparison(op: string) {
    op in ["!=", "==", "<=", ">=", "<", ">"]
  }

  function CreateIfElse(op: string, l: NmExp, r: NmExp, thn: NmStat, els: NmStat): NmStat {
    NmChoice([NmSeq([NmTest(op, l, r), thn]), NmSeq([NmTest(NegOp(op), l, r), els])])
  }

  function CreateWhile(op: string, l: NmExp, r: NmExp, body: NmStat): NmStat {
    NmSeq([NmLoop(NmSeq([NmTest(op, l, r), body])), NmTest(NegOp(op), l, r)])
  }

  function Desugar(p: PStat): NmStat
    decreases p
  {
    match p
    case PAssign(x, e) => NmAssign(x, e)
    case PPrint(e) => NmPrint(e)
    case PTest(c, l, r) => NmTest(c, l, r)
    case PSeq(s1, s2, rest) => NmSeq([Desugar(s1)] + [Desugar(s2)] + DesugarAll(rest))
    case PChoice(s1, s2, rest) => NmChoice([Desugar(s1)] + [Desugar(s2)] + DesugarAll(rest))
    case PLoop(b) => NmLoop(Desugar(b))
    case PIfElse(c, l, r, s1, s2) => CreateIfElse(c, l, r, Desugar(s1), Desugar(s2))
    case PWhile(c, l, r, b) => CreateWhile(c, l, r, Desugar(b))
  }

  function DesugarAll(ps: seq<PStat>): (r: seq<NmStat>)
    ensures |r| == |ps|
    decreases ps
  {
    if ps == [] then [] else [Desugar(ps[0])] + DesugarAll(ps[1..])
  }

  /** What the parser builds never has an empty sequence or choice. */
  lemma {:induction false} ParsedIsNonEmpty(p: PStat)
    ensures NonEmpty(Desugar(p))
    decreases p, 1
  {
    match p {
      case PSeq(s1, s2, rest) =>
        ParsedIsNonEmpty(s1);
        ParsedIsNonEmpty(s2);
        ParsedAllNonEmpty(rest);
      case PChoice(s1, s2, rest) =>
        ParsedIsNonEmpty(s1);
        ParsedIsNonEmpty(s2);
        ParsedAllNonEmpty(rest);
      case PLoop(b) => ParsedIsNonEmpty(b);
      case PIfElse(c, l, r, s1, s2) =>
        ParsedIsNonEmpty(s1);
        ParsedIsNonEmpty(s2);
        assert NonEmpty(NmSeq([NmTest(c, l, r), Desugar(s1)]));
        assert NonEmpty(NmSeq([NmTest(NegOp(c), l, r), Desugar(s2)]));
      case PWhile(c, l, r, b) =>
        ParsedIsNonEmpty(b);
        assert NonEmpty(NmSeq([NmTest(c, l, r), Desugar(b)]));
      case _ =>
    }
  }

  lemma {:induction false} ParsedAllNonEmpty(ps: seq<PStat>)
    ensures AllNonEmpty(DesugarAll(ps))
    decreases ps, 0
  {
    if ps != [] {
      ParsedIsNonEmpty(ps[0]);
      ParsedAllNonEmpty(ps[1..]);
    }
  }

  // ----- if and while mean what they say -----

  /** The negated operator is the complement exactly for the six comparisons. */
  lemma NegOpIsComplement(op: string)
    ensures (forall x, y :: CondOp(NegOp(op), x, y) == !CondOp(op, x, y)) <==> IsComparison(op)
  {
    if IsComparison(op) {
      assert NegOp(op) in ["!=", "==", "<=", ">=", "<", ">"];
    } else {
      assert NegOp(op) == "";
      assert CondOp(NegOp(op), 0, 0) == CondOp(op, 0, 0);
    }
  }

  lemma NegCond(op: string, l: NmExp, r: NmExp, st: NmState)
    requires IsComparison(op)
    ensures VmEvalCond(NegOp(op), l, r, st) == Value(true) <==> VmEvalCond(op, l, r, st) == Value(false)
  {
    NegOpIsComplement(op);
  }

  lemma TwoInARow(s1: NmStat, s2: NmStat, st: NmState, tr: seq<NmVal>, end: NmState)
    ensures Exec(NmSeq([s1, s2]), st, tr, end)
            <==> exists m, t1, t2 :: Exec(s1, st, t1, m) && Exec(s2, m, t2, end) && tr == t1 + t2
  {
    hide Exec;
    ExecOfSeq([s1, s2], st, tr, end);
    assert [s1, s2] == [s1] + [s2];
    if ExecSeq([s1, s2], st, tr, end) {
      var m, t1, t2 := FirstThenRest(s1, [s2], st, tr, end);
      ExecSeqOne(s2, m, t2, end);
    }
    if m, t1, t2 :| Exec(s1, st, t1, m) && Exec(s2, m, t2, end) && tr == t1 + t2 {
      ExecSeqOne(s2, m, t2, end);
      assert [s1, s2][1..] == [s2];
      assert ExecSeq([s1, s2], st, t1 + t2, end);
    }
  }

  lemma ExecOfSeq(ss: seq<NmStat>, st: NmState, tr: seq<NmVal>, end: NmState)
    ensures Exec(NmSeq(ss), st, tr, end) <==> ExecSeq(ss, st, tr, end)
  {
  }

  lemma FirstThenRest(s: NmStat, rest: seq<NmStat>, st: NmState, tr: seq<NmVal>, end: NmState)
    returns (m: NmState, t1: seq<NmVal>, t2: seq<NmVal>)
    requires ExecSeq([s] + rest, st, tr, end)
    ensures Exec(s, st, t1, m) && ExecSeq(rest, m, t2, end) && tr == t1 + t2
  {
    hide Exec;
    var ss := [s] + rest;
    assert ss[1..] == rest;
    m, t1, t2 :| Exec(ss[0], st, t1, m) && ExecSeq(ss[1..], m, t2, end) && tr == t1 + t2;
  }

  lemma ExecSeqOne(s: NmStat, st: NmState, tr: seq<NmVal>, end: NmState)
    ensures ExecSeq([s], st, tr, end) <==> Exec(s, st, tr, end)
  {
    hide Exec;
    assert [s][1..] == [] && [s] == [s] + [];
    if ExecSeq([s], st, tr, end) {
      var m, t1, t2 := FirstThenRest(s, [], st, tr, end);
      assert t1 + t2 == t1;
    }
    if Exec(s, st, tr, end) {
      assert ExecSeq([s][1..], end, [], end) && tr == tr + [];
    }
  }

  lemma GuardedRun(op: string, l: NmExp, r: NmExp, s: NmStat, st: NmState, tr: seq<NmVal>, end: NmState)
    ensures Exec(NmSeq([NmTest(op, l, r), s]), st, tr, end)
            <==> VmEvalCond(op, l, r, st) == Value(true) && Exec(s, st, tr, end)
  {
    hide VmEvalCond;
    var test := NmTest(op, l, r);
    TwoInARow(test, s, st, tr, end);
    if m, t1, t2 :| Exec(test, st, t1, m) && Exec(s, m, t2, end) && tr == t1 + t2 {
      assert tr == t2;
    }
    if VmEvalCond(op, l, r, st) == Value(true) && Exec(s, st, tr, end) {
      assert Exec(test, st, [], st) && tr == [] + tr;
    }
  }

  /** The desugared conditional is the ordinary one. */
  lemma IfElseMeaning(op: string, l: NmExp, r: NmExp, s1: NmStat, s2: NmStat,
                      st: NmState, tr: seq<NmVal>, end: NmState)
    requires IsComparison(op)
    ensures Exec(CreateIfElse(op, l, r, s1, s2), st, tr, end)
            <==> (VmEvalCond(op, l, r, st) == Value(true) && Exec(s1, st, tr, end))
                 || (VmEvalCond(op, l, r, st) == Value(false) && Exec(s2, st, tr, end))
  {
    NegCond(op, l, r, st);
    GuardedRun(op, l, r, s1, st, tr, end);
    GuardedRun(NegOp(op), l, r, s2, st, tr, end);
    var ss := [NmSeq([NmTest(op, l, r), s1]), NmSeq([NmTest(NegOp(op), l, r), s2])];
    assert Exec(NmChoice(ss), st, tr, end) <==> Exec(ss[0], st, tr, end) || Exec(ss[1], st, tr, end);
  }

  /** With an operator the grammar does not have, no test holds, and the desugared conditional loses both branches. */
  lemma UnknownOperatorHasNoElse(op: string, l: NmExp, r: NmExp, s1: NmStat, s2: NmStat,
                                 st: NmState, tr: seq<NmVal>, end: NmState)
    requires !IsComparison(op)
    ensures VmEvalCond(op, l, r, st) != Value(true)
    ensures VmEval(l, st).Value? && VmEval(l, st).v.NmValInt? && VmEval(r, st).Value? && VmEval(r, st).v.NmValInt? ==>
      VmEvalCond(op, l, r, st) == Value(false)
    ensures !Exec(CreateIfElse(op, l, r, s1, s2), st, tr, end)
  {
    GuardedRun(op, l, r, s1, st, tr, end);
    GuardedRun(NegOp(op), l, r, s2, st, tr, end);
    var ss := [NmSeq([NmTest(op, l, r), s1]), NmSeq([NmTest(NegOp(op), l, r), s2])];
    assert Exec(NmChoice(ss), st, tr, end) <==> Exec(ss[0], st, tr, end) || Exec(ss[1], st, tr, end);
  }

  /** The ordinary while loop: `n` rounds on which the condition holds, then one on which it does not. */
  ghost predicate WhileRun(op: string, l: NmExp, r: NmExp, body: NmStat, n: nat,
                           st: NmState, tr: seq<NmVal>, end: NmState)
    decreases n
  {
    if n == 0 then VmEvalCond(op, l, r, st) == Value(false) && tr == [] && end == st
    else
      && VmEvalCond(op, l, r, st) == Value(true)
      && exists m, t1, t2 :: Exec(body, st, t1, m) && WhileRun(op, l, r, body, n - 1, m, t2, end) && tr == t1 + t2
  }

  lemma OnceThenRest(b: NmStat, n: nat, st: NmState, tr: seq<NmVal>, end: NmState)
    returns (m: NmState, t1: seq<NmVal>, t2: seq<NmVal>)
    requires n > 0 && ExecTimes(b, n, st, tr, end)
    ensures Exec(b, st, t1, m) && ExecTimes(b, n - 1, m, t2, end) && tr == t1 + t2
  {
    m, t1, t2 :| Exec(b, st, t1, m) && ExecTimes(b, n - 1, m, t2, end) && tr == t1 + t2;
  }

  lemma {:induction false} LoopThenExit(op: string, l: NmExp, r: NmExp, body: NmStat, n: nat,
                                        st: NmState, tr: seq<NmVal>, end: NmState)
    requires IsComparison(op)
    ensures WhileRun(op, l, r, body, n, st, tr, end)
            <==> ExecTimes(NmSeq([NmTest(op, l, r), body]), n, st, tr, end)
                 && VmEvalCond(op, l, r, end) == Value(false)
    decreases n
  {
    hide VmEvalCond, Exec;
    var guarded := NmSeq([NmTest(op, l, r), body]);
    if n > 0 {
      if WhileRun(op, l, r, body, n, st, tr, end) {
        var m, t1, t2 :| Exec(body, st, t1, m) && WhileRun(op, l, r, body, n - 1, m, t2, end) && tr == t1 + t2;
        GuardedRun(op, l, r, body, st, t1, m);
        LoopThenExit(op, l, r, body, n - 1, m, t2, end);
      }
      if ExecTimes(guarded, n, st, tr, end) && VmEvalCond(op, l, r, end) == Value(false) {
        var m, t1, t2 := OnceThenRest(guarded, n, st, tr, end);
        GuardedRun(op, l, r, body, st, t1, m);
        LoopThenExit(op, l, r, body, n - 1, m, t2, end);
      }
    }
  }

  /** The desugared loop is the ordinary while loop. */
  lemma WhileMeaning(op: string, l: NmExp, r: NmExp, body: NmStat, st: NmState, tr: seq<NmVal>, end: NmState)
    requires IsComparison(op)
    ensures Exec(CreateWhile(op, l, r, body), st, tr, end)
            <==> exists n: nat :: WhileRun(op, l, r, body, n, st, tr, end)
  {
    hide VmEvalCond, WhileRun, Exec, ExecTimes;
    var guarded := NmSeq([NmTest(op, l, r), body]);
    var exit := NmTest(NegOp(op), l, r);
    TwoInARow(NmLoop(guarded), exit, st, tr, end);
    NegCond(op, l, r, end);
    if Exec(CreateWhile(op, l, r, body), st, tr, end) {
      var m, t1, t2 :| Exec(NmLoop(guarded), st, t1, m) && Exec(exit, m, t2, end) && tr == t1 + t2;
      ExecOfTest(NegOp(op), l, r, m, t2, end);
      assert t1 == tr && m == end;
      var n := LoopIsTimes(guarded, st, tr, end);
      LoopThenExit(op, l, r, body, n, st, tr, end);
    }
    if n: nat :| WhileRun(op, l, r, body, n, st, tr, end) {
      LoopThenExit(op, l, r, body, n, st, tr, end);
      TimesIsLoop(guarded, n, st, tr, end);
      ExecOfTest(NegOp(op), l, r, end, [], end);
      assert tr == tr + [];
    }
  }

  lemma ExecOfTest(op: string, l: NmExp, r: NmExp, st: NmState, tr: seq<NmVal>, end: NmState)
    ensures Exec(NmTest(op, l, r), st, tr, end)
            <==> VmEvalCond(op, l, r, st) == Value(true) && tr == [] && end == st
  {
  }

  lemma LoopIsTimes(b: NmStat, st: NmState, tr: seq<NmVal>, end: NmState) returns (n: nat)
    requires Exec(NmLoop(b), st, tr, end)
    ensures ExecTimes(b, n, st, tr, end)
  {
    n :| ExecTimes(b, n, st, tr, end);
  }

  lemma TimesIsLoop(b: NmStat, n: nat, st: NmState, tr: seq<NmVal>, end: NmState)
    requires ExecTimes(b, n, st, tr, end)
    ensures Exec(NmLoop(b), st, tr, end)
  {
  }
}
