/** Programs built from assignments, prints, sequences, if and while run deterministically. */
module NemoStructured {
  import opened NemoAst
  import opened NemoVm
  import opened NemoSem
  import opened NemoTransl
  import opened NemoLayout
  import opened NemoPlacement
  import opened NemoCorrect
  import opened NemoDesugar
  import opened NemoRunner

  /** No bare test, choice or loop. */
  predicate Structured(p: PStat)
    decreases p
  {
    match p
    case PTest(_, _, _) => false
    case PChoice(_, _, _) => false
    case PLoop(_) => false
    case PSeq(s1, s2, rest) => Structured(s1) && Structured(s2) && AllStructured(rest)
    case PIfElse(_, _, _, s1, s2) => Structured(s1) && Structured(s2)
    case PWhile(_, _, _, b) => Structured(b)
    case _ => true
  }

  predicate AllStructured(ps: seq<PStat>)
    decreases ps
  {
    ps == [] || (Structured(ps[0]) && AllStructured(ps[1..]))
  }

  /** A test with one place to go. */
  predicate IsGuard(i: VNmStat) { i.VNmIf? && |i.pos| == 1 && i.neg == [] }

  /** Two labels that hold a test and its negation. */
  predicate Complementary(prog: seq<VNmStat>, l1: int, l2: int) {
    && 0 <= l1 < |prog| && 0 <= l2 < |prog|
    && IsGuard(prog[l1]) && IsGuard(prog[l2])
    && prog[l2].cond == NegOp(prog[l1].cond) && prog[l2].lhs == prog[l1].lhs && prog[l2].rhs == prog[l1].rhs
  }

  /** An instruction with one place to go, or a jump to a test and its negation. */
  predicate Tame(prog: seq<VNmStat>, i: VNmStat) {
    match i
    case VNmAssign(_, _, goto) => |goto| == 1
    case VNmPrint(_, goto) => |goto| == 1
    case VNmIf(_, _, _, pos, neg) =>
      IsGuard(i) || (|pos| == 2 && i == AlwaysTo(pos) && Complementary(prog, pos[0], pos[1]))
  }

  predicate TameFrom(prog: seq<VNmStat>, lo: int, hi: int)
    requires 0 <= lo <= hi <= |prog|
  {
    forall i :: lo <= i < hi ==> Tame(prog, prog[i])
  }

  // ----- the code of structured statements is tame -----

  lemma AtomTame(s: NmStat, prog: seq<VNmStat>, b: int, e: int)
    requires IsAtom(s) && At(Transl(s), prog, b, e)
    ensures |Transl(s)| == 1 && Tame(prog, prog[b])
    ensures s.NmTest? ==> IsGuard(prog[b]) && prog[b].cond == s.cond && prog[b].lhs == s.lhs && prog[b].rhs == s.rhs
  {
    AtIndex(Transl(s), prog, b, e, 0);
    assert PlaceLabs([1], b, 1, e) == [e] && PlaceLabs([], b, 1, e) == [];
  }

  lemma CodesOfTwo(s1: NmStat, s2: NmStat)
    ensures Codes([s1, s2]) == [Transl(s1), Transl(s2)]
  {
    hide Transl;
    assert [s1, s2][1..] == [s2] && [s2][1..] == [];
    assert Codes([s2]) == [Transl(s2)] + Codes([]);
  }

  lemma TwoSeqAt(c1: seq<VNmStat>, c2: seq<VNmStat>, prog: seq<VNmStat>, b: int, e: int)
    requires SeqAt([c1, c2], prog, b, e)
    ensures At(c1, prog, b, b + |c1|) && At(c2, prog, b + |c1|, e) && Size([c1, c2]) == |c1| + |c2|
  {
    hide At;
    assert [c1, c2][1..] == [c2] && [c2][1..] == [];
    assert Size([c2]) == |c2| + Size([]);
    assert SeqAt([c2], prog, b + |c1|, e);
  }

  lemma TwoChoiceAt(c1: seq<VNmStat>, c2: seq<VNmStat>, prog: seq<VNmStat>, b: int, e: int)
    requires ChoiceAt([c1, c2], prog, b, e)
    ensures At(c1, prog, b, e) && At(c2, prog, b + |c1|, e)
    ensures Size([c1, c2]) == |c1| + |c2| && Starts([c1, c2], b) == [b, b + |c1|]
  {
    hide At;
    assert [c1, c2][1..] == [c2] && [c2][1..] == [];
    assert Size([c2]) == |c2| + Size([]) && Starts([c2], b + |c1|) == [b + |c1|] + Starts([], b + |c1| + |c2|);
    assert ChoiceAt([c2], prog, b + |c1|, e);
  }

  /** The parts of a placed pair. */
  lemma PairParts(s1: NmStat, s2: NmStat, prog: seq<VNmStat>, b: int, e: int)
    requires NonEmpty(s1) && NonEmpty(s2) && At(Transl(NmSeq([s1, s2])), prog, b, e)
    ensures |Transl(NmSeq([s1, s2]))| == |Transl(s1)| + |Transl(s2)|
    ensures At(Transl(s1), prog, b, b + |Transl(s1)|) && At(Transl(s2), prog, b + |Transl(s1)|, e)
  {
    hide Transl, At;
    LayoutAll([s1, s2]);
    CodesOfTwo(s1, s2);
    SeqBlock([s1, s2], prog, b, e);
    TwoSeqAt(Transl(s1), Transl(s2), prog, b, e);
  }

  lemma AtBounds(code: seq<VNmStat>, prog: seq<VNmStat>, b: int, e: int)
    requires At(code, prog, b, e)
    ensures 0 <= b && b + |code| <= |prog|
  {
  }

  /** A guarded statement: its test stands first. */
  lemma GuardedParts(op: string, l: NmExp, r: NmExp, s: NmStat, prog: seq<VNmStat>, b: int, e: int)
    requires NonEmpty(s) && At(Transl(NmSeq([NmTest(op, l, r), s])), prog, b, e)
    ensures |Transl(NmSeq([NmTest(op, l, r), s]))| == 1 + |Transl(s)|
    ensures 0 <= b && b + 1 + |Transl(s)| <= |prog| && IsGuard(prog[b])
    ensures prog[b].cond == op && prog[b].lhs == l && prog[b].rhs == r
    ensures At(Transl(s), prog, b + 1, e)
  {
    hide Transl, At;
    var test := NmTest(op, l, r);
    PairParts(test, s, prog, b, e);
    AtBounds(Transl(test), prog, b, b + |Transl(test)|);
    AtomTame(test, prog, b, b + |Transl(test)|);
    AtBounds(Transl(s), prog, b + 1, e);
  }

  lemma {:induction false} StructuredIsTame(p: PStat, prog: seq<VNmStat>, b: int, e: int)
    requires Structured(p) && At(Transl(Desugar(p)), prog, b, e)
    ensures 0 <= b && b + |Transl(Desugar(p))| <= |prog|
    ensures TameFrom(prog, b, b + |Transl(Desugar(p))|)
    decreases p, 1
  {
    hide Transl, At, TameFrom, TameJump, CreateIfElse, CreateWhile, NonEmpty;
    ParsedIsNonEmpty(p);
    AtBounds(Transl(Desugar(p)), prog, b, e);
    match p
    case PSeq(s1, s2, rest) =>
      ManyTame(s1, s2, rest, prog, b, e);
    case PIfElse(c, l, r, s1, s2) =>
      ParsedIsNonEmpty(s1);
      ParsedIsNonEmpty(s2);
      var n1, n2 := |Transl(Desugar(s1))|, |Transl(Desugar(s2))|;
      IfElseParts(c, l, r, Desugar(s1), Desugar(s2), prog, b, e);
      StructuredIsTame(s1, prog, b + 2, e);
      StructuredIsTame(s2, prog, b + 3 + n1, e);
      TameBranches(prog, b, n1, n2);
    case PWhile(c, l, r, body) =>
      WhileTame(c, l, r, body, prog, b, e);
    case _ =>
      AtomTameFrom(Desugar(p), prog, b, e);
  }

  lemma AtomTameFrom(s: NmStat, prog: seq<VNmStat>, b: int, e: int)
    requires IsAtom(s) && At(Transl(s), prog, b, e) && 0 <= b && b + |Transl(s)| <= |prog|
    ensures TameFrom(prog, b, b + |Transl(s)|)
  {
    hide Transl, At, Tame;
    AtomTame(s, prog, b, e);
  }

  lemma {:induction false} ManyTame(s1: PStat, s2: PStat, rest: seq<PStat>, prog: seq<VNmStat>, b: int, e: int)
    requires Structured(s1) && Structured(s2) && AllStructured(rest)
    requires At(Transl(NmSeq([Desugar(s1)] + [Desugar(s2)] + DesugarAll(rest))), prog, b, e)
    ensures 0 <= b && b + |Transl(NmSeq([Desugar(s1)] + [Desugar(s2)] + DesugarAll(rest)))| <= |prog|
    ensures TameFrom(prog, b, b + |Transl(NmSeq([Desugar(s1)] + [Desugar(s2)] + DesugarAll(rest)))|)
    decreases PSeq(s1, s2, rest), 0
  {
    hide Transl, At, Tame, Desugar, DesugarAll, Structured, AllStructured, NonEmpty, SeqAt, Codes, Size;
    ParsedIsNonEmpty(s1);
    ParsedIsNonEmpty(s2);
    ParsedAllNonEmpty(rest);
    var d1, d2, ds := Desugar(s1), Desugar(s2), DesugarAll(rest);
    var c1, c2, cs := Transl(d1), Transl(d2), Codes(ds);
    AtBounds(Transl(NmSeq([d1] + [d2] + ds)), prog, b, e);
    LayoutAll([d1] + [d2] + ds);
    SeqBlock([d1] + [d2] + ds, prog, b, e);
    CodesOfMore(d1, d2, ds);
    MoreSeqAt(c1, c2, cs, prog, b, e);
    StructuredIsTame(s1, prog, b, b + |c1|);
    StructuredIsTame(s2, prog, b + |c1|, if cs == [] then e else b + |c1| + |c2|);
    SeqIsTame(rest, prog, b + |c1| + |c2|, e);
  }

  lemma CodesOfMore(s1: NmStat, s2: NmStat, rest: seq<NmStat>)
    ensures Codes([s1] + [s2] + rest) == [Transl(s1), Transl(s2)] + Codes(rest)
  {
    hide Transl;
    var ss := [s1] + [s2] + rest;
    assert ss[1..] == [s2] + rest && ss[1..][1..] == rest;
    assert Codes(ss[1..]) == [Transl(s2)] + Codes(rest);
  }

  lemma MoreSeqAt(c1: seq<VNmStat>, c2: seq<VNmStat>, rest: seq<seq<VNmStat>>, prog: seq<VNmStat>, b: int, e: int)
    requires SeqAt([c1, c2] + rest, prog, b, e)
    ensures At(c1, prog, b, b + |c1|)
    ensures At(c2, prog, b + |c1|, if rest == [] then e else b + |c1| + |c2|)
    ensures SeqAt(rest, prog, b + |c1| + |c2|, e) && Size([c1, c2] + rest) == |c1| + |c2| + Size(rest)
  {
    hide At;
    var cs := [c1, c2] + rest;
    assert cs[1..] == [c2] + rest && cs[1..][1..] == rest;
    assert SeqAt(cs[1..], prog, b + |c1|, e) && Size(cs[1..]) == |c2| + Size(rest);
  }

  lemma {:induction false} SeqIsTame(ps: seq<PStat>, prog: seq<VNmStat>, b: int, e: int)
    requires AllStructured(ps) && SeqAt(Codes(DesugarAll(ps)), prog, b, e)
    requires 0 <= b && b + Size(Codes(DesugarAll(ps))) <= |prog|
    ensures TameFrom(prog, b, b + Size(Codes(DesugarAll(ps))))
    decreases ps, 0
  {
    hide Transl, At, Desugar, Tame;
    if ps != [] {
      var ss := DesugarAll(ps);
      assert ss[0] == Desugar(ps[0]) && ss[1..] == DesugarAll(ps[1..]);
      var cs := Codes(ss);
      assert cs[0] == Transl(ss[0]) && cs[1..] == Codes(ss[1..]);
      StructuredIsTame(ps[0], prog, b, if |cs| == 1 then e else b + |cs[0]|);
      SeqIsTame(ps[1..], prog, b + |cs[0]|, e);
    }
  }

  /** The jump of a conditional and the tests of its branches, the first of which has `n` instructions behind its test. */
  predicate TameJump(prog: seq<VNmStat>, b: int, n: nat) {
    0 <= b && b + 2 + n < |prog| && Tame(prog, prog[b]) && Tame(prog, prog[b+1]) && Tame(prog, prog[b+2+n])
  }

  /** A placed conditional: a jump to a test and its negation, each with its branch behind it. */
  lemma IfElseParts(c: string, l: NmExp, r: NmExp, d1: NmStat, d2: NmStat, prog: seq<VNmStat>, b: int, e: int)
    requires NonEmpty(d1) && NonEmpty(d2) && At(Transl(CreateIfElse(c, l, r, d1, d2)), prog, b, e)
    ensures |Transl(CreateIfElse(c, l, r, d1, d2))| == 3 + |Transl(d1)| + |Transl(d2)|
    ensures 0 <= b && b + 3 + |Transl(d1)| + |Transl(d2)| <= |prog|
    ensures TameJump(prog, b, |Transl(d1)|)
    ensures At(Transl(d1), prog, b + 2, e) && At(Transl(d2), prog, b + 3 + |Transl(d1)|, e)
  {
    hide Transl, At, NonEmpty;
    var g1, g2 := NmSeq([NmTest(c, l, r), d1]), NmSeq([NmTest(NegOp(c), l, r), d2]);
    GuardedNonEmpty(c, l, r, d1);
    GuardedNonEmpty(NegOp(c), l, r, d2);
    AtBounds(Transl(NmChoice([g1, g2])), prog, b, e);
    BothNonEmpty(g1, g2);
    LayoutAll([g1, g2]);
    CodesOfTwo(g1, g2);
    ChoiceBlock([g1, g2], prog, b, e);
    var n := |Transl(g1)|;
    TwoChoiceAt(Transl(g1), Transl(g2), prog, b + 1, e);
    GuardedParts(c, l, r, d1, prog, b + 1, e);
    GuardedParts(NegOp(c), l, r, d2, prog, b + 1 + n, e);
  }

  lemma BothNonEmpty(s1: NmStat, s2: NmStat)
    requires NonEmpty(s1) && NonEmpty(s2)
    ensures AllNonEmpty([s1, s2]) && NonEmpty(NmChoice([s1, s2]))
  {
  }

  lemma TameBranches(prog: seq<VNmStat>, b: int, n1: nat, n2: nat)
    requires 0 <= b && b + 3 + n1 + n2 <= |prog|
    requires TameJump(prog, b, n1)
    requires TameFrom(prog, b + 2, b + 2 + n1) && TameFrom(prog, b + 3 + n1, b + 3 + n1 + n2)
    ensures TameFrom(prog, b, b + 3 + n1 + n2)
  {
    hide Tame;
  }

  lemma GuardedNonEmpty(c: string, l: NmExp, r: NmExp, s: NmStat)
    requires NonEmpty(s)
    ensures NonEmpty(NmSeq([NmTest(c, l, r), s]))
  {
  }

  lemma {:induction false} WhileTame(c: string, l: NmExp, r: NmExp, body: PStat, prog: seq<VNmStat>, b: int, e: int)
    requires Structured(body)
    requires At(Transl(CreateWhile(c, l, r, Desugar(body))), prog, b, e)
    ensures 0 <= b && b + |Transl(CreateWhile(c, l, r, Desugar(body)))| <= |prog|
    ensures TameFrom(prog, b, b + |Transl(CreateWhile(c, l, r, Desugar(body)))|)
    decreases PWhile(c, l, r, body), 0
  {
    hide Transl, At, Desugar, Structured;
    var d := Desugar(body);
    ParsedIsNonEmpty(body);
    var guarded := NmSeq([NmTest(c, l, r), d]);
    var loop, exit := NmLoop(guarded), NmTest(NegOp(c), l, r);
    GuardedNonEmpty(c, l, r, d);
    assert NonEmpty(loop) && NonEmpty(exit);
    var n := |Transl(loop)|;
    AtBounds(Transl(NmSeq([loop, exit])), prog, b, e);
    PairParts(loop, exit, prog, b, e);
    AtomTame(exit, prog, b + n, e);
    Layout(guarded);
    LoopBlock(guarded, prog, b, b + n);
    GuardedParts(c, l, r, d, prog, b + 1, b);
    StructuredIsTame(body, prog, b + 2, b);
  }

  // ----- tame code keeps the frontier small -----

  /** Nothing, one configuration, or a test and its negation on one state. */
  ghost predicate Narrow(prog: seq<VNmStat>, confs: set<VNmConf>) {
    || confs == {}
    || (exists c :: confs == {c} && 0 <= c.lab <= |prog|)
    || (exists l1, l2, st :: confs == {VNmConf(l1, st), VNmConf(l2, st)} && Complementary(prog, l1, l2))
  }

  /** Code that is tame and jumps only inside itself or to its end. */
  predicate TameProgram(prog: seq<VNmStat>) {
    TameFrom(prog, 0, |prog|) && Within(LabSet(prog), 0, |prog|)
  }

  lemma TargetInProgram(prog: seq<VNmStat>, i: nat, l: int)
    requires TameProgram(prog) && i < |prog| && l in Labs(prog[i])
    ensures 0 <= l <= |prog|
  {
    LabSetAt(prog, i);
  }

  lemma GuardSuccessors(prog: seq<VNmStat>, l: int, st: NmState)
    requires TameProgram(prog) && 0 <= l < |prog| && IsGuard(prog[l])
    ensures var i := prog[l];
            Successors(prog, VNmConf(l, st))
            == if VmEvalCond(i.cond, i.lhs, i.rhs, st) == Value(true) then {VNmConf(i.pos[0], st)} else {}
    ensures 0 <= prog[l].pos[0] <= |prog|
  {
    hide VmEvalCond, LabSet;
    TargetInProgram(prog, l, prog[l].pos[0]);
  }

  lemma OneSuccessors(prog: seq<VNmStat>, c: VNmConf)
    requires TameProgram(prog) && 0 <= c.lab < |prog|
    ensures Narrow(prog, Successors(prog, c))
  {
    hide VmEvalCond, VmEval, LabSet;
    var i := prog[c.lab];
    assert Tame(prog, i);
    match Execute(i, c.state)
    case Goto(labs, st, out) =>
      if i.VNmIf? && !IsGuard(i) {
        AlwaysHolds(c.state);
        assert labs == i.pos && labs == [labs[0], labs[1]];
        assert Successors(prog, c) == {VNmConf(labs[0], st), VNmConf(labs[1], st)};
      } else if labs == [] {
        assert Successors(prog, c) == {};
      } else {
        assert labs == [labs[0]] && labs[0] in Labs(i);
        TargetInProgram(prog, c.lab, labs[0]);
        assert Successors(prog, c) == {VNmConf(labs[0], st)};
      }
    case Dies =>
      assert Successors(prog, c) == {};
    case Aborts =>
      assert Successors(prog, c) == {};
  }

  lemma AlwaysHolds(st: NmState)
    ensures VmEvalCond("==", NmInt(0), NmInt(0), st) == Value(true)
  {
  }

  /** Of a test and its negation at most one succeeds, on any operator at all. */
  lemma NotBoth(op: string, l: NmExp, r: NmExp, st: NmState)
    ensures !(VmEvalCond(op, l, r, st) == Value(true) && VmEvalCond(NegOp(op), l, r, st) == Value(true))
  {
    if IsComparison(op) {
      NegCond(op, l, r, st);
    }
  }

  lemma NarrowRound(prog: seq<VNmStat>, confs: set<VNmConf>)
    requires TameProgram(prog) && Narrow(prog, confs) && Unfinished(prog, confs)
    ensures Narrow(prog, AllSuccessors(prog, confs))
  {
    hide TameProgram, Complementary, AllSuccessors;
    if c :| confs == {c} && 0 <= c.lab <= |prog| {
      OneSuccessors(prog, c);
      SingleRound(prog, c);
    } else {
      var l1, l2, st :| confs == {VNmConf(l1, st), VNmConf(l2, st)} && Complementary(prog, l1, l2);
      PairRound(prog, l1, l2, st);
    }
  }

  lemma SingleRound(prog: seq<VNmStat>, c: VNmConf)
    ensures AllSuccessors(prog, {c}) == Successors(prog, c)
  {
    hide Successors;
  }

  lemma PairRound(prog: seq<VNmStat>, l1: int, l2: int, st: NmState)
    requires TameProgram(prog) && Complementary(prog, l1, l2)
    ensures Narrow(prog, AllSuccessors(prog, {VNmConf(l1, st), VNmConf(l2, st)}))
  {
    hide TameFrom, VmEvalCond, LabSet, Within, Successors, NegOp;
    GuardSuccessors(prog, l1, st);
    GuardSuccessors(prog, l2, st);
    NotBoth(prog[l1].cond, prog[l1].lhs, prog[l1].rhs, st);
    var s1, s2 := Successors(prog, VNmConf(l1, st)), Successors(prog, VNmConf(l2, st));
    assert AllSuccessors(prog, {VNmConf(l1, st), VNmConf(l2, st)}) == s1 + s2;
    assert s1 == {} || s2 == {};
    assert s1 + s2 == s1 || s1 + s2 == s2;
  }

  /** A narrow unfinished frontier has nothing finished in it. */
  lemma FinishedIsAlone(prog: seq<VNmStat>, confs: set<VNmConf>)
    requires Narrow(prog, confs)
    ensures forall c :: c in confs ==> 0 <= c.lab <= |prog|
    ensures forall c :: c in confs && c.lab == |prog| ==> confs == {c}
  {
  }

  lemma {:induction false} NarrowForever(prog: seq<VNmStat>, st: NmState, k: nat)
    requires TameProgram(prog)
    ensures var f := After(prog, VNmConf(0, st), k); f.Confs? ==> Narrow(prog, f.confs)
  {
    hide TameProgram, Narrow, Unfinished, SomeFails, AllSuccessors;
    if k == 0 {
      StartIsNarrow(prog, st);
    } else {
      NarrowForever(prog, st, k - 1);
      var f := After(prog, VNmConf(0, st), k - 1);
      if f.Confs? && Unfinished(prog, f.confs) {
        NarrowRound(prog, f.confs);
      }
    }
  }

  lemma StartIsNarrow(prog: seq<VNmStat>, st: NmState)
    ensures Narrow(prog, {VNmConf(0, st)})
  {
    assert {VNmConf(0, st)} == {VNmConf(0, st)} && 0 <= VNmConf(0, st).lab <= |prog|;
  }

  lemma StructuredProgram(p: PStat)
    requires Structured(p)
    ensures TameProgram(Transl(Desugar(p)))
  {
    hide Transl, LabSet;
    var prog := Transl(Desugar(p));
    ParsedIsNonEmpty(p);
    Layout(Desugar(p));
    WholeProgram(prog);
    StructuredIsTame(p, prog, 0, |prog|);
  }

  /** Structured programs are deterministic: before every round the runner holds nothing, one configuration, or a
      test and its negation on one state; a finished configuration is alone; and a round only breaks because the
      evaluation of some current instruction aborts, never by leaving the program. */
  lemma StructuredDeterministic(p: PStat, st: NmState, k: nat)
    requires Structured(p) && After(Transl(Desugar(p)), VNmConf(0, st), k).Confs?
    ensures var prog := Transl(Desugar(p));
            var confs := After(prog, VNmConf(0, st), k).confs;
            && Narrow(prog, confs) && |confs| <= 2
            && (forall c :: c in confs && c.lab == |prog| ==> confs == {c})
            && (Unfinished(prog, confs) ==>
                  (Round(prog, confs).Broken?
                   <==> exists c :: c in confs && 0 <= c.lab < |prog| && Execute(prog[c.lab], c.state).Aborts?))
  {
    hide Transl, TameProgram, Execute;
    var prog := Transl(Desugar(p));
    StructuredProgram(p);
    NarrowForever(prog, st, k);
    var confs := After(prog, VNmConf(0, st), k).confs;
    NarrowIsSmall(prog, confs);
    FinishedIsAlone(prog, confs);
    RoundBreaksExactly(prog, confs);
  }

  lemma NarrowIsSmall(prog: seq<VNmStat>, confs: set<VNmConf>)
    requires Narrow(prog, confs)
    ensures |confs| <= 2
  {
  }

  /** A round in which one configuration can step does not break: its only companion tests the same values. */
  lemma NarrowSteps(prog: seq<VNmStat>, confs: set<VNmConf>, c: VNmConf, d: VNmConf)
    requires Narrow(prog, confs) && c in confs && CanStep(prog, c, d)
    ensures !SomeFails(prog, confs)
  {
    hide VmStep, Complementary;
    StepIsNoFailure(prog, c, d);
    if confs != {c} {
      var l1, l2, st :| confs == {VNmConf(l1, st), VNmConf(l2, st)} && Complementary(prog, l1, l2);
      SameFailures(prog, l1, l2, st);
    }
  }

  lemma StepIsNoFailure(prog: seq<VNmStat>, c: VNmConf, d: VNmConf)
    requires CanStep(prog, c, d)
    ensures !VmStep(prog, c).Failed?
  {
  }

  lemma SameFailures(prog: seq<VNmStat>, l1: int, l2: int, st: NmState)
    requires Complementary(prog, l1, l2)
    ensures VmStep(prog, VNmConf(l1, st)).Failed? <==> VmStep(prog, VNmConf(l2, st)).Failed?
  {
    hide VmEvalCond;
    BreaksIs(prog, VNmConf(l1, st));
    BreaksIs(prog, VNmConf(l2, st));
    SameOperands(prog[l1].cond, prog[l2].cond, prog[l1].lhs, prog[l1].rhs, st);
  }

  lemma SameOperands(op1: string, op2: string, l: NmExp, r: NmExp, st: NmState)
    ensures VmEvalCond(op1, l, r, st).Abort? <==> VmEvalCond(op2, l, r, st).Abort?
  {
  }

  /** While one run of a structured program goes on, so does the runner. */
  lemma {:induction false} GoesOnWithRun(prog: seq<VNmStat>, st: NmState, k: nat, c: VNmConf)
    requires TameProgram(prog) && Reaches(prog, VNmConf(0, st), k, c)
    ensures After(prog, VNmConf(0, st), k).Confs? && c in After(prog, VNmConf(0, st), k).confs
    ensures forall j: nat :: j < k ==> Going(prog, VNmConf(0, st), j)
  {
    hide TameProgram, Narrow, CanStep, Reaches, SomeFails, AllSuccessors;
    var start := VNmConf(0, st);
    if k == 0 {
      ReachesZero(prog, start, c);
    } else {
      ReachesNext(prog, start, k - 1, c);
      var m :| Reaches(prog, start, k - 1, m) && CanStep(prog, m, c);
      GoesOnWithRun(prog, st, k - 1, m);
      StepsAreInside(prog, m, c);
      NarrowForever(prog, st, k - 1);
      NarrowSteps(prog, After(prog, start, k - 1).confs, m, c);
      FrontierExact(prog, start, k);
    }
  }

  lemma StepsAreInside(prog: seq<VNmStat>, c: VNmConf, d: VNmConf)
    requires CanStep(prog, c, d)
    ensures c.lab != |prog|
  {
  }

  /** A structured program that can end is run to its end: the runner stops, with the one state in which it ends. */
  lemma StructuredEnds(p: PStat, st: NmState, end: NmState)
    requires Structured(p)
    ensures CanEndIn(Desugar(p), st, end)
            <==> exists k: nat :: Stopped(Transl(Desugar(p)), VNmConf(0, st), k)
                                  && After(Transl(Desugar(p)), VNmConf(0, st), k).confs
                                     == {VNmConf(|Transl(Desugar(p))|, end)}
  {
    hide Transl, TameProgram, Narrow, Desugar, Structured, NonEmpty, CanEndIn, Reaches, After;
    var prog, start := Transl(Desugar(p)), VNmConf(0, st);
    ParsedIsNonEmpty(p);
    if CanEndIn(Desugar(p), st, end) {
      var k := RunReachesEnd(Desugar(p), st, end);
      StructuredProgram(p);
      GoesOnWithRun(prog, st, k, VNmConf(|prog|, end));
      NarrowForever(prog, st, k);
      FinishedIsAlone(prog, After(prog, start, k).confs);
      assert Stopped(prog, start, k);
    }
    if k: nat :| Stopped(prog, start, k) && After(prog, start, k).confs == {VNmConf(|prog|, end)} {
      RunnerComplete(Desugar(p), st, k);
    }
  }

  // ----- without structure the runner can break -----

  lemma UnevenCode(e: NmExp)
    ensures Transl(NmChoice([NmPrint(e), NmSeq([NmPrint(e), NmPrint(e)])]))
            == [AlwaysTo([1, 2]), VNmPrint(e, [4]), VNmPrint(e, [3]), VNmPrint(e, [4])]
  {
    var one := NmPrint(e);
    var two := NmSeq([one, one]);
    var prog := Transl(NmChoice([one, two]));
    PrintCode(e);
    hide Transl, At, LabSet, NonEmpty, Codes, Size, Starts, SeqAt, ChoiceAt, LayoutOk;
    AllNonEmptyPrints(e);
    Layout(NmChoice([one, two]));
    LayoutAll([one, two]);
    WholeProgram(prog);
    CodesOfTwo(one, two);
    ChoiceBlock([one, two], prog, 0, |prog|);
    TwoChoiceAt(Transl(one), Transl(two), prog, 1, |prog|);
    PairParts(one, one, prog, 2, |prog|);
    PrintPlaced(e, prog, 1, 4);
    PrintPlaced(e, prog, 2, 3);
    PrintPlaced(e, prog, 3, 4);
  }

  lemma PrintCode(e: NmExp)
    ensures Transl(NmPrint(e)) == [VNmPrint(e, [1])]
  {
  }

  lemma AllNonEmptyPrints(e: NmExp)
    ensures NonEmpty(NmPrint(e)) && NonEmpty(NmChoice([NmPrint(e), NmSeq([NmPrint(e), NmPrint(e)])]))
    ensures NonEmpty(NmSeq([NmPrint(e), NmPrint(e)]))
  {
    assert NonEmpty(NmSeq([NmPrint(e), NmPrint(e)]));
  }

  lemma PrintPlaced(e: NmExp, prog: seq<VNmStat>, b: int, exit: int)
    requires At(Transl(NmPrint(e)), prog, b, exit)
    ensures 0 <= b < |prog| && prog[b] == VNmPrint(e, [exit])
  {
    AtIndex(Transl(NmPrint(e)), prog, b, exit, 0);
    assert PlaceLabs([1], b, 1, exit) == [exit];
  }

  /** Alternatives of different lengths break the runner: one is finished while the other is not, and the finished
      one is stepped out of the program, although the statement can end. */
  lemma UnevenChoiceBreaks(e: NmExp, st: NmState)
    requires VmEval(e, st).Value?
    ensures var uneven := NmChoice([NmPrint(e), NmSeq([NmPrint(e), NmPrint(e)])]);
            CanEndIn(uneven, st, st) && After(Transl(uneven), VNmConf(0, st), 3).Broken?
  {
    var uneven := NmChoice([NmPrint(e), NmSeq([NmPrint(e), NmPrint(e)])]);
    var prog := [AlwaysTo([1, 2]), VNmPrint(e, [4]), VNmPrint(e, [3]), VNmPrint(e, [4])];
    UnevenCode(e);
    FirstAlternative(e, st);
    hide VmEval, Transl;
    AlwaysHolds(st);
    var c0, c1, c2, c3, c4 := VNmConf(0, st), VNmConf(1, st), VNmConf(2, st), VNmConf(3, st), VNmConf(4, st);
    assert Successors(prog, c0) == {c1, c2} && !VmStep(prog, c0).Failed?;
    assert Successors(prog, c1) == {c4} && !VmStep(prog, c1).Failed?;
    assert Successors(prog, c2) == {c3} && !VmStep(prog, c2).Failed?;
    UnevenRounds(prog, c0, c1, c2, c3, c4);
  }

  lemma UnevenRounds(prog: seq<VNmStat>, c0: VNmConf, c1: VNmConf, c2: VNmConf, c3: VNmConf, c4: VNmConf)
    requires Successors(prog, c0) == {c1, c2} && Successors(prog, c1) == {c4} && Successors(prog, c2) == {c3}
    requires !VmStep(prog, c0).Failed? && !VmStep(prog, c1).Failed? && !VmStep(prog, c2).Failed?
    requires c4.lab == |prog| && c0.lab != |prog| && c1.lab != |prog| && c3.lab != |prog|
    ensures After(prog, c0, 3).Broken?
  {
    hide VmStep, Successors;
    EndFails(prog, c4);
    assert After(prog, c0, 0) == Confs({c0});
    assert AllSuccessors(prog, {c0}) == {c1, c2};
    assert After(prog, c0, 1) == Confs({c1, c2});
    assert AllSuccessors(prog, {c1, c2}) == {c4, c3};
    assert c1 in {c1, c2} && c3 in {c4, c3} && c4 in {c4, c3};
    assert After(prog, c0, 2) == Confs({c4, c3});
  }

  lemma FirstAlternative(e: NmExp, st: NmState)
    requires VmEval(e, st).Value?
    ensures CanEndIn(NmChoice([NmPrint(e), NmSeq([NmPrint(e), NmPrint(e)])]), st, st)
  {
    hide VmEval;
    var ss := [NmPrint(e), NmSeq([NmPrint(e), NmPrint(e)])];
    assert Exec(ss[0], st, [VmEval(e, st).v], st);
    assert Exec(NmChoice(ss), st, [VmEval(e, st).v], st);
  }
}
