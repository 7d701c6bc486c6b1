/** The translator is correct: the machine's runs of translated code are the statement's runs. */
module NemoCorrect {
  import opened NemoAst
  import opened Runs
  import opened NemoVm
  import opened NemoSem
  import opened NemoTransl
  import opened NemoLayout
  import opened NemoPlacement

  // ----- single instructions -----

  /** One step taken on an instruction that has one place to go. */
  lemma StepOn(prog: seq<VNmStat>, b: int, st: NmState, labs: seq<int>, end: NmState, out: seq<NmVal>)
    requires 0 <= b < |prog| && Execute(prog[b], st) == Goto(labs, end, out)
    ensures StepOut(prog, VNmConf(b, st)) == out
    ensures forall d :: CanStep(prog, VNmConf(b, st), d) <==> d.state == end && d.lab in labs
  {
    forall d: VNmConf | d.state == end && d.lab in labs
      ensures CanStep(prog, VNmConf(b, st), d)
    {
      assert VNmConf(d.lab, end) == d;
    }
  }

  lemma JumpStep(prog: seq<VNmStat>, b: int, st: NmState, labs: seq<int>)
    requires 0 <= b < |prog| && prog[b] == AlwaysTo(labs)
    ensures StepOut(prog, VNmConf(b, st)) == []
    ensures forall d :: CanStep(prog, VNmConf(b, st), d) <==> d.state == st && d.lab in labs
  {
    StepOn(prog, b, st, labs, st, []);
  }

  predicate IsAtom(s: NmStat) { s.NmAssign? || s.NmPrint? || s.NmTest? }

  /** The one instruction of an assignment, test or print, placed: its steps are the statement's runs. */
  lemma AtomStep(s: NmStat, prog: seq<VNmStat>, b: int, e: int, st: NmState)
    requires IsAtom(s) && At(Transl(s), prog, b, e)
    ensures |Transl(s)| == 1
    ensures forall d :: CanStep(prog, VNmConf(b, st), d) ==>
              d.lab == e && Exec(s, st, StepOut(prog, VNmConf(b, st)), d.state)
    ensures forall tr, end :: Exec(s, st, tr, end) ==>
              CanStep(prog, VNmConf(b, st), VNmConf(e, end)) && StepOut(prog, VNmConf(b, st)) == tr
  {
    AtIndex(Transl(s), prog, b, e, 0);
    assert PlaceLabs([1], b, 1, e) == [e] && PlaceLabs([], b, 1, e) == [];
    match Execute(prog[b], st)
    case Goto(labs, end, out) => StepOn(prog, b, st, labs, end, out);
    case Dies =>
    case Aborts =>
  }

  // ----- every source run is a machine run -----

  lemma StepRun(prog: seq<VNmStat>, c: VNmConf, d: VNmConf) returns (p: seq<VNmConf>)
    requires CanStep(prog, c, d)
    ensures p == [c, d] && IsRun(Vm(prog), p) && Trace(Vm(prog), p) == StepOut(prog, c)
  {
    hide CanStep, StepOut;
    p := RunOne(Vm(prog), c, d);
  }

  lemma {:induction false} Forward(s: NmStat, prog: seq<VNmStat>, b: int, e: int,
                                   st: NmState, tr: seq<NmVal>, end: NmState) returns (p: seq<VNmConf>)
    requires NonEmpty(s) && At(Transl(s), prog, b, e) && Exec(s, st, tr, end)
    ensures IsRun(Vm(prog), p) && p[0] == VNmConf(b, st) && Last(p) == VNmConf(e, end)
    ensures Trace(Vm(prog), p) == tr
    decreases s, 0, 1
  {
    hide CanStep, StepOut, Transl, At, ExecSeq, ExecTimes;
    match s
    case NmSeq(ss) =>
      LayoutAll(ss);
      SeqBlock(ss, prog, b, e);
      p := ForwardSeq(ss, prog, b, e, st, tr, end);
    case NmChoice(ss) =>
      LayoutAll(ss);
      ChoiceBlock(ss, prog, b, e);
      var i :| 0 <= i < |ss| && Exec(ss[i], st, tr, end);
      var l := ChoiceMember(ss, prog, b + 1, e, i);
      JumpStep(prog, b, st, Starts(Codes(ss), b + 1));
      p := StepRun(prog, VNmConf(b, st), VNmConf(l, st));
      var q := Forward(ss[i], prog, l, e, st, tr, end);
      p := RunJoin(Vm(prog), p, q);
    case NmLoop(body) =>
      Layout(body);
      LoopBlock(body, prog, b, e);
      var n: nat :| ExecTimes(body, n, st, tr, end);
      p := ForwardTimes(body, n, prog, b, e, st, tr, end);
    case _ =>
      AtomStep(s, prog, b, e, st);
      p := StepRun(prog, VNmConf(b, st), VNmConf(e, end));
  }

  lemma {:induction false} ForwardSeq(ss: seq<NmStat>, prog: seq<VNmStat>, b: int, e: int,
                                      st: NmState, tr: seq<NmVal>, end: NmState) returns (p: seq<VNmConf>)
    requires ss != [] && AllNonEmpty(ss) && SeqAt(Codes(ss), prog, b, e) && ExecSeq(ss, st, tr, end)
    ensures IsRun(Vm(prog), p) && p[0] == VNmConf(b, st) && Last(p) == VNmConf(e, end)
    ensures Trace(Vm(prog), p) == tr
    decreases ss, 0, 0
  {
    hide Transl, At, Exec;
    var m, t1, t2 :| Exec(ss[0], st, t1, m) && ExecSeq(ss[1..], m, t2, end) && tr == t1 + t2;
    var cs := Codes(ss);
    assert cs[0] == Transl(ss[0]) && cs[1..] == Codes(ss[1..]);
    if |ss| == 1 {
      p := Forward(ss[0], prog, b, e, st, t1, m);
    } else {
      var mid := b + |cs[0]|;
      p := Forward(ss[0], prog, b, mid, st, t1, m);
      var q := ForwardSeq(ss[1..], prog, mid, e, m, t2, end);
      p := RunJoin(Vm(prog), p, q);
    }
  }

  lemma {:induction false} ForwardTimes(body: NmStat, n: nat, prog: seq<VNmStat>, b: int, e: int,
                                        st: NmState, tr: seq<NmVal>, end: NmState) returns (p: seq<VNmConf>)
    requires NonEmpty(body) && 0 <= b < |prog| && prog[b] == AlwaysTo([b + 1, e])
    requires At(Transl(body), prog, b + 1, b) && ExecTimes(body, n, st, tr, end)
    ensures IsRun(Vm(prog), p) && p[0] == VNmConf(b, st) && Last(p) == VNmConf(e, end)
    ensures Trace(Vm(prog), p) == tr
    decreases body, n + 1, 0
  {
    hide CanStep, StepOut, Transl, At, Exec;
    JumpStep(prog, b, st, [b + 1, e]);
    if n == 0 {
      p := StepRun(prog, VNmConf(b, st), VNmConf(e, st));
    } else {
      var m, t1, t2 :| Exec(body, st, t1, m) && ExecTimes(body, n - 1, m, t2, end) && tr == t1 + t2;
      p := StepRun(prog, VNmConf(b, st), VNmConf(b + 1, st));
      var q := Forward(body, prog, b + 1, b, st, t1, m);
      p := RunJoin(Vm(prog), p, q);
      q := ForwardTimes(body, n - 1, prog, b, e, m, t2, end);
      p := RunJoin(Vm(prog), p, q);
    }
  }

  /** The label at which an alternative stands. */
  lemma {:induction false} ChoiceMember(ss: seq<NmStat>, prog: seq<VNmStat>, b: int, e: int, i: nat) returns (l: int)
    requires i < |ss| && ChoiceAt(Codes(ss), prog, b, e)
    ensures l in Starts(Codes(ss), b) && At(Transl(ss[i]), prog, l, e)
    ensures b <= l && l + |Transl(ss[i])| <= b + Size(Codes(ss))
    decreases i
  {
    hide Transl, At;
    var cs := Codes(ss);
    assert cs[0] == Transl(ss[0]) && cs[1..] == Codes(ss[1..]);
    if i == 0 {
      l := b;
    } else {
      l := ChoiceMember(ss[1..], prog, b + |cs[0]|, e, i - 1);
    }
  }

  // ----- every machine run is a source run -----

  /** A label outside the block of `n` instructions at `b`. */
  predicate Outside(l: int, b: int, n: int) { l < b || b + n <= l }

  /** A run that enters a block at its start and is outside the block at position `hi` has gone through a
      run of the statement: it first left the block at some position `j`, through the exit, and what it did
      until then is a run of the statement. */
  lemma {:induction false} Backward(s: NmStat, prog: seq<VNmStat>, b: int, e: int,
                                    p: seq<VNmConf>, lo: nat, hi: nat) returns (j: nat)
    requires NonEmpty(s) && At(Transl(s), prog, b, e) && Outside(e, b, |Transl(s)|)
    requires IsRun(Vm(prog), p) && lo <= hi < |p| && p[lo].lab == b && Outside(p[hi].lab, b, |Transl(s)|)
    ensures lo < j <= hi && p[j].lab == e
    ensures Exec(s, p[lo].state, Printed(Vm(prog), p, lo, j), p[j].state)
    decreases s, hi - lo, 1
  {
    hide CanStep, StepOut, Transl, At, ExecSeq, ExecTimes, Printed;
    Layout(s);
    match s
    case NmSeq(ss) =>
      LayoutAll(ss);
      SeqBlock(ss, prog, b, e);
      j := BackwardSeq(ss, prog, b, e, p, lo, hi);
    case NmChoice(ss) =>
      LayoutAll(ss);
      ChoiceBlock(ss, prog, b, e);
      var i := ChoiceTaken(ss, prog, b, e, p, lo, hi);
      j := Backward(ss[i], prog, p[lo+1].lab, e, p, lo + 1, hi);
      FirstSilent(prog, b, p, lo, j, Starts(Codes(ss), b + 1));
    case NmLoop(body) =>
      Layout(body);
      LoopBlock(body, prog, b, e);
      var n;
      j, n := BackwardTimes(body, prog, b, e, p, lo, hi);
    case _ =>
      j := lo + 1;
      AtomStep(s, prog, b, e, p[lo].state);
      OneStep(prog, p, lo);
  }

  lemma OneStep(prog: seq<VNmStat>, p: seq<VNmConf>, lo: nat)
    requires IsRun(Vm(prog), p) && lo + 1 < |p|
    ensures CanStep(prog, p[lo], p[lo+1])
    ensures Printed(Vm(prog), p, lo, lo + 1) == StepOut(prog, p[lo])
  {
    hide CanStep, StepOut;
    assert Vm(prog).can(p[lo], p[lo+1]);
    assert Printed(Vm(prog), p, lo, lo) == [];
  }

  /** Leaving an unconditional jump prints nothing and keeps the state. */
  lemma FirstSilent(prog: seq<VNmStat>, b: int, p: seq<VNmConf>, lo: nat, j: nat, labs: seq<int>)
    requires IsRun(Vm(prog), p) && lo < j < |p| && p[lo].lab == b
    requires 0 <= b < |prog| && prog[b] == AlwaysTo(labs)
    ensures p[lo+1].state == p[lo].state && p[lo+1].lab in labs
    ensures Printed(Vm(prog), p, lo, j) == Printed(Vm(prog), p, lo + 1, j)
  {
    hide CanStep, StepOut, Printed;
    assert p[lo] == VNmConf(b, p[lo].state);
    JumpStep(prog, b, p[lo].state, labs);
    OneStep(prog, p, lo);
    PrintedSplit(Vm(prog), p, lo, lo + 1, j);
  }

  lemma PrintedNothing(prog: seq<VNmStat>, p: seq<VNmConf>, i: nat)
    requires i < |p|
    ensures Printed(Vm(prog), p, i, i) == []
  {
  }

  lemma {:induction false} BackwardSeq(ss: seq<NmStat>, prog: seq<VNmStat>, b: int, e: int,
                                       p: seq<VNmConf>, lo: nat, hi: nat) returns (j: nat)
    requires ss != [] && AllNonEmpty(ss) && SeqAt(Codes(ss), prog, b, e) && Outside(e, b, Size(Codes(ss)))
    requires IsRun(Vm(prog), p) && lo <= hi < |p| && p[lo].lab == b && Outside(p[hi].lab, b, Size(Codes(ss)))
    ensures lo < j <= hi && p[j].lab == e
    ensures ExecSeq(ss, p[lo].state, Printed(Vm(prog), p, lo, j), p[j].state)
    decreases ss, hi - lo, 0
  {
    hide Transl, At, Exec, Printed;
    var cs := Codes(ss);
    assert cs[0] == Transl(ss[0]) && cs[1..] == Codes(ss[1..]);
    LayoutAll(ss);
    if |ss| == 1 {
      j := Backward(ss[0], prog, b, e, p, lo, hi);
      assert ExecSeq(ss[1..], p[j].state, [], p[j].state);
      var t := Printed(Vm(prog), p, lo, j);
      assert t == t + [];
    } else {
      var mid := b + |cs[0]|;
      NonEmptySize(cs);
      var k := Backward(ss[0], prog, b, mid, p, lo, hi);
      j := BackwardSeq(ss[1..], prog, mid, e, p, k, hi);
      PrintedSplit(Vm(prog), p, lo, k, j);
    }
  }

  lemma ChoiceTaken(ss: seq<NmStat>, prog: seq<VNmStat>, b: int, e: int,
                    p: seq<VNmConf>, lo: nat, hi: nat) returns (i: nat)
    requires ss != [] && AllLayoutOk(Codes(ss)) && ChoiceAt(Codes(ss), prog, b + 1, e)
    requires 0 <= b < |prog| && prog[b] == AlwaysTo(Starts(Codes(ss), b + 1))
    requires Outside(e, b, 1 + Size(Codes(ss)))
    requires IsRun(Vm(prog), p) && lo <= hi < |p| && p[lo].lab == b && Outside(p[hi].lab, b, 1 + Size(Codes(ss)))
    ensures lo < hi && i < |ss| && At(Transl(ss[i]), prog, p[lo+1].lab, e)
    ensures Outside(e, p[lo+1].lab, |Transl(ss[i])|) && Outside(p[hi].lab, p[lo+1].lab, |Transl(ss[i])|)
  {
    hide Transl, At;
    FirstSilent(prog, b, p, lo, lo + 1, Starts(Codes(ss), b + 1));
    i := MemberAt(ss, prog, b + 1, e, p[lo+1].lab);
  }

  /** Every start label is where some alternative stands. */
  lemma {:induction false} MemberAt(ss: seq<NmStat>, prog: seq<VNmStat>, b: int, e: int, l: int) returns (i: nat)
    requires ChoiceAt(Codes(ss), prog, b, e) && l in Starts(Codes(ss), b)
    ensures i < |ss| && At(Transl(ss[i]), prog, l, e)
    ensures b <= l && l + |Transl(ss[i])| <= b + Size(Codes(ss))
    decreases ss
  {
    hide Transl, At;
    var cs := Codes(ss);
    assert cs[0] == Transl(ss[0]) && cs[1..] == Codes(ss[1..]);
    if l == b {
      i := 0;
    } else {
      i := MemberAt(ss[1..], prog, b + |cs[0]|, e, l);
      i := i + 1;
    }
  }

  lemma {:induction false} BackwardTimes(body: NmStat, prog: seq<VNmStat>, b: int, e: int,
                                         p: seq<VNmConf>, lo: nat, hi: nat) returns (j: nat, n: nat)
    requires NonEmpty(body) && 0 <= b < |prog| && prog[b] == AlwaysTo([b + 1, e])
    requires At(Transl(body), prog, b + 1, b) && Outside(e, b, 1 + |Transl(body)|)
    requires IsRun(Vm(prog), p) && lo <= hi < |p| && p[lo].lab == b
    requires Outside(p[hi].lab, b, 1 + |Transl(body)|)
    ensures lo < j <= hi && p[j].lab == e
    ensures ExecTimes(body, n, p[lo].state, Printed(Vm(prog), p, lo, j), p[j].state)
    decreases body, hi - lo, 2
  {
    hide Transl, At, Exec, CanStep, StepOut, Printed;
    FirstSilent(prog, b, p, lo, lo + 1, [b + 1, e]);
    PrintedNothing(prog, p, lo + 1);
    if p[lo+1].lab == e {
      j, n := lo + 1, 0;
    } else {
      var k := Backward(body, prog, b + 1, b, p, lo + 1, hi);
      j, n := BackwardTimes(body, prog, b, e, p, k, hi);
      n := n + 1;
      FirstSilent(prog, b, p, lo, k, [b + 1, e]);
      PrintedSplit(Vm(prog), p, lo, k, j);
    }
  }

  // ----- the correctness theorem -----

  ghost predicate MachineRun(prog: seq<VNmStat>, st: NmState, tr: seq<NmVal>, end: NmState) {
    exists p :: IsMachineRun(prog, p, st, tr, end)
  }

  /** A run of the machine from label 0 to the end of the program. */
  ghost predicate IsMachineRun(prog: seq<VNmStat>, p: seq<VNmConf>, st: NmState, tr: seq<NmVal>, end: NmState) {
    && IsRun(Vm(prog), p) && p[0] == VNmConf(0, st) && Last(p) == VNmConf(|prog|, end)
    && Trace(Vm(prog), p) == tr
  }

  lemma ForwardCorrect(s: NmStat, st: NmState, tr: seq<NmVal>, end: NmState)
    requires NonEmpty(s) && Exec(s, st, tr, end)
    ensures MachineRun(Transl(s), st, tr, end)
  {
    Layout(s);
    var prog := Transl(s);
    WholeProgram(prog);
    var p := Forward(s, prog, 0, |prog|, st, tr, end);
    assert IsMachineRun(prog, p, st, tr, end);
  }

  lemma BackwardCorrect(s: NmStat, st: NmState, tr: seq<NmVal>, end: NmState)
    requires NonEmpty(s) && MachineRun(Transl(s), st, tr, end)
    ensures Exec(s, st, tr, end)
  {
    hide CanStep, StepOut, Exec, Transl, Printed;
    Layout(s);
    var prog := Transl(s);
    WholeProgram(prog);
    var p :| IsMachineRun(prog, p, st, tr, end);
    var j := Backward(s, prog, 0, |prog|, p, 0, |p| - 1);
    if j < |p| - 1 {
      OneStep(prog, p, j);
      NoStepAtEnd(prog, p[j], p[j+1]);
    }
  }

  lemma NoStepAtEnd(prog: seq<VNmStat>, c: VNmConf, d: VNmConf)
    requires c.lab == |prog|
    ensures !CanStep(prog, c, d)
  {
  }

  /** The translator preserves meaning: a statement runs from one state to another printing `tr` exactly when
      the machine, started at label 0 of its code, can reach the end of the code with that state, printing `tr`. */
  lemma TranslatorCorrect(s: NmStat, st: NmState, tr: seq<NmVal>, end: NmState)
    requires NonEmpty(s)
    ensures Exec(s, st, tr, end) <==> MachineRun(Transl(s), st, tr, end)
  {
    hide Exec, MachineRun;
    if Exec(s, st, tr, end) {
      ForwardCorrect(s, st, tr, end);
    }
    if MachineRun(Transl(s), st, tr, end) {
      BackwardCorrect(s, st, tr, end);
    }
  }
}
