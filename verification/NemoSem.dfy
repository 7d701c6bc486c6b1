/** What Nemo statements mean: the regular-program reading. A run of a statement leads from one state
    to another and prints something; a test filters, a sequence composes, a choice is a union and a
    loop is any finite number of repetitions. Expressions mean what the machine computes for them. */
module NemoSem {
  import opened NemoAst
  import opened NemoVm

  ghost predicate Exec(s: NmStat, st: NmState, tr: seq<NmVal>, end: NmState)
    decreases s, 0
  {
    match s
    case NmAssign(x, e) => VmEval(e, st).Value? && tr == [] && end == st[x := VmEval(e, st).v]
    case NmPrint(e) => VmEval(e, st).Value? && tr == [VmEval(e, st).v] && end == st
    case NmTest(c, l, r) => VmEvalCond(c, l, r, st) == Value(true) && tr == [] && end == st
    case NmSeq(ss) => ExecSeq(ss, st, tr, end)
    case NmChoice(ss) => exists i :: 0 <= i < |ss| && Exec(ss[i], st, tr, end)
    case NmLoop(b) => exists n: nat :: ExecTimes(b, n, st, tr, end)
  }

  ghost predicate ExecSeq(ss: seq<NmStat>, st: NmState, tr: seq<NmVal>, end: NmState)
    decreases ss, 0
  {
    if ss == [] then tr == [] && end == st
    else exists m, t1, t2 :: Exec(ss[0], st, t1, m) && ExecSeq(ss[1..], m, t2, end) && tr == t1 + t2
  }

  /** `n` runs of `b` in a row. */
  ghost predicate ExecTimes(b: NmStat, n: nat, st: NmState, tr: seq<NmVal>, end: NmState)
    decreases b, n + 1
  {
    if n == 0 then tr == [] && end == st
    else exists m, t1, t2 :: Exec(b, st, t1, m) && ExecTimes(b, n - 1, m, t2, end) && tr == t1 + t2
  }
}
