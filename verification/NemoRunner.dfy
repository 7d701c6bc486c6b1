/** The runner: it keeps the set of all current configurations, and steps them all in every round. */
module NemoRunner {
  import opened NemoAst
  import opened Runs
  import opened NemoVm
  import opened NemoSem
  import opened NemoTransl
  import opened NemoLayout
  import opened NemoCorrect

  datatype Frontier = Confs(confs: set<VNmConf>) | Broken

  function MakeDefaultValue(ty: NmType): NmVal {
    match ty
    case NmIntType => NmValInt(0)
    case NmArrType(_) => NmValArr([])
  }

  /** A declared variable without an initial value gets the default of its declared type; the first declaration counts. */
  function StartState(decls: seq<NmDecl>, vars: NmState): NmState {
    if decls == [] then vars
    else
      var d := decls[0];
      StartState(decls[1..], if d.name in vars then vars else vars[d.name := MakeDefaultValue(d.ty)])
  }

  /** Some configuration is not at the end of the program. */
  predicate Unfinished(prog: seq<VNmStat>, confs: set<VNmConf>) {
    exists c :: c in confs && c.lab != |prog|
  }

  predicate SomeFails(prog: seq<VNmStat>, confs: set<VNmConf>) {
    exists c :: c in confs && VmStep(prog, c).Failed?
  }

  function Successors(prog: seq<VNmStat>, c: VNmConf): set<VNmConf> {
    var s := VmStep(prog, c);
    if s.Next? then s.confs else {}
  }

  function AllSuccessors(prog: seq<VNmStat>, confs: set<VNmConf>): set<VNmConf> {
    set c, d | c in confs && d in Successors(prog, c) :: d
  }

  /** One round. Finished configurations are stepped too, and that leaves the program. */
  function Round(prog: seq<VNmStat>, confs: set<VNmConf>): Frontier {
    if SomeFails(prog, confs) then Broken else Confs(AllSuccessors(prog, confs))
  }

  /** The frontier before round `k`; once nothing is unfinished the runner stops and the frontier stays. */
  function After(prog: seq<VNmStat>, start: VNmConf, k: nat): Frontier {
    if k == 0 then Confs({start})
    else
      var f := After(prog, start, k - 1);
      if f.Broken? || !Unfinished(prog, f.confs) then f else Round(prog, f.confs)
  }

  /** The runner has stopped by itself, no later than before round `k`. */
  predicate Stopped(prog: seq<VNmStat>, start: VNmConf, k: nat) {
    var f := After(prog, start, k);
    f.Confs? && !Unfinished(prog, f.confs)
  }

  /** The runner is still going before round `k`. */
  predicate Going(prog: seq<VNmStat>, start: VNmConf, k: nat) {
    var f := After(prog, start, k);
    f.Confs? && Unfinished(prog, f.confs)
  }

  // ----- the frontier holds exactly what single runs reach -----

  ghost predicate RunOfLength(prog: seq<VNmStat>, p: seq<VNmConf>, start: VNmConf, k: nat, c: VNmConf) {
    IsRun(Vm(prog), p) && |p| == k + 1 && p[0] == start && Last(p) == c
  }

  ghost predicate Reaches(prog: seq<VNmStat>, start: VNmConf, k: nat, c: VNmConf) {
    exists p :: RunOfLength(prog, p, start, k, c)
  }

  lemma ReachesZero(prog: seq<VNmStat>, start: VNmConf, c: VNmConf)
    ensures Reaches(prog, start, 0, c) <==> c == start
  {
    if c == start {
      assert RunOfLength(prog, [c], start, 0, c);
    }
  }

  lemma ReachesNext(prog: seq<VNmStat>, start: VNmConf, k: nat, c: VNmConf)
    ensures Reaches(prog, start, k + 1, c) <==> exists m :: Reaches(prog, start, k, m) && CanStep(prog, m, c)
  {
    hide CanStep, StepOut;
    if Reaches(prog, start, k + 1, c) {
      var p :| RunOfLength(prog, p, start, k + 1, c);
      var q := p[..k+1];
      OneStep(prog, p, k);
      assert forall i :: 0 <= i < k ==> Vm(prog).can(p[i], p[i+1]);
      assert RunOfLength(prog, q, start, k, p[k]);
    }
    if m :| Reaches(prog, start, k, m) && CanStep(prog, m, c) {
      var p :| RunOfLength(prog, p, start, k, m);
      var r := RunJoin(Vm(prog), p, [m, c]);
      assert RunOfLength(prog, r, start, k + 1, c);
    }
  }

  lemma InSuccessors(prog: seq<VNmStat>, c: VNmConf, d: VNmConf)
    ensures d in Successors(prog, c) <==> CanStep(prog, c, d)
  {
  }

  /** Frontier exactness: while the runner goes on, its set is exactly what single runs of that length reach. */
  lemma {:induction false} FrontierExact(prog: seq<VNmStat>, start: VNmConf, k: nat)
    requires forall j: nat :: j < k ==> Going(prog, start, j)
    requires After(prog, start, k).Confs?
    ensures forall c :: c in After(prog, start, k).confs <==> Reaches(prog, start, k, c)
  {
    hide CanStep, Reaches, VmStep, SomeFails, Unfinished, Successors;
    if k == 0 {
      forall c ensures c in After(prog, start, 0).confs <==> Reaches(prog, start, 0, c) {
        ReachesZero(prog, start, c);
      }
    } else {
      FrontierExact(prog, start, k - 1);
      assert Going(prog, start, k - 1);
      var now, next := After(prog, start, k - 1).confs, After(prog, start, k).confs;
      assert next == AllSuccessors(prog, now);
      forall c ensures c in next <==> Reaches(prog, start, k, c) {
        ReachesNext(prog, start, k - 1, c);
        forall m ensures c in Successors(prog, m) <==> CanStep(prog, m, c) { InSuccessors(prog, m, c); }
      }
    }
  }

  /** A frontier that is still unfinished breaks in its round exactly when it also holds a finished configuration,
      or one whose evaluation aborts, or one with a label that is not in the program at all. */
  lemma RoundBreaksExactly(prog: seq<VNmStat>, confs: set<VNmConf>)
    ensures Round(prog, confs).Broken?
            <==> exists c :: c in confs && (!(0 <= c.lab < |prog|) || Execute(prog[c.lab], c.state).Aborts?)
  {
  }

  // ----- a runner that stops has found everything -----

  lemma {:induction false} StopIsLast(prog: seq<VNmStat>, start: VNmConf, k: nat, j: nat)
    requires Stopped(prog, start, k) && k <= j
    ensures After(prog, start, j) == After(prog, start, k)
    decreases j
  {
    if k < j {
      StopIsLast(prog, start, k, j - 1);
    }
  }

  lemma {:induction false} GoingBefore(prog: seq<VNmStat>, start: VNmConf, k: nat)
    requires Going(prog, start, k)
    ensures forall j: nat :: j <= k ==> Going(prog, start, j)
  {
    hide Unfinished, Round;
    if k > 0 {
      GoingBefore(prog, start, k - 1);
    }
  }

  /** The round before which the runner first had nothing unfinished. */
  lemma {:induction false} FirstStop(prog: seq<VNmStat>, start: VNmConf, k: nat) returns (n: nat)
    requires Stopped(prog, start, k)
    ensures n <= k && Stopped(prog, start, n) && After(prog, start, n) == After(prog, start, k)
    ensures forall j: nat :: j < n ==> Going(prog, start, j)
  {
    hide Unfinished, Round;
    if k == 0 {
      n := 0;
    } else if Stopped(prog, start, k - 1) {
      n := FirstStop(prog, start, k - 1);
    } else {
      n := k;
      GoingBefore(prog, start, k - 1);
    }
  }

  /** When the runner stops after `n` rounds, every complete run has exactly `n` steps. */
  lemma CompleteRunsTakeAllRounds(prog: seq<VNmStat>, start: VNmConf, n: nat, k: nat, c: VNmConf)
    requires Stopped(prog, start, n) && forall j: nat :: j < n ==> Going(prog, start, j)
    requires Reaches(prog, start, k, c) && c.lab == |prog|
    ensures k == n
  {
    hide CanStep, Reaches, VmStep, Successors;
    if k < n {
      NoBreakBeforeStop(prog, start, n, k);
      FrontierExact(prog, start, k);
      EndFails(prog, c);
    }
    if k > n {
      FrontierExact(prog, start, n);
      var m := RunThrough(prog, start, k, c, n);
      assert m.0.lab == |prog| by { assert m.0 in After(prog, start, n).confs; }
      NoStepAtEnd(prog, m.0, m.1);
    }
  }

  lemma NoBreakBeforeStop(prog: seq<VNmStat>, start: VNmConf, n: nat, k: nat)
    requires Stopped(prog, start, n) && (forall j: nat :: j < n ==> Going(prog, start, j)) && k < n
    ensures After(prog, start, k).Confs? && !SomeFails(prog, After(prog, start, k).confs)
  {
    hide Unfinished, SomeFails;
    assert Going(prog, start, k);
    assert k + 1 < n ==> Going(prog, start, k + 1);
    assert After(prog, start, k + 1).Confs?;
  }

  lemma EndFails(prog: seq<VNmStat>, c: VNmConf)
    requires c.lab == |prog|
    ensures VmStep(prog, c).Failed?
  {
  }

  /** What a run of `k` steps goes through at step `n < k`, with the step it takes there. */
  lemma RunThrough(prog: seq<VNmStat>, start: VNmConf, k: nat, c: VNmConf, n: nat) returns (m: (VNmConf, VNmConf))
    requires Reaches(prog, start, k, c) && n < k
    ensures Reaches(prog, start, n, m.0) && CanStep(prog, m.0, m.1)
  {
    hide CanStep, StepOut;
    var p :| RunOfLength(prog, p, start, k, c);
    m := (p[n], p[n+1]);
    OneStep(prog, p, n);
    assert forall i :: 0 <= i < n ==> Vm(prog).can(p[i], p[i+1]);
    assert RunOfLength(prog, p[..n+1], start, n, p[n]);
  }

  ghost predicate CanEndIn(s: NmStat, st: NmState, end: NmState) {
    exists tr :: Exec(s, st, tr, end)
  }

  /** When the runner of a translated statement stops, the states it holds are exactly the states in which
      the statement can end. */
  lemma RunnerComplete(s: NmStat, st: NmState, k: nat)
    requires NonEmpty(s)
    requires Stopped(Transl(s), VNmConf(0, st), k)
    ensures forall end :: VNmConf(|Transl(s)|, end) in After(Transl(s), VNmConf(0, st), k).confs <==> CanEndIn(s, st, end)
    ensures forall c :: c in After(Transl(s), VNmConf(0, st), k).confs ==> c.lab == |Transl(s)|
  {
    hide CanStep, Exec, Transl, VmStep, Successors, Reaches, After;
    var prog, start := Transl(s), VNmConf(0, st);
    var n := FirstStop(prog, start, k);
    FrontierExact(prog, start, n);
    forall end
      ensures VNmConf(|prog|, end) in After(prog, start, n).confs <==> CanEndIn(s, st, end)
    {
      var c := VNmConf(|prog|, end);
      if Reaches(prog, start, n, c) {
        ReachedEndIsRun(s, st, n, end);
      }
      if CanEndIn(s, st, end) {
        var j := RunReachesEnd(s, st, end);
        CompleteRunsTakeAllRounds(prog, start, n, j, c);
      }
    }
  }

  lemma ReachedEndIsRun(s: NmStat, st: NmState, k: nat, end: NmState)
    requires NonEmpty(s) && Reaches(Transl(s), VNmConf(0, st), k, VNmConf(|Transl(s)|, end))
    ensures CanEndIn(s, st, end)
  {
    hide CanStep, Exec, Transl;
    var prog := Transl(s);
    var p :| RunOfLength(prog, p, VNmConf(0, st), k, VNmConf(|prog|, end));
    var tr := Trace(Vm(prog), p);
    assert IsMachineRun(prog, p, st, tr, end);
    TranslatorCorrect(s, st, tr, end);
  }

  lemma RunReachesEnd(s: NmStat, st: NmState, end: NmState) returns (k: nat)
    requires NonEmpty(s) && CanEndIn(s, st, end)
    ensures Reaches(Transl(s), VNmConf(0, st), k, VNmConf(|Transl(s)|, end))
  {
    hide CanStep, Exec, Transl;
    var prog := Transl(s);
    var tr :| Exec(s, st, tr, end);
    TranslatorCorrect(s, st, tr, end);
    var p :| IsMachineRun(prog, p, st, tr, end);
    k := |p| - 1;
    assert RunOfLength(prog, p, VNmConf(0, st), k, VNmConf(|prog|, end));
  }

  // ----- when the runner stops -----

  /** Stepping this configuration stops the whole machine; that is so for a finished one as well. */
  predicate Breaks(prog: seq<VNmStat>, c: VNmConf) {
    !(0 <= c.lab < |prog|) || Execute(prog[c.lab], c.state).Aborts?
  }

  lemma BreaksIs(prog: seq<VNmStat>, c: VNmConf)
    ensures VmStep(prog, c).Failed? <==> Breaks(prog, c)
  {
    hide Execute;
  }

  /** All runs of `n` steps are complete, and no shorter run is complete or about to abort. */
  ghost predicate AllEndAfter(prog: seq<VNmStat>, start: VNmConf, n: nat) {
    && (forall k: nat, c :: k < n && Reaches(prog, start, k, c) ==> !Breaks(prog, c))
    && (forall c :: Reaches(prog, start, n, c) ==> c.lab == |prog|)
  }

  lemma StopEndsAll(prog: seq<VNmStat>, start: VNmConf, k: nat) returns (n: nat)
    requires Stopped(prog, start, k)
    ensures AllEndAfter(prog, start, n)
  {
    hide Reaches, VmStep, Breaks;
    n := FirstStop(prog, start, k);
    FrontierExact(prog, start, n);
    forall j: nat, c | j < n && Reaches(prog, start, j, c) ensures !Breaks(prog, c) {
      NoBreakBeforeStop(prog, start, n, j);
      FrontierExact(prog, start, j);
      BreaksIs(prog, c);
    }
  }

  /** Until all runs have ended together, the runner goes on or has stopped. */
  lemma {:induction false} UntilAllEnd(prog: seq<VNmStat>, start: VNmConf, n: nat, k: nat)
    requires AllEndAfter(prog, start, n) && k <= n
    ensures Stopped(prog, start, k) || (After(prog, start, k).Confs? && forall j: nat :: j < k ==> Going(prog, start, j))
  {
    hide Reaches, VmStep, Breaks, Unfinished, AllSuccessors;
    if k > 0 {
      UntilAllEnd(prog, start, n, k - 1);
      if !Stopped(prog, start, k - 1) {
        FrontierExact(prog, start, k - 1);
        var confs := After(prog, start, k - 1).confs;
        forall c | c in confs ensures !VmStep(prog, c).Failed? {
          BreaksIs(prog, c);
        }
      }
    }
  }

  /** The runner stops by itself exactly when there is a number of steps after which all runs are complete, and before which
      none is complete or about to abort. */
  lemma RunnerStopsExactly(prog: seq<VNmStat>, start: VNmConf)
    ensures (exists k: nat :: Stopped(prog, start, k)) <==> (exists n: nat :: AllEndAfter(prog, start, n))
  {
    hide Reaches, AllEndAfter, Unfinished;
    if k: nat :| Stopped(prog, start, k) {
      var n := StopEndsAll(prog, start, k);
    }
    if n: nat :| AllEndAfter(prog, start, n) {
      UntilAllEnd(prog, start, n, n);
      if !Stopped(prog, start, n) {
        FrontierExact(prog, start, n);
        AllFinished(prog, start, n);
      }
    }
  }

  lemma AllFinished(prog: seq<VNmStat>, start: VNmConf, n: nat)
    requires AllEndAfter(prog, start, n) && After(prog, start, n).Confs?
    requires forall c :: c in After(prog, start, n).confs <==> Reaches(prog, start, n, c)
    ensures Stopped(prog, start, n)
  {
    hide Reaches, After;
  }

  // ----- labels stay in the program -----

  lemma StepInRange(prog: seq<VNmStat>, c: VNmConf, d: VNmConf)
    requires LayoutOk(prog) && CanStep(prog, c, d)
    ensures 0 <= c.lab < |prog| && 0 <= d.lab <= |prog|
    ensures Execute(prog[c.lab], c.state).Goto? && Execute(prog[c.lab], c.state).state == d.state
  {
    hide LabSet;
    LabSetAt(prog, c.lab);
    assert d.lab in Labs(prog[c.lab]);
  }

  /** Every reachable label is in the program or its end. */
  lemma {:induction false} LabelsInRange(prog: seq<VNmStat>, start: VNmConf, k: nat, c: VNmConf)
    requires LayoutOk(prog) && 0 <= start.lab <= |prog| && Reaches(prog, start, k, c)
    ensures 0 <= c.lab <= |prog|
  {
    hide CanStep, Reaches, LayoutOk;
    if k == 0 {
      ReachesZero(prog, start, c);
    } else {
      ReachesNext(prog, start, k - 1, c);
      var m :| Reaches(prog, start, k - 1, m) && CanStep(prog, m, c);
      StepInRange(prog, m, c);
    }
  }

  /** The runner breaks after `k` rounds exactly when, with some run of `k` steps still unfinished, another run of
      `k` steps is already complete or is about to evaluate something that aborts. */
  lemma RunnerBreaksExactly(s: NmStat, st: NmState, k: nat)
    requires NonEmpty(s) && Going(Transl(s), VNmConf(0, st), k)
    ensures var prog := Transl(s);
            After(prog, VNmConf(0, st), k + 1).Broken?
            <==> exists c :: Reaches(prog, VNmConf(0, st), k, c)
                             && (c.lab == |prog|
                                 || (0 <= c.lab < |prog| && Execute(prog[c.lab], c.state).Aborts?))
  {
    hide Transl, Reaches, Execute, LayoutOk;
    var prog, start := Transl(s), VNmConf(0, st);
    Layout(s);
    GoingBefore(prog, start, k);
    FrontierExact(prog, start, k);
    var confs := After(prog, start, k).confs;
    RoundBreaksExactly(prog, confs);
    forall c | c in confs ensures 0 <= c.lab <= |prog| {
      LabelsInRange(prog, start, k, c);
    }
  }
}
