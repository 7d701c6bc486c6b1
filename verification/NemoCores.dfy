/** Translation moves labels around and nothing else: apart from labels, the instructions of a translated statement
    are its own assignments, prints and tests, and unconditional jumps. */
module NemoCores {
  import opened NemoAst
  import opened NemoTransl

  /** An instruction without its labels. */
  function Strip(i: VNmStat): VNmStat {
    match i
    case VNmAssign(x, e, _) => VNmAssign(x, e, [])
    case VNmIf(c, l, r, _, _) => VNmIf(c, l, r, [], [])
    case VNmPrint(e, _) => VNmPrint(e, [])
  }

  /** `p` holds of everything a statement is made of, and of the jump if the statement has choices or loops. */
  ghost predicate StatCores(s: NmStat, p: VNmStat -> bool)
    decreases s
  {
    match s
    case NmAssign(x, e) => p(VNmAssign(x, e, []))
    case NmPrint(e) => p(VNmPrint(e, []))
    case NmTest(c, l, r) => p(VNmIf(c, l, r, [], []))
    case NmSeq(ss) => AllStatCores(ss, p)
    case NmChoice(ss) => p(AlwaysTo([])) && AllStatCores(ss, p)
    case NmLoop(b) => p(AlwaysTo([])) && StatCores(b, p)
  }

  ghost predicate AllStatCores(ss: seq<NmStat>, p: VNmStat -> bool)
    decreases ss
  {
    ss == [] || (StatCores(ss[0], p) && AllStatCores(ss[1..], p))
  }

  ghost predicate CodeCores(code: seq<VNmStat>, p: VNmStat -> bool) {
    forall i :: 0 <= i < |code| ==> p(Strip(code[i]))
  }

  ghost predicate BlockCores(blocks: seq<seq<VNmStat>>, p: VNmStat -> bool) {
    forall i :: 0 <= i < |blocks| ==> CodeCores(blocks[i], p)
  }

  lemma {:induction false} AddKeeps(code: seq<VNmStat>, n: int, p: VNmStat -> bool)
    requires CodeCores(code, p)
    ensures CodeCores(AddVmLabel(code, n), p)
  {
    if code != [] {
      AddKeeps(code[1..], n, p);
      assert Strip(AddStat(code[0], n)) == Strip(code[0]);
    }
  }

  lemma {:induction false} ReplaceKeeps(code: seq<VNmStat>, n: int, m: int, p: VNmStat -> bool)
    requires CodeCores(code, p)
    ensures CodeCores(ReplaceVmLabel(code, n, m), p)
  {
    if code != [] {
      ReplaceKeeps(code[1..], n, m, p);
      assert Strip(ReplaceStat(code[0], n, m)) == Strip(code[0]);
    }
  }

  lemma {:induction false} ConcatKeeps(blocks: seq<seq<VNmStat>>, p: VNmStat -> bool)
    requires BlockCores(blocks, p)
    ensures CodeCores(ConcatA(blocks), p)
  {
    if blocks != [] {
      ConcatKeeps(blocks[1..], p);
      assert CodeCores(blocks[0], p);
    }
  }

  lemma {:induction false} CloseKeeps(blocks: seq<seq<VNmStat>>, ends: seq<int>, exit: int, p: VNmStat -> bool)
    requires BlockCores(blocks, p) && |ends| == |blocks|
    ensures CodeCores(CloseChoice(blocks, ends, exit), p)
  {
    if blocks != [] {
      CloseKeeps(blocks[1..], ends[1..], exit, p);
      assert CodeCores(blocks[0], p);
      ReplaceKeeps(blocks[0], ends[0], exit, p);
    }
  }

  /** What holds of the parts of a statement holds of its code. */
  lemma {:induction false} TranslKeeps(s: NmStat, p: VNmStat -> bool)
    requires StatCores(s, p)
    ensures CodeCores(Transl(s), p)
    decreases s, 1
  {
    match s
    case NmSeq(ss) =>
      FoldSeqKeeps(ss, VNmSeqAcc([], 0), p);
      ConcatKeeps(FoldSeq(ss, VNmSeqAcc([], 0)).stats, p);
    case NmChoice(ss) =>
      var acc := VNmChoiceAcc([], [], [], 1);
      FoldChoiceKeeps(ss, acc, p);
      var r := FoldChoice(ss, acc);
      CloseKeeps(r.stats, r.ends, r.maxLab, p);
    case NmLoop(b) =>
      TranslKeeps(b, p);
      AddKeeps(Transl(b), 1, p);
      var vs := AddVmLabel(Transl(b), 1);
      ReplaceKeeps(vs, MaxVmLabel(vs), 0, p);
    case _ =>
  }

  lemma {:induction false} FoldSeqKeeps(ss: seq<NmStat>, acc: VNmSeqAcc, p: VNmStat -> bool)
    requires AllStatCores(ss, p) && BlockCores(acc.stats, p)
    ensures BlockCores(FoldSeq(ss, acc).stats, p)
    decreases ss, 0
  {
    hide CodeCores;
    if ss != [] {
      TranslKeeps(ss[0], p);
      var vs := Transl(ss[0]);
      AddKeeps(vs, acc.maxLab, p);
      FoldSeqKeeps(ss[1..], VNmSeqAcc(acc.stats + [AddVmLabel(vs, acc.maxLab)], acc.maxLab + MaxVmLabel(vs)), p);
    }
  }

  lemma {:induction false} FoldChoiceKeeps(ss: seq<NmStat>, acc: VNmChoiceAcc, p: VNmStat -> bool)
    requires AllStatCores(ss, p) && BlockCores(acc.stats, p) && |acc.ends| == |acc.stats|
    ensures BlockCores(FoldChoice(ss, acc).stats, p)
    decreases ss, 0
  {
    hide CodeCores;
    if ss != [] {
      TranslKeeps(ss[0], p);
      var vs := Transl(ss[0]);
      var end := acc.maxLab + MaxVmLabel(vs);
      AddKeeps(vs, acc.maxLab, p);
      FoldChoiceKeeps(ss[1..], VNmChoiceAcc(acc.stats + [AddVmLabel(vs, acc.maxLab)],
                                            acc.starts + [acc.maxLab], acc.ends + [end], end), p);
    }
  }
}
