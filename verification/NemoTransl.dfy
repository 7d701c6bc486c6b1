/** The translator from Nemo statements to flat labelled code. */
module NemoTransl {
  import opened NemoAst

  function Max(a: int, b: int): int { if a < b then b else a }

  function MaxLab(labs: seq<int>, acc: int): int {
    if labs == [] then acc else MaxLab(labs[1..], Max(acc, labs[0]))
  }

  function MaxStat(s: VNmStat): int {
    match s
    case VNmAssign(_, _, goto) => MaxLab(goto, -1)
    case VNmIf(_, _, _, pos, neg) => Max(MaxLab(pos, -1), MaxLab(neg, -1))
    case VNmPrint(_, goto) => MaxLab(goto, -1)
  }

  function MaxVmLabelFrom(ss: seq<VNmStat>, acc: int): int {
    if ss == [] then acc else MaxVmLabelFrom(ss[1..], Max(acc, MaxStat(ss[0])))
  }

  function MaxVmLabel(ss: seq<VNmStat>): int { MaxVmLabelFrom(ss, -1) }

  function AddLab(labs: seq<int>, n: int): seq<int> {
    if labs == [] then [] else [labs[0] + n] + AddLab(labs[1..], n)
  }

  function AddStat(s: VNmStat, n: int): VNmStat {
    match s
    case VNmAssign(x, e, goto) => VNmAssign(x, e, AddLab(goto, n))
    case VNmIf(c, l, r, pos, neg) => VNmIf(c, l, r, AddLab(pos, n), AddLab(neg, n))
    case VNmPrint(e, goto) => VNmPrint(e, AddLab(goto, n))
  }

  function AddVmLabel(ss: seq<VNmStat>, n: int): seq<VNmStat> {
    if ss == [] then [] else [AddStat(ss[0], n)] + AddVmLabel(ss[1..], n)
  }

  function ReplaceLab(labs: seq<int>, n: int, m: int): seq<int> {
    if labs == [] then [] else [if labs[0] == n then m else labs[0]] + ReplaceLab(labs[1..], n, m)
  }

  function ReplaceStat(s: VNmStat, n: int, m: int): VNmStat {
    match s
    case VNmAssign(x, e, goto) => VNmAssign(x, e, ReplaceLab(goto, n, m))
    case VNmIf(c, l, r, pos, neg) => VNmIf(c, l, r, ReplaceLab(pos, n, m), ReplaceLab(neg, n, m))
    case VNmPrint(e, goto) => VNmPrint(e, ReplaceLab(goto, n, m))
  }

  function ReplaceVmLabel(ss: seq<VNmStat>, n: int, m: int): seq<VNmStat> {
    if ss == [] then [] else [ReplaceStat(ss[0], n, m)] + ReplaceVmLabel(ss[1..], n, m)
  }

  function ConcatA(blocks: seq<seq<VNmStat>>): seq<VNmStat> {
    if blocks == [] then [] else blocks[0] + ConcatA(blocks[1..])
  }

  datatype VNmSeqAcc = VNmSeqAcc(stats: seq<seq<VNmStat>>, maxLab: int)

  datatype VNmChoiceAcc = VNmChoiceAcc(stats: seq<seq<VNmStat>>, starts: seq<int>, ends: seq<int>, maxLab: int)

  function AlwaysTo(labs: seq<int>): VNmStat {
    VNmIf("==", NmInt(0), NmInt(0), labs, [])
  }

  function FoldSeq(ss: seq<NmStat>, acc: VNmSeqAcc): VNmSeqAcc
    decreases ss
  {
    if ss == [] then acc
    else
      var vs := Transl(ss[0]);
      FoldSeq(ss[1..], VNmSeqAcc(acc.stats + [AddVmLabel(vs, acc.maxLab)], acc.maxLab + MaxVmLabel(vs)))
  }

  function FoldChoice(ss: seq<NmStat>, acc: VNmChoiceAcc): (r: VNmChoiceAcc)
    requires |acc.ends| == |acc.stats|
    ensures |r.ends| == |r.stats|
    decreases ss
  {
    if ss == [] then acc
    else
      var vs := Transl(ss[0]);
      var end := acc.maxLab + MaxVmLabel(vs);
      FoldChoice(ss[1..], VNmChoiceAcc(acc.stats + [AddVmLabel(vs, acc.maxLab)],
                                       acc.starts + [acc.maxLab], acc.ends + [end], end))
  }

  /** The alternatives one after the other, each with its own exit redirected to `exit`. */
  function CloseChoice(stats: seq<seq<VNmStat>>, ends: seq<int>, exit: int): seq<VNmStat>
    requires |stats| == |ends|
  {
    if stats == [] then []
    else ReplaceVmLabel(stats[0], ends[0], exit) + CloseChoice(stats[1..], ends[1..], exit)
  }

  /** The code of a statement: control enters at label 0 and leaves by jumping to the code's length. */
  function Transl(s: NmStat): seq<VNmStat>
    decreases s
  {
    match s
    case NmAssign(x, e) => [VNmAssign(x, e, [1])]
    case NmPrint(e) => [VNmPrint(e, [1])]
    case NmTest(c, l, r) => [VNmIf(c, l, r, [1], [])]
    case NmSeq(ss) => ConcatA(FoldSeq(ss, VNmSeqAcc([], 0)).stats)
    case NmChoice(ss) =>
      var choices := FoldChoice(ss, VNmChoiceAcc([], [], [], 1));
      [AlwaysTo(choices.starts)] + CloseChoice(choices.stats, choices.ends, choices.maxLab)
    case NmLoop(b) =>
      var vs := AddVmLabel(Transl(b), 1);
      var size := MaxVmLabel(vs);
      [AlwaysTo([1, size])] + ReplaceVmLabel(vs, size, 0)
  }

  function Nm2Vnm(p: NmProg): VNmProg {
    VNmProg(p.decls, Transl(p.body))
  }
}
