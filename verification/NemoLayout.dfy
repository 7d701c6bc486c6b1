/** The layout of translated code: labels, lengths and where the code of each part stands. */
module NemoLayout {
  import opened NemoAst
  import opened NemoTransl

  function Labs(s: VNmStat): seq<int> {
    match s
    case VNmAssign(_, _, goto) => goto
    case VNmIf(_, _, _, pos, neg) => pos + neg
    case VNmPrint(_, goto) => goto
  }

  /** Every label the code jumps to. */
  function LabSet(code: seq<VNmStat>): set<int> {
    if code == [] then {} else StatLabs(code[0]) + LabSet(code[1..])
  }

  function StatLabs(s: VNmStat): set<int> {
    set l | l in Labs(s)
  }

  predicate Within(labs: set<int>, lo: int, hi: int) {
    forall l :: l in labs ==> lo <= l <= hi
  }

  /** The code has an instruction, jumps only to 0 .. its length, and some instruction jumps to its length. */
  predicate LayoutOk(code: seq<VNmStat>) {
    |code| > 0 && Within(LabSet(code), 0, |code|) && |code| in LabSet(code)
  }

  lemma LabSetEmpty()
    ensures LabSet([]) == {}
  {
  }

  lemma {:induction false} LabSetConcat(c1: seq<VNmStat>, c2: seq<VNmStat>)
    ensures LabSet(c1 + c2) == LabSet(c1) + LabSet(c2)
  {
    hide StatLabs;
    if c1 == [] {
      assert c1 + c2 == c2;
    } else {
      LabSetConcat(c1[1..], c2);
      assert (c1 + c2)[1..] == c1[1..] + c2;
    }
  }

  lemma {:induction false} LabSetAt(code: seq<VNmStat>, i: nat)
    requires i < |code|
    ensures forall l :: l in Labs(code[i]) ==> l in LabSet(code)
  {
    if i > 0 {
      LabSetAt(code[1..], i - 1);
    }
  }

  // ----- the largest label -----

  lemma {:induction false} MaxLabBounds(labs: seq<int>, acc: int)
    ensures MaxLab(labs, acc) >= acc
    ensures forall l :: l in labs ==> l <= MaxLab(labs, acc)
    ensures MaxLab(labs, acc) == acc || MaxLab(labs, acc) in labs
  {
    if labs != [] {
      MaxLabBounds(labs[1..], Max(acc, labs[0]));
      assert labs == [labs[0]] + labs[1..];
    }
  }

  lemma MaxStatBounds(s: VNmStat)
    ensures MaxStat(s) >= -1
    ensures forall l :: l in Labs(s) ==> l <= MaxStat(s)
    ensures MaxStat(s) == -1 || MaxStat(s) in Labs(s)
  {
    match s
    case VNmAssign(_, _, goto) => MaxLabBounds(goto, -1);
    case VNmIf(_, _, _, pos, neg) => MaxLabBounds(pos, -1); MaxLabBounds(neg, -1);
    case VNmPrint(_, goto) => MaxLabBounds(goto, -1);
  }

  lemma {:induction false} MaxVmLabelBounds(code: seq<VNmStat>, acc: int)
    ensures MaxVmLabelFrom(code, acc) >= acc
    ensures forall l :: l in LabSet(code) ==> l <= MaxVmLabelFrom(code, acc)
    ensures MaxVmLabelFrom(code, acc) in {acc, -1} || MaxVmLabelFrom(code, acc) in LabSet(code)
  {
    if code != [] {
      MaxStatBounds(code[0]);
      MaxVmLabelBounds(code[1..], Max(acc, MaxStat(code[0])));
    }
  }

  lemma MaxVmLabelIs(code: seq<VNmStat>, lo: int, n: nat)
    requires Within(LabSet(code), lo, n) && n in LabSet(code)
    ensures MaxVmLabel(code) == n
  {
    MaxVmLabelBounds(code, -1);
  }

  /** With a sound layout the largest label is the length of the code: this is how the translator measures code. */
  lemma MaxVmLabelIsLength(code: seq<VNmStat>)
    requires LayoutOk(code)
    ensures MaxVmLabel(code) == |code|
  {
    MaxVmLabelIs(code, 0, |code|);
  }

  // ----- placed code -----

  function PlaceLab(l: int, b: int, n: int, e: int): int {
    if l == n then e else l + b
  }

  function PlaceLabs(labs: seq<int>, b: int, n: int, e: int): (r: seq<int>)
    ensures |r| == |labs|
  {
    if labs == [] then [] else [PlaceLab(labs[0], b, n, e)] + PlaceLabs(labs[1..], b, n, e)
  }

  /** The instruction of a block of length `n` when the block starts at `b` and leaves to `e`. */
  function PlaceStat(s: VNmStat, b: int, n: int, e: int): VNmStat {
    match s
    case VNmAssign(x, v, goto) => VNmAssign(x, v, PlaceLabs(goto, b, n, e))
    case VNmIf(c, l, r, pos, neg) => VNmIf(c, l, r, PlaceLabs(pos, b, n, e), PlaceLabs(neg, b, n, e))
    case VNmPrint(v, goto) => VNmPrint(v, PlaceLabs(goto, b, n, e))
  }

  function PlaceAll(code: seq<VNmStat>, b: int, n: int, e: int): (r: seq<VNmStat>)
    ensures |r| == |code|
  {
    if code == [] then [] else [PlaceStat(code[0], b, n, e)] + PlaceAll(code[1..], b, n, e)
  }

  /** The code of a block that starts at `b` and leaves to `e`. */
  function PlaceCode(code: seq<VNmStat>, b: int, e: int): (r: seq<VNmStat>)
    ensures |r| == |code|
  {
    PlaceAll(code, b, |code|, e)
  }

  lemma {:induction false} PlaceLabsConcat(l1: seq<int>, l2: seq<int>, b: int, n: int, e: int)
    ensures PlaceLabs(l1 + l2, b, n, e) == PlaceLabs(l1, b, n, e) + PlaceLabs(l2, b, n, e)
  {
    if l1 == [] {
      assert l1 + l2 == l2;
    } else {
      PlaceLabsConcat(l1[1..], l2, b, n, e);
      assert (l1 + l2)[1..] == l1[1..] + l2;
    }
  }

  lemma {:induction false} PlaceLabsIn(labs: seq<int>, b: int, n: int, e: int)
    requires forall l :: l in labs ==> 0 <= l <= n
    ensures forall l :: l in PlaceLabs(labs, b, n, e) ==> l == e || b <= l < b + n
    ensures n in labs ==> e in PlaceLabs(labs, b, n, e)
  {
    if labs != [] {
      assert labs[0] in labs && forall l :: l in labs <==> l == labs[0] || l in labs[1..];
      PlaceLabsIn(labs[1..], b, n, e);
      var rest := PlaceLabs(labs[1..], b, n, e);
      assert forall l :: l in PlaceLabs(labs, b, n, e) <==> l == PlaceLab(labs[0], b, n, e) || l in rest;
    }
  }

  lemma PlaceStatLabs(s: VNmStat, b: int, n: int, e: int)
    requires Within(StatLabs(s), 0, n)
    ensures forall l :: l in StatLabs(PlaceStat(s, b, n, e)) ==> l == e || b <= l < b + n
    ensures n in StatLabs(s) ==> e in StatLabs(PlaceStat(s, b, n, e))
  {
    if s.VNmIf? {
      PlaceLabsConcat(s.pos, s.neg, b, n, e);
    }
    forall l | l in Labs(s) ensures 0 <= l <= n { assert l in StatLabs(s); }
    PlaceLabsIn(Labs(s), b, n, e);
  }

  lemma {:induction false} PlaceAllLabs(code: seq<VNmStat>, b: int, n: int, e: int)
    requires Within(LabSet(code), 0, n)
    ensures forall l :: l in LabSet(PlaceAll(code, b, n, e)) ==> l == e || b <= l < b + n
    ensures n in LabSet(code) ==> e in LabSet(PlaceAll(code, b, n, e))
  {
    if code != [] {
      PlaceStatLabs(code[0], b, n, e);
      PlaceAllLabs(code[1..], b, n, e);
    }
  }

  lemma {:induction false} PlaceAllAt(code: seq<VNmStat>, b: int, n: int, e: int, i: nat)
    requires i < |code|
    ensures PlaceAll(code, b, n, e)[i] == PlaceStat(code[i], b, n, e)
  {
    if i > 0 {
      PlaceAllAt(code[1..], b, n, e, i - 1);
    }
  }

  /** Where the labels of placed code lie. */
  lemma PlaceCodeLabs(code: seq<VNmStat>, b: int, e: int, lo: int, hi: int)
    requires LayoutOk(code) && lo <= b && b + |code| - 1 <= hi && lo <= e <= hi
    ensures Within(LabSet(PlaceCode(code, b, e)), lo, hi) && e in LabSet(PlaceCode(code, b, e))
  {
    PlaceAllLabs(code, b, |code|, e);
  }

  // ----- closed forms of the translator's folds -----

  /** The codes of the members of a sequence or choice. */
  function Codes(ss: seq<NmStat>): (cs: seq<seq<VNmStat>>)
    ensures |cs| == |ss|
    decreases ss
  {
    if ss == [] then [] else [Transl(ss[0])] + Codes(ss[1..])
  }

  predicate AllLayoutOk(cs: seq<seq<VNmStat>>) {
    forall i :: 0 <= i < |cs| ==> LayoutOk(cs[i])
  }

  function Size(cs: seq<seq<VNmStat>>): nat {
    if cs == [] then 0 else |cs[0]| + Size(cs[1..])
  }

  /** The blocks one after the other from `b` on, each leaving to the start of the next. */
  function SeqCode(cs: seq<seq<VNmStat>>, b: int): seq<VNmStat> {
    if cs == [] then []
    else PlaceCode(cs[0], b, b + |cs[0]|) + SeqCode(cs[1..], b + |cs[0]|)
  }

  function Starts(cs: seq<seq<VNmStat>>, b: int): seq<int> {
    if cs == [] then [] else [b] + Starts(cs[1..], b + |cs[0]|)
  }

  /** The blocks one after the other from `b` on, all leaving to `exit`. */
  function ChoiceCode(cs: seq<seq<VNmStat>>, b: int, exit: int): seq<VNmStat> {
    if cs == [] then []
    else PlaceCode(cs[0], b, exit) + ChoiceCode(cs[1..], b + |cs[0]|, exit)
  }

  lemma {:induction false} AddLabIsPlace(labs: seq<int>, b: int, n: int)
    ensures AddLab(labs, b) == PlaceLabs(labs, b, n, b + n)
  {
    if labs != [] {
      AddLabIsPlace(labs[1..], b, n);
    }
  }

  lemma AddStatIsPlace(s: VNmStat, b: int, n: int)
    ensures AddStat(s, b) == PlaceStat(s, b, n, b + n)
  {
    match s
    case VNmAssign(_, _, goto) => AddLabIsPlace(goto, b, n);
    case VNmIf(_, _, _, pos, neg) => AddLabIsPlace(pos, b, n); AddLabIsPlace(neg, b, n);
    case VNmPrint(_, goto) => AddLabIsPlace(goto, b, n);
  }

  /** Shifting a block keeps its exit at its end. */
  lemma {:induction false} AddIsPlace(code: seq<VNmStat>, b: int, n: int)
    ensures AddVmLabel(code, b) == PlaceAll(code, b, n, b + n)
  {
    if code != [] {
      AddStatIsPlace(code[0], b, n);
      AddIsPlace(code[1..], b, n);
    }
  }

  lemma {:induction false} ReplaceLabIsPlace(labs: seq<int>, b: int, n: int, e: int)
    ensures ReplaceLab(AddLab(labs, b), b + n, e) == PlaceLabs(labs, b, n, e)
  {
    if labs != [] {
      ReplaceLabIsPlace(labs[1..], b, n, e);
      assert AddLab(labs, b)[1..] == AddLab(labs[1..], b);
    }
  }

  lemma ReplaceStatIsPlace(s: VNmStat, b: int, n: int, e: int)
    ensures ReplaceStat(AddStat(s, b), b + n, e) == PlaceStat(s, b, n, e)
  {
    match s
    case VNmAssign(_, _, goto) => ReplaceLabIsPlace(goto, b, n, e);
    case VNmIf(_, _, _, pos, neg) => ReplaceLabIsPlace(pos, b, n, e); ReplaceLabIsPlace(neg, b, n, e);
    case VNmPrint(_, goto) => ReplaceLabIsPlace(goto, b, n, e);
  }

  /** Shifting a block and replacing its exit redirects the exit and nothing else. */
  lemma {:induction false} ReplaceIsPlace(code: seq<VNmStat>, b: int, n: int, e: int)
    ensures ReplaceVmLabel(AddVmLabel(code, b), b + n, e) == PlaceAll(code, b, n, e)
  {
    if code != [] {
      ReplaceStatIsPlace(code[0], b, n, e);
      ReplaceIsPlace(code[1..], b, n, e);
      assert AddVmLabel(code, b)[1..] == AddVmLabel(code[1..], b);
    }
  }

  lemma {:induction false} ConcatAppend(xs: seq<seq<VNmStat>>, x: seq<VNmStat>)
    ensures ConcatA(xs + [x]) == ConcatA(xs) + x
  {
    if xs == [] {
      assert [x][1..] == [];
    } else {
      ConcatAppend(xs[1..], x);
      assert (xs + [x])[1..] == xs[1..] + [x];
    }
  }

  lemma {:induction false} FoldSeqShape(ss: seq<NmStat>, acc: VNmSeqAcc)
    requires AllLayoutOk(Codes(ss))
    ensures ConcatA(FoldSeq(ss, acc).stats) == ConcatA(acc.stats) + SeqCode(Codes(ss), acc.maxLab)
  {
    hide Transl, AddVmLabel, PlaceAll, LabSet, MaxVmLabel, ConcatA;
    if ss != [] {
      var vs, cs := Transl(ss[0]), Codes(ss);
      assert cs[0] == vs && cs[1..] == Codes(ss[1..]);
      var acc1 := VNmSeqAcc(acc.stats + [AddVmLabel(vs, acc.maxLab)], acc.maxLab + |vs|);
      MaxVmLabelIsLength(vs);
      AddIsPlace(vs, acc.maxLab, |vs|);
      ConcatAppend(acc.stats, AddVmLabel(vs, acc.maxLab));
      FoldSeqShape(ss[1..], acc1);
    }
  }

  lemma {:induction false} CloseAppend(xs: seq<seq<VNmStat>>, ends: seq<int>, x: seq<VNmStat>, end: int, exit: int)
    requires |xs| == |ends|
    ensures CloseChoice(xs + [x], ends + [end], exit) == CloseChoice(xs, ends, exit) + ReplaceVmLabel(x, end, exit)
  {
    hide ReplaceVmLabel;
    if xs == [] {
      assert [x][1..] == [] && [end][1..] == [];
    } else {
      CloseAppend(xs[1..], ends[1..], x, end, exit);
      assert (xs + [x])[1..] == xs[1..] + [x] && (ends + [end])[1..] == ends[1..] + [end];
    }
  }

  lemma {:induction false} FoldChoiceStarts(ss: seq<NmStat>, acc: VNmChoiceAcc)
    requires AllLayoutOk(Codes(ss)) && |acc.ends| == |acc.stats|
    ensures FoldChoice(ss, acc).starts == acc.starts + Starts(Codes(ss), acc.maxLab)
    ensures FoldChoice(ss, acc).maxLab == acc.maxLab + Size(Codes(ss))
  {
    hide LayoutOk, LabSet, AddVmLabel, Transl;
    if ss != [] {
      var vs, cs := Transl(ss[0]), Codes(ss);
      assert cs[0] == vs && cs[1..] == Codes(ss[1..]);
      MaxVmLabelIsLength(vs);
      var end := acc.maxLab + |vs|;
      var acc1 := VNmChoiceAcc(acc.stats + [AddVmLabel(vs, acc.maxLab)],
                               acc.starts + [acc.maxLab], acc.ends + [end], end);
      FoldChoiceStarts(ss[1..], acc1);
    }
  }

  lemma {:induction false} FoldChoiceCode(ss: seq<NmStat>, acc: VNmChoiceAcc, exit: int)
    requires AllLayoutOk(Codes(ss)) && |acc.ends| == |acc.stats|
    ensures var r := FoldChoice(ss, acc);
            CloseChoice(r.stats, r.ends, exit)
            == CloseChoice(acc.stats, acc.ends, exit) + ChoiceCode(Codes(ss), acc.maxLab, exit)
  {
    hide PlaceAll, ReplaceVmLabel, AddVmLabel, Transl, LabSet;
    if ss != [] {
      var vs, cs := Transl(ss[0]), Codes(ss);
      assert cs[0] == vs && cs[1..] == Codes(ss[1..]);
      MaxVmLabelIsLength(vs);
      ReplaceIsPlace(vs, acc.maxLab, |vs|, exit);
      var end := acc.maxLab + |vs|;
      CloseAppend(acc.stats, acc.ends, AddVmLabel(vs, acc.maxLab), end, exit);
      var acc1 := VNmChoiceAcc(acc.stats + [AddVmLabel(vs, acc.maxLab)],
                               acc.starts + [acc.maxLab], acc.ends + [end], end);
      FoldChoiceCode(ss[1..], acc1, exit);
    }
  }

  lemma TranslSeqShape(ss: seq<NmStat>)
    requires AllLayoutOk(Codes(ss))
    ensures Transl(NmSeq(ss)) == SeqCode(Codes(ss), 0)
  {
    hide FoldSeq, SeqCode, LabSet;
    FoldSeqShape(ss, VNmSeqAcc([], 0));
    assert ConcatA([]) == [];
  }

  lemma TranslChoiceShape(ss: seq<NmStat>)
    requires AllLayoutOk(Codes(ss))
    ensures var cs := Codes(ss);
            Transl(NmChoice(ss)) == [AlwaysTo(Starts(cs, 1))] + ChoiceCode(cs, 1, 1 + Size(cs))
  {
    hide FoldChoice, ChoiceCode, Starts, LabSet, Codes;
    var acc, exit := VNmChoiceAcc([], [], [], 1), 1 + Size(Codes(ss));
    FoldChoiceStarts(ss, acc);
    FoldChoiceCode(ss, acc, exit);
    assert CloseChoice(acc.stats, acc.ends, exit) == [];
    assert FoldChoice(ss, acc).starts == Starts(Codes(ss), 1);
    assert FoldChoice(ss, acc).maxLab == exit;
  }

  lemma AddedMax(code: seq<VNmStat>, b: nat)
    requires LayoutOk(code)
    ensures MaxVmLabel(AddVmLabel(code, b)) == b + |code|
  {
    hide LabSet;
    AddIsPlace(code, b, |code|);
    PlaceCodeLabs(code, b, b + |code|, b, b + |code|);
    MaxVmLabelIs(AddVmLabel(code, b), b, b + |code|);
  }

  lemma TranslLoopShape(b: NmStat)
    requires LayoutOk(Transl(b))
    ensures Transl(NmLoop(b)) == [AlwaysTo([1, 1 + |Transl(b)|])] + PlaceCode(Transl(b), 1, 0)
  {
    var code := Transl(b);
    AddedMax(code, 1);
    hide LabSet, AddVmLabel, ReplaceVmLabel, PlaceAll, MaxVmLabel;
    ReplaceIsPlace(code, 1, |code|, 0);
    assert Transl(NmLoop(b)) == [AlwaysTo([1, 1 + |code|])] + ReplaceVmLabel(AddVmLabel(code, 1), 1 + |code|, 0);
  }

  // ----- the layout invariant -----

  lemma {:induction false} SeqCodeLayout(cs: seq<seq<VNmStat>>, b: int)
    requires AllLayoutOk(cs)
    ensures |SeqCode(cs, b)| == Size(cs)
    ensures Within(LabSet(SeqCode(cs, b)), b, b + Size(cs))
    ensures cs != [] ==> Size(cs) > 0 && b + Size(cs) in LabSet(SeqCode(cs, b))
  {
    hide LabSet, PlaceCode;
    LabSetEmpty();
    if cs != [] {
      var n := |cs[0]|;
      SeqCodeLayout(cs[1..], b + n);
      PlaceCodeLabs(cs[0], b, b + n, b, b + Size(cs));
      LabSetConcat(PlaceCode(cs[0], b, b + n), SeqCode(cs[1..], b + n));
    }
  }

  lemma {:induction false} ChoiceCodeLayout(cs: seq<seq<VNmStat>>, b: int, exit: int)
    requires AllLayoutOk(cs) && exit == b + Size(cs)
    ensures |ChoiceCode(cs, b, exit)| == Size(cs)
    ensures Within(LabSet(ChoiceCode(cs, b, exit)), b, exit)
    ensures cs != [] ==> Size(cs) > 0 && exit in LabSet(ChoiceCode(cs, b, exit))
    ensures forall l :: l in Starts(cs, b) ==> b <= l <= exit
  {
    hide LabSet, PlaceCode;
    LabSetEmpty();
    if cs != [] {
      var n := |cs[0]|;
      ChoiceCodeLayout(cs[1..], b + n, exit);
      PlaceCodeLabs(cs[0], b, exit, b, exit);
      LabSetConcat(PlaceCode(cs[0], b, exit), ChoiceCode(cs[1..], b + n, exit));
    }
  }

  lemma HeadedLabs(labs: seq<int>, code: seq<VNmStat>)
    ensures LabSet([AlwaysTo(labs)] + code) == (set l | l in labs) + LabSet(code)
  {
    var whole := [AlwaysTo(labs)] + code;
    assert whole[1..] == code && Labs(whole[0]) == labs;
  }

  lemma LoopLayout(b: NmStat)
    requires LayoutOk(Transl(b))
    ensures LayoutOk(Transl(NmLoop(b)))
  {
    TranslLoopShape(b);
    var code, n := Transl(b), |Transl(b)| + 1;
    PlaceCodeLabs(code, 1, 0, 0, n);
    HeadedLabs([1, n], PlaceCode(code, 1, 0));
  }

  lemma ChoiceLayout(ss: seq<NmStat>)
    requires ss != [] && AllLayoutOk(Codes(ss))
    ensures LayoutOk(Transl(NmChoice(ss)))
  {
    hide LabSet, ChoiceCode, Transl;
    TranslChoiceShape(ss);
    var cs := Codes(ss);
    ChoiceCodeLayout(cs, 1, 1 + Size(cs));
    HeadedLabs(Starts(cs, 1), ChoiceCode(cs, 1, 1 + Size(cs)));
  }

  lemma SeqLayout(ss: seq<NmStat>)
    requires ss != [] && AllLayoutOk(Codes(ss))
    ensures LayoutOk(Transl(NmSeq(ss)))
  {
    hide LabSet, SeqCode, Transl;
    TranslSeqShape(ss);
    SeqCodeLayout(Codes(ss), 0);
  }

  /** The layout invariant of the translator, for every statement without empty sequences or choices. */
  lemma {:induction false} Layout(s: NmStat)
    requires NonEmpty(s)
    ensures LayoutOk(Transl(s))
    ensures MaxVmLabel(Transl(s)) == |Transl(s)|
    decreases s, 1
  {
    match s {
      case NmSeq(ss) =>
        LayoutAll(ss);
        SeqLayout(ss);
      case NmChoice(ss) =>
        LayoutAll(ss);
        ChoiceLayout(ss);
      case NmLoop(b) =>
        Layout(b);
        LoopLayout(b);
      case _ =>
        assert LabSet(Transl(s)) == {1} by { assert Transl(s)[1..] == []; }
    }
    MaxVmLabelIsLength(Transl(s));
  }

  lemma {:induction false} LayoutAll(ss: seq<NmStat>)
    requires AllNonEmpty(ss)
    ensures AllLayoutOk(Codes(ss))
    decreases ss, 0
  {
    if ss != [] {
      Layout(ss[0]);
      LayoutAll(ss[1..]);
    }
  }

  /** A remark on `Layout`: the grammar has no empty sequence, and the translator could not measure one. It would count as
      length -1, and the statement after it would be moved onto itself. */
  lemma EmptySequenceBreaksLayout(e: NmExp)
    ensures Transl(NmSeq([NmSeq([]), NmPrint(e)])) == [VNmPrint(e, [0])]
    ensures !LayoutOk(Transl(NmSeq([NmSeq([]), NmPrint(e)])))
  {
    var print_, moved := VNmPrint(e, [1]), VNmPrint(e, [0]);
    assert LabSet([print_]) == {1};
    MaxVmLabelIs([print_], 1, 1);
    assert AddLab([1], -1) == [0];
    assert AddVmLabel([print_], -1) == [moved];
    assert ConcatA([]) == [] && Transl(NmSeq([])) == [];
    var ss, acc0 := [NmSeq([]), NmPrint(e)], VNmSeqAcc([], 0);
    var acc1 := VNmSeqAcc([[]], -1);
    assert AddVmLabel([], 0) == [];
    assert MaxVmLabel([]) == -1;
    assert acc0.stats + [AddVmLabel([], 0)] == [[]];
    assert FoldSeq(ss, acc0) == FoldSeq([NmPrint(e)], acc1) by { assert ss[1..] == [NmPrint(e)]; }
    assert FoldSeq([NmPrint(e)], acc1) == FoldSeq([], VNmSeqAcc([[], [moved]], 0));
    assert ConcatA([[], [moved]]) == [moved] by {
      assert [[], [moved]][1..] == [[moved]] && [[moved]][1..] == [];
      assert ConcatA([[moved]]) == [moved] + ConcatA([]);
    }
  }
}
