/** Blocks of code inside a larger program, and where the parts of a block stand. */
module NemoPlacement {
  import opened NemoAst
  import opened NemoTransl
  import opened NemoLayout

  /** `prog` holds `code` from label `b` on, with its exit redirected to `e`. */
  predicate At(code: seq<VNmStat>, prog: seq<VNmStat>, b: int, e: int) {
    0 <= b && b + |code| <= |prog| && prog[b..b + |code|] == PlaceCode(code, b, e)
  }

  predicate SeqAt(cs: seq<seq<VNmStat>>, prog: seq<VNmStat>, b: int, e: int) {
    cs != [] ==>
      && At(cs[0], prog, b, if |cs| == 1 then e else b + |cs[0]|)
      && SeqAt(cs[1..], prog, b + |cs[0]|, e)
  }

  predicate ChoiceAt(cs: seq<seq<VNmStat>>, prog: seq<VNmStat>, b: int, e: int) {
    cs != [] ==> At(cs[0], prog, b, e) && ChoiceAt(cs[1..], prog, b + |cs[0]|, e)
  }

  lemma AtIndex(code: seq<VNmStat>, prog: seq<VNmStat>, b: int, e: int, i: nat)
    requires At(code, prog, b, e) && i < |code|
    ensures prog[b+i] == PlaceStat(code[i], b, |code|, e)
  {
    PlaceAllAt(code, b, |code|, e, i);
    assert prog[b..b + |code|][i] == prog[b+i];
  }

  // ----- placing placed code -----

  lemma {:induction false} PlaceAllConcat(c1: seq<VNmStat>, c2: seq<VNmStat>, b: int, n: int, e: int)
    ensures PlaceAll(c1 + c2, b, n, e) == PlaceAll(c1, b, n, e) + PlaceAll(c2, b, n, e)
  {
    if c1 == [] {
      assert c1 + c2 == c2;
    } else {
      PlaceAllConcat(c1[1..], c2, b, n, e);
      assert (c1 + c2)[1..] == c1[1..] + c2;
    }
  }

  lemma {:induction false} PlaceLabsTwice(labs: seq<int>, b1: int, n1: int, e1: int, b: int, n: int, e: int)
    requires forall l :: l in labs ==> 0 <= l <= n1
    requires b1 + n1 <= n
    ensures PlaceLabs(PlaceLabs(labs, b1, n1, e1), b, n, e) == PlaceLabs(labs, b1 + b, n1, PlaceLab(e1, b, n, e))
  {
    if labs != [] {
      assert labs[0] in labs && forall l :: l in labs[1..] ==> l in labs;
      PlaceLabsTwice(labs[1..], b1, n1, e1, b, n, e);
      assert PlaceLabs(labs, b1, n1, e1)[1..] == PlaceLabs(labs[1..], b1, n1, e1);
    }
  }

  lemma PlaceStatTwice(s: VNmStat, b1: int, n1: int, e1: int, b: int, n: int, e: int)
    requires Within(StatLabs(s), 0, n1) && b1 + n1 <= n
    ensures PlaceStat(PlaceStat(s, b1, n1, e1), b, n, e) == PlaceStat(s, b1 + b, n1, PlaceLab(e1, b, n, e))
  {
    forall l | l in Labs(s) ensures 0 <= l <= n1 { assert l in StatLabs(s); }
    match s
    case VNmAssign(_, _, goto) => PlaceLabsTwice(goto, b1, n1, e1, b, n, e);
    case VNmIf(_, _, _, pos, neg) =>
      assert Labs(s) == pos + neg;
      forall l | l in pos || l in neg ensures 0 <= l <= n1 { assert l in Labs(s); }
      PlaceLabsTwice(pos, b1, n1, e1, b, n, e);
      PlaceLabsTwice(neg, b1, n1, e1, b, n, e);
    case VNmPrint(_, goto) => PlaceLabsTwice(goto, b1, n1, e1, b, n, e);
  }

  lemma {:induction false} PlaceAllTwice(code: seq<VNmStat>, b1: int, n1: int, e1: int, b: int, n: int, e: int)
    requires Within(LabSet(code), 0, n1) && b1 + n1 <= n
    ensures PlaceAll(PlaceAll(code, b1, n1, e1), b, n, e) == PlaceAll(code, b1 + b, n1, PlaceLab(e1, b, n, e))
  {
    hide PlaceStat, StatLabs, PlaceLab;
    if code != [] {
      PlaceStatTwice(code[0], b1, n1, e1, b, n, e);
      PlaceAllTwice(code[1..], b1, n1, e1, b, n, e);
      assert PlaceAll(code, b1, n1, e1)[1..] == PlaceAll(code[1..], b1, n1, e1);
    }
  }

  // ----- the parts of a block -----

  /** The first block of a concatenation stands where the concatenation does. */
  lemma SplitPlaced(code: seq<VNmStat>, b1: int, e1: int, rest: seq<VNmStat>,
                    prog: seq<VNmStat>, b: int, n: int, e: int)
    requires LayoutOk(code) && b1 + |code| <= n
    requires 0 <= b + b1 && b + b1 + |code| + |rest| <= |prog|
    requires prog[b + b1..b + b1 + |code| + |rest|] == PlaceAll(PlaceCode(code, b1, e1) + rest, b, n, e)
    ensures At(code, prog, b + b1, PlaceLab(e1, b, n, e))
    ensures prog[b + b1 + |code|..b + b1 + |code| + |rest|] == PlaceAll(rest, b, n, e)
  {
    hide PlaceAll, LabSet, PlaceLab;
    PlaceAllConcat(PlaceCode(code, b1, e1), rest, b, n, e);
    PlaceAllTwice(code, b1, |code|, e1, b, n, e);
    var lo, mid, hi := b + b1, b + b1 + |code|, b + b1 + |code| + |rest|;
    assert prog[lo..hi][..|code|] == prog[lo..mid] && prog[lo..hi][|code|..] == prog[mid..hi];
  }

  lemma {:induction false} SeqParts(cs: seq<seq<VNmStat>>, b1: int, prog: seq<VNmStat>, b: int, n: int, e: int)
    requires AllLayoutOk(cs) && n == b1 + Size(cs)
    requires 0 <= b + b1 && b + n <= |prog|
    requires |SeqCode(cs, b1)| == Size(cs) && prog[b + b1..b + n] == PlaceAll(SeqCode(cs, b1), b, n, e)
    ensures SeqAt(cs, prog, b + b1, e)
  {
    hide PlaceAll, LayoutOk, PlaceCode;
    if cs != [] {
      var m := |cs[0]|;
      var rest := SeqCode(cs[1..], b1 + m);
      SplitPlaced(cs[0], b1, b1 + m, rest, prog, b, n, e);
      SeqParts(cs[1..], b1 + m, prog, b, n, e);
      if |cs| > 1 {
        NonEmptySize(cs[1..]);
      }
    }
  }

  lemma NonEmptySize(cs: seq<seq<VNmStat>>)
    requires cs != [] && AllLayoutOk(cs)
    ensures Size(cs) > 0
  {
    assert LayoutOk(cs[0]);
  }

  lemma {:induction false} ChoiceParts(cs: seq<seq<VNmStat>>, b1: int, prog: seq<VNmStat>, b: int, n: int, e: int)
    requires AllLayoutOk(cs) && n == b1 + Size(cs)
    requires 0 <= b + b1 && b + n <= |prog|
    requires |ChoiceCode(cs, b1, n)| == Size(cs) && prog[b + b1..b + n] == PlaceAll(ChoiceCode(cs, b1, n), b, n, e)
    ensures ChoiceAt(cs, prog, b + b1, e)
  {
    hide PlaceAll, LayoutOk, PlaceCode;
    if cs != [] {
      var m := |cs[0]|;
      var rest := ChoiceCode(cs[1..], b1 + m, n);
      SplitPlaced(cs[0], b1, n, rest, prog, b, n, e);
      ChoiceParts(cs[1..], b1 + m, prog, b, n, e);
    }
  }

  lemma {:induction false} StartsPlaced(cs: seq<seq<VNmStat>>, b1: int, b: int, n: int, e: int)
    requires AllLayoutOk(cs) && b1 + Size(cs) <= n
    ensures PlaceLabs(Starts(cs, b1), b, n, e) == Starts(cs, b1 + b)
  {
    hide LayoutOk;
    if cs != [] {
      NonEmptySize(cs);
      StartsPlaced(cs[1..], b1 + |cs[0]|, b, n, e);
      assert Starts(cs, b1)[1..] == Starts(cs[1..], b1 + |cs[0]|);
    }
  }

  /** A placed sequence consists of its placed members, each leaving to the next, the last one to the exit. */
  lemma SeqBlock(ss: seq<NmStat>, prog: seq<VNmStat>, b: int, e: int)
    requires ss != [] && AllLayoutOk(Codes(ss)) && At(Transl(NmSeq(ss)), prog, b, e)
    ensures SeqAt(Codes(ss), prog, b, e) && |Transl(NmSeq(ss))| == Size(Codes(ss))
  {
    hide Transl, PlaceAll;
    TranslSeqShape(ss);
    SeqCodeLayout(Codes(ss), 0);
    SeqParts(Codes(ss), 0, prog, b, Size(Codes(ss)), e);
  }

  lemma HeadedBlock(labs: seq<int>, rest: seq<VNmStat>, prog: seq<VNmStat>, b: int, e: int)
    requires At([AlwaysTo(labs)] + rest, prog, b, e)
    ensures prog[b] == AlwaysTo(PlaceLabs(labs, b, 1 + |rest|, e))
    ensures prog[b + 1..b + 1 + |rest|] == PlaceAll(rest, b, 1 + |rest|, e)
  {
    hide PlaceLabs;
    var code := [AlwaysTo(labs)] + rest;
    assert code[1..] == rest;
    assert PlaceLabs([], b, |code|, e) == [];
    assert prog[b..b + |code|][0] == prog[b];
    assert prog[b..b + |code|][1..] == prog[b + 1..b + |code|];
  }

  /** A placed choice jumps to its placed alternatives, which all leave to the exit. */
  lemma ChoiceBlock(ss: seq<NmStat>, prog: seq<VNmStat>, b: int, e: int)
    requires ss != [] && AllLayoutOk(Codes(ss)) && At(Transl(NmChoice(ss)), prog, b, e)
    ensures 0 <= b < |prog| && prog[b] == AlwaysTo(Starts(Codes(ss), b + 1))
    ensures ChoiceAt(Codes(ss), prog, b + 1, e) && |Transl(NmChoice(ss))| == 1 + Size(Codes(ss))
  {
    hide Transl, PlaceAll, ChoiceCode, Starts, PlaceLabs, LabSet, ChoiceAt, LayoutOk, Codes;
    var cs := Codes(ss);
    var n := 1 + Size(cs);
    TranslChoiceShape(ss);
    ChoiceCodeLayout(cs, 1, n);
    HeadedBlock(Starts(cs, 1), ChoiceCode(cs, 1, n), prog, b, e);
    StartsPlaced(cs, 1, b, n, e);
    ChoiceParts(cs, 1, prog, b, n, e);
  }

  /** A placed loop jumps to its body or to the exit, and the body leaves back to the jump. */
  lemma LoopBlock(s: NmStat, prog: seq<VNmStat>, b: int, e: int)
    requires LayoutOk(Transl(s)) && At(Transl(NmLoop(s)), prog, b, e)
    ensures 0 <= b < |prog| && prog[b] == AlwaysTo([b + 1, e])
    ensures At(Transl(s), prog, b + 1, b) && |Transl(NmLoop(s))| == 1 + |Transl(s)|
  {
    hide Transl, PlaceAll, LabSet;
    var code := Transl(s);
    TranslLoopShape(s);
    HeadedBlock([1, 1 + |code|], PlaceCode(code, 1, 0), prog, b, e);
    PlaceAllTwice(code, 1, |code|, 0, b, 1 + |code|, e);
    assert [1, 1 + |code|][1..] == [1 + |code|];
    assert PlaceLabs([1 + |code|], b, 1 + |code|, e) == [e];
  }

  /** Code stands in itself at 0, leaving to its length. */
  lemma WholeProgram(code: seq<VNmStat>)
    requires LayoutOk(code)
    ensures At(code, code, 0, |code|)
  {
    PlaceAllSame(code, |code|);
  }

  lemma {:induction false} PlaceLabsSame(labs: seq<int>, n: int)
    ensures PlaceLabs(labs, 0, n, n) == labs
  {
    if labs != [] {
      PlaceLabsSame(labs[1..], n);
    }
  }

  lemma {:induction false} PlaceAllSame(code: seq<VNmStat>, n: int)
    ensures PlaceAll(code, 0, n, n) == code
  {
    if code != [] {
      match code[0] {
        case VNmAssign(_, _, goto) => PlaceLabsSame(goto, n);
        case VNmIf(_, _, _, pos, neg) => PlaceLabsSame(pos, n); PlaceLabsSame(neg, n);
        case VNmPrint(_, goto) => PlaceLabsSame(goto, n);
      }
      PlaceAllSame(code[1..], n);
    }
  }
}
