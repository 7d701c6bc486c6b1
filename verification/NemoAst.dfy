/** The abstract syntax of the nondeterministic language Nemo, and of the flat labelled code
    (VNemo) it is translated to. */
module NemoAst {

  datatype NmType = NmIntType | NmArrType(elem: NmType)

  datatype NmDecl = NmDecl(name: string, ty: NmType)

  datatype NmExp =
    | NmBinOp(op: string, lhs: NmExp, rhs: NmExp)
    | NmUnOp(op: string, e: NmExp)
    | NmUpd(arr: NmExp, ind: NmExp, val: NmExp)
    | NmApp(arr: NmExp, ind: NmExp)
    | NmVar(name: string)
    | NmInt(n: int)

  datatype NmStat =
    | NmAssign(name: string, val: NmExp)
    | NmTest(cond: string, lhs: NmExp, rhs: NmExp)
    | NmSeq(stats: seq<NmStat>)
    | NmChoice(stats: seq<NmStat>)
    | NmLoop(body: NmStat)
    | NmPrint(e: NmExp)

  datatype NmProg = NmProg(decls: seq<NmDecl>, body: NmStat)

  datatype VNmStat =
    | VNmAssign(name: string, val: NmExp, goto: seq<int>)
    | VNmIf(cond: string, lhs: NmExp, rhs: NmExp, pos: seq<int>, neg: seq<int>)
    | VNmPrint(e: NmExp, goto: seq<int>)

  datatype VNmProg = VNmProg(decls: seq<NmDecl>, body: seq<VNmStat>)

  /** Every sequence and every choice has a member; the grammar only builds ones with two or more. */
  predicate NonEmpty(s: NmStat)
    decreases s
  {
    match s
    case NmSeq(ss) => ss != [] && forall i :: 0 <= i < |ss| ==> NonEmpty(ss[i])
    case NmChoice(ss) => ss != [] && forall i :: 0 <= i < |ss| ==> NonEmpty(ss[i])
    case NmLoop(b) => NonEmpty(b)
    case _ => true
  }

  predicate AllNonEmpty(ss: seq<NmStat>) {
    forall i :: 0 <= i < |ss| ==> NonEmpty(ss[i])
  }
}
