/** The virtual machine: expression evaluation, one step of one configuration, and runs. */
module NemoVm {
  import opened NemoAst
  import opened Ints
  import opened Runs

  datatype NmVal = NmValInt(n: int) | NmValArr(arr: seq<NmVal>)

  type NmState = map<string, NmVal>

  datatype VNmConf = VNmConf(lab: int, state: NmState)

  /** Why an evaluation gives no value. The first four come back as None, the last two abort the machine. */
  datatype Reason = OperandKind | NoSuchVariable | IndexPastEnd | DivisionByZero | NegativeIndex

  datatype Outcome<+T> = Value(v: T) | NoValue(why: Reason) | Abort(how: Reason)

  // ----- expressions -----

  function ApplyBinOp(op: string, x: int, y: int): Outcome<int> {
    if op == "+" then Value(x + y)
    else if op == "*" then Value(x * y)
    else if op == "-" then Value(x - y)
    else if op == "/" then if y == 0 then Abort(DivisionByZero) else Value(TruncDiv(x, y))
    else Value(0)
  }

  function ApplyUnOp(op: string, x: int): int {
    if op == "+" then x else if op == "-" then -x else 0
  }

  function CondOp(op: string, x: int, y: int): bool {
    if op == "==" then x == y
    else if op == "!=" then x != y
    else if op == "<=" then x <= y
    else if op == ">=" then x >= y
    else if op == "<" then x < y
    else if op == ">" then x > y
    else false
  }

  /** Both arguments are evaluated before either is inspected. */
  function Both<A, B>(a: Outcome<A>, b: Outcome<B>): Outcome<(A, B)> {
    if a.Abort? then Abort(a.how)
    else if b.Abort? then Abort(b.how)
    else if a.NoValue? then NoValue(a.why)
    else if b.NoValue? then NoValue(b.why)
    else Value((a.v, b.v))
  }

  function BinOpVal(op: string, lv: NmVal, rv: NmVal): Outcome<NmVal> {
    if lv.NmValArr? || rv.NmValArr? then NoValue(OperandKind)
    else match ApplyBinOp(op, lv.n, rv.n)
         case Value(n) => Value(NmValInt(n))
         case NoValue(why) => NoValue(why)
         case Abort(how) => Abort(how)
  }

  /** Replacing inside the array, or appending just past its end; a negative index replaces nothing. */
  function UpdVal(av: NmVal, iv: NmVal, vv: NmVal): Outcome<NmVal> {
    if av.NmValInt? || iv.NmValArr? then NoValue(OperandKind)
    else if iv.n < 0 then Value(av)
    else if iv.n < |av.arr| then Value(NmValArr(av.arr[iv.n := vv]))
    else if iv.n == |av.arr| then Value(NmValArr(av.arr + [vv]))
    else NoValue(IndexPastEnd)
  }

  function AppVal(av: NmVal, iv: NmVal): Outcome<NmVal> {
    if av.NmValInt? || iv.NmValArr? then NoValue(OperandKind)
    else if iv.n >= |av.arr| then NoValue(IndexPastEnd)
    else if iv.n < 0 then Abort(NegativeIndex)
    else Value(av.arr[iv.n])
  }

  function VmEval(e: NmExp, st: NmState): Outcome<NmVal> {
    match e
    case NmBinOp(op, l, r) =>
      (match Both(VmEval(l, st), VmEval(r, st))
       case Value(p) => BinOpVal(op, p.0, p.1)
       case NoValue(why) => NoValue(why)
       case Abort(how) => Abort(how))
    case NmUnOp(op, e1) =>
      (match VmEval(e1, st)
       case Value(v) => if v.NmValInt? then Value(NmValInt(ApplyUnOp(op, v.n))) else NoValue(OperandKind)
       case NoValue(why) => NoValue(why)
       case Abort(how) => Abort(how))
    case NmUpd(a, i, v) =>
      var vo := VmEval(v, st);
      if !vo.Value? then vo
      else (match Both(VmEval(a, st), VmEval(i, st))
            case Value(p) => UpdVal(p.0, p.1, vo.v)
            case NoValue(why) => NoValue(why)
            case Abort(how) => Abort(how))
    case NmApp(a, i) =>
      (match Both(VmEval(a, st), VmEval(i, st))
       case Value(p) => AppVal(p.0, p.1)
       case NoValue(why) => NoValue(why)
       case Abort(how) => Abort(how))
    case NmVar(x) => if x in st then Value(st[x]) else NoValue(NoSuchVariable)
    case NmInt(n) => Value(NmValInt(n))
  }

  function VmEvalCond(op: string, l: NmExp, r: NmExp, st: NmState): Outcome<bool> {
    match Both(VmEval(l, st), VmEval(r, st))
    case Value(p) =>
      if p.0.NmValInt? && p.1.NmValInt? then Value(CondOp(op, p.0.n, p.1.n)) else NoValue(OperandKind)
    case NoValue(why) => NoValue(why)
    case Abort(how) => Abort(how)
  }

  // ----- steps -----

  /** What executing one instruction does: the labels control may go to, the new state and the printed values. */
  datatype Effect = Goto(labs: seq<int>, state: NmState, out: seq<NmVal>) | Dies | Aborts

  function Execute(i: VNmStat, st: NmState): Effect {
    match i
    case VNmAssign(x, e, goto) =>
      (match VmEval(e, st)
       case Value(v) => Goto(goto, st[x := v], [])
       case NoValue(_) => Dies
       case Abort(_) => Aborts)
    case VNmIf(c, l, r, pos, neg) =>
      (match VmEvalCond(c, l, r, st)
       case Value(b) => Goto(if b then pos else neg, st, [])
       case NoValue(_) => Dies
       case Abort(_) => Aborts)
    case VNmPrint(e, goto) =>
      (match VmEval(e, st)
       case Value(v) => Goto(goto, st, [v])
       case NoValue(_) => Dies
       case Abort(_) => Aborts)
  }

  datatype StepResult = Next(confs: set<VNmConf>, out: seq<NmVal>) | Failed

  /** One step of one configuration. A label outside the program, a division by zero or a negative array
      index aborts the machine; an evaluation without a value merely has no successor. */
  function VmStep(body: seq<VNmStat>, c: VNmConf): StepResult {
    if !(0 <= c.lab < |body|) then Failed
    else match Execute(body[c.lab], c.state)
         case Goto(labs, st, out) => Next(set l | l in labs :: VNmConf(l, st), out)
         case Dies => Next({}, [])
         case Aborts => Failed
  }

  // ----- runs -----

  predicate CanStep(body: seq<VNmStat>, c: VNmConf, d: VNmConf) {
    var s := VmStep(body, c);
    s.Next? && d in s.confs
  }

  function StepOut(body: seq<VNmStat>, c: VNmConf): seq<NmVal> {
    var s := VmStep(body, c);
    if s.Next? then s.out else []
  }

  /** The machine running `body`, as a transition system. */
  function Vm(body: seq<VNmStat>): System<VNmConf, NmVal> {
    System((c, d) => CanStep(body, c, d), c => StepOut(body, c))
  }
}
