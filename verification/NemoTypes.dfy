/** The type checker, the typing rules it decides, and what well-typed programs cannot do. */
module NemoTypes {
  import opened Options
  import opened NemoAst
  import opened NemoVm
  import opened NemoTransl
  import opened NemoLayout
  import opened NemoCores
  import opened NemoRunner

  /** The checker's error reports, in the order in which they are made. */
  datatype Report =
    | DuplicateDeclaration(name: string)
    | NotDeclared(name: string)
    | AssignMismatch(name: string, declared: NmType, got: NmType)
    | CompareLeft(op: string, got: NmType)
    | CompareRight(op: string, got: NmType)
    | BinaryLeft(op: string, got: NmType)
    | BinaryRight(op: string, got: NmType)
    | UnaryOperand(op: string, got: NmType)
    | UpdateIndex(got: NmType)
    | UpdateValue(got: NmType)
    | UpdateArray(got: NmType)
    | ApplyIndex(got: NmType)
    | ApplyArray(got: NmType)

  datatype Checked = Checked(ty: Maybe<NmType>, reports: seq<Report>)

  type Decls = map<string, NmType>

  function EvalNmType(e: NmExp, decls: Decls): Checked {
    match e
    case NmBinOp(op, l, r) =>
      var cl, cr := EvalNmType(l, decls), EvalNmType(r, decls);
      var before := cl.reports + cr.reports;
      if cl.ty.None? || cr.ty.None? then Checked(None, before)
      else if cl.ty.value != NmIntType then Checked(None, before + [BinaryLeft(op, cl.ty.value)])
      else if cr.ty.value != NmIntType then Checked(None, before + [BinaryRight(op, cr.ty.value)])
      else Checked(Some(NmIntType), before)
    case NmUnOp(op, e1) =>
      var c := EvalNmType(e1, decls);
      if c.ty.None? then c
      else if c.ty.value != NmIntType then Checked(None, c.reports + [UnaryOperand(op, c.ty.value)])
      else Checked(Some(NmIntType), c.reports)
    case NmUpd(a, i, v) =>
      var cv := EvalNmType(v, decls);
      if cv.ty.None? then cv
      else
        var ca, ci := EvalNmType(a, decls), EvalNmType(i, decls);
        var before := cv.reports + ca.reports + ci.reports;
        if ca.ty.None? || ci.ty.None? then Checked(None, before)
        else if ca.ty.value.NmIntType? then Checked(None, before + [UpdateArray(ca.ty.value)])
        else if ci.ty.value != NmIntType then Checked(None, before + [UpdateIndex(ci.ty.value)])
        else if cv.ty.value == ca.ty.value.elem then Checked(Some(ca.ty.value), before)
        else Checked(None, before + [UpdateValue(cv.ty.value)])
    case NmApp(a, i) =>
      var ca, ci := EvalNmType(a, decls), EvalNmType(i, decls);
      var before := ca.reports + ci.reports;
      if ca.ty.None? || ci.ty.None? then Checked(None, before)
      else if ca.ty.value.NmIntType? then Checked(None, before + [ApplyArray(ca.ty.value)])
      else if ci.ty.value != NmIntType then Checked(None, before + [ApplyIndex(ci.ty.value)])
      else Checked(Some(ca.ty.value.elem), before)
    case NmVar(x) => if x in decls then Checked(Some(decls[x]), []) else Checked(None, [NotDeclared(x)])
    case NmInt(_) => Checked(Some(NmIntType), [])
  }

  function TypecheckNmStat(s: NmStat, decls: Decls): seq<Report>
    decreases s
  {
    match s
    case NmAssign(x, e) =>
      if x !in decls then [NotDeclared(x)]
      else
        var c := EvalNmType(e, decls);
        c.reports + (if c.ty.Some? && c.ty.value != decls[x] then [AssignMismatch(x, decls[x], c.ty.value)] else [])
    case NmTest(op, l, r) =>
      var cl := EvalNmType(l, decls);
      if cl.ty.None? then cl.reports
      else
        var cr := EvalNmType(r, decls);
        if cr.ty.None? then cl.reports + cr.reports
        else cl.reports + cr.reports
             + (if cl.ty.value != NmIntType then [CompareLeft(op, cl.ty.value)] else [])
             + (if cr.ty.value != NmIntType then [CompareRight(op, cr.ty.value)] else [])
    case NmSeq(ss) => TypecheckAll(ss, decls)
    case NmChoice(ss) => TypecheckAll(ss, decls)
    case NmLoop(b) => TypecheckNmStat(b, decls)
    case NmPrint(e) => EvalNmType(e, decls).reports
  }

  function TypecheckAll(ss: seq<NmStat>, decls: Decls): seq<Report>
    decreases ss
  {
    if ss == [] then [] else TypecheckNmStat(ss[0], decls) + TypecheckAll(ss[1..], decls)
  }

  datatype Declared = Declared(decls: Decls, reports: seq<Report>)

  /** A repeated declaration is reported, and replaces the earlier one. */
  function Typedecls(ds: seq<NmDecl>, acc: Declared): Declared {
    if ds == [] then acc
    else
      var d := ds[0];
      Typedecls(ds[1..], Declared(acc.decls[d.name := d.ty],
                                  if d.name in acc.decls then acc.reports + [DuplicateDeclaration(d.name)]
                                  else acc.reports))
  }

  function NmProgTypedecls(p: NmProg): Declared { Typedecls(p.decls, Declared(map[], [])) }

  function TypecheckNmProgram(p: NmProg): seq<Report> {
    var d := NmProgTypedecls(p);
    d.reports + TypecheckNmStat(p.body, d.decls)
  }

  // ----- the typing rules -----

  ghost predicate HasType(decls: Decls, e: NmExp, t: NmType) {
    match e
    case NmBinOp(_, l, r) => t == NmIntType && HasType(decls, l, NmIntType) && HasType(decls, r, NmIntType)
    case NmUnOp(_, e1) => t == NmIntType && HasType(decls, e1, NmIntType)
    case NmUpd(a, i, v) =>
      t.NmArrType? && HasType(decls, a, t) && HasType(decls, i, NmIntType) && HasType(decls, v, t.elem)
    case NmApp(a, i) => HasType(decls, a, NmArrType(t)) && HasType(decls, i, NmIntType)
    case NmVar(x) => x in decls && decls[x] == t
    case NmInt(_) => t == NmIntType
  }

  ghost predicate WellTyped(decls: Decls, s: NmStat)
    decreases s
  {
    match s
    case NmAssign(x, e) => x in decls && HasType(decls, e, decls[x])
    case NmTest(_, l, r) => HasType(decls, l, NmIntType) && HasType(decls, r, NmIntType)
    case NmSeq(ss) => AllWellTyped(decls, ss)
    case NmChoice(ss) => AllWellTyped(decls, ss)
    case NmLoop(b) => WellTyped(decls, b)
    case NmPrint(e) => exists t :: HasType(decls, e, t)
  }

  ghost predicate AllWellTyped(decls: Decls, ss: seq<NmStat>)
    decreases ss
  {
    ss == [] || (WellTyped(decls, ss[0]) && AllWellTyped(decls, ss[1..]))
  }

  predicate Distinct(ds: seq<NmDecl>) {
    forall i, j :: 0 <= i < j < |ds| ==> ds[i].name != ds[j].name
  }

  /** `decls` says exactly what the declarations say. */
  ghost predicate Declares(ds: seq<NmDecl>, decls: Decls) {
    && (forall d :: d in ds ==> d.name in decls && decls[d.name] == d.ty)
    && (forall x :: x in decls ==> exists d :: d in ds && d.name == x)
  }

  ghost predicate WellTypedProgram(p: NmProg) {
    Distinct(p.decls) && exists decls :: Declares(p.decls, decls) && WellTyped(decls, p.body)
  }

  // ----- the checker decides the rules -----

  /** The checker finds the type the rules give, and reports something exactly when there is none. */
  lemma {:induction false} EvalNmTypeExact(e: NmExp, decls: Decls)
    ensures var c := EvalNmType(e, decls);
            && (c.ty.None? <==> c.reports != [])
            && (forall t :: HasType(decls, e, t) <==> c.ty == Some(t))
  {
    match e
    case NmBinOp(_, l, r) => EvalNmTypeExact(l, decls); EvalNmTypeExact(r, decls);
    case NmUnOp(_, e1) => EvalNmTypeExact(e1, decls);
    case NmUpd(a, i, v) => EvalNmTypeExact(a, decls); EvalNmTypeExact(i, decls); EvalNmTypeExact(v, decls);
    case NmApp(a, i) => EvalNmTypeExact(a, decls); EvalNmTypeExact(i, decls);
    case NmVar(_) =>
    case NmInt(_) =>
  }

  lemma {:induction false} TypecheckNmStatExact(s: NmStat, decls: Decls)
    ensures TypecheckNmStat(s, decls) == [] <==> WellTyped(decls, s)
    decreases s, 1
  {
    hide EvalNmType, HasType;
    match s
    case NmAssign(x, e) => EvalNmTypeExact(e, decls);
    case NmTest(_, l, r) => EvalNmTypeExact(l, decls); EvalNmTypeExact(r, decls);
    case NmSeq(ss) => TypecheckAllExact(ss, decls);
    case NmChoice(ss) => TypecheckAllExact(ss, decls);
    case NmLoop(b) => TypecheckNmStatExact(b, decls);
    case NmPrint(e) =>
      EvalNmTypeExact(e, decls);
      var c := EvalNmType(e, decls);
      if c.ty.Some? { assert HasType(decls, e, c.ty.value); }
  }

  lemma {:induction false} TypecheckAllExact(ss: seq<NmStat>, decls: Decls)
    ensures TypecheckAll(ss, decls) == [] <==> AllWellTyped(decls, ss)
    decreases ss, 0
  {
    if ss != [] {
      TypecheckNmStatExact(ss[0], decls);
      TypecheckAllExact(ss[1..], decls);
    }
  }

  lemma {:induction false} TypedeclsExact(ds: seq<NmDecl>, done: seq<NmDecl>, acc: Declared)
    requires Declares(done, acc.decls) && Distinct(done) && acc.reports == []
    ensures var r := Typedecls(ds, acc);
            && (r.reports == [] <==> Distinct(done + ds))
            && (r.reports == [] ==> Declares(done + ds, r.decls))
  {
    if ds == [] {
      assert done + ds == done;
    } else {
      var d := ds[0];
      var done1 := done + [d];
      assert done + ds == done1 + ds[1..];
      var acc1 := Declared(acc.decls[d.name := d.ty], acc.reports);
      if d.name in acc.decls {
        var e :| e in done && e.name == d.name;
        var i :| 0 <= i < |done| && done[i] == e;
        var all := done + ds;
        assert i < |done| < |all| && all[i].name == all[|done|].name;
        assert !Distinct(all);
        assert acc.reports + [DuplicateDeclaration(d.name)] == [DuplicateDeclaration(d.name)];
        ReportsStay(ds[1..], Declared(acc1.decls, [DuplicateDeclaration(d.name)]));
      } else {
        DeclaresOneMore(done, d, acc.decls);
        TypedeclsExact(ds[1..], done1, acc1);
      }
    }
  }

  lemma DeclaresOneMore(done: seq<NmDecl>, d: NmDecl, decls: Decls)
    requires Declares(done, decls) && Distinct(done) && d.name !in decls
    ensures Declares(done + [d], decls[d.name := d.ty]) && Distinct(done + [d])
  {
    var more := done + [d];
    forall i, j | 0 <= i < j < |more| ensures more[i].name != more[j].name {
      assert more[i] in done;
    }
    assert d in more && forall e :: e in more <==> e in done || e == d;
  }

  lemma {:induction false} ReportsStay(ds: seq<NmDecl>, acc: Declared)
    requires acc.reports != []
    ensures Typedecls(ds, acc).reports != []
  {
    if ds != [] {
      var d := ds[0];
      ReportsStay(ds[1..], Declared(acc.decls[d.name := d.ty],
                                    if d.name in acc.decls then acc.reports + [DuplicateDeclaration(d.name)]
                                    else acc.reports));
    }
  }

  lemma DeclaresUnique(ds: seq<NmDecl>, d1: Decls, d2: Decls)
    requires Declares(ds, d1) && Declares(ds, d2)
    ensures d1 == d2
  {
    assert forall x :: x in d1 <==> x in d2;
  }

  /** No report at all exactly when no variable is declared twice and the body obeys the typing rules. */
  lemma TypecheckNmProgramExact(p: NmProg)
    ensures TypecheckNmProgram(p) == [] <==> WellTypedProgram(p)
  {
    hide WellTyped, TypecheckNmStat, Declares, Distinct;
    var start := Declared(map[], []);
    EmptyDeclares();
    TypedeclsExact(p.decls, [], start);
    assert [] + p.decls == p.decls;
    var d := NmProgTypedecls(p);
    TypecheckNmStatExact(p.body, d.decls);
    if decls :| Distinct(p.decls) && Declares(p.decls, decls) && WellTyped(decls, p.body) {
      DeclaresUnique(p.decls, decls, d.decls);
    }
  }

  lemma EmptyDeclares()
    ensures Declares([], map[]) && Distinct([])
  {
  }

  // ----- well-typed values, states and instructions -----

  predicate ValOk(v: NmVal, t: NmType) {
    match v
    case NmValInt(_) => t == NmIntType
    case NmValArr(arr) => t.NmArrType? && forall i :: 0 <= i < |arr| ==> ValOk(arr[i], t.elem)
  }

  predicate StateOk(decls: Decls, st: NmState) {
    forall x :: x in decls ==> x in st && ValOk(st[x], decls[x])
  }

  /** The initial bindings may be missing or extra, but those of declared variables have the declared type. */
  predicate InitOk(decls: Decls, init: NmState) {
    forall x :: x in decls && x in init ==> ValOk(init[x], decls[x])
  }

  /** An evaluation that gives no value does so for an index out of range or a division by zero only. */
  predicate OnlyRangeOrDivision<T>(o: Outcome<T>) {
    (o.NoValue? ==> o.why == IndexPastEnd) && (o.Abort? ==> o.how == DivisionByZero || o.how == NegativeIndex)
  }

  lemma {:induction false} EvalSafe(decls: Decls, e: NmExp, t: NmType, st: NmState)
    requires HasType(decls, e, t) && StateOk(decls, st)
    ensures var o := VmEval(e, st);
            OnlyRangeOrDivision(o) && (o.Value? ==> ValOk(o.v, t))
  {
    match e
    case NmBinOp(_, l, r) => EvalSafe(decls, l, NmIntType, st); EvalSafe(decls, r, NmIntType, st);
    case NmUnOp(_, e1) => EvalSafe(decls, e1, NmIntType, st);
    case NmUpd(a, i, v) =>
      EvalSafe(decls, a, t, st);
      EvalSafe(decls, i, NmIntType, st);
      EvalSafe(decls, v, t.elem, st);
    case NmApp(a, i) => EvalSafe(decls, a, NmArrType(t), st); EvalSafe(decls, i, NmIntType, st);
    case NmVar(_) =>
    case NmInt(_) =>
  }

  ghost predicate InstrOk(decls: Decls, i: VNmStat) {
    match i
    case VNmAssign(x, e, _) => x in decls && HasType(decls, e, decls[x])
    case VNmIf(_, l, r, _, _) => HasType(decls, l, NmIntType) && HasType(decls, r, NmIntType)
    case VNmPrint(e, _) => exists t :: HasType(decls, e, t)
  }

  ghost predicate CodeOk(decls: Decls, code: seq<VNmStat>) {
    forall i :: 0 <= i < |code| ==> InstrOk(decls, code[i])
  }

  /** What the evaluations of an instruction can do. */
  predicate InstrSafe(i: VNmStat, st: NmState) {
    match i
    case VNmAssign(_, e, _) => OnlyRangeOrDivision(VmEval(e, st))
    case VNmIf(c, l, r, _, _) => OnlyRangeOrDivision(VmEvalCond(c, l, r, st))
    case VNmPrint(e, _) => OnlyRangeOrDivision(VmEval(e, st))
  }

  // ----- translation keeps typing -----

  /** The translation of a well-typed statement is well-typed code. */
  lemma TranslWellTyped(decls: Decls, s: NmStat)
    requires WellTyped(decls, s)
    ensures CodeOk(decls, Transl(s))
  {
    hide InstrOk, Transl;
    var ok := (i: VNmStat) => InstrOk(decls, i);
    WellTypedCores(decls, s);
    TranslKeeps(s, ok);
    forall i | 0 <= i < |Transl(s)| ensures InstrOk(decls, Transl(s)[i]) {
      assert ok(Strip(Transl(s)[i]));
      StripOk(decls, Transl(s)[i]);
    }
  }

  lemma StripOk(decls: Decls, i: VNmStat)
    ensures InstrOk(decls, Strip(i)) <==> InstrOk(decls, i)
  {
  }

  lemma {:induction false} WellTypedCores(decls: Decls, s: NmStat)
    requires WellTyped(decls, s)
    ensures StatCores(s, (i: VNmStat) => InstrOk(decls, i))
    decreases s, 1
  {
    assert InstrOk(decls, AlwaysTo([]));
    match s
    case NmSeq(ss) => AllWellTypedCores(decls, ss);
    case NmChoice(ss) => AllWellTypedCores(decls, ss);
    case NmLoop(b) => WellTypedCores(decls, b);
    case _ =>
  }

  lemma {:induction false} AllWellTypedCores(decls: Decls, ss: seq<NmStat>)
    requires AllWellTyped(decls, ss)
    ensures AllStatCores(ss, (i: VNmStat) => InstrOk(decls, i))
    decreases ss, 0
  {
    if ss != [] {
      WellTypedCores(decls, ss[0]);
      AllWellTypedCores(decls, ss[1..]);
    }
  }

  // ----- type safety -----

  lemma InstructionSafe(decls: Decls, i: VNmStat, st: NmState)
    requires InstrOk(decls, i) && StateOk(decls, st)
    ensures InstrSafe(i, st)
    ensures Execute(i, st).Goto? ==> StateOk(decls, Execute(i, st).state)
  {
    hide HasType, VmEval, ValOk;
    match i
    case VNmAssign(x, e, _) => EvalSafe(decls, e, decls[x], st);
    case VNmIf(_, l, r, _, _) =>
      EvalSafe(decls, l, NmIntType, st);
      EvalSafe(decls, r, NmIntType, st);
      IntOperands(l, st);
      IntOperands(r, st);
    case VNmPrint(e, _) =>
      var t :| HasType(decls, e, t);
      EvalSafe(decls, e, t, st);
  }

  lemma IntOperands(e: NmExp, st: NmState)
    ensures VmEval(e, st).Value? && ValOk(VmEval(e, st).v, NmIntType) ==> VmEval(e, st).v.NmValInt?
  {
  }

  lemma {:induction false} StartStateOk(ds: seq<NmDecl>, decls: Decls, vars: NmState)
    requires Distinct(ds) && forall d :: d in ds ==> d.name in decls && decls[d.name] == d.ty
    requires InitOk(decls, vars)
    ensures InitOk(decls, StartState(ds, vars))
    ensures forall d :: d in ds ==> d.name in StartState(ds, vars)
    ensures forall x :: x in vars ==> x in StartState(ds, vars)
  {
    if ds != [] {
      var d := ds[0];
      assert d in ds && forall e :: e in ds[1..] ==> e in ds;
      var vars1 := if d.name in vars then vars else vars[d.name := MakeDefaultValue(d.ty)];
      StartStateOk(ds[1..], decls, vars1);
      assert forall e :: e in ds ==> e == d || e in ds[1..];
    }
  }

  lemma {:induction false} StaysTyped(decls: Decls, prog: seq<VNmStat>, start: VNmConf, k: nat, c: VNmConf)
    requires CodeOk(decls, prog) && LayoutOk(prog) && StateOk(decls, start.state)
    requires Reaches(prog, start, k, c)
    ensures StateOk(decls, c.state)
  {
    hide CanStep, Reaches, LayoutOk, StateOk, Execute, InstrOk;
    if k == 0 {
      ReachesZero(prog, start, c);
    } else {
      ReachesNext(prog, start, k - 1, c);
      var m :| Reaches(prog, start, k - 1, m) && CanStep(prog, m, c);
      StaysTyped(decls, prog, start, k - 1, m);
      StepInRange(prog, m, c);
      InstructionSafe(decls, prog[m.lab], m.state);
    }
  }

  /** What a program without reports gives its runs to start from. */
  lemma CheckedProgram(p: NmProg, init: NmState)
    requires TypecheckNmProgram(p) == [] && InitOk(NmProgTypedecls(p).decls, init)
    ensures WellTyped(NmProgTypedecls(p).decls, p.body)
    ensures StateOk(NmProgTypedecls(p).decls, StartState(p.decls, init))
  {
    hide WellTyped, TypecheckNmStat, StartState, ValOk, Typedecls, Distinct;
    var decls := NmProgTypedecls(p).decls;
    EmptyDeclares();
    TypedeclsExact(p.decls, [], Declared(map[], []));
    assert [] + p.decls == p.decls;
    TypecheckNmStatExact(p.body, decls);
    StartStateOk(p.decls, decls, init);
  }

  /** Type safety over whole runs: when the checker makes no report and the initial bindings have the declared types,
      every configuration the machine can reach is inside the program or at its end, holds a value of the declared
      type for every declared variable, and its instruction can only fail on an index out of range or a division
      by zero. */
  lemma TypeSafety(p: NmProg, init: NmState, k: nat, c: VNmConf)
    requires TypecheckNmProgram(p) == [] && NonEmpty(p.body)
    requires InitOk(NmProgTypedecls(p).decls, init)
    requires Reaches(Transl(p.body), VNmConf(0, StartState(p.decls, init)), k, c)
    ensures 0 <= c.lab <= |Transl(p.body)|
    ensures StateOk(NmProgTypedecls(p).decls, c.state)
    ensures c.lab < |Transl(p.body)| ==> InstrSafe(Transl(p.body)[c.lab], c.state)
  {
    hide Transl, Reaches, LayoutOk, WellTyped, TypecheckNmStat, InstrOk, InstrSafe, Typedecls, StartState, Distinct, ValOk;
    var decls := NmProgTypedecls(p).decls;
    var prog, start := Transl(p.body), VNmConf(0, StartState(p.decls, init));
    CheckedProgram(p, init);
    TranslWellTyped(decls, p.body);
    Layout(p.body);
    LabelsInRange(prog, start, k, c);
    StaysTyped(decls, prog, start, k, c);
    if c.lab < |prog| {
      InstructionSafe(decls, prog[c.lab], c.state);
    }
  }
}
