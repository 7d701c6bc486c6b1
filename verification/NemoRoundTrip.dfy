/** Reading a printed machine program gives the program back. */
module NemoRoundTrip {
  import opened NemoAst
  import opened NemoPrint
  import opened NemoTransl
  import opened NemoLayout
  import opened NemoCores
  import opened NemoDesugar

  // ----- what the grammar can express -----

  predicate LowerName(x: string) {
    x != [] && forall i :: 0 <= i < |x| ==> IsLetter(x[i])
  }

  predicate BinaryOperator(op: string) { op in ["+", "*", "/", "-", "%"] }

  /** Lower-case names, literals that are not negative, and the operators of the grammar. */
  predicate ExpReadable(e: NmExp) {
    match e
    case NmBinOp(op, l, r) => BinaryOperator(op) && ExpReadable(l) && ExpReadable(r)
    case NmUnOp(op, e1) => op == "-" && ExpReadable(e1)
    case NmUpd(a, i, v) => ExpReadable(a) && ExpReadable(i) && ExpReadable(v)
    case NmApp(a, i) => ExpReadable(a) && ExpReadable(i)
    case NmVar(x) => LowerName(x)
    case NmInt(n) => n >= 0
  }

  predicate LabsReadable(labs: seq<int>) { forall i :: 0 <= i < |labs| ==> labs[i] >= 0 }

  predicate StatReadable(s: VNmStat) {
    match s
    case VNmAssign(x, e, goto) => LowerName(x) && ExpReadable(e) && LabsReadable(goto)
    case VNmIf(c, l, r, pos, neg) =>
      IsComparison(c) && ExpReadable(l) && ExpReadable(r) && LabsReadable(pos) && LabsReadable(neg)
    case VNmPrint(e, goto) => ExpReadable(e) && LabsReadable(goto)
  }

  predicate BodyReadable(body: seq<VNmStat>) { forall i :: 0 <= i < |body| ==> StatReadable(body[i]) }

  predicate DeclsReadable(ds: seq<NmDecl>) { forall i :: 0 <= i < |ds| ==> LowerName(ds[i].name) }

  predicate ProgReadable(p: VNmProg) {
    p.body != [] && BodyReadable(p.body) && DeclsReadable(p.decls)
  }

  // ----- tokens -----

  lemma LitHead(t: string, rest: string)
    ensures Lit(t, t + rest) == Ok((), rest)
  {
    assert (t + rest)[..|t|] == t && (t + rest)[|t|..] == rest;
  }

  lemma LitOther(t: string, s: string)
    requires t != [] && (s == [] || s[0] != t[0])
    ensures Lit(t, s) == Fail
  {
  }

  predicate NoBlank(s: string) { s == [] || !IsBlank(s[0]) }

  lemma WsSkip(s: string)
    requires NoBlank(s)
    ensures Ws(" " + s) == s && Ws("\n" + s) == s
  {
    assert (" " + s)[1..] == s && ("\n" + s)[1..] == s;
  }

  lemma {:induction false} SpanAll(p: char -> bool, a: string, rest: string)
    requires (forall i :: 0 <= i < |a| ==> p(a[i])) && (rest == [] || !p(rest[0]))
    ensures Span(p, a + rest) == (a, rest)
  {
    if a == [] {
      assert a + rest == rest;
    } else {
      SpanAll(p, a[1..], rest);
      assert (a + rest)[1..] == a[1..] + rest;
      assert a == [a[0]] + a[1..];
    }
  }

  lemma {:induction false} Nat2sDigits(n: nat)
    ensures Nat2s(n) != [] && forall i :: 0 <= i < |Nat2s(n)| ==> IsDigit(Nat2s(n)[i])
    ensures S2i(Nat2s(n)) == n && (n > 0 ==> Nat2s(n)[0] != '0')
  {
    if n >= 10 {
      Nat2sDigits(n / 10);
      var s := Nat2s(n);
      assert s[..|s|-1] == Nat2s(n / 10);
    } else {
      assert Nat2s(n)[..0] == [];
    }
  }

  lemma IntvalBack(n: nat, rest: string)
    requires rest == [] || !IsDigit(rest[0])
    ensures ParseIntval(I2s(n) + rest) == Ok(n as int, Ws(rest))
    ensures I2s(n) != [] && IsDigit(I2s(n)[0])
  {
    Nat2sDigits(n);
    SpanAll(IsDigit, I2s(n), rest);
  }

  lemma IdBack(x: string, rest: string)
    requires LowerName(x) && (rest == [] || !IsLetter(rest[0]))
    ensures ParseId(x + rest) == Ok(x, Ws(rest))
  {
    SpanAll(IsLetter, x, rest);
  }

  /** A keyword and then a parenthesis cannot be read off a name that no parenthesis follows. */
  lemma NotACall(t: string, x: string, rest: string)
    requires LowerName(t) && LowerName(x) && (rest == [] || !IsLetter(rest[0]))
    requires Ws(rest) == [] || Ws(rest)[0] != '('
    ensures var k := Lit(t, x + rest); k.Fail? || Lit("(", Ws(k.rest)) == Fail
  {
    var s := x + rest;
    if t <= s {
      assert forall i :: 0 <= i < |t| ==> t[i] == s[i] && IsLetter(s[i]);
      assert |x| < |s| ==> s[|x|] == rest[0];
      if |t| == |x| {
        assert s[|t|..] == rest;
        LitOther("(", Ws(rest));
      } else if |t| < |x| {
        var more := s[|t|..];
        assert more[0] == x[|t|];
        LitOther("(", more);
      }
    }
  }

  // ----- expressions -----

  /** What may stand after an expression: no letter, no digit, and no parenthesis opens. */
  predicate Follow(rest: string) {
    && rest != [] && !IsLetter(rest[0]) && !IsDigit(rest[0])
    && (Ws(rest) == [] || Ws(rest)[0] != '(')
  }

  function Head(e: NmExp): char {
    match e
    case NmBinOp(_, _, _) => '('
    case NmUnOp(_, _) => '-'
    case NmUpd(_, _, _) => 'u'
    case NmApp(_, _) => 'a'
    case NmVar(x) => if x == [] then ' ' else x[0]
    case NmInt(n) => I2s(n)[0]
  }

  lemma HeadOf(e: NmExp, rest: string)
    requires ExpReadable(e)
    ensures NmExp2s(e) != [] && NmExp2s(e)[0] == Head(e) && (NmExp2s(e) + rest)[0] == Head(e)
    ensures NoBlank(NmExp2s(e) + rest) && Ws(NmExp2s(e) + rest) == NmExp2s(e) + rest
    ensures e.NmInt? <==> IsDigit(Head(e))
  {
    if e.NmInt? {
      Nat2sDigits(e.n);
    }
  }

  lemma NoConst(s: string)
    requires s != [] && !IsDigit(s[0])
    ensures ParseConst(s) == Fail
  {
  }

  lemma BinOpSteps(op: string, l: NmExp, r: NmExp, s1: string, s2: string, s3: string, rest: string)
    requires ParseExp(Ws(s1)) == Ok(l, s2) && ParseOp(s2) == Ok(op, s3) && ParseExp(Ws(s3)) == Ok(r, ")" + rest)
    ensures ParseBinOp("(" + s1) == Ok(NmBinOp(op, l, r), Ws(rest))
  {
    hide ParseExp, Lit, ParseOp, Ws;
    LitHead("(", s1);
    LitHead(")", rest);
  }

  lemma BinOpText(op: string, l: NmExp, r: NmExp, rest: string)
    ensures NmExp2s(NmBinOp(op, l, r)) + rest
            == "(" + (NmExp2s(l) + (" " + (op + (" " + (NmExp2s(r) + (")" + rest))))))
  {
    hide NmExp2s;
    PrintBinOp(op, l, r);
  }

  lemma PrintBinOp(op: string, l: NmExp, r: NmExp)
    ensures NmExp2s(NmBinOp(op, l, r)) == "(" + NmExp2s(l) + " " + op + " " + NmExp2s(r) + ")"
  {
  }

  lemma OpBack(op: string, rest: string)
    requires BinaryOperator(op)
    ensures ParseOp(op + rest) == Ok(op, rest) && NoBlank(op + rest) && Follow(" " + (op + rest))
  {
    var s := op + rest;
    assert |op| == 1 && op[0] in "+*/-%" && s[0] == op[0] && s[1..] == rest && op == [op[0]];
    WsSkip(s);
  }

  /** Characters that end an expression without a blank. */
  lemma StopFollow(c: char, rest: string)
    requires c in "),"
    ensures Follow([c] + rest) && Ws([c] + rest) == [c] + rest
  {
  }

  lemma UnOpBack(e: NmExp, rest: string)
    requires ExpReadable(e) && ParseExp(NmExp2s(e) + rest) == Ok(e, Ws(rest))
    ensures ParseUnOp(NmExp2s(NmUnOp("-", e)) + rest) == Ok(NmUnOp("-", e), Ws(rest))
  {
    hide ParseExp, Lit, ExpReadable, Ws, NmExp2s, NoBlank;
    var s1 := NmExp2s(e) + rest;
    PrintUnOp(e);
    assert NmExp2s(NmUnOp("-", e)) + rest == "-" + (" " + s1);
    LitHead("-", " " + s1);
    HeadOf(e, rest);
    WsSkip(s1);
  }

  lemma PrintUnOp(e: NmExp)
    ensures NmExp2s(NmUnOp("-", e)) == "-" + " " + NmExp2s(e)
  {
  }

  lemma ParenFirst(s: string)
    ensures Ws("(" + s) == "(" + s
  {
  }

  lemma AppSteps(a: NmExp, i: NmExp, s1: string, s2: string, rest: string)
    requires ParseExp(Ws(s1)) == Ok(a, "," + s2) && ParseExp(Ws(s2)) == Ok(i, ")" + rest)
    ensures ParseApp("app" + ("(" + s1)) == Ok(NmApp(a, i), Ws(rest))
  {
    ParenFirst(s1);
    hide ParseExp, Lit, Ws;
    LitHead("app", "(" + s1);
    LitHead("(", s1);
    LitHead(",", s2);
    LitHead(")", rest);
  }

  lemma AppText(a: NmExp, i: NmExp, rest: string)
    ensures NmExp2s(NmApp(a, i)) + rest
            == "app" + ("(" + (NmExp2s(a) + ("," + (" " + (NmExp2s(i) + (")" + rest))))))
  {
    hide NmExp2s;
    PrintApp(a, i);
  }

  lemma PrintApp(a: NmExp, i: NmExp)
    ensures NmExp2s(NmApp(a, i)) == "app(" + NmExp2s(a) + ", " + NmExp2s(i) + ")"
  {
  }

  lemma UpdSteps(a: NmExp, i: NmExp, v: NmExp, s1: string, s2: string, s3: string, rest: string)
    requires ParseExp(Ws(s1)) == Ok(a, "," + s2) && ParseExp(Ws(s2)) == Ok(i, "," + s3)
    requires ParseExp(Ws(s3)) == Ok(v, ")" + rest)
    ensures ParseUpd("upd" + ("(" + s1)) == Ok(NmUpd(a, i, v), Ws(rest))
  {
    ParenFirst(s1);
    hide ParseExp, Lit, Ws;
    LitHead("upd", "(" + s1);
    LitHead("(", s1);
    LitHead(",", s2);
    LitHead(",", s3);
    LitHead(")", rest);
  }

  lemma UpdText(a: NmExp, i: NmExp, v: NmExp, rest: string)
    ensures NmExp2s(NmUpd(a, i, v)) + rest
            == "upd" + ("(" + (NmExp2s(a) + ("," + (" " + (NmExp2s(i) + ("," + (" " + (NmExp2s(v) + (")" + rest)))))))))
  {
    hide NmExp2s;
    PrintUpd(a, i, v);
  }

  lemma PrintUpd(a: NmExp, i: NmExp, v: NmExp)
    ensures NmExp2s(NmUpd(a, i, v)) == "upd(" + NmExp2s(a) + ", " + NmExp2s(i) + ", " + NmExp2s(v) + ")"
  {
  }

  /** A name is read as a variable, also when it starts with a keyword. */
  lemma VarBack(x: string, rest: string)
    requires LowerName(x) && Follow(rest)
    ensures ParseExp(x + rest) == Ok(NmVar(x), Ws(rest))
  {
    hide Lit, LowerName;
    var s := x + rest;
    assert s[0] == x[0] && IsLetter(x[0]) by { NameHead(x); }
    NoConst(s);
    LitOther("(", s);
    LitOther("-", s);
    Keywords();
    NotACall("app", x, rest);
    NotACall("upd", x, rest);
    IdBack(x, rest);
  }

  lemma NameHead(x: string)
    requires LowerName(x)
    ensures x != [] && IsLetter(x[0])
  {
  }

  lemma Keywords()
    ensures LowerName("app") && LowerName("upd") && LowerName("print")
  {
  }

  /** Reading back a printed expression. */
  lemma {:induction false} ExpBack(e: NmExp, rest: string)
    requires ExpReadable(e) && Follow(rest)
    ensures ParseExp(NmExp2s(e) + rest) == Ok(e, Ws(rest))
    decreases e
  {
    hide Lit, ParseBinOp, ParseUnOp, ParseApp, ParseUpd, NmExp2s;
    var s := NmExp2s(e) + rest;
    HeadOf(e, rest);
    if !e.NmInt? { NoConst(s); }
    match e
    case NmBinOp(op, l, r) =>
      var s3 := " " + (NmExp2s(r) + (")" + rest));
      OpBack(op, s3);
      ExpBack(l, " " + (op + s3));
      WsSkip(op + s3);
      HeadOf(l, " " + (op + s3));
      StopFollow(')', rest);
      ExpBack(r, ")" + rest);
      HeadOf(r, ")" + rest);
      WsSkip(NmExp2s(r) + (")" + rest));
      BinOpText(op, l, r, rest);
      BinOpSteps(op, l, r, NmExp2s(l) + (" " + (op + s3)), op + s3, s3, rest);
    case NmUnOp(op, e1) =>
      ExpBack(e1, rest);
      NoParen(s);
      UnOpBack(e1, rest);
    case NmApp(a, i) =>
      var s2 := " " + (NmExp2s(i) + (")" + rest));
      StopFollow(',', s2);
      ExpBack(a, "," + s2);
      HeadOf(a, "," + s2);
      StopFollow(')', rest);
      ExpBack(i, ")" + rest);
      HeadOf(i, ")" + rest);
      WsSkip(NmExp2s(i) + (")" + rest));
      AppText(a, i, rest);
      AppSteps(a, i, NmExp2s(a) + ("," + s2), s2, rest);
      NoParen(s);
      NoMinus(s);
    case NmUpd(a, i, v) =>
      var s3 := " " + (NmExp2s(v) + (")" + rest));
      var s2 := " " + (NmExp2s(i) + ("," + s3));
      StopFollow(',', s2);
      ExpBack(a, "," + s2);
      HeadOf(a, "," + s2);
      StopFollow(',', s3);
      ExpBack(i, "," + s3);
      HeadOf(i, "," + s3);
      WsSkip(NmExp2s(i) + ("," + s3));
      StopFollow(')', rest);
      ExpBack(v, ")" + rest);
      HeadOf(v, ")" + rest);
      WsSkip(NmExp2s(v) + (")" + rest));
      UpdText(a, i, v, rest);
      UpdSteps(a, i, v, NmExp2s(a) + ("," + s2), s2, s3, rest);
      NoParen(s);
      NoMinus(s);
      NoApp(s);
    case NmVar(x) =>
      PrintVar(x);
      VarBack(x, rest);
    case NmInt(n) =>
      PrintInt(n);
      IntvalBack(n, rest);
  }

  lemma PrintVar(x: string) ensures NmExp2s(NmVar(x)) == x {}

  lemma PrintInt(n: int) ensures NmExp2s(NmInt(n)) == I2s(n) {}

  lemma NoParen(s: string)
    requires s != [] && s[0] != '('
    ensures ParseBinOp(s) == Fail
  {
    LitOther("(", s);
  }

  lemma NoMinus(s: string)
    requires s != [] && s[0] != '-'
    ensures ParseUnOp(s) == Fail
  {
    LitOther("-", s);
  }

  lemma NoApp(s: string)
    requires s != [] && s[0] != 'a'
    ensures ParseApp(s) == Fail
  {
    LitOther("app", s);
  }

  // ----- jumps -----

  lemma NoIntval(s: string)
    requires s == [] || !IsDigit(s[0])
    ensures ParseIntval(s) == Fail && ParseIntvals(s) == ([], s)
  {
  }

  lemma LabsHead(labs: seq<int>, rest: string)
    requires LabsReadable(labs)
    ensures labs != [] ==> Labs2s(labs) != [] && IsDigit(Labs2s(labs)[0])
    ensures NoBlank(Labs2s(labs) + ("}" + rest))
  {
    if labs != [] {
      Nat2sDigits(labs[0]);
    }
  }

  lemma IntvalsCons(s: string, n: int, more: string)
    requires ParseIntval(s) == Ok(n, more)
    ensures ParseIntvals(s) == ([n] + ParseIntvals(more).0, ParseIntvals(more).1)
  {
    hide ParseIntval;
  }

  lemma Brace(rest: string)
    ensures Ws("}" + rest) == "}" + rest && !IsDigit(("}" + rest)[0]) && !IsDigit(' ')
  {
  }

  lemma LabsText(labs: seq<int>, s: string)
    ensures labs == [] ==> Labs2s(labs) + s == s
    ensures labs != [] ==>
              Labs2s(labs) + s == I2s(labs[0]) + (if |labs| == 1 then s else " " + (Labs2s(labs[1..]) + s))
  {
    hide I2s;
  }

  lemma {:induction false} LabsBack(labs: seq<int>, rest: string)
    requires LabsReadable(labs)
    ensures ParseIntvals(Labs2s(labs) + ("}" + rest)) == (labs, "}" + rest)
  {
    hide ParseIntval, I2s, ParseIntvals, Ws, IsDigit, Labs2s;
    var s := "}" + rest;
    Brace(rest);
    LabsText(labs, s);
    if labs == [] {
      NoIntval(s);
    } else {
      var more := if |labs| == 1 then s else " " + (Labs2s(labs[1..]) + s);
      if |labs| > 1 {
        LabsHead(labs[1..], rest);
        WsSkip(Labs2s(labs[1..]) + s);
        LabsBack(labs[1..], rest);
      } else {
        NoIntval(s);
      }
      IntvalBack(labs[0], more);
      IntvalsCons(Labs2s(labs) + s, labs[0], Ws(more));
      assert labs == [labs[0]] + labs[1..];
    }
  }

  function GotoText(labs: seq<int>, rest: string): string {
    "goto" + (" " + ("{" + (Labs2s(labs) + ("}" + rest))))
  }

  lemma GotoBack(labs: seq<int>, rest: string)
    requires LabsReadable(labs)
    ensures ParseGoto(GotoText(labs, rest)) == Ok(labs, Ws(rest)) && NoBlank(GotoText(labs, rest))
    ensures Follow(" " + GotoText(labs, rest)) && Ws(" " + GotoText(labs, rest)) == GotoText(labs, rest)
  {
    var s2 := Labs2s(labs) + ("}" + rest);
    WsSkip("{" + s2);
    WsSkip(GotoText(labs, rest));
    LabsHead(labs, rest);
    assert Ws(s2) == s2;
    hide Ws, Lit, ParseIntvals, Labs2s;
    LitHead("goto", " " + ("{" + s2));
    LitHead("{", s2);
    LabsBack(labs, rest);
    LitHead("}", rest);
  }

  // ----- instructions -----

  lemma AssignText(x: string, e: NmExp, goto: seq<int>, rest: string)
    ensures VnmStat2s(VNmAssign(x, e, goto)) + rest
            == x + (" " + (":=" + (" " + (NmExp2s(e) + (" " + GotoText(goto, rest))))))
  {
    hide NmExp2s, Labs2s;
  }

  lemma PrintText(e: NmExp, goto: seq<int>, rest: string)
    ensures VnmStat2s(VNmPrint(e, goto)) + rest
            == "print" + ("(" + (NmExp2s(e) + (")" + (" " + GotoText(goto, rest)))))
  {
    hide NmExp2s, Labs2s;
  }

  lemma IfText(c: string, l: NmExp, r: NmExp, pos: seq<int>, neg: seq<int>, rest: string)
    ensures VnmStat2s(VNmIf(c, l, r, pos, neg)) + rest
            == "if" + (" " + ("(" + (NmExp2s(l) + (" " + (c + (" " + (NmExp2s(r) + (")" + (" "
               + GotoText(pos, " " + ("else" + (" " + GotoText(neg, rest)))))))))))))
  {
    hide NmExp2s, Labs2s, GotoText;
    var pl, pr, gp, gn := NmExp2s(l), NmExp2s(r), Labs2s(pos), Labs2s(neg);
    IfTail(pos, neg, rest);
    var tail := "goto {" + gp + "} else " + "goto {" + gn + "}" + rest;
    assert VnmStat2s(VNmIf(c, l, r, pos, neg)) + rest == "if (" + pl + " " + c + " " + pr + ") " + tail;
  }

  lemma IfTail(pos: seq<int>, neg: seq<int>, rest: string)
    ensures "goto {" + Labs2s(pos) + "} else " + "goto {" + Labs2s(neg) + "}" + rest
            == GotoText(pos, " " + ("else" + (" " + GotoText(neg, rest))))
  {
    hide Labs2s;
  }

  lemma WsTwice(s: string)
    ensures Ws(Ws(s)) == Ws(s)
  {
  }

  lemma AssignBack(x: string, e: NmExp, goto: seq<int>, rest: string)
    requires LowerName(x) && ExpReadable(e) && LabsReadable(goto)
    ensures ParseAssign(VnmStat2s(VNmAssign(x, e, goto)) + rest) == Ok(VNmAssign(x, e, goto), Ws(rest))
  {
    var s3 := " " + GotoText(goto, rest);
    var s2 := NmExp2s(e) + s3;
    var s1 := ":=" + (" " + s2);
    WsSkip(s1);
    HeadOf(e, s3);
    WsSkip(s2);
    assert NoBlank(s1) && (" " + s1)[0] == ' ';
    hide Lit, ParseId, ParseExp, ParseGoto, Ws, NmExp2s, VnmStat2s, GotoText, Follow;
    AssignText(x, e, goto, rest);
    IdBack(x, " " + s1);
    LitHead(":=", " " + s2);
    GotoBack(goto, rest);
    ExpBack(e, s3);
    WsTwice(rest);
  }

  lemma PrintBack(e: NmExp, goto: seq<int>, rest: string)
    requires ExpReadable(e) && LabsReadable(goto)
    ensures ParsePrint(VnmStat2s(VNmPrint(e, goto)) + rest) == Ok(VNmPrint(e, goto), Ws(rest))
  {
    var s4 := " " + GotoText(goto, rest);
    var s2 := NmExp2s(e) + (")" + s4);
    ParenFirst(s2);
    HeadOf(e, ")" + s4);
    hide Lit, ParseExp, ParseGoto, Ws, NmExp2s, VnmStat2s, GotoText, Follow;
    PrintText(e, goto, rest);
    LitHead("print", "(" + s2);
    LitHead("(", s2);
    StopFollow(')', s4);
    ExpBack(e, ")" + s4);
    LitHead(")", s4);
    GotoBack(goto, rest);
  }

  lemma CondBack(c: string, rest: string)
    requires IsComparison(c)
    ensures ParseCond(c + (" " + rest)) == Ok(c, " " + rest)
    ensures NoBlank(c + (" " + rest)) && Follow(" " + (c + (" " + rest)))
  {
    var s := c + (" " + rest);
    assert s[0] == c[0] && s[1] == (if |c| == 2 then c[1] else ' ');
    assert s[|c|..] == " " + rest;
    WsSkip(s);
  }

  lemma IfBack(c: string, l: NmExp, r: NmExp, pos: seq<int>, neg: seq<int>, rest: string)
    requires IsComparison(c) && ExpReadable(l) && ExpReadable(r) && LabsReadable(pos) && LabsReadable(neg)
    ensures ParseIfElse(VnmStat2s(VNmIf(c, l, r, pos, neg)) + rest) == Ok(VNmIf(c, l, r, pos, neg), Ws(rest))
  {
    hide ParseIfElse, VnmStat2s, GotoText, NmExp2s, ParseCond;
    var s9 := " " + GotoText(neg, rest);
    var s8 := " " + ("else" + s9);
    var s7 := " " + GotoText(pos, s8);
    var s6 := NmExp2s(r) + (")" + s7);
    var s5 := c + (" " + s6);
    var s3 := NmExp2s(l) + (" " + s5);
    ParenFirst(s3);
    WsSkip("(" + s3);
    HeadOf(l, " " + s5);
    HeadOf(r, ")" + s7);
    CondBack(c, s6);
    WsSkip(s5);
    WsSkip(s6);
    WsSkip("else" + s9);
    IfSteps(c, l, r, pos, neg, rest, s3, s5, s6, s7, s8, s9);
  }

  lemma IfSteps(c: string, l: NmExp, r: NmExp, pos: seq<int>, neg: seq<int>, rest: string,
                s3: string, s5: string, s6: string, s7: string, s8: string, s9: string)
    requires ExpReadable(l) && ExpReadable(r) && LabsReadable(pos) && LabsReadable(neg)
    requires s9 == " " + GotoText(neg, rest) && s8 == " " + ("else" + s9) && s7 == " " + GotoText(pos, s8)
    requires s6 == NmExp2s(r) + (")" + s7) && s5 == c + (" " + s6) && s3 == NmExp2s(l) + (" " + s5)
    requires Ws(" " + ("(" + s3)) == "(" + s3 && Ws(s3) == s3 && Ws(" " + s5) == s5 && Ws(" " + s6) == s6
    requires Ws(s8) == "else" + s9 && Follow(" " + s5) && ParseCond(s5) == Ok(c, " " + s6)
    ensures ParseIfElse(VnmStat2s(VNmIf(c, l, r, pos, neg)) + rest) == Ok(VNmIf(c, l, r, pos, neg), Ws(rest))
  {
    hide Lit, ParseExp, ParseGoto, ParseCond, Ws, NmExp2s, VnmStat2s, GotoText, Follow;
    IfText(c, l, r, pos, neg, rest);
    LitHead("if", " " + ("(" + s3));
    LitHead("(", s3);
    ExpBack(l, " " + s5);
    StopFollow(')', s7);
    ExpBack(r, ")" + s7);
    LitHead(")", s7);
    GotoBack(pos, s8);
    LitHead("else", s9);
    GotoBack(neg, rest);
  }

  /** Reading back one numbered instruction. */
  lemma StatBack(i: nat, s: VNmStat, rest: string)
    requires StatReadable(s)
    ensures ParseStat(I2s(i) + (":" + (" " + (VnmStat2s(s) + rest)))) == Ok(s, Ws(rest))
  {
    var text := VnmStat2s(s) + rest;
    var s1 := ":" + (" " + text);
    StatHead(s, rest);
    WsSkip(text);
    assert NoBlank(s1) && Ws(s1) == s1 && !IsDigit(s1[0]);
    hide Lit, Ws, ParseIntval, ParsePrint, ParseAssign, ParseIfElse, VnmStat2s;
    IntvalBack(i, s1);
    LitHead(":", " " + text);
    match s
    case VNmAssign(x, e, goto) =>
      AssignIsNoPrint(x, e, goto, rest);
      AssignBack(x, e, goto, rest);
    case VNmPrint(e, goto) =>
      PrintBack(e, goto, rest);
    case VNmIf(c, l, r, pos, neg) =>
      IfIsNothingElse(c, l, r, pos, neg, rest);
      IfBack(c, l, r, pos, neg, rest);
  }

  lemma StatHead(s: VNmStat, rest: string)
    requires StatReadable(s)
    ensures NoBlank(VnmStat2s(s) + rest)
  {
    hide NmExp2s, Labs2s;
  }

  lemma AssignIsNoPrint(x: string, e: NmExp, goto: seq<int>, rest: string)
    requires LowerName(x)
    ensures ParsePrint(VnmStat2s(VNmAssign(x, e, goto)) + rest) == Fail
  {
    var s1 := ":=" + (" " + (NmExp2s(e) + (" " + GotoText(goto, rest))));
    WsSkip(s1);
    assert (" " + s1)[0] == ' ' && s1[0] == ':';
    hide NmExp2s, GotoText, VnmStat2s, Ws, Lit;
    AssignText(x, e, goto, rest);
    Keywords();
    NotACall("print", x, " " + s1);
  }

  lemma IfIsNothingElse(c: string, l: NmExp, r: NmExp, pos: seq<int>, neg: seq<int>, rest: string)
    ensures ParsePrint(VnmStat2s(VNmIf(c, l, r, pos, neg)) + rest) == Fail
    ensures ParseAssign(VnmStat2s(VNmIf(c, l, r, pos, neg)) + rest) == Fail
  {
    hide NmExp2s, GotoText, VnmStat2s;
    var s := VnmStat2s(VNmIf(c, l, r, pos, neg)) + rest;
    IfText(c, l, r, pos, neg, rest);
    var s1 := "(" + (NmExp2s(l) + (" " + (c + (" " + (NmExp2s(r) + (")" + (" "
               + GotoText(pos, " " + ("else" + (" " + GotoText(neg, rest)))))))))));
    assert s == "if" + (" " + s1);
    LitOther("print", s);
    WsSkip(s1);
    assert LowerName("if");
    IdBack("if", " " + s1);
    LitOther(":=", s1);
  }

  // ----- programs -----

  lemma {:induction false} BodyBack(i: nat, body: seq<VNmStat>)
    requires BodyReadable(body)
    ensures ParseStats(Body2s(i, body)) == (body, [])
    ensures NoBlank(Body2s(i, body)) && (body != [] ==> Body2s(i, body) != [] && IsDigit(Body2s(i, body)[0]))
    decreases body
  {
    hide VnmStat2s, ParseStat, I2s;
    if body == [] {
      NoStat();
    } else {
      var rest := Body2s(i + 1, body[1..]);
      BodyBack(i + 1, body[1..]);
      StatBack(i, body[0], "\n" + rest);
      WsSkip(rest);
      assert Body2s(i, body) == I2s(i) + (":" + (" " + (VnmStat2s(body[0]) + ("\n" + rest))));
      IntvalBack(i, ":" + (" " + (VnmStat2s(body[0]) + ("\n" + rest))));
      assert body == [body[0]] + body[1..];
    }
  }

  lemma NoStat()
    ensures ParseStat([]) == Fail
  {
    NoIntval([]);
  }

  lemma {:induction false} TypeBack(t: NmType, rest: string)
    requires NoBlank(rest)
    ensures ParseType(NmType2s(t) + rest) == Ok(t, rest) && NoBlank(NmType2s(t) + rest)
    decreases t
  {
    match t
    case NmIntType =>
      LitHead("int", rest);
    case NmArrType(a) =>
      var s1 := NmType2s(a) + ("]" + rest);
      TypeBack(a, "]" + rest);
      assert NmType2s(t) + rest == "[" + s1;
      LitOther("int", "[" + s1);
      LitHead("[", s1);
      LitHead("]", rest);
  }

  lemma DeclBack(d: NmDecl, rest: string)
    requires LowerName(d.name)
    ensures ParseDecl(NmDecl2s(d) + rest) == Ok(d, Ws(rest))
  {
    hide NmDecl2s, NmType2s, ParseType, ParseId, Lit, Ws, NoBlank;
    var s4 := ";" + rest;
    var s3 := NmType2s(d.ty) + s4;
    var s2 := ":" + (" " + s3);
    var s1 := d.name + (" " + s2);
    DeclText(d, rest);
    DeclBlanks(d, rest);
    TypeBack(d.ty, s4);
    LitHead("var", " " + s1);
    IdBack(d.name, " " + s2);
    LitHead(":", " " + s3);
    LitHead(";", rest);
  }

  lemma DeclText(d: NmDecl, rest: string)
    ensures NmDecl2s(d) + rest == "var" + (" " + (d.name + (" " + (":" + (" " + (NmType2s(d.ty) + (";" + rest)))))))
  {
    hide NmType2s;
  }

  /** Where blanks stand in a printed declaration, and where none do. */
  lemma DeclBlanks(d: NmDecl, rest: string)
    requires LowerName(d.name)
    ensures NoBlank(";" + rest)
    ensures var s3 := NmType2s(d.ty) + (";" + rest);
            var s2 := ":" + (" " + s3);
            var s1 := d.name + (" " + s2);
            Ws(" " + s3) == s3 && Ws(" " + s2) == s2 && Ws(" " + s1) == s1 && !IsLetter((" " + s2)[0])
  {
    var s3 := NmType2s(d.ty) + (";" + rest);
    var s2 := ":" + (" " + s3);
    var s1 := d.name + (" " + s2);
    TypeHead(d.ty, ";" + rest);
    NameHead(d.name);
    assert s1[0] == d.name[0] && s2[0] == ':';
    WsSkip(s3);
    WsSkip(s2);
    WsSkip(s1);
  }

  lemma TypeHead(t: NmType, rest: string)
    ensures NoBlank(NmType2s(t) + rest)
  {
  }

  lemma {:induction false} DeclsBack(ds: seq<NmDecl>, rest: string)
    requires DeclsReadable(ds) && NoBlank(rest) && rest != [] && IsDigit(rest[0])
    ensures ParseDecls(Ws(Decls2s(ds) + ("\n" + rest))) == (ds, rest)
  {
    hide NmDecl2s, ParseDecl, Ws;
    if ds == [] {
      assert Decls2s(ds) + ("\n" + rest) == "\n" + rest;
      WsSkip(rest);
      NoDecl(rest);
    } else {
      var more := Decls2s(ds[1..]) + ("\n" + rest);
      DeclsBack(ds[1..], rest);
      DeclBack(ds[0], "\n" + more);
      NewLine(more);
      DeclHead(ds[0], "\n" + more);
      assert Decls2s(ds) + ("\n" + rest) == NmDecl2s(ds[0]) + ("\n" + more);
      assert ds == [ds[0]] + ds[1..];
    }
  }

  lemma NewLine(s: string)
    ensures Ws("\n" + s) == Ws(s)
  {
    assert ("\n" + s)[1..] == s;
  }

  lemma DeclHead(d: NmDecl, rest: string)
    ensures Ws(NmDecl2s(d) + rest) == NmDecl2s(d) + rest
  {
  }

  lemma NoDecl(s: string)
    requires s != [] && IsDigit(s[0])
    ensures ParseDecls(s) == ([], s)
  {
    LitOther("var", s);
  }

  /** The round trip: reading a printed program gives the program back. */
  lemma ProgramBack(p: VNmProg)
    requires ProgReadable(p)
    ensures ParseProg(VnmProg2s(p)) == Ok(p, [])
  {
    hide ParseDecls, ParseStats, Body2s, Decls2s, Ws;
    var body := Body2s(0, p.body);
    BodyBack(0, p.body);
    DeclsBack(p.decls, body);
    assert VnmProg2s(p) == Decls2s(p.decls) + ("\n" + body);
  }

  // ----- compiled programs can be read back -----

  /** What the source grammar can produce, apart from labels. */
  predicate Parseable(p: PStat)
    decreases p
  {
    match p
    case PAssign(x, e) => LowerName(x) && ExpReadable(e)
    case PPrint(e) => ExpReadable(e)
    case PTest(c, l, r) => IsComparison(c) && ExpReadable(l) && ExpReadable(r)
    case PSeq(s1, s2, rest) => Parseable(s1) && Parseable(s2) && AllParseable(rest)
    case PChoice(s1, s2, rest) => Parseable(s1) && Parseable(s2) && AllParseable(rest)
    case PLoop(b) => Parseable(b)
    case PIfElse(c, l, r, s1, s2) =>
      IsComparison(c) && ExpReadable(l) && ExpReadable(r) && Parseable(s1) && Parseable(s2)
    case PWhile(c, l, r, b) => IsComparison(c) && ExpReadable(l) && ExpReadable(r) && Parseable(b)
  }

  predicate AllParseable(ps: seq<PStat>)
    decreases ps
  {
    ps == [] || (Parseable(ps[0]) && AllParseable(ps[1..]))
  }

  function Readable(): VNmStat -> bool { i => StatReadable(i) }

  lemma PairCores(s1: NmStat, s2: NmStat, p: VNmStat -> bool)
    ensures AllStatCores([s1, s2], p) <==> StatCores(s1, p) && StatCores(s2, p)
  {
    hide StatCores;
    assert [s1, s2][1..] == [s2] && [s2][1..] == [];
    assert AllStatCores([s2], p) <==> StatCores(s2, p) && AllStatCores([], p);
  }

  lemma MoreCores(s1: NmStat, s2: NmStat, rest: seq<NmStat>, p: VNmStat -> bool)
    requires StatCores(s1, p) && StatCores(s2, p) && AllStatCores(rest, p)
    ensures AllStatCores([s1] + [s2] + rest, p)
  {
    hide StatCores;
    var ss := [s1] + [s2] + rest;
    assert ss[1..] == [s2] + rest && ss[1..][1..] == rest;
  }

  lemma GuardCores(c: string, l: NmExp, r: NmExp, s: NmStat)
    requires IsComparison(c) && ExpReadable(l) && ExpReadable(r) && StatCores(s, Readable())
    ensures StatCores(NmTest(c, l, r), Readable()) && StatCores(NmSeq([NmTest(c, l, r), s]), Readable())
  {
    PairCores(NmTest(c, l, r), s, Readable());
  }

  lemma {:induction false} ParseableCores(p: PStat)
    requires Parseable(p)
    ensures StatCores(Desugar(p), Readable())
    decreases p, 1
  {
    assert StatReadable(AlwaysTo([]));
    match p
    case PSeq(s1, s2, rest) =>
      ParseableCores(s1); ParseableCores(s2); AllParseableCores(rest);
      MoreCores(Desugar(s1), Desugar(s2), DesugarAll(rest), Readable());
    case PChoice(s1, s2, rest) =>
      ParseableCores(s1); ParseableCores(s2); AllParseableCores(rest);
      MoreCores(Desugar(s1), Desugar(s2), DesugarAll(rest), Readable());
    case PLoop(b) => ParseableCores(b);
    case PIfElse(c, l, r, s1, s2) =>
      ParseableCores(s1); ParseableCores(s2);
      assert IsComparison(NegOp(c));
      GuardCores(c, l, r, Desugar(s1));
      GuardCores(NegOp(c), l, r, Desugar(s2));
      PairCores(NmSeq([NmTest(c, l, r), Desugar(s1)]), NmSeq([NmTest(NegOp(c), l, r), Desugar(s2)]), Readable());
    case PWhile(c, l, r, b) =>
      ParseableCores(b);
      assert IsComparison(NegOp(c));
      GuardCores(c, l, r, Desugar(b));
      GuardCores(NegOp(c), l, r, Desugar(b));
      PairCores(NmLoop(NmSeq([NmTest(c, l, r), Desugar(b)])), NmTest(NegOp(c), l, r), Readable());
    case _ =>
  }

  lemma {:induction false} AllParseableCores(ps: seq<PStat>)
    requires AllParseable(ps)
    ensures AllStatCores(DesugarAll(ps), Readable())
    decreases ps, 0
  {
    if ps != [] {
      ParseableCores(ps[0]);
      AllParseableCores(ps[1..]);
    }
  }

  lemma LabelsReadable(code: seq<VNmStat>, i: nat)
    requires i < |code| && LayoutOk(code) && StatReadable(Strip(code[i]))
    ensures StatReadable(code[i])
  {
    hide LabSet, ExpReadable;
    LabSetAt(code, i);
    var s := code[i];
    if s.VNmIf? {
      forall j | 0 <= j < |s.pos| ensures s.pos[j] >= 0 { assert Labs(s)[j] == s.pos[j] && Labs(s)[j] in Labs(s); }
      forall j | 0 <= j < |s.neg| ensures s.neg[j] >= 0 {
        assert Labs(s)[|s.pos|+j] == s.neg[j] && Labs(s)[|s.pos|+j] in Labs(s);
      }
    } else {
      forall j | 0 <= j < |Labs(s)| ensures s.goto[j] >= 0 { assert Labs(s)[j] in Labs(s); }
    }
  }

  /** Every program translated from parsed source can be printed and read back. */
  lemma CompiledProgramBack(ds: seq<NmDecl>, p: PStat)
    requires DeclsReadable(ds) && Parseable(p)
    ensures var prog := Nm2Vnm(NmProg(ds, Desugar(p)));
            ProgReadable(prog) && ParseProg(VnmProg2s(prog)) == Ok(prog, [])
  {
    hide Transl, LayoutOk, StatReadable, ParseProg, VnmProg2s;
    var code := Transl(Desugar(p));
    ParsedIsNonEmpty(p);
    Layout(Desugar(p));
    HasInstruction(code);
    ParseableCores(p);
    TranslKeeps(Desugar(p), Readable());
    forall i | 0 <= i < |code| ensures StatReadable(code[i]) {
      assert Readable()(Strip(code[i]));
      LabelsReadable(code, i);
    }
    ProgramBack(VNmProg(ds, code));
  }

  lemma HasInstruction(code: seq<VNmStat>)
    requires LayoutOk(code)
    ensures code != []
  {
  }
}
