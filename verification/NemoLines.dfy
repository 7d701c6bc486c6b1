/** The lines of a printed machine program: each instruction stands on a line of its own, behind its label. */
module NemoLines {
  import opened NemoAst
  import opened NemoPrint
  import opened NemoTransl
  import opened NemoLayout
  import opened NemoDesugar
  import opened NemoRoundTrip

  // ----- lines -----

  predicate OneLine(s: string) { '\n' !in s }

  /** The lines of a text, without the ends of lines. */
  function Lines(s: string): seq<string>
    decreases |s|
  {
    if s == "" then []
    else
      var parts := Span(c => c != '\n', s);
      if parts.1 == "" then [parts.0] else [parts.0] + Lines(parts.1[1..])
  }

  lemma FirstLine(line: string, rest: string)
    requires OneLine(line)
    ensures Lines(line + ("\n" + rest)) == [line] + Lines(rest)
  {
    var s := line + ("\n" + rest);
    SpanAll(c => c != '\n', line, "\n" + rest);
    assert s != "" && ("\n" + rest)[1..] == rest;
  }

  // ----- what is printed on one line -----

  lemma {:induction false} NatLine(n: nat)
    ensures OneLine(Nat2s(n))
  {
    Nat2sDigits(n);
  }

  lemma {:induction false} ExpLine(e: NmExp)
    requires ExpReadable(e)
    ensures OneLine(NmExp2s(e))
  {
    hide Nat2s;
    match e
    case NmBinOp(op, l, r) => ExpLine(l); ExpLine(r);
    case NmUnOp(op, e1) => ExpLine(e1);
    case NmUpd(a, i, v) => ExpLine(a); ExpLine(i); ExpLine(v);
    case NmApp(a, i) => ExpLine(a); ExpLine(i);
    case NmVar(x) => NameLine(x);
    case NmInt(n) => NatLine(n);
  }

  lemma NameLine(x: string)
    requires LowerName(x)
    ensures OneLine(x)
  {
  }

  lemma {:induction false} LabsLine(labs: seq<int>)
    requires LabsReadable(labs)
    ensures OneLine(Labs2s(labs))
  {
    hide Nat2s;
    if labs != [] {
      NatLine(labs[0]);
      LabsLine(labs[1..]);
    }
  }

  lemma Glued(a: string, b: string)
    requires OneLine(a) && OneLine(b)
    ensures OneLine(a + b)
  {
  }

  lemma GotoLine(labs: seq<int>, rest: string)
    requires LabsReadable(labs) && OneLine(rest)
    ensures OneLine(" " + GotoText(labs, rest))
  {
    LabsLine(labs);
    assert OneLine("}" + rest);
    Glued(Labs2s(labs), "}" + rest);
    var s := Labs2s(labs) + ("}" + rest);
    hide Labs2s;
    assert OneLine("goto" + (" " + ("{" + s)));
  }

  /** A printed expression with a short text behind it and more. */
  lemma ExpThen(e: NmExp, rest: string)
    requires ExpReadable(e) && OneLine(rest)
    ensures OneLine(NmExp2s(e) + rest)
  {
    hide NmExp2s;
    ExpLine(e);
    Glued(NmExp2s(e), rest);
  }

  lemma StatLine(s: VNmStat)
    requires StatReadable(s)
    ensures OneLine(VnmStat2s(s))
  {
    hide NmExp2s, Labs2s, ExpReadable, VnmStat2s, GotoText;
    assert VnmStat2s(s) + "" == VnmStat2s(s);
    match s
    case VNmAssign(x, e, goto) =>
      AssignText(x, e, goto, "");
      GotoLine(goto, "");
      ExpThen(e, " " + GotoText(goto, ""));
      NameLine(x);
      AroundAssign(x, NmExp2s(e) + (" " + GotoText(goto, "")));
    case VNmPrint(e, goto) =>
      PrintText(e, goto, "");
      GotoLine(goto, "");
      Glued(")", " " + GotoText(goto, ""));
      ExpThen(e, ")" + (" " + GotoText(goto, "")));
      Glued("(", NmExp2s(e) + (")" + (" " + GotoText(goto, ""))));
      Glued("print", "(" + (NmExp2s(e) + (")" + (" " + GotoText(goto, "")))));
    case VNmIf(c, l, r, pos, neg) =>
      IfText(c, l, r, pos, neg, "");
      IfLine(c, l, r, pos, neg);
  }

  lemma AroundAssign(x: string, rest: string)
    requires OneLine(x) && OneLine(rest)
    ensures OneLine(x + (" " + (":=" + (" " + rest))))
  {
    Glued(" ", rest);
    Glued(":=", " " + rest);
    Glued(" ", ":=" + (" " + rest));
    Glued(x, " " + (":=" + (" " + rest)));
  }

  lemma IfLine(c: string, l: NmExp, r: NmExp, pos: seq<int>, neg: seq<int>)
    requires IsComparison(c) && ExpReadable(l) && ExpReadable(r) && LabsReadable(pos) && LabsReadable(neg)
    ensures OneLine("if" + (" " + ("(" + (NmExp2s(l) + (" " + (c + (" " + (NmExp2s(r) + (")" + (" "
                    + GotoText(pos, " " + ("else" + (" " + GotoText(neg, ""))))))))))))))
  {
    hide NmExp2s, ExpReadable, GotoText;
    Literals(c);
    GotoLine(neg, "");
    hide OneLine;
    var s1 := "else" + (" " + GotoText(neg, ""));
    Glued("else", " " + GotoText(neg, ""));
    Glued(" ", s1);
    GotoLine(pos, " " + s1);
    var s2 := " " + GotoText(pos, " " + s1);
    Glued(")", s2);
    ExpThen(r, ")" + s2);
    var s3 := NmExp2s(r) + (")" + s2);
    Glued(" ", s3);
    Glued(c, " " + s3);
    Glued(" ", c + (" " + s3));
    var s4 := " " + (c + (" " + s3));
    ExpThen(l, s4);
    Glued("(", NmExp2s(l) + s4);
    Glued(" ", "(" + (NmExp2s(l) + s4));
    Glued("if", " " + ("(" + (NmExp2s(l) + s4)));
  }

  lemma Literals(c: string)
    requires IsComparison(c)
    ensures OneLine(c) && OneLine("if") && OneLine(" ") && OneLine("(") && OneLine(")") && OneLine("else") && OneLine("")
  {
  }

  lemma {:induction false} TypeLine(t: NmType)
    ensures OneLine(NmType2s(t))
  {
    match t
    case NmIntType =>
    case NmArrType(a) => TypeLine(a);
  }

  lemma DeclLine(d: NmDecl)
    requires LowerName(d.name)
    ensures OneLine(NmDecl2s(d))
  {
    hide NmType2s;
    NameLine(d.name);
    TypeLine(d.ty);
  }

  // ----- the lines of a program -----

  /** The line begins with this label. */
  predicate Labelled(line: string, lab: int) {
    && ParseIntval(line).Ok? && ParseIntval(line).v == lab
    && Lit(":", ParseIntval(line).rest).Ok?
  }

  /** The line reads as the instruction with this label, and as nothing else. */
  ghost predicate ReadsAs(line: string, lab: int, s: VNmStat) {
    Labelled(line, lab) && ParseStat(line) == Ok(s, "")
  }

  function StatText(i: nat, s: VNmStat): string { I2s(i) + ": " + VnmStat2s(s) }

  lemma StatTextReads(i: nat, s: VNmStat)
    requires StatReadable(s)
    ensures ReadsAs(StatText(i, s), i, s)
  {
    hide ParseStat, VnmStat2s, ParseIntval, Lit, Ws, I2s, IsDigit, NoBlank, StatText, StatReadable;
    var text := " " + (VnmStat2s(s) + "");
    StatTextIs(i, s);
    ColonFirst(text);
    IntvalBack(i, ":" + text);
    LitHead(":", text);
    StatBack(i, s, "");
    NoBlanks();
  }

  lemma StatTextIs(i: nat, s: VNmStat)
    ensures StatText(i, s) == I2s(i) + (":" + (" " + (VnmStat2s(s) + "")))
  {
    hide I2s, VnmStat2s;
    var text := VnmStat2s(s);
    assert text + "" == text;
    assert I2s(i) + ": " + text == I2s(i) + (":" + (" " + text));
  }

  lemma ColonFirst(text: string)
    ensures !IsDigit((":" + text)[0]) && Ws(":" + text) == ":" + text
  {
  }

  lemma StatTextLine(i: nat, s: VNmStat)
    requires StatReadable(s)
    ensures OneLine(StatText(i, s))
  {
    hide Nat2s, VnmStat2s, StatReadable;
    NatLine(i);
    StatLine(s);
  }

  lemma NoBlanks()
    ensures Ws("") == ""
  {
  }

  lemma {:induction false} BodyLines(i: nat, body: seq<VNmStat>)
    requires BodyReadable(body)
    ensures var ls := Lines(Body2s(i, body));
            |ls| == |body| && forall k :: 0 <= k < |body| ==> ReadsAs(ls[k], i + k, body[k])
    decreases body
  {
    hide ReadsAs, Lines, VnmStat2s, I2s, StatReadable, OneLine;
    NoLines();
    if body != [] {
      var rest := Body2s(i + 1, body[1..]);
      StatTextReads(i, body[0]);
      StatTextLine(i, body[0]);
      assert Body2s(i, body) == StatText(i, body[0]) + ("\n" + rest);
      FirstLine(StatText(i, body[0]), rest);
      BodyLines(i + 1, body[1..]);
      var ls, more := Lines(Body2s(i, body)), Lines(rest);
      forall k | 0 <= k < |body| ensures ReadsAs(ls[k], i + k, body[k]) {
        if k > 0 { assert ls[k] == more[k-1] && body[k] == body[1..][k-1]; }
      }
    }
  }

  lemma NoLines()
    ensures Lines("") == []
  {
  }

  lemma {:induction false} DeclLines(ds: seq<NmDecl>, rest: string)
    requires DeclsReadable(ds)
    ensures var ls := Lines(Decls2s(ds) + ("\n" + rest));
            && |ls| == |ds| + 1 + |Lines(rest)| && ls[|ds|] == "" && ls[|ds|+1..] == Lines(rest)
            && forall k :: 0 <= k < |ds| ==> ParseDecl(ls[k]) == Ok(ds[k], "")
  {
    hide ParseDecl, Lines, NmDecl2s, LowerName, OneLine;
    var text := Decls2s(ds) + ("\n" + rest);
    if ds == [] {
      EmptyLine(rest);
      assert text == "" + ("\n" + rest);
    } else {
      var more := Decls2s(ds[1..]) + ("\n" + rest);
      DeclLine(ds[0]);
      assert text == NmDecl2s(ds[0]) + ("\n" + more);
      FirstLine(NmDecl2s(ds[0]), more);
      DeclReads(ds[0]);
      DeclLines(ds[1..], rest);
      var ls, ls1 := Lines(text), Lines(more);
      forall k | 0 <= k < |ds| ensures ParseDecl(ls[k]) == Ok(ds[k], "") {
        if k > 0 { assert ls[k] == ls1[k-1] && ds[k] == ds[1..][k-1]; }
      }
      assert ls[|ds|+1..] == ls1[|ds|..];
    }
  }

  lemma EmptyLine(rest: string)
    ensures Lines("" + ("\n" + rest)) == [""] + Lines(rest)
  {
    FirstLine("", rest);
  }

  lemma DeclReads(d: NmDecl)
    requires LowerName(d.name)
    ensures ParseDecl(NmDecl2s(d)) == Ok(d, "")
  {
    hide ParseDecl;
    DeclBack(d, "");
    assert NmDecl2s(d) + "" == NmDecl2s(d);
    NoBlanks();
  }

  /** The printed program: a line for each declaration, an empty line, and a line for each instruction that begins with the
      instruction's own label and reads as that instruction. */
  lemma ProgramLines(p: VNmProg)
    requires ProgReadable(p)
    ensures var ls, n := Lines(VnmProg2s(p)), |p.decls|;
            && |ls| == n + 1 + |p.body| && ls[n] == ""
            && (forall k :: 0 <= k < n ==> ParseDecl(ls[k]) == Ok(p.decls[k], ""))
            && (forall k :: 0 <= k < |p.body| ==> ReadsAs(ls[n+1+k], k, p.body[k]))
  {
    hide ReadsAs, Lines, ParseDecl, Body2s, Decls2s, BodyReadable, DeclsReadable;
    var body := Body2s(0, p.body);
    assert VnmProg2s(p) == Decls2s(p.decls) + ("\n" + body);
    DeclLines(p.decls, body);
    BodyLines(0, p.body);
    var ls, n := Lines(VnmProg2s(p)), |p.decls|;
    forall k | 0 <= k < |p.body| ensures ReadsAs(ls[n+1+k], k, p.body[k]) {
      assert ls[n+1+k] == ls[n+1..][k];
    }
  }

  /** In the text of a translated program every label that an instruction goes to stands in front of exactly one line, that of
      the instruction it means, unless it is the number of all instructions, where the program ends. */
  lemma PrintedLabels(ds: seq<NmDecl>, p: PStat, k: nat, l: int)
    requires DeclsReadable(ds) && Parseable(p) && k < |Transl(Desugar(p))| && l in Labs(Transl(Desugar(p))[k])
    ensures var prog := Nm2Vnm(NmProg(ds, Desugar(p)));
            var ls, n := Lines(VnmProg2s(prog)), |ds| + 1;
            && 0 <= l <= |prog.body| && |ls| == n + |prog.body|
            && (l < |prog.body| ==> ReadsAs(ls[n+l], l, prog.body[l]))
            && (forall i :: n <= i < |ls| && Labelled(ls[i], l) ==> i == n + l)
  {
    hide Transl, ParseIntval, VnmProg2s, Lines, ProgReadable, LabSet, ParseProg, ParseStat, Lit, Parseable, DeclsReadable;
    var code := Transl(Desugar(p));
    CompiledProgramBack(ds, p);
    ProgramLines(VNmProg(ds, code));
    ParsedIsNonEmpty(p);
    Layout(Desugar(p));
    LabSetAt(code, k);
    var ls, n := Lines(VnmProg2s(VNmProg(ds, code))), |ds| + 1;
    forall i | n <= i < |ls| && Labelled(ls[i], l) ensures i == n + l {
      assert ReadsAs(ls[n+(i-n)], i - n, code[i-n]);
    }
  }
}
