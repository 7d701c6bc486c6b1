/** The printer of machine programs, and the grammar that reads them back. */
module NemoPrint {
  import opened NemoAst

  // ----- the printer -----

  function DigitOf(d: int): char
    requires 0 <= d < 10
  {
    "0123456789"[d]
  }

  function Nat2s(n: nat): string {
    if n < 10 then [DigitOf(n)] else Nat2s(n / 10) + [DigitOf(n % 10)]
  }

  function I2s(n: int): string {
    if n < 0 then "-" + Nat2s(-n) else Nat2s(n)
  }

  function NmType2s(t: NmType): string {
    match t
    case NmIntType => "int"
    case NmArrType(a) => "[" + NmType2s(a) + "]"
  }

  function NmDecl2s(d: NmDecl): string {
    "var " + d.name + " : " + NmType2s(d.ty) + ";"
  }

  function NmExp2s(e: NmExp): string {
    match e
    case NmBinOp(op, l, r) => "(" + NmExp2s(l) + " " + op + " " + NmExp2s(r) + ")"
    case NmUnOp(op, e1) => op + " " + NmExp2s(e1)
    case NmUpd(a, i, v) => "upd(" + NmExp2s(a) + ", " + NmExp2s(i) + ", " + NmExp2s(v) + ")"
    case NmApp(a, i) => "app(" + NmExp2s(a) + ", " + NmExp2s(i) + ")"
    case NmVar(x) => x
    case NmInt(n) => I2s(n)
  }

  /** The labels with single blanks between them. */
  function Labs2s(labs: seq<int>): string {
    if labs == [] then "" else if |labs| == 1 then I2s(labs[0]) else I2s(labs[0]) + " " + Labs2s(labs[1..])
  }

  function VnmStat2s(s: VNmStat): string {
    match s
    case VNmAssign(x, e, goto) => x + " := " + NmExp2s(e) + " goto {" + Labs2s(goto) + "}"
    case VNmIf(c, l, r, pos, neg) =>
      "if (" + NmExp2s(l) + " " + c + " " + NmExp2s(r) + ") "
      + "goto {" + Labs2s(pos) + "} else " + "goto {" + Labs2s(neg) + "}"
    case VNmPrint(e, goto) => "print(" + NmExp2s(e) + ")" + " goto {" + Labs2s(goto) + "}"
  }

  function Decls2s(ds: seq<NmDecl>): string {
    if ds == [] then "" else NmDecl2s(ds[0]) + "\n" + Decls2s(ds[1..])
  }

  /** The instructions, numbered from `i` on. */
  function Body2s(i: nat, body: seq<VNmStat>): string
    decreases body
  {
    if body == [] then "" else I2s(i) + ": " + VnmStat2s(body[0]) + "\n" + Body2s(i + 1, body[1..])
  }

  function VnmProg2s(p: VNmProg): string {
    Decls2s(p.decls) + "\n" + Body2s(0, p.body)
  }

  // ----- the grammar: an ordered-choice parser -----

  datatype Parsed<+T> = Fail | Ok(v: T, rest: string) {
    predicate IsFailure() { Fail? }
    function PropagateFailure<U>(): Parsed<U>
      requires Fail?
    {
      Fail
    }
    function Extract(): (T, string)
      requires Ok?
    {
      (v, rest)
    }
  }

  predicate IsBlank(c: char) { c == ' ' || c == '\t' || c == '\n' || c == '\r' }
  predicate IsDigit(c: char) { '0' <= c <= '9' }
  predicate IsLetter(c: char) { 'a' <= c <= 'z' }

  /** What is left after blanks. */
  function Ws(s: string): (r: string)
    ensures |r| <= |s|
  {
    if s != [] && IsBlank(s[0]) then Ws(s[1..]) else s
  }

  function Lit(t: string, s: string): (r: Parsed<()>)
    ensures r.Ok? ==> |r.rest| + |t| == |s|
  {
    if t <= s then Ok((), s[|t|..]) else Fail
  }

  /** The longest prefix whose characters satisfy `p`. */
  function Span(p: char -> bool, s: string): (r: (string, string))
    ensures |r.0| + |r.1| == |s|
  {
    if s != [] && p(s[0]) then var r := Span(p, s[1..]); ([s[0]] + r.0, r.1) else ([], s)
  }

  function S2i(s: string): int {
    if s == [] then 0 else 10 * S2i(s[..|s|-1]) + (s[|s|-1] as int - '0' as int)
  }

  function ParseIntval(s: string): (r: Parsed<int>)
    ensures r.Ok? ==> |r.rest| < |s|
  {
    var d := Span(IsDigit, s);
    if d.0 == [] then Fail else Ok(S2i(d.0), Ws(d.1))
  }

  function ParseId(s: string): (r: Parsed<string>)
    ensures r.Ok? ==> |r.rest| < |s|
  {
    var d := Span(IsLetter, s);
    if d.0 == [] then Fail else Ok(d.0, Ws(d.1))
  }

  function ParseType(s: string): (r: Parsed<NmType>)
    ensures r.Ok? ==> |r.rest| < |s|
    decreases |s|
  {
    var int_ := Lit("int", s);
    if int_.Ok? then Ok(NmIntType, Ws(int_.rest))
    else
      var (_, s1) :- Lit("[", s);
      var (t, s2) :- ParseType(Ws(s1));
      var (_, s3) :- Lit("]", s2);
      Ok(NmArrType(t), Ws(s3))
  }

  function ParseOp(s: string): (r: Parsed<string>)
    ensures r.Ok? ==> |r.rest| < |s|
  {
    if s != [] && s[0] in "+*/-%" then Ok([s[0]], s[1..]) else Fail
  }

  function ParseBinOp(s: string): (r: Parsed<NmExp>)
    ensures r.Ok? ==> |r.rest| < |s|
    decreases |s|, 0
  {
    var (_, s1) :- Lit("(", s);
    var (l, s2) :- ParseExp(Ws(s1));
    var (op, s3) :- ParseOp(s2);
    var (r, s4) :- ParseExp(Ws(s3));
    var (_, s5) :- Lit(")", s4);
    Ok(NmBinOp(op, l, r), Ws(s5))
  }

  function ParseUnOp(s: string): (r: Parsed<NmExp>)
    ensures r.Ok? ==> |r.rest| < |s|
    decreases |s|, 0
  {
    var (_, s1) :- Lit("-", s);
    var (e, s2) :- ParseExp(Ws(s1));
    Ok(NmUnOp("-", e), s2)
  }

  function ParseApp(s: string): (r: Parsed<NmExp>)
    ensures r.Ok? ==> |r.rest| < |s|
    decreases |s|, 0
  {
    var (_, s1) :- Lit("app", s);
    var (_, s2) :- Lit("(", Ws(s1));
    var (a, s3) :- ParseExp(Ws(s2));
    var (_, s4) :- Lit(",", s3);
    var (i, s5) :- ParseExp(Ws(s4));
    var (_, s6) :- Lit(")", s5);
    Ok(NmApp(a, i), Ws(s6))
  }

  function ParseUpd(s: string): (r: Parsed<NmExp>)
    ensures r.Ok? ==> |r.rest| < |s|
    decreases |s|, 0
  {
    var (_, s1) :- Lit("upd", s);
    var (_, s2) :- Lit("(", Ws(s1));
    var (a, s3) :- ParseExp(Ws(s2));
    var (_, s4) :- Lit(",", s3);
    var (i, s5) :- ParseExp(Ws(s4));
    var (_, s6) :- Lit(",", s5);
    var (v, s7) :- ParseExp(Ws(s6));
    var (_, s8) :- Lit(")", s7);
    Ok(NmUpd(a, i, v), Ws(s8))
  }

  function ParseVar(s: string): (r: Parsed<NmExp>)
    ensures r.Ok? ==> |r.rest| < |s|
  {
    var (x, s1) :- ParseId(s);
    Ok(NmVar(x), s1)
  }

  function ParseConst(s: string): (r: Parsed<NmExp>)
    ensures r.Ok? ==> |r.rest| < |s|
  {
    var (n, s1) :- ParseIntval(s);
    Ok(NmInt(n), s1)
  }

  function ParseExp(s: string): (r: Parsed<NmExp>)
    ensures r.Ok? ==> |r.rest| < |s|
    decreases |s|, 1
  {
    var const_ := ParseConst(s);
    if const_.Ok? then const_
    else
      var bin := ParseBinOp(s);
      if bin.Ok? then bin
      else
        var un := ParseUnOp(s);
        if un.Ok? then un
        else
          var app := ParseApp(s);
          if app.Ok? then app
          else
            var upd := ParseUpd(s);
            if upd.Ok? then upd else ParseVar(s)
  }

  function ParseCond(s: string): (r: Parsed<string>)
    ensures r.Ok? ==> |r.rest| < |s|
  {
    if "!=" <= s then Ok("!=", s[2..])
    else if "==" <= s then Ok("==", s[2..])
    else if "<=" <= s then Ok("<=", s[2..])
    else if ">=" <= s then Ok(">=", s[2..])
    else if "<" <= s then Ok("<", s[1..])
    else if ">" <= s then Ok(">", s[1..])
    else Fail
  }

  function ParseIntvals(s: string): (r: (seq<int>, string))
    ensures |r.1| <= |s|
    decreases |s|
  {
    var n := ParseIntval(s);
    if n.Fail? then ([], s) else var more := ParseIntvals(n.rest); ([n.v] + more.0, more.1)
  }

  function ParseGoto(s: string): (r: Parsed<seq<int>>)
    ensures r.Ok? ==> |r.rest| < |s|
  {
    var (_, s1) :- Lit("goto", s);
    var (_, s2) :- Lit("{", Ws(s1));
    var labs := ParseIntvals(Ws(s2));
    var (_, s3) :- Lit("}", labs.1);
    Ok(labs.0, Ws(s3))
  }

  function ParsePrint(s: string): (r: Parsed<VNmStat>)
    ensures r.Ok? ==> |r.rest| < |s|
  {
    var (_, s1) :- Lit("print", s);
    var (_, s2) :- Lit("(", Ws(s1));
    var (e, s3) :- ParseExp(Ws(s2));
    var (_, s4) :- Lit(")", s3);
    var (goto, s5) :- ParseGoto(Ws(s4));
    Ok(VNmPrint(e, goto), s5)
  }

  function ParseAssign(s: string): (r: Parsed<VNmStat>)
    ensures r.Ok? ==> |r.rest| < |s|
  {
    var (x, s1) :- ParseId(s);
    var (_, s2) :- Lit(":=", s1);
    var (e, s3) :- ParseExp(Ws(s2));
    var (goto, s4) :- ParseGoto(s3);
    Ok(VNmAssign(x, e, goto), Ws(s4))
  }

  function ParseIfElse(s: string): (r: Parsed<VNmStat>)
    ensures r.Ok? ==> |r.rest| < |s|
  {
    var (_, s1) :- Lit("if", s);
    var (_, s2) :- Lit("(", Ws(s1));
    var (l, s3) :- ParseExp(Ws(s2));
    var (c, s4) :- ParseCond(s3);
    var (r, s5) :- ParseExp(Ws(s4));
    var (_, s6) :- Lit(")", s5);
    var (pos, s7) :- ParseGoto(Ws(s6));
    var (_, s8) :- Lit("else", s7);
    var (neg, s9) :- ParseGoto(Ws(s8));
    Ok(VNmIf(c, l, r, pos, neg), s9)
  }

  function ParseStat(s: string): (r: Parsed<VNmStat>)
    ensures r.Ok? ==> |r.rest| < |s|
  {
    var (_, s1) :- ParseIntval(s);
    var (_, s2) :- Lit(":", s1);
    var s3 := Ws(s2);
    var print_ := ParsePrint(s3);
    if print_.Ok? then print_
    else
      var assign := ParseAssign(s3);
      if assign.Ok? then assign else ParseIfElse(s3)
  }

  function ParseStats(s: string): (seq<VNmStat>, string)
    decreases |s|
  {
    var i := ParseStat(s);
    if i.Fail? then ([], s) else var more := ParseStats(i.rest); ([i.v] + more.0, more.1)
  }

  function ParseDecl(s: string): (r: Parsed<NmDecl>)
    ensures r.Ok? ==> |r.rest| < |s|
  {
    var (_, s1) :- Lit("var", s);
    var (x, s2) :- ParseId(Ws(s1));
    var (_, s3) :- Lit(":", s2);
    var (t, s4) :- ParseType(Ws(s3));
    var (_, s5) :- Lit(";", s4);
    Ok(NmDecl(x, t), Ws(s5))
  }

  function ParseDecls(s: string): (seq<NmDecl>, string)
    decreases |s|
  {
    var d := ParseDecl(s);
    if d.Fail? then ([], s) else var more := ParseDecls(d.rest); ([d.v] + more.0, more.1)
  }

  /** A program: declarations, then at least one instruction, and nothing after. */
  function ParseProg(s: string): Parsed<VNmProg> {
    var ds := ParseDecls(Ws(s));
    var body := ParseStats(ds.1);
    if body.0 == [] || body.1 != [] then Fail else Ok(VNmProg(ds.0, body.0), [])
  }
}
