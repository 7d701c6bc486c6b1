/** Where the headings and bodies of requests and responses end. */
module ProxyParser {
  import opened Options

  /** The first place where `pattern` occurs. */
  function Find(s: string, pattern: string): (r: Maybe<nat>)
    ensures r.Some? ==> r.value + |pattern| <= |s|
  {
    if OccursAt(s, pattern, 0) then Some(0)
    else if s == "" then None
    else
      match Find(s[1..], pattern)
      case Some(i) => Some(i + 1)
      case None => None
  }

  lemma PartOfRest(s: string, i: nat, n: nat)
    requires i + 1 + n <= |s|
    ensures s[i+1..i+1+n] == s[1..][i..i+n]
  {
    var a, rest := s[i+1..i+1+n], s[1..];
    var b := rest[i..i+n];
    forall k | 0 <= k < n ensures a[k] == b[k] {
      assert a[k] == s[i+1+k] == rest[i+k];
    }
  }

  lemma {:induction false} FindOccurs(s: string, pattern: string)
    ensures Find(s, pattern).Some? ==> OccursAt(s, pattern, Find(s, pattern).value)
  {
    if !OccursAt(s, pattern, 0) && s != "" {
      FindOccurs(s[1..], pattern);
      var r := Find(s[1..], pattern);
      if r.Some? {
        PartOfRest(s, r.value, |pattern|);
      }
    }
  }

  lemma {:induction false} FindFirst(s: string, pattern: string, i: nat)
    requires OccursAt(s, pattern, i)
    ensures Find(s, pattern).Some? && Find(s, pattern).value <= i
    decreases i
  {
    if i > 0 && !OccursAt(s, pattern, 0) {
      PartOfRest(s, i - 1, |pattern|);
      FindFirst(s[1..], pattern, i - 1);
    }
  }

  predicate OccursAt(s: string, pattern: string, i: nat) {
    i + |pattern| <= |s| && s[i..i+|pattern|] == pattern
  }

  /** Where a heading ends, if it does. */
  function FindEndHeading(s: string): (r: Maybe<nat>)
    ensures r.Some? ==> r.value <= |s|
  {
    match Find(s, "\r\n\r\n")
    case Some(i) => Some(i + 4)
    case None =>
      match Find(s, "\n\n")
      case Some(i) => Some(i + 2)
      case None => None
  }

  function FindEndBody(s: string): Maybe<nat> { Find(s, "0\r\n\r\n") }

  /** What the heading of a request says. */
  datatype Request = Request(isGet: bool, contentLength: nat)

  /** What the heading of a response says; without a length the length is zero. */
  datatype Response = Response(withError: bool, haveContentLength: bool, contentLength: nat)

  predicate IsDigit(c: char) { '0' <= c <= '9' }

  /** The number that the digits at the beginning of `s` write, after a number `before`. */
  function Number(s: string, before: nat): nat {
    if s == "" || !IsDigit(s[0]) then before else Number(s[1..], 10 * before + (s[0] - '0') as nat)
  }

  /** The length that a heading announces, if it does. */
  function FindContentLength(heading: string): Maybe<nat> {
    match Find(heading, "Content-Length: ")
    case Some(i) => Some(Number(heading[i + |"Content-Length: "|..], 0))
    case None => None
  }

  function Or(length: Maybe<nat>): nat { if length.Some? then length.value else 0 }

  function ParsingHeading(heading: string): Maybe<Request> {
    if |heading| <= 3 || Find(heading, "Host: ") == None then None
    else Some(Request(heading[..3] == "GET", Or(FindContentLength(heading))))
  }

  function ParsingResponseHeading(heading: string): Response {
    var length := FindContentLength(heading);
    Response(Find(heading, "HTTP/1.1 200 OK") == None && Find(heading, "200 OK") == None, length.Some?, Or(length))
  }

  // ----- what the parser finds -----

  ghost predicate Occurs(s: string, pattern: string) { exists i: nat :: OccursAt(s, pattern, i) }

  lemma FindExactly(s: string, pattern: string)
    ensures Find(s, pattern).Some? <==> Occurs(s, pattern)
    ensures Find(s, pattern).Some? ==>
      OccursAt(s, pattern, Find(s, pattern).value) && forall j: nat :: OccursAt(s, pattern, j) ==> Find(s, pattern).value <= j
  {
    hide Find, OccursAt;
    FindOccurs(s, pattern);
    forall j: nat | OccursAt(s, pattern, j) ensures Find(s, pattern).Some? && Find(s, pattern).value <= j {
      FindFirst(s, pattern, j);
    }
  }

  /** A heading ends behind its first standard empty line, or, without one, behind its first empty line of the other kind. */
  lemma EndHeadingIs(s: string, end: nat)
    ensures FindEndHeading(s) == Some(end) && Occurs(s, "\r\n\r\n") ==>
      end >= 4 && OccursAt(s, "\r\n\r\n", end - 4) && forall j: nat :: OccursAt(s, "\r\n\r\n", j) ==> end <= j + 4
    ensures FindEndHeading(s) == Some(end) && !Occurs(s, "\r\n\r\n") ==>
      end >= 2 && OccursAt(s, "\n\n", end - 2) && forall j: nat :: OccursAt(s, "\n\n", j) ==> end <= j + 2
    ensures FindEndHeading(s) == None <==> !Occurs(s, "\r\n\r\n") && !Occurs(s, "\n\n")
  {
    hide Find, OccursAt, Occurs;
    FindExactly(s, "\r\n\r\n");
    FindExactly(s, "\n\n");
  }

  /** The decimal notation of a number. */
  function Decimal(n: nat): string {
    if n < 10 then ["0123456789"[n]] else Decimal(n / 10) + ["0123456789"[n % 10]]
  }

  lemma {:induction false} DecimalDigits(n: nat)
    ensures Decimal(n) != "" && forall i :: 0 <= i < |Decimal(n)| ==> IsDigit(Decimal(n)[i])
  {
    if n >= 10 {
      DecimalDigits(n / 10);
    }
  }

  lemma {:induction false} NumberAppend(a: string, b: string, before: nat)
    requires forall i :: 0 <= i < |a| ==> IsDigit(a[i])
    ensures Number(a + b, before) == Number(b, Number(a, before))
    decreases a
  {
    if a == "" {
      assert a + b == b;
    } else {
      assert (a + b)[1..] == a[1..] + b;
      NumberAppend(a[1..], b, 10 * before + (a[0] - '0') as nat);
    }
  }

  lemma NumberStops(rest: string, before: nat)
    requires rest == "" || !IsDigit(rest[0])
    ensures Number(rest, before) == before
  {
  }

  lemma {:induction false} NumberOfDecimal(n: nat)
    ensures Number(Decimal(n), 0) == n
  {
    if n >= 10 {
      NumberOfDecimal(n / 10);
      DecimalDigits(n / 10);
      NumberAppend(Decimal(n / 10), ["0123456789"[n % 10]], 0);
    }
    OneDigit(n % 10, n / 10);
    OneDigit(n % 10, 0);
  }

  lemma OneDigit(d: nat, before: nat)
    requires d < 10
    ensures Number(["0123456789"[d]], before) == 10 * before + d
  {
    assert ["0123456789"[d]][1..] == "";
  }

  /** A heading announces the number that stands in decimal notation behind its first `Content-Length: `, and none when it
      has no such place. */
  lemma ContentLengthIs(before: string, n: nat, rest: string)
    requires rest == "" || !IsDigit(rest[0])
    requires Find(before + "Content-Length: " + (Decimal(n) + rest), "Content-Length: ") == Some(|before|)
    ensures FindContentLength(before + "Content-Length: " + (Decimal(n) + rest)) == Some(n)
  {
    var tail := Decimal(n) + rest;
    assert (before + "Content-Length: " + tail)[|before| + |"Content-Length: "|..] == tail;
    DecimalDigits(n);
    NumberAppend(Decimal(n), rest, 0);
    NumberOfDecimal(n);
    NumberStops(rest, n);
  }

  /** What is read off the heading of a request. It is refused exactly when it is too short or names no host. */
  lemma RequestIs(heading: string)
    ensures ParsingHeading(heading).Some? <==> |heading| > 3 && Occurs(heading, "Host: ")
    ensures ParsingHeading(heading).Some? ==>
      && (ParsingHeading(heading).value.isGet <==> "GET" <= heading)
      && ParsingHeading(heading).value.contentLength == Or(FindContentLength(heading))
  {
    hide Find, FindContentLength;
    FindExactly(heading, "Host: ");
  }

  /** What is read off the heading of a response. It is a good one exactly when it says so. */
  lemma ResponseIs(heading: string)
    ensures ParsingResponseHeading(heading).withError <==> !Occurs(heading, "200 OK")
    ensures ParsingResponseHeading(heading).haveContentLength <==> Occurs(heading, "Content-Length: ")
    ensures ParsingResponseHeading(heading).contentLength == Or(FindContentLength(heading))
  {
    hide Find, OccursAt;
    FindExactly(heading, "HTTP/1.1 200 OK");
    FindExactly(heading, "200 OK");
    FindExactly(heading, "Content-Length: ");
    if i: nat :| OccursAt(heading, "HTTP/1.1 200 OK", i) {
      PartOfLine(heading, i);
    }
  }

  lemma EndBodyIs(s: string)
    ensures FindEndBody(s).Some? <==> Occurs(s, "0\r\n\r\n")
  {
    hide Find;
    FindExactly(s, "0\r\n\r\n");
  }

  lemma PartOfLine(s: string, i: nat)
    requires OccursAt(s, "HTTP/1.1 200 OK", i)
    ensures OccursAt(s, "200 OK", i + 9)
  {
    assert s[i+9..i+15] == s[i..i+15][9..15] == "HTTP/1.1 200 OK"[9..15];
  }

  lemma FindEarlier(s: string, t: string, pattern: string)
    requires Find(s, pattern).Some?
    ensures Find(s + t, pattern) == Find(s, pattern)
  {
    hide Find;
    var i := Find(s, pattern).value;
    FindOccurs(s, pattern);
    assert (s + t)[i..i+|pattern|] == s[i..i+|pattern|];
    FindFirst(s + t, pattern, i);
    var j := Find(s + t, pattern).value;
    FindOccurs(s + t, pattern);
    assert (s + t)[j..j+|pattern|] == s[j..j+|pattern|];
    FindFirst(s, pattern, j);
  }

  /** The end that is found moves when a standard empty line arrives behind one of the other kind. */
  lemma EndMoves(s: string)
    requires Find(s, "\r\n\r\n") == None && Find(s, "\n\n").Some?
    ensures FindEndHeading(s + "\r\n\r\n") != FindEndHeading(s)
  {
    hide Find;
    var t, i := "\r\n\r\n", Find(s, "\n\n").value;
    FindOccurs(s, "\n\n");
    assert (s + t)[|s|..|s|+4] == t;
    FindFirst(s + t, t, |s|);
    var j := Find(s + t, t).value;
    FindOccurs(s + t, t);
    assert (s + t)[j..j+4][2] == (s + t)[j+2] && s[i..i+2][0] == s[i] == (s + t)[i];
  }

  /** The end found in what has arrived is the end whatever else arrives, exactly when an empty line of the standard
      kind has arrived. */
  lemma EndHeadingStable(s: string)
    ensures (FindEndHeading(s).Some? && forall t :: FindEndHeading(s + t) == FindEndHeading(s))
            <==> Find(s, "\r\n\r\n").Some?
  {
    hide Find;
    if Find(s, "\r\n\r\n").Some? {
      forall t ensures FindEndHeading(s + t) == FindEndHeading(s) {
        FindEarlier(s, t, "\r\n\r\n");
      }
    } else if Find(s, "\n\n").Some? {
      EndMoves(s);
    }
  }

  /** One heading that ends in two places, as its bytes arrive. */
  lemma EndHeadingDependsOnArrival()
    ensures FindEndHeading("a\n\n") == Some(3) && FindEndHeading("a\n\n" + "b\r\n\r\n") == Some(8)
  {
    var s := "a\n\nb\r\n\r\n";
    assert "a\n\n" + "b\r\n\r\n" == s;
    assert s[4..8] == "\r\n\r\n" && "a\n\n"[1..3] == "\n\n";
    OnlyAt(s, "\r\n\r\n", 4);
    OnlyAt("a\n\n", "\n\n", 1);
    assert |"a\n\n"| < 4;
  }

  lemma OnlyAt(s: string, pattern: string, i: nat)
    requires pattern != "" && OccursAt(s, pattern, i) && forall j: nat :: j < i ==> s[j] != pattern[0]
    ensures Find(s, pattern) == Some(i)
  {
    hide Find;
    FindFirst(s, pattern, i);
    FindOccurs(s, pattern);
    var r := Find(s, pattern).value;
    assert s[r] == s[r..r+|pattern|][0];
  }
}
