/** The lexicographic order of strings. */
module Strings {

  predicate StringLess(a: string, b: string) {
    b != [] && (a == [] || a[0] < b[0] || (a[0] == b[0] && StringLess(a[1..], b[1..])))
  }

  /** The comparison of the C library: negative, zero or positive, decided at the first difference. */
  function Strcmp(a: string, b: string): int {
    if a == [] && b == [] then 0
    else if a == [] then -1
    else if b == [] then 1
    else if a[0] != b[0] then a[0] as int - b[0] as int
    else Strcmp(a[1..], b[1..])
  }

  lemma {:induction false} StringLessTrans(a: string, b: string, c: string)
    requires StringLess(a, b) && StringLess(b, c)
    ensures StringLess(a, c)
  {
    if a != [] && a[0] == b[0] && b[0] == c[0] {
      StringLessTrans(a[1..], b[1..], c[1..]);
    }
  }

  lemma {:induction false} StringLessTotal(a: string, b: string)
    ensures a == b || StringLess(a, b) || StringLess(b, a)
    ensures !(StringLess(a, b) && StringLess(b, a)) && !StringLess(a, a)
  {
    if a != [] && b != [] && a[0] == b[0] {
      StringLessTotal(a[1..], b[1..]);
      assert a == [a[0]] + a[1..] && b == [b[0]] + b[1..];
    }
    if a != [] {
      StringLessIrreflexive(a);
    }
  }

  lemma {:induction false} StringLessIrreflexive(a: string)
    ensures !StringLess(a, a)
  {
    if a != [] {
      StringLessIrreflexive(a[1..]);
    }
  }

  /** The C comparison decides the lexicographic order. */
  lemma {:induction false} StrcmpOrder(a: string, b: string)
    ensures Strcmp(a, b) > 0 <==> StringLess(b, a)
    ensures Strcmp(a, b) < 0 <==> StringLess(a, b)
    ensures Strcmp(a, b) == 0 <==> a == b
  {
    if a != [] && b != [] && a[0] == b[0] {
      StrcmpOrder(a[1..], b[1..]);
      assert a == [a[0]] + a[1..] && b == [b[0]] + b[1..];
    }
  }

  /** Not greater is transitive. */
  lemma StrcmpTrans(a: string, b: string, c: string)
    requires Strcmp(a, b) <= 0 && Strcmp(b, c) <= 0
    ensures Strcmp(a, c) <= 0
  {
    hide Strcmp, StringLess;
    StrcmpOrder(a, b);
    StrcmpOrder(b, c);
    StrcmpOrder(a, c);
    StringLessTotal(a, c);
    if a != b && b != c {
      StringLessTotal(a, b);
      StringLessTotal(b, c);
      StringLessTrans(a, b, c);
    }
  }
}
