/** Finite runs of a step relation whose steps print something. */
module Runs {

  /** A transition system: which steps are possible, and what leaving a configuration prints. */
  datatype System<!C(==), T> = System(can: (C, C) -> bool, out: C -> seq<T>)

  function Last<C>(p: seq<C>): C
    requires p != []
  {
    p[|p|-1]
  }

  /** The configurations one run goes through, first to last. */
  ghost predicate IsRun<C, T>(sys: System<C, T>, p: seq<C>) {
    p != [] && forall i :: 0 <= i < |p| - 1 ==> sys.can(p[i], p[i+1])
  }

  /** What the steps from position `i` to position `j` of a run print. */
  ghost function Printed<C, T>(sys: System<C, T>, p: seq<C>, i: nat, j: nat): seq<T>
    requires i <= j < |p|
    decreases j
  {
    if i == j then [] else Printed(sys, p, i, j - 1) + sys.out(p[j-1])
  }

  ghost function Trace<C, T>(sys: System<C, T>, p: seq<C>): seq<T>
    requires p != []
  {
    Printed(sys, p, 0, |p| - 1)
  }

  lemma {:induction false} PrintedSplit<C, T>(sys: System<C, T>, p: seq<C>, i: nat, m: nat, j: nat)
    requires i <= m <= j < |p|
    ensures Printed(sys, p, i, j) == Printed(sys, p, i, m) + Printed(sys, p, m, j)
    decreases j
  {
    if m < j {
      PrintedSplit(sys, p, i, m, j - 1);
    }
  }

  /** Printing depends only on the part of the run that is looked at. */
  lemma {:induction false} PrintedShift<C, T>(sys: System<C, T>, p: seq<C>, i: nat, j: nat, q: seq<C>, d: nat)
    requires i <= j < |p| && j + d < |q|
    requires forall k :: i <= k < j ==> p[k] == q[k+d]
    ensures Printed(sys, p, i, j) == Printed(sys, q, i + d, j + d)
    decreases j
  {
    if i < j {
      PrintedShift(sys, p, i, j - 1, q, d);
    }
  }

  /** Two runs that meet make one run, which prints what they print. */
  lemma RunJoin<C, T>(sys: System<C, T>, p: seq<C>, q: seq<C>) returns (r: seq<C>)
    requires IsRun(sys, p) && IsRun(sys, q) && Last(p) == q[0]
    ensures r == p + q[1..] && IsRun(sys, r)
    ensures r[0] == p[0] && Last(r) == Last(q)
    ensures Trace(sys, r) == Trace(sys, p) + Trace(sys, q)
  {
    r := p + q[1..];
    JoinedIsRun(sys, p, q);
    JoinedTrace(sys, p, q);
  }

  lemma JoinedIsRun<C, T>(sys: System<C, T>, p: seq<C>, q: seq<C>)
    requires IsRun(sys, p) && IsRun(sys, q) && Last(p) == q[0]
    ensures IsRun(sys, p + q[1..])
  {
    var r, n := p + q[1..], |p| - 1;
    forall i | 0 <= i < |r| - 1
      ensures sys.can(r[i], r[i+1])
    {
      if i < n {
        assert r[i] == p[i] && r[i+1] == p[i+1];
      } else {
        assert r[i] == q[i-n] && r[i+1] == q[i-n+1];
      }
    }
  }

  lemma JoinedTrace<C, T>(sys: System<C, T>, p: seq<C>, q: seq<C>)
    requires p != [] && q != [] && Last(p) == q[0]
    ensures Trace(sys, p + q[1..]) == Trace(sys, p) + Trace(sys, q)
  {
    hide Printed;
    var r, n := p + q[1..], |p| - 1;
    PrintedSplit(sys, r, 0, n, |r| - 1);
    PrintedShift(sys, p, 0, n, r, 0);
    assert forall k :: 0 <= k < |q| ==> q[k] == r[k+n];
    PrintedShift(sys, q, 0, |q| - 1, r, n);
  }

  /** A single step is a run. */
  lemma RunOne<C, T>(sys: System<C, T>, c: C, d: C) returns (p: seq<C>)
    requires sys.can(c, d)
    ensures p == [c, d] && IsRun(sys, p) && Trace(sys, p) == sys.out(c)
  {
    p := [c, d];
    assert Printed(sys, p, 0, 0) == [];
    assert Printed(sys, p, 0, 1) == sys.out(c);
  }
}
