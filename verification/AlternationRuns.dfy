/** Every interleaving of the alternating threads: what it prints, and that it never gets stuck. */
module AlternationRuns {
  import opened Options
  import opened Alternation

  // ----- what every interleaving does -----

  /** What the program is for: `n` times a line of the parent and then a line of the child. */
  function Lines(n: nat): (r: seq<string>)
    ensures |r| == 2 * n
  {
    if n == 0 then [] else ["Parent\n", "Child\n"] + Lines(n - 1)
  }

  lemma {:induction false} AlternateAt(k: nat, j: nat)
    requires j < k
    ensures Alternate(k)[j] == Text(if j % 2 == 0 then Parent else Child)
  {
    if j < k - 1 {
      AlternateAt(k - 1, j);
    }
  }

  lemma {:induction false} LinesAt(n: nat, j: nat)
    requires j < 2 * n
    ensures Lines(n)[j] == Text(if j % 2 == 0 then Parent else Child)
  {
    if j >= 2 {
      LinesAt(n - 1, j - 2);
    }
  }

  lemma AlternatePrefix(n: nat, k: nat)
    requires k <= 2 * n
    ensures Alternate(k) <= Lines(n) && (k == 2 * n ==> Alternate(k) == Lines(n))
  {
    hide Alternate, Lines;
    forall j | 0 <= j < k
      ensures Alternate(k)[j] == Lines(n)[j]
    {
      AlternateAt(k, j);
      LinesAt(n, j);
    }
  }

  lemma {:induction false} RunInv(n: nat, p: seq<State>, k: nat)
    requires Run(n, p) && k < |p|
    ensures Inv(n, p[k])
  {
    hide Inv, Step;
    InitInv(n);
    if k > 0 {
      RunInv(n, p, k - 1);
      StepKeepsInv(n, p[k-1], p[k]);
    }
  }

  predicate Finished(s: State) { s.parent.Done? && (s.child.Done? || s.child.NotCreated?) }

  lemma InvOutput(n: nat, s: State)
    requires Inv(n, s)
    ensures s.errors == 0 && s.output <= Lines(n)
    ensures Finished(s) ==> s.output == if s.child.Done? then Lines(n) else []
  {
    hide Alternate, Lines, Owned, Turns;
    TurnsBound(ZERO_MUTEX, Passed(n, s.parent), n);
    TurnsBound(SECOND_MUTEX, Passed(n, s.child), n);
    AlternatePrefix(n, LinesSoFar(n, s));
  }

  /** In three rounds for each line a thread prints that many lines. */
  lemma {:induction false} TurnsBound(start: nat, passed: nat, n: nat)
    requires passed <= 3 * n
    ensures Turns(start, passed) <= n && Turns(start, 3 * n) == n
    decreases n, 3 * n - passed
  {
    if passed < 3 * n {
      TurnsBound(start, passed + 1, n);
    } else if n > 0 {
      var p := 3 * (n - 1);
      TurnsBound(start, p, n - 1);
      OnceAround(p + start);
      assert Turns(start, p + 3) == Turns(start, p + 2) + if Reached(p + 2 + start) == ZERO_MUTEX then 1 else 0;
      assert Turns(start, p + 2) == Turns(start, p + 1) + if Reached(p + 1 + start) == ZERO_MUTEX then 1 else 0;
    }
  }

  /** In every interleaving, at every moment: no call of a mutex function has failed, so no thread locked a mutex it
      had or unlocked one it had not, and what is printed is a first part of the alternation. */
  lemma EveryInterleaving(n: nat, p: seq<State>, k: nat)
    requires Run(n, p) && k < |p|
    ensures p[k].errors == 0 && p[k].output <= Lines(n)
    ensures Finished(p[k]) ==> p[k].output == if p[k].child.Done? then Lines(n) else []
  {
    hide Inv, Step;
    RunInv(n, p, k);
    InvOutput(n, p[k]);
  }

  // ----- progress -----

  /** The parent's attempt at the second mutex succeeds: the child does not have it yet. */
  predicate Spins(s: State, u: State) { s.parent.TryLock? && u.parent.GiveBack? }

  /** Steps a thread has left, not counting further attempts. */
  function Left(n: nat, pc: Pc): nat {
    match pc
    case NotCreated => 9 * n + 3
    case LockFirst => 9 * n + 6
    case Create => 9 * n + 5
    case GiveBack => 9 * n + 4
    case TryLock => 9 * n + 3
    case Printing(i, _, stage) =>
      (if i <= 3 * n then 9 * n - 3 * i else 0) + if stage == AtTop then 2 else if stage == AtLock then 1 else 0
    case LastUnlock => 1
    case Done => 0
  }

  function Work(n: nat, s: State): nat {
    Left(n, s.parent) + if s.child.LockFirst? then 9 * n + 3 else Left(n, s.child)
  }

  /** Every step that is not a repeated attempt brings the end nearer, and such an attempt succeeds only while the
      child has not locked its first mutex. */
  lemma StepWorks(n: nat, s: State, u: State)
    requires Inv(n, s) && Step(n, s, u)
    ensures if Spins(s, u) then s.child.LockFirst? && Work(n, u) == Work(n, s) + 1 else Work(n, u) < Work(n, s)
  {
    hide Has, Alternate, Printed, Owned, OwnerOf, CanLock;
    if Spins(s, u) {
      SpinNeedsLateChild(n, s, u);
    } else if ParentStep(n, s, u) {
      hide PrintStep;
      if s.parent.Printing? { PrintWorks(n, Parent, LastUnlock, s, u); }
    } else {
      hide PrintStep;
      if s.child.Printing? { PrintWorks(n, Child, Done, s, u); }
    }
  }

  lemma PrintWorks(n: nat, t: Thread, after: Pc, s: State, u: State)
    requires Programs(n, s) && PrintStep(n, t, after, s, u) && Left(n, after) <= 1
    ensures Left(n, At(u, t)) < Left(n, At(s, t)) && !At(u, t).LockFirst?
    ensures if t.Parent? then u.child == s.child else u.parent == s.parent
  {
    hide Has, OwnerOf, CanLock;
  }

  lemma SpinNeedsLateChild(n: nat, s: State, u: State)
    requires Inv(n, s) && Step(n, s, u) && Spins(s, u)
    ensures s.child.LockFirst? && u.child == s.child
  {
    hide Printed, Alternate, Programs, Left;
    assert ParentStep(n, s, u);
    StepKeepsInv(n, s, u);
  }

  lemma Free(s: State, m: nat)
    requires Owned(s, m) && !Has(Parent, s.parent, m) && !Has(Child, s.child, m)
    ensures OwnerOf(s, m) == None
  {
    OwnerCases(OwnerOf(s, m));
  }

  /** The thread that is behind finds the next mutex free. */
  lemma ChildIsFree(n: nat, s: State)
    requires Programs(n, s) && Mutexes(s) && Order(n, s) && s.child.Printing? && s.child.stage.AtLock?
    requires s.parent.Done? || (s.parent.Printing? && s.parent.stage.AtLock? && s.parent.i == s.child.i + 1)
    ensures OwnerOf(s, NextMutex(s.child.current)) == None
  {
    OnceAround(s.child.i);
    Free(s, NextMutex(s.child.current));
  }

  lemma ParentIsFree(n: nat, s: State)
    requires Programs(n, s) && Mutexes(s) && Order(n, s) && s.parent.Printing? && s.parent.stage.AtLock?
    requires s.parent.i == Rounds(n, s.child)
    ensures OwnerOf(s, NextMutex(s.parent.current)) == None
  {
    OnceAround(s.parent.i);
    Free(s, NextMutex(s.parent.current));
  }

  /** The step of one thread that the other one does not hold up. */
  lemma SomeoneMoves(n: nat, s: State) returns (u: State)
    requires Inv(n, s) && !Finished(s)
    ensures Step(n, s, u) && !Spins(s, u)
  {
    hide Printed, Alternate;
    u := s;
    if s.parent.LockFirst? { Free(s, ZERO_MUTEX); }
    match s.parent
    case LockFirst => u := Goto(Locked(s, Parent, ZERO_MUTEX), Parent, Create);
    case Create => u := Goto(s, Parent, TryLock).(child := LockFirst);
    case GiveBack => u := Goto(Unlocked(s, Parent, SECOND_MUTEX), Parent, TryLock);
    case LastUnlock => u := Goto(Unlocked(s, Parent, ZERO_MUTEX), Parent, Done);
    case TryLock =>
      u := if OwnerOf(s, SECOND_MUTEX) == None
        then Goto(Locked(s, Child, SECOND_MUTEX), Child, Printing(0, SECOND_MUTEX, AtTop))
        else Goto(s, Parent, Printing(0, ZERO_MUTEX, AtTop));
    case Printing(i, current, stage) =>
      if stage.AtLock? && i == Rounds(n, s.child) { ParentIsFree(n, s); }
      if stage.AtLock? && !CanLock(s, Parent, NextMutex(current)) {
        if s.child.stage.AtLock? { ChildIsFree(n, s); }
        u := PrintNext(n, Child, Done, s);
      } else {
        u := PrintNext(n, Parent, LastUnlock, s);
      }
    case NotCreated => assert false;
    case Done =>
      if s.child.stage.AtLock? { ChildIsFree(n, s); }
      u := PrintNext(n, Child, Done, s);
  }

  ghost predicate CanMove(n: nat, s: State) { exists u: State :: Step(n, s, u) }

  /** No interleaving gets stuck: while a thread has not finished, some thread can move. */
  lemma NoDeadlock(n: nat, p: seq<State>)
    requires Run(n, p)
    ensures CanMove(n, p[|p|-1]) <==> !Finished(p[|p|-1])
  {
    hide Inv, Step, Spins;
    var s := p[|p|-1];
    RunInv(n, p, |p| - 1);
    if Finished(s) {
      FinishedStays(n, s);
    } else {
      var u := SomeoneMoves(n, s);
    }
  }

  lemma FinishedStays(n: nat, s: State)
    requires Finished(s)
    ensures forall u :: !Step(n, s, u)
  {
  }

  function Attempts(p: seq<State>): nat {
    if |p| < 2 then 0 else Attempts(p[..|p|-1]) + if Spins(p[|p|-2], p[|p|-1]) then 1 else 0
  }

  /** Every interleaving is over after a fixed number of steps, apart from the parent's early attempts at the second
      mutex, of two steps each. */
  lemma {:induction false} InterleavingsEnd(n: nat, p: seq<State>)
    requires Run(n, p)
    ensures |p| - 1 + Work(n, p[|p|-1]) <= 18 * n + 9 + 2 * Attempts(p)
    ensures |p| - 1 <= 18 * n + 9 + 2 * Attempts(p)
  {
    hide Inv, Step, Spins;
    if |p| == 1 {
      assert Work(n, Init()) == 18 * n + 9;
    } else {
      var q := p[..|p|-1];
      InterleavingsEnd(n, q);
      RunInv(n, p, |p| - 2);
      StepWorks(n, p[|p|-2], p[|p|-1]);
    }
  }

  /** However far an interleaving has come, it can go on to the end. */
  lemma {:induction false} CanFinish(n: nat, p: seq<State>) returns (q: seq<State>)
    requires Run(n, p)
    ensures Run(n, q) && p <= q && Finished(q[|q|-1])
    decreases Work(n, p[|p|-1])
  {
    hide Inv, Step, Spins, Finished, Work;
    q := p;
    var s := p[|p|-1];
    if !Finished(s) {
      RunInv(n, p, |p| - 1);
      var u := SomeoneMoves(n, s);
      StepWorks(n, s, u);
      q := CanFinish(n, p + [u]);
    }
  }
}
