/** Two threads that take turns at printing, handing three mutexes from one to the other.
    A state is what both threads and the mutexes are at between two calls; a step is one call of one thread. */
module Alternation {
  import opened Options

  datatype Thread = Parent | Child

  /** Where a thread stands in its round of `printLines`: at the loop head, before locking the next mutex, or before
      unlocking the current one. */
  datatype Stage = AtTop | AtLock | AtUnlock

  datatype Pc =
    | NotCreated
    | LockFirst
    | Create
    | TryLock
    | GiveBack
    | Printing(i: nat, current: nat, stage: Stage)
    | LastUnlock
    | Done

  /** `errors` counts the calls that an error-checking mutex refuses. */
  datatype State = State(owner: map<nat, Maybe<Thread>>, parent: Pc, child: Pc, output: seq<string>, errors: nat)

  const ZERO_MUTEX := 0
  const SECOND_MUTEX := 2
  const MUTEXES: nat := 3

  function Init(): State {
    State(map[0 := None, 1 := None, 2 := None], LockFirst, NotCreated, [], 0)
  }

  function At(s: State, t: Thread): Pc { if t.Parent? then s.parent else s.child }

  function Goto(s: State, t: Thread, pc: Pc): State {
    if t.Parent? then s.(parent := pc) else s.(child := pc)
  }

  function Text(t: Thread): string { if t.Parent? then "Parent\n" else "Child\n" }

  function OwnerOf(s: State, m: nat): Maybe<Thread> { if m in s.owner then s.owner[m] else None }

  // ----- the calls -----

  /** A lock call returns when the mutex is free, or with an error when the caller has it already. */
  predicate CanLock(s: State, t: Thread, m: nat) { OwnerOf(s, m) == None || OwnerOf(s, m) == Some(t) }

  function Locked(s: State, t: Thread, m: nat): State {
    if OwnerOf(s, m) == None then s.(owner := s.owner[m := Some(t)]) else s.(errors := s.errors + 1)
  }

  /** An unlock call returns at once, with an error when the caller does not have the mutex. */
  function Unlocked(s: State, t: Thread, m: nat): State {
    if OwnerOf(s, m) == Some(t) then s.(owner := s.owner[m := None]) else s.(errors := s.errors + 1)
  }

  /** The next of the mutexes in a ring. */
  function NextMutex(m: nat): nat { (m + 1) % MUTEXES }

  /** What a step of `printLines` for `n` lines leads to; what the caller does after it returns is `after`. */
  function PrintNext(n: nat, t: Thread, after: Pc, s: State): State
    requires At(s, t).Printing?
  {
    var pc := At(s, t);
    match pc.stage
    case AtTop =>
      if pc.i < 3 * n then
        var printed := if pc.current == ZERO_MUTEX then s.(output := s.output + [Text(t)]) else s;
        Goto(printed, t, pc.(stage := AtLock))
      else
        Goto(s, t, after)
    case AtLock => Goto(Locked(s, t, NextMutex(pc.current)), t, pc.(stage := AtUnlock))
    case AtUnlock => Goto(Unlocked(s, t, pc.current), t, Printing(pc.i + 1, NextMutex(pc.current), AtTop))
  }

  predicate PrintStep(n: nat, t: Thread, after: Pc, s: State, u: State) {
    var pc := At(s, t);
    && pc.Printing?
    && (pc.stage.AtLock? ==> CanLock(s, t, NextMutex(pc.current)))
    && u == PrintNext(n, t, after, s)
  }

  predicate ParentStep(n: nat, s: State, u: State) {
    match s.parent
    case LockFirst => CanLock(s, Parent, ZERO_MUTEX) && u == Goto(Locked(s, Parent, ZERO_MUTEX), Parent, Create)
    case Create =>
      // The thread is created, or it is not and the program gives up.
      || u == Goto(s, Parent, TryLock).(child := LockFirst)
      || u == Goto(s, Parent, LastUnlock)
    case TryLock =>
      if OwnerOf(s, SECOND_MUTEX) == None
      then u == Goto(Locked(s, Parent, SECOND_MUTEX), Parent, GiveBack)
      else u == Goto(s, Parent, Printing(0, ZERO_MUTEX, AtTop))
    case GiveBack => u == Goto(Unlocked(s, Parent, SECOND_MUTEX), Parent, TryLock)
    case Printing(_, _, _) => PrintStep(n, Parent, LastUnlock, s, u)
    case LastUnlock => u == Goto(Unlocked(s, Parent, ZERO_MUTEX), Parent, Done)
    case _ => false
  }

  predicate ChildStep(n: nat, s: State, u: State) {
    match s.child
    case LockFirst =>
      && CanLock(s, Child, SECOND_MUTEX)
      && u == Goto(Locked(s, Child, SECOND_MUTEX), Child, Printing(0, SECOND_MUTEX, AtTop))
    case Printing(_, _, _) => PrintStep(n, Child, Done, s, u)
    case _ => false
  }

  predicate Step(n: nat, s: State, u: State) { ParentStep(n, s, u) || ChildStep(n, s, u) }

  /** The states of one interleaving, from the start. */
  ghost predicate Run(n: nat, p: seq<State>) {
    p != [] && p[0] == Init() && forall k :: 0 <= k < |p| - 1 ==> Step(n, p[k], p[k+1])
  }

  // ----- the invariant -----

  /** The mutex that `i` moves around the ring lead to. */
  function Reached(i: nat): (m: nat)
    ensures m < 3
  {
    if i == 0 then ZERO_MUTEX else NextMutex(Reached(i - 1))
  }

  /** How many mutexes a thread has left behind. */
  function Rounds(n: nat, pc: Pc): nat {
    match pc
    case Printing(i, _, _) => i
    case LastUnlock => 3 * n
    case Done => 3 * n
    case _ => 0
  }

  /** Does a thread at `pc` have mutex `m`? */
  predicate Has(t: Thread, pc: Pc, m: nat) {
    match pc
    case Printing(_, current, stage) => m == current || (stage == AtUnlock && m == NextMutex(current))
    case GiveBack => m == SECOND_MUTEX || m == ZERO_MUTEX
    case NotCreated => false
    case LockFirst => false
    case Done => t.Child? && m == SECOND_MUTEX
    case _ => m == ZERO_MUTEX
  }

  /** A thread is where its program can be, at the mutex that its number of rounds gives. */
  predicate InProgram(n: nat, t: Thread, pc: Pc) {
    match pc
    case NotCreated => t.Child?
    case LockFirst => true
    case Printing(i, current, stage) =>
      && i <= 3 * n && (stage != AtTop ==> i < 3 * n)
      && current == Reached(if t.Parent? then i else i + SECOND_MUTEX)
    case Done => true
    case _ => t.Parent?
  }

  predicate GaveUp(s: State) { s.child.NotCreated? && (s.parent.LastUnlock? || s.parent.Done?) }

  /** The parent is level with the child or one mutex ahead, and moving on only when level. */
  predicate InStep(n: nat, s: State) {
    var p, c := Rounds(n, s.parent), Rounds(n, s.child);
    && c <= p <= c + 1
    && (s.parent.Printing? && s.parent.stage == AtUnlock ==> p == c)
    && (s.child.Printing? && s.child.stage == AtUnlock ==> p == c + 1)
    && (s.parent.Printing? || s.parent.Done? || s.parent.LastUnlock? ==> s.child.Printing? || s.child.Done?)
    && (s.child.NotCreated? <==> s.parent.LockFirst? || s.parent.Create?)
    && (s.parent.GiveBack? ==> s.child.LockFirst?)
  }

  /** Rounds whose loop head a thread has passed. */
  function Passed(n: nat, pc: Pc): nat {
    Rounds(n, pc) + if pc.Printing? && pc.stage != AtTop then 1 else 0
  }

  /** Lines printed so far: the parent prints in rounds 0, 3, 6 and so on, the child in rounds 1, 4, 7. */
  function LinesSoFar(n: nat, s: State): nat {
    ParentLines(Passed(n, s.parent)) + ChildLines(Passed(n, s.child))
  }

  /** In how many of its first rounds a thread that starts `start` moves around the ring is at the first mutex. */
  function Turns(start: nat, passed: nat): nat {
    if passed == 0 then 0
    else Turns(start, passed - 1) + if Reached(passed - 1 + start) == ZERO_MUTEX then 1 else 0
  }

  function ParentLines(passed: nat): nat { Turns(ZERO_MUTEX, passed) }

  function ChildLines(passed: nat): nat { Turns(SECOND_MUTEX, passed) }

  /** Mutex `m` is with the thread that has it at this point of its program. */
  predicate Owned(s: State, m: nat) {
    && (OwnerOf(s, m) == Some(Parent) <==> Has(Parent, s.parent, m))
    && (OwnerOf(s, m) == Some(Child) <==> Has(Child, s.child, m))
  }

  predicate Mutexes(s: State) { s.errors == 0 && Owned(s, 0) && Owned(s, 1) && Owned(s, 2) }

  predicate Programs(n: nat, s: State) { InProgram(n, Parent, s.parent) && InProgram(n, Child, s.child) }

  /** The first `k` lines of an endless alternation. */
  function Alternate(k: nat): (r: seq<string>)
    ensures |r| == k
  {
    if k == 0 then [] else Alternate(k - 1) + [Text(if k % 2 == 1 then Parent else Child)]
  }

  predicate Order(n: nat, s: State) { GaveUp(s) || InStep(n, s) }

  predicate Printed(n: nat, s: State) {
    s.output == if GaveUp(s) then [] else Alternate(LinesSoFar(n, s))
  }

  predicate Inv(n: nat, s: State) { Programs(n, s) && Mutexes(s) && Order(n, s) && Printed(n, s) }

  lemma InitInv(n: nat)
    ensures Inv(n, Init())
  {
  }

  /** Three moves lead once around the ring. */
  lemma OnceAround(i: nat)
    ensures Reached(i + 3) == Reached(i)
    ensures Reached(i + 1) == NextMutex(Reached(i)) && Reached(i + 2) == NextMutex(Reached(i + 1))
    ensures Reached(i) != Reached(i + 1) && Reached(i + 1) != Reached(i + 2) && Reached(i) != Reached(i + 2)
  {
    assert Reached(i + 2) == NextMutex(Reached(i + 1)) && Reached(i + 3) == NextMutex(Reached(i + 2));
  }

  lemma PrintKeepsProgram(n: nat, t: Thread, after: Pc, s: State, u: State)
    requires InProgram(n, t, At(s, t)) && PrintStep(n, t, after, s, u) && InProgram(n, t, after)
    ensures InProgram(n, t, At(u, t))
    ensures At(u, if t.Parent? then Child else Parent) == At(s, if t.Parent? then Child else Parent)
  {
    OnceAround(At(s, t).i);
    OnceAround(At(s, t).i + SECOND_MUTEX);
  }

  lemma StepKeepsPrograms(n: nat, s: State, u: State)
    requires Programs(n, s) && Step(n, s, u)
    ensures Programs(n, u)
  {
    hide PrintStep, CanLock, OwnerOf;
    if s.parent.Printing? && ParentStep(n, s, u) {
      PrintKeepsProgram(n, Parent, LastUnlock, s, u);
    } else if s.child.Printing? && ChildStep(n, s, u) {
      PrintKeepsProgram(n, Child, Done, s, u);
    }
  }

  /** After three rounds for each line a thread is at the mutex where it started. */
  lemma {:induction false} BackAtStart(n: nat)
    ensures Reached(3 * n) == ZERO_MUTEX && Reached(3 * n + SECOND_MUTEX) == SECOND_MUTEX
  {
    if n > 0 {
      BackAtStart(n - 1);
      OnceAround(3 * (n - 1));
    }
    OnceAround(3 * n);
  }

  /** Where a thread prints, both its mutex and the next are with the thread that has them. */
  lemma AtItsMutex(s: State, pc: Pc)
    requires Mutexes(s) && pc.Printing? && pc.current < 3
    ensures NextMutex(pc.current) < 3 && NextMutex(pc.current) != pc.current
    ensures Owned(s, pc.current) && Owned(s, NextMutex(pc.current))
  {
    assert pc.current == 0 || pc.current == 1 || pc.current == 2;
  }

  lemma ParentKeepsMutexes(n: nat, s: State, u: State)
    requires Programs(n, s) && Mutexes(s) && Order(n, s) && ParentStep(n, s, u)
    ensures Mutexes(u)
  {
    BackAtStart(n);
    if s.parent.Printing? {
      AtItsMutex(s, s.parent);
    }
  }

  lemma ChildKeepsMutexes(n: nat, s: State, u: State)
    requires Programs(n, s) && Mutexes(s) && ChildStep(n, s, u)
    ensures Mutexes(u)
  {
    BackAtStart(n);
    if s.child.Printing? {
      AtItsMutex(s, s.child);
    }
  }

  lemma OwnerCases(owner: Maybe<Thread>)
    ensures owner == None || owner == Some(Parent) || owner == Some(Child)
  {
    if owner.Some? {
      assert owner.value.Parent? || owner.value.Child?;
    }
  }

  lemma ParentKeepsOrder(n: nat, s: State, u: State)
    requires Programs(n, s) && Mutexes(s) && Order(n, s) && ParentStep(n, s, u)
    ensures Order(n, u)
  {
    OnceAround(Rounds(n, s.child));
    OnceAround(Rounds(n, s.parent));
    if s.parent.TryLock? {
      OwnerCases(OwnerOf(s, SECOND_MUTEX));
      assert s.child.Printing? ==> s.child.i == 0 && s.child.current == SECOND_MUTEX;
    }
  }

  lemma ChildKeepsOrder(n: nat, s: State, u: State)
    requires Programs(n, s) && Mutexes(s) && Order(n, s) && ChildStep(n, s, u)
    ensures Order(n, u)
  {
    OnceAround(Rounds(n, s.child));
  }

  lemma AlternateNext(k: nat)
    ensures Alternate(k + 1) == Alternate(k) + [Text(if k % 2 == 0 then Parent else Child)]
    ensures Alternate(0) == []
  {
  }

  /** The child has printed as many lines as the parent, unless the parent has just printed. */
  lemma {:induction false} Balance(i: nat)
    ensures ParentLines(i) == ChildLines(i) + if Reached(i) == 1 then 1 else 0
  {
    if i > 0 {
      Balance(i - 1);
      OnceAround(i - 1);
    }
  }

  lemma OneMore(i: nat)
    ensures ParentLines(i + 1) == ParentLines(i) + if Reached(i) == ZERO_MUTEX then 1 else 0
    ensures ChildLines(i + 1) == ChildLines(i) + if Reached(i + SECOND_MUTEX) == ZERO_MUTEX then 1 else 0
  {
  }

  /** When the parent's line is due both have printed equally often; `c` is what the child has passed. */
  lemma ParentLine(i: nat, c: nat)
    requires i <= c + 1 && c <= i + 1 && Reached(i) == ZERO_MUTEX
    ensures ParentLines(i) == ChildLines(c)
  {
    hide Turns;
    Balance(i);
    OnceAround(i);
    OneMore(i);
    if c < i {
      OneMore(c);
    }
  }

  /** When the child's line is due the parent is one line ahead; `p` is what the parent has passed. */
  lemma ChildLine(i: nat, p: nat)
    requires i <= p <= i + 2 && Reached(i + SECOND_MUTEX) == ZERO_MUTEX
    ensures ParentLines(p) == ChildLines(i) + 1
  {
    hide Turns;
    Balance(i);
    OnceAround(i);
    OneMore(i);
    OneMore(i + 1);
  }

  /** A step that takes no thread past its loop head prints nothing. */
  lemma NothingDue(n: nat, s: State, u: State)
    requires Printed(n, s) && u.output == s.output && GaveUp(u) == GaveUp(s)
    requires Passed(n, u.parent) == Passed(n, s.parent) && Passed(n, u.child) == Passed(n, s.child)
    ensures Printed(n, u)
  {
  }

  /** One step at the loop head of a thread prints the line that is due. */
  lemma LineDue(n: nat, t: Thread, s: State, u: State, print_: bool)
    requires Printed(n, s) && !GaveUp(s) && !GaveUp(u)
    requires u.output == if print_ then s.output + [Text(t)] else s.output
    requires LinesSoFar(n, u) == LinesSoFar(n, s) + if print_ then 1 else 0
    requires print_ ==> LinesSoFar(n, s) % 2 == if t.Parent? then 0 else 1
    ensures Printed(n, u)
  {
    hide LinesSoFar, Alternate;
    AlternateNext(LinesSoFar(n, s));
  }

  lemma ParentKeepsPrinted(n: nat, s: State, u: State)
    requires Inv(n, s) && ParentStep(n, s, u)
    ensures Printed(n, u)
  {
    hide Owned, Has, CanLock, OwnerOf, Alternate, Printed, ParentLines, ChildLines;
    if s.parent.Printing? && s.parent.stage.AtTop? && s.parent.i < 3 * n {
      OneMore(s.parent.i);
      if s.parent.current == ZERO_MUTEX {
        ParentLine(s.parent.i, Passed(n, s.child));
      }
      LineDue(n, Parent, s, u, s.parent.current == ZERO_MUTEX);
    } else if s.parent.Create? {
      CreatePrinted(n, s, u);
    } else {
      hide LinesSoFar;
      NothingDue(n, s, u);
    }
  }

  lemma CreatePrinted(n: nat, s: State, u: State)
    requires ParentStep(n, s, u) && s.parent.Create? && s.child.NotCreated? && Printed(n, s)
    ensures Printed(n, u)
  {
    hide Alternate, CanLock, OwnerOf, PrintStep, ParentLines, ChildLines;
    NoLines();
    AlternateNext(0);
  }

  lemma NoLines()
    ensures ParentLines(0) == 0 == ChildLines(0)
  {
  }

  lemma ChildKeepsPrinted(n: nat, s: State, u: State)
    requires Inv(n, s) && ChildStep(n, s, u)
    ensures Printed(n, u)
  {
    hide Owned, Has, CanLock, OwnerOf, Alternate, Printed, ParentLines, ChildLines;
    if s.child.Printing? && s.child.stage.AtTop? && s.child.i < 3 * n {
      OneMore(s.child.i);
      if s.child.current == ZERO_MUTEX {
        ChildLine(s.child.i, Passed(n, s.parent));
      }
      LineDue(n, Child, s, u, s.child.current == ZERO_MUTEX);
    } else {
      hide LinesSoFar;
      NothingDue(n, s, u);
    }
  }

  lemma StepKeepsInv(n: nat, s: State, u: State)
    requires Inv(n, s) && Step(n, s, u)
    ensures Inv(n, u)
  {
    hide Programs, Mutexes, Order, Printed, ParentStep, ChildStep;
    StepKeepsPrograms(n, s, u);
    if ParentStep(n, s, u) {
      ParentKeepsMutexes(n, s, u);
      ParentKeepsOrder(n, s, u);
      ParentKeepsPrinted(n, s, u);
    } else {
      ChildKeepsMutexes(n, s, u);
      ChildKeepsOrder(n, s, u);
      ChildKeepsPrinted(n, s, u);
    }
  }
}
