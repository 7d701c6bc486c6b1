/** How a reader of the cache comes to its end, and what its client lacks then. */
module ProxyLeaving {
  import opened ProxyReader
  import opened ProxySleep

  // ----- after the server has left -----

  function Moving(r: Reader, n: nat): Reader
    decreases n
  {
    if n == 0 then r else Moving(Moved(r), n - 1)
  }

  /** The reader is asleep or about to sleep, with nothing to wake it if the server has left already. */
  predicate TooLate(r: Reader) {
    r.place == Window || r.place == Asleep || (r.place == CheckReady && !Ready(r))
  }

  /** The bytes not written yet. */
  function Left(r: Reader): int {
    |r.cash| - r.count - if r.place.Prove? then |r.place.block| else 0
  }

  /** The reader is marked as ready although everything is counted. */
  predicate Stale(r: Reader) { r.ready && !More(r) }

  function Rank(r: Reader): nat {
    match r.place
    case Gone => 0
    case Write(last) => if Stale(r) then 12 else 1
    case Top(last) => if Stale(r) then 13 else if last then 2 else 6
    case Prove(last, _) => if Stale(r) then 11 else if last then 3 else 7
    case LookAgain => if Stale(r) then 14 else 4
    case CheckServer => if Stale(r) then 15 else 5
    case CheckReady => if Stale(r) then 15 else 5
    case ReadyAgain => if Stale(r) then 15 else 7
    case _ => 16
  }

  function Staleness(r: Reader): nat { if Stale(r) then 1 else 0 }

  lemma StepLeaves(r: Reader)
    requires Faithful(r) && !r.connected && !TooLate(r) && r.place != Gone
    ensures Left(Moved(r)) >= 0 && Moved(r).cash == r.cash && !Moved(r).connected && !TooLate(Moved(r))
    ensures Left(Moved(r)) <= Left(r)
    ensures Left(Moved(r)) == Left(r) ==> Staleness(Moved(r)) <= Staleness(r)
    ensures Left(Moved(r)) == Left(r) && Staleness(Moved(r)) == Staleness(r) ==> Rank(Moved(r)) < Rank(r)
    ensures Moved(r).place == Gone ==> Moved(r).sent == r.cash
  {
  }

  lemma {:induction false} Drains(r: Reader) returns (n: nat)
    requires Faithful(r) && !r.connected && !TooLate(r)
    ensures Moving(r, n).place == Gone && (if r.place == Gone then n == 0 else Moving(r, n).sent == r.cash)
    decreases Left(r), Staleness(r), Rank(r)
  {
    hide Faithful, Moved, TooLate, Left, Rank, Staleness;
    n := 0;
    if r.place != Gone {
      MoveFaithful(r);
      StepLeaves(r);
      n := Drains(Moved(r));
      n := n + 1;
    }
  }

  lemma {:induction false} StaysTooLate(r: Reader, n: nat)
    requires !r.connected && TooLate(r)
    ensures TooLate(Moving(r, n))
    decreases n
  {
    if n > 0 {
      StaysTooLate(Moved(r), n - 1);
    }
  }

  /** With the server gone and no signal to come, the reader's thread ends, with everything sent, exactly unless it is too
      late for it. */
  lemma LeavesByItself(r: Reader)
    requires Faithful(r) && !r.connected && r.place != Gone
    ensures (exists n: nat :: Moving(r, n).place == Gone) <==> !TooLate(r)
    ensures (exists n: nat :: Moving(r, n).place == Gone && Moving(r, n).sent == r.cash) <==> !TooLate(r)
  {
    if TooLate(r) {
      forall n: nat ensures Moving(r, n).place != Gone {
        StaysTooLate(r, n);
      }
    } else {
      var n := Drains(r);
    }
  }

  /** The server has left, and now this is signalled: the reader's thread ends, with everything sent, exactly unless it is at
      a check for bytes that finds none, or between that and its sleep. */
  lemma LeavesExactly(r: Reader)
    requires Faithful(r) && !r.connected && r.place != Gone
    ensures var s := After(r, Signals);
            (exists n: nat :: Moving(s, n).place == Gone && Moving(s, n).sent == r.cash)
            <==> r.place != Window && !(r.place == CheckReady && !Ready(r))
    ensures var s := After(r, Signals);
            (exists n: nat :: Moving(s, n).place == Gone) <==> r.place != Window && !(r.place == CheckReady && !Ready(r))
  {
    StepFaithful(r, Signals);
    LeavesByItself(After(r, Signals));
  }

  /** Either way the reader comes to rest. */
  lemma ComesToRest(r: Reader) returns (n: nat)
    requires Faithful(r) && !r.connected
    ensures Moving(r, n).place in {Gone, Asleep}
  {
    if r.place == CheckReady && !Ready(r) {
      n := 2;
      assert Moving(r, 2) == Moving(Moved(r), 1) == Moving(Moved(Moved(r)), 0);
    } else if r.place == Window {
      n := 1;
      assert Moving(r, 1) == Moving(Moved(r), 0);
    } else if r.place == Asleep {
      n := 0;
    } else {
      n := Drains(r);
    }
  }

  // ----- what a reader that is awake sends -----

  function StepsToWrite(place: Place): nat {
    match place
    case Write(_) => 1
    case Top(_) => 2
    case Prove(_, _) => 3
    case ReadyAgain => 3
    case LookAgain => 4
    case CheckReady => 5
    case CheckServer => 6
    case _ => 7
  }

  lemma StepDelivers(r: Reader)
    requires Faithful(r) && r.place !in {Gone, Window, Asleep} && r.sent != r.cash
    ensures Left(r) > 0 && Moved(r).cash == r.cash && Moved(r).place !in {Gone, Window, Asleep}
    ensures 0 <= Left(Moved(r)) <= Left(r)
    ensures Left(Moved(r)) == Left(r) ==> StepsToWrite(Moved(r).place) < StepsToWrite(r.place)
  {
    LeftIs(r);
  }

  lemma LeftIs(r: Reader)
    requires Faithful(r)
    ensures Left(r) == |r.cash| - |r.sent| >= 0 && (Left(r) == 0 <==> r.sent == r.cash)
  {
  }

  lemma {:induction false} Delivers(r: Reader) returns (n: nat)
    requires Faithful(r) && r.place !in {Gone, Window, Asleep}
    ensures Moving(r, n).sent == r.cash
    decreases Left(r), StepsToWrite(r.place)
  {
    hide Faithful, Moved, Left, StepsToWrite;
    n := 0;
    if r.sent != r.cash {
      MoveFaithful(r);
      StepDelivers(r);
      LeftIs(Moved(r));
      n := Delivers(Moved(r));
      n := n + 1;
    }
  }

  lemma {:induction false} RestingSendsNothing(r: Reader, n: nat)
    requires r.place in {Gone, Window, Asleep}
    ensures Moving(r, n).sent == r.sent
    decreases n
  {
    if n > 0 {
      RestingSendsNothing(Moved(r), n - 1);
    }
  }

  /** Left to itself the reader sends all that the element holds, whether the server is there or not, exactly unless it has
      left, sleeps or is about to sleep. */
  lemma DeliversExactly(r: Reader)
    requires Faithful(r)
    ensures (exists n: nat :: Moving(r, n).sent == r.cash) <==> r.sent == r.cash || r.place !in {Gone, Window, Asleep}
  {
    hide Faithful;
    if r.sent == r.cash {
      assert Moving(r, 0).sent == r.cash;
    } else if r.place in {Gone, Window, Asleep} {
      forall n: nat ensures Moving(r, n).sent != r.cash {
        RestingSendsNothing(r, n);
      }
    } else {
      var n := Delivers(r);
    }
  }

  // ----- what a reader that has left misses -----

  lemma {:induction false} GoneStays(r: Reader, turns: seq<Turn>)
    requires r.place == Gone
    ensures var s := Run(r, turns);
            s.place == Gone && s.sent == r.sent && |r.cash| <= |s.cash| && (|r.cash| < |s.cash| <==> Grows(turns))
    ensures r.cash <= Run(r, turns).cash
  {
    hide Grows;
    NothingGrows();
    if turns != [] {
      var n := |turns| - 1;
      assert turns == turns[..n] + [turns[n]];
      GoneStays(r, turns[..n]);
      GrowsMore(turns[..n], turns[n]);
    }
  }

  /** The turns of a run in which the reader leaves: up to the check of the server for which it leaves, while it sends what
      is there, and since. */
  datatype Leave = Leave(q: seq<Turn>, m: seq<Turn>, rest: seq<Turn>)

  ghost predicate LeavesAt(s: Leave, r: Reader, turns: seq<Turn>) {
    && turns == s.q + [Moves] + s.m + [Moves] + s.rest
    && Run(r, s.q).place == LookAgain && !Run(r, s.q).connected
    && Run(r, s.q + [Moves] + s.m).place == Top(true) && Run(r, s.q + [Moves] + s.m + [Moves]).place == Gone
  }

  predicate SendsLast(place: Place) { (place.Top? || place.Write? || place.Prove?) && place.last }

  lemma StepToLeave(r: Reader, t: Turn)
    ensures After(r, t).place == Gone ==> r.place == Gone || (t == Moves && r.place == Top(true))
    ensures SendsLast(After(r, t).place) ==>
      SendsLast(r.place) || (t == Moves && r.place == LookAgain && !r.connected)
  {
  }

  lemma {:induction false} SinceLeft(r: Reader, turns: seq<Turn>) returns (p: seq<Turn>, rest: seq<Turn>)
    requires r.place == CheckServer && Run(r, turns).place == Gone
    ensures turns == p + [Moves] + rest && Run(r, p).place == Top(true) && Run(r, p + [Moves]).place == Gone
  {
    hide After;
    var n := |turns| - 1;
    var t := turns[n];
    StepToLeave(Run(r, turns[..n]), t);
    assert turns == turns[..n] + [t];
    if Run(r, turns[..n]).place == Gone {
      p, rest := SinceLeft(r, turns[..n]);
      rest := rest + [t];
    } else {
      p, rest := turns[..n], [];
    }
  }

  lemma {:induction false} SinceLastCheck(r: Reader, turns: seq<Turn>) returns (q: seq<Turn>, m: seq<Turn>)
    requires r.place == CheckServer && SendsLast(Run(r, turns).place)
    ensures turns == q + [Moves] + m && Run(r, q).place == LookAgain && !Run(r, q).connected
  {
    hide After;
    var n := |turns| - 1;
    var t := turns[n];
    StepToLeave(Run(r, turns[..n]), t);
    assert turns == turns[..n] + [t];
    if SendsLast(Run(r, turns[..n]).place) {
      q, m := SinceLastCheck(r, turns[..n]);
      m := m + [t];
    } else {
      q, m := turns[..n], [];
    }
  }

  lemma LeaveExists(r: Reader, turns: seq<Turn>) returns (s: Leave)
    requires r.place == CheckServer && Run(r, turns).place == Gone
    ensures LeavesAt(s, r, turns)
  {
    var p, rest := SinceLeft(r, turns);
    var q, m := SinceLastCheck(r, p);
    s := Leave(q, m, rest);
  }

  /** A filler that appends nothing and does not connect again after it has disconnected. */
  predicate Orderly(turns: seq<Turn>) {
    forall i, j :: 0 <= i < j < |turns| && turns[i] == Disconnects ==> turns[j] != Connects && !turns[j].Appends?
  }

  /** In every run in which the reader leaves: its client lacks bytes exactly when some have come since. It leaves only
      because the server is not connected when it checks; and where it lacks bytes, that is because the server has not been
      marked as connected yet. */
  lemma LeftExactly(s: Leave, r: Reader, turns: seq<Turn>)
    requires Arrives(r) && LeavesAt(s, r, turns)
    ensures Run(r, turns).place == Gone && (Run(r, turns).sent != Run(r, turns).cash <==> Grows(s.rest))
    ensures !ConnectedAfter(r.connected, s.q)
    ensures Orderly(turns) && Grows(s.rest) ==> !r.connected && Connects !in s.q && Disconnects !in s.q
  {
    hide Run, ConnectedAfter, Grows, Orderly;
    var p := s.q + [Moves] + s.m;
    assert turns == p + [Moves] + s.rest;
    LastSent(r, p);
    RunConcat(r, p + [Moves], s.rest);
    GoneStays(Run(r, p + [Moves]), s.rest);
    ConnectedIs(r, s.q);
    if Orderly(turns) && Grows(s.rest) {
      assert s.q + ([Moves] + s.m + [Moves]) + s.rest == turns;
      NoDepartureBefore(s.q, [Moves] + s.m + [Moves], s.rest);
      StaysConnected(r.connected, s.q);
    }
  }

  lemma LastSent(r: Reader, p: seq<Turn>)
    requires Arrives(r) && Run(r, p).place == Top(true) && Run(r, p + [Moves]).place == Gone
    ensures Run(r, p + [Moves]).sent == Run(r, p + [Moves]).cash
  {
    AlwaysPrefix(r, p + [Moves]);
    assert (p + [Moves])[..|p|] == p;
  }

  lemma NoDepartureBefore(q: seq<Turn>, m: seq<Turn>, rest: seq<Turn>)
    requires Orderly(q + m + rest) && Grows(rest)
    ensures Disconnects !in q
  {
    var turns := q + m + rest;
    var j :| 0 <= j < |rest| && rest[j].Appends? && rest[j].bytes != "";
    assert turns[|q|+|m|+j] == rest[j];
    forall i | 0 <= i < |q| ensures q[i] != Disconnects {
      assert turns[i] == q[i];
    }
  }

  // ----- what the client lacks in the end -----

  /** Bytes came between the reader's last check and its sleep. */
  ghost predicate SleptThrough(r: Reader, turns: seq<Turn>) {
    exists s :: PartsOf(s, r, turns) && Grows(s.m2)
  }

  /** Bytes came after the reader had left. */
  ghost predicate LeftEarly(r: Reader, turns: seq<Turn>) {
    exists s :: LeavesAt(s, r, turns) && Grows(s.rest)
  }

  /** In every run in which the reader has come to rest and every change has been signalled: the client lacks bytes exactly
      when the reader has slept through some or has left before some. */
  lemma LacksExactly(r: Reader, turns: seq<Turn>)
    requires Arrives(r) && Run(r, turns).place in {Asleep, Gone} && Owed(turns) == 0
    ensures Run(r, turns).sent != Run(r, turns).cash <==> SleptThrough(r, turns) || LeftEarly(r, turns)
  {
    hide Run, PartsOf, LeavesAt, Grows, Owed;
    var end := Run(r, turns);
    AlwaysPrefix(r, turns);
    if end.place == Asleep {
      assert end.sent == end.cash[..end.count];
      var s := PartsExist(r, turns);
      MissedExactly(s, r, turns);
    } else {
      var s := LeaveExists(r, turns);
      LeftExactly(s, r, turns);
    }
    if s :| PartsOf(s, r, turns) && Grows(s.m2) {
      MissedExactly(s, r, turns);
    }
    if s :| LeavesAt(s, r, turns) && Grows(s.rest) {
      LeftExactly(s, r, turns);
    }
  }

  /** So a reader can come too early: it finds the element before the first bytes are in it and the server is marked as
      connected, and leaves. Every byte that comes is lost to its client. */
  lemma TooEarly(bytes: string)
    requires bytes != ""
    ensures var r := Reader("", false, false, false, 0, "", CheckServer);
            var turns := [Moves, Moves, Moves, Appends(bytes), Signals, Connects];
            && Run(r, turns) == Reader(bytes, false, true, false, 0, "", Gone)
            && Owed(turns) == 0 && Orderly(turns)
  {
    hide Run, Owed;
    var r := Reader("", false, false, false, 0, "", CheckServer);
    var turns := [Moves, Moves, Moves, Appends(bytes), Signals, Connects];
    var gone := Reader(bytes, false, false, false, 0, "", Gone);
    var after := [r, r.(place := LookAgain), r.(place := Top(true)), r.(place := Gone), gone, gone, gone.(connected := true)];
    assert "" + bytes == bytes;
    FollowRun(r, turns, after, 6);
    FollowOwed(turns, [0, 0, 0, 0, 1, 0, 0], 6);
    assert turns[..6] == turns;
  }
}
