/** What a reader of the cache misses in its sleep: exactly what changes between its check and its sleep. */
module ProxySleep {
  import opened ProxyReader

  predicate Fills(turns: seq<Turn>) { Moves !in turns }

  predicate NoWake(turns: seq<Turn>) { Signals !in turns && WakesAnyway !in turns }

  lemma StepChanges(r: Reader, t: Turn)
    requires (r.place in {CheckReady, Window} && t != Moves) || (r.place == Asleep && t != Signals && t != WakesAnyway)
    ensures var s := After(r, t);
            && s.place == r.place && s.count == r.count && s.sent == r.sent && s.ready == r.ready
            && |s.cash| == |r.cash| + (if t.Appends? then |t.bytes| else 0)
  {
  }

  lemma {:induction false} WhatChanges(r: Reader, turns: seq<Turn>)
    requires (r.place in {CheckReady, Window} && Fills(turns)) || (r.place == Asleep && NoWake(turns))
    ensures var s := Run(r, turns);
            && s.place == r.place && s.count == r.count && s.sent == r.sent && s.ready == r.ready
            && |r.cash| <= |s.cash| && (|r.cash| < |s.cash| <==> Grows(turns))
            && s.connected == ConnectedAfter(r.connected, turns)
  {
    hide After, Grows, ConnectedAfter;
    ConnectedIs(r, turns);
    NothingGrows();
    if turns != [] {
      var n := |turns| - 1;
      var before := turns[..n];
      assert turns == before + [turns[n]];
      WhatChanges(r, before);
      assert forall t :: t in turns <==> t in before || t == turns[n];
      StepChanges(Run(r, before), turns[n]);
      GrowsMore(before, turns[n]);
    }
  }

  /** Which steps lead to the places before and in sleep. */
  lemma StepPlace(r: Reader, t: Turn)
    ensures After(r, t).place == CheckReady ==>
      if t == Moves then r.place == CheckServer && r.connected else r.place == CheckReady
    ensures After(r, t).place == Window ==>
      if t == Moves then r.place == CheckReady && !Ready(r) else r.place == Window
    ensures After(r, t).place == Asleep ==>
      (t == Moves && r.place == Window) || (r.place == Asleep && t != Signals && t != WakesAnyway)
  {
  }

  lemma {:induction false} SinceServerChecked(r: Reader, turns: seq<Turn>) returns (p: seq<Turn>, m1: seq<Turn>)
    requires r.place == CheckServer && Run(r, turns).place == CheckReady
    ensures turns == p + [Moves] + m1 && Run(r, p).place == CheckServer && Run(r, p).connected && Fills(m1)
  {
    hide After;
    var n := |turns| - 1;
    var t := turns[n];
    StepPlace(Run(r, turns[..n]), t);
    assert turns == turns[..n] + [t];
    if t == Moves {
      p, m1 := turns[..n], [];
    } else {
      p, m1 := SinceServerChecked(r, turns[..n]);
      m1 := m1 + [t];
    }
  }

  lemma {:induction false} SinceReadyChecked(r: Reader, turns: seq<Turn>) returns (q: seq<Turn>, m2: seq<Turn>)
    requires r.place == CheckServer && Run(r, turns).place == Window
    ensures turns == q + [Moves] + m2 && Run(r, q).place == CheckReady && !Ready(Run(r, q)) && Fills(m2)
  {
    hide After;
    var n := |turns| - 1;
    var t := turns[n];
    StepPlace(Run(r, turns[..n]), t);
    assert turns == turns[..n] + [t];
    if t == Moves {
      q, m2 := turns[..n], [];
    } else {
      q, m2 := SinceReadyChecked(r, turns[..n]);
      m2 := m2 + [t];
    }
  }

  lemma {:induction false} SinceAsleep(r: Reader, turns: seq<Turn>) returns (q: seq<Turn>, rest: seq<Turn>)
    requires r.place == CheckServer && Run(r, turns).place == Asleep
    ensures turns == q + [Moves] + rest && Run(r, q).place == Window && NoWake(rest)
  {
    hide After;
    var n := |turns| - 1;
    var t := turns[n];
    StepPlace(Run(r, turns[..n]), t);
    assert turns == turns[..n] + [t];
    if t == Moves && Run(r, turns[..n]).place == Window {
      q, rest := turns[..n], [];
    } else {
      q, rest := SinceAsleep(r, turns[..n]);
      rest := rest + [t];
    }
  }

  /** The turns of a run that ends asleep: up to the last check of the server, between it and the check for bytes, between
      that and the sleep, and since. */
  datatype Parts = Parts(p: seq<Turn>, m1: seq<Turn>, m2: seq<Turn>, rest: seq<Turn>)

  function Joined(s: Parts): seq<Turn> { s.p + [Moves] + s.m1 + [Moves] + s.m2 + [Moves] + s.rest }

  ghost predicate PartsOf(s: Parts, r: Reader, turns: seq<Turn>) {
    && turns == Joined(s) && Fills(s.m1) && Fills(s.m2) && NoWake(s.rest)
    && Run(r, s.p).place == CheckServer && Run(r, s.p).connected
    && Run(r, s.p + [Moves] + s.m1).place == CheckReady && !Ready(Run(r, s.p + [Moves] + s.m1))
    && Run(r, s.p + [Moves] + s.m1 + [Moves] + s.m2).place == Window
  }

  lemma PartsExist(r: Reader, turns: seq<Turn>) returns (s: Parts)
    requires r.place == CheckServer && Run(r, turns).place == Asleep
    ensures PartsOf(s, r, turns)
  {
    var q, rest := SinceAsleep(r, turns);
    var q', m2 := SinceReadyChecked(r, q);
    var p, m1 := SinceServerChecked(r, q');
    s := Parts(p, m1, m2, rest);
  }

  /** In every run that ends asleep: bytes are left to send exactly when some came since the check for bytes, and the server
      is gone exactly when it went, and did not come back, since the check of the server. */
  lemma WorkExactly(s: Parts, r: Reader, turns: seq<Turn>)
    requires Arrives(r) && PartsOf(s, r, turns)
    ensures Run(r, turns).place == Asleep
    ensures More(Run(r, turns)) <==> Grows(s.m2) || Grows(s.rest)
    ensures !Run(r, turns).connected <==> !ConnectedAfter(true, s.m1 + s.m2 + s.rest)
  {
    hide Run, Grows, ConnectedAfter;
    var a, b, c := s.p, s.p + [Moves] + s.m1, s.p + [Moves] + s.m1 + [Moves] + s.m2;
    AlwaysPrefix(r, b);
    RunMove(r, a, s.m1);
    WhatChanges(Moved(Run(r, a)), s.m1);
    RunMove(r, b, s.m2);
    WhatChanges(Moved(Run(r, b)), s.m2);
    RunMove(r, c, s.rest);
    WhatChanges(Moved(Run(r, c)), s.rest);
    ConnectedConcat(true, s.m1, s.m2);
    ConnectedConcat(true, s.m1 + s.m2, s.rest);
  }

  // ----- lost signals -----

  /** The signals still to come for what the filler has changed. */
  function Owed(turns: seq<Turn>): nat {
    if turns == [] then 0
    else OwedAfter(Owed(turns[..|turns|-1]), turns[|turns|-1])
  }

  function OwedAfter(before: nat, t: Turn): nat {
    match t
    case Appends(_) => before + 1
    case Disconnects => before + 1
    case Signals => if before > 0 then before - 1 else 0
    case _ => before
  }

  lemma {:induction false} OwedSince(s: seq<Turn>, rest: seq<Turn>)
    requires NoWake(rest)
    ensures Owed(s + rest) >= Owed(s) && (Owed(s + rest) == 0 ==> !Grows(rest) && Disconnects !in rest)
  {
    if rest == [] {
      assert s + rest == s;
    } else {
      var n := |rest| - 1;
      var before, t := rest[..n], rest[n];
      assert rest == before + [t];
      OwedSince(s, before);
      assert (s + rest)[..|s|+n] == s + before && (s + rest)[|s|+n] == t;
      GrowsMore(before, t);
      assert t in rest && forall x :: x in rest <==> x in before || x == t;
    }
  }

  lemma {:induction false} StaysConnected(before: bool, turns: seq<Turn>)
    requires Disconnects !in turns
    ensures ConnectedAfter(before, turns) <==> before || Connects in turns
  {
    if turns != [] {
      var n := |turns| - 1;
      assert turns == turns[..n] + [turns[n]];
      StaysConnected(before, turns[..n]);
    }
  }

  /** In every run that ends asleep with every change signalled: the reader misses bytes exactly when some came between its
      check for bytes and its sleep, and it misses that the server is gone exactly when the server went between its check of
      the server and its sleep, and has not come back. All signals for it were given before the sleep. */
  lemma MissedExactly(s: Parts, r: Reader, turns: seq<Turn>)
    requires Arrives(r) && PartsOf(s, r, turns) && Owed(turns) == 0
    ensures More(Run(r, turns)) <==> Grows(s.m2)
    ensures !Run(r, turns).connected <==> !ConnectedAfter(true, s.m1 + s.m2) && Connects !in s.rest
    ensures Owed(s.p + [Moves] + s.m1 + [Moves] + s.m2 + [Moves]) == 0
  {
    hide Run, Grows, ConnectedAfter, Owed;
    WorkExactly(s, r, turns);
    OwedSince(s.p + [Moves] + s.m1 + [Moves] + s.m2 + [Moves], s.rest);
    ConnectedConcat(true, s.m1 + s.m2, s.rest);
    StaysConnected(ConnectedAfter(true, s.m1 + s.m2), s.rest);
  }

  /** A reader that is asleep sends nothing more until it is woken, whatever changes. */
  lemma SleepsOn(r: Reader, turns: seq<Turn>)
    requires r.place == Asleep && NoWake(turns)
    ensures Run(r, turns).place == Asleep && Run(r, turns).sent == r.sent
    ensures More(r) ==> More(Run(r, turns))
  {
    WhatChanges(r, turns);
  }

  /** So bytes can be lost: the reader looks, the filler appends and signals, disconnects and signals, the reader goes to
      sleep. Nothing is owed, the server is gone, the bytes are in the element, and the client has none of them. */
  lemma BytesLost(bytes: string)
    requires bytes != ""
    ensures var r := Reader("", false, true, false, 0, "", CheckServer);
            var turns := [Moves, Moves, Appends(bytes), Signals, Disconnects, Signals, Moves];
            && Run(r, turns) == Reader(bytes, false, false, false, 0, "", Asleep)
            && Owed(turns) == 0
  {
    hide Run, Owed;
    var r := Reader("", false, true, false, 0, "", CheckServer);
    var turns := [Moves, Moves, Appends(bytes), Signals, Disconnects, Signals, Moves];
    var after := [r, r.(place := CheckReady), r.(place := Window), r.(place := Window, cash := bytes),
                  r.(place := Window, cash := bytes), Reader(bytes, false, false, false, 0, "", Window),
                  Reader(bytes, false, false, false, 0, "", Window), Reader(bytes, false, false, false, 0, "", Asleep)];
    var owed := [0, 0, 0, 1, 0, 1, 0, 0];
    assert "" + bytes == bytes;
    FollowRun(r, turns, after, 7);
    FollowOwed(turns, owed, 7);
    assert turns[..7] == turns;
  }

  lemma {:induction false} FollowRun(r: Reader, turns: seq<Turn>, after: seq<Reader>, m: nat)
    requires |after| == |turns| + 1 && m <= |turns| && after[0] == r
    requires forall i :: 0 <= i < |turns| ==> after[i+1] == After(after[i], turns[i])
    ensures Run(r, turns[..m]) == after[m]
  {
    hide After;
    if m > 0 {
      FollowRun(r, turns, after, m - 1);
      assert turns[..m][..m-1] == turns[..m-1];
    }
  }

  lemma {:induction false} FollowOwed(turns: seq<Turn>, owed: seq<nat>, m: nat)
    requires |owed| == |turns| + 1 && m <= |turns| && owed[0] == 0
    requires forall i :: 0 <= i < |turns| ==> owed[i+1] == OwedAfter(owed[i], turns[i])
    ensures Owed(turns[..m]) == owed[m]
  {
    hide OwedAfter;
    if m > 0 {
      FollowOwed(turns, owed, m - 1);
      assert turns[..m][..m-1] == turns[..m-1];
    }
  }
}
