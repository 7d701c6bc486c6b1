/** A client that reads a growing cache element, and the thread that fills the element, as a state machine: the reader looks
    at the element, and goes to sleep when it finds nothing, in separate steps, and a signal wakes only a reader that is
    asleep already. */
module ProxyReader {
  import opened ProxyBuffer

  /** Where the reader's thread is; while it sends, whether it will leave afterwards. */
  datatype Place =
    | CheckServer
    | CheckReady
    | Window
    | Asleep
    | LookAgain
    | ReadyAgain
    | Top(last: bool)
    | Write(last: bool)
    | Prove(last: bool, block: string)
    | Gone

  datatype Reader = Reader(cash: string, ended: bool, connected: bool, ready: bool, count: nat, sent: string, place: Place)

  /** One step of a thread. The filler changes the element first and signals in a step of its own. It marks the server as
      connected without a signal, some time after readers can find the element. */
  datatype Turn =
    | Appends(bytes: string)
    | Ends
    | Connects
    | Disconnects
    | Signals
    | WakesAnyway
    | Moves

  /** Are there bytes that have not been counted as sent? */
  predicate More(r: Reader) { r.count < |r.cash| }

  /** What the check for bytes answers: a mark of readiness stays until everything is counted. */
  predicate Ready(r: Reader) { r.ready || More(r) }

  function Moved(r: Reader): Reader {
    match r.place
    case CheckServer => r.(place := if r.connected then CheckReady else LookAgain)
    case CheckReady => r.(ready := Ready(r), place := if Ready(r) then LookAgain else Window)
    case Window => r.(place := Asleep)
    case Asleep => r
    case LookAgain => r.(place := if r.connected then ReadyAgain else Top(true))
    case ReadyAgain => r.(ready := Ready(r), place := if Ready(r) then Top(false) else CheckServer)
    case Top(last) => r.(ready := Ready(r), place := if Ready(r) then Write(last) else if last then Gone else CheckServer)
    case Write(last) =>
      var block := if r.count <= |r.cash| then NextBlock(r.cash, r.count) else "";
      r.(sent := r.sent + block, place := Prove(last, block))
    case Prove(last, block) =>
      var count := r.count + |block|;
      r.(count := count, ready := r.ready && count != |r.cash|, place := Top(last))
    case Gone => r
  }

  function Woken(r: Reader): Reader { if r.place == Asleep then r.(place := CheckServer) else r }

  function After(r: Reader, t: Turn): Reader {
    match t
    case Appends(bytes) => r.(cash := r.cash + bytes)
    case Ends => r.(ended := true)
    case Connects => r.(connected := true)
    case Disconnects => r.(connected := false)
    case Signals => Woken(r)
    case WakesAnyway => Woken(r)
    case Moves => Moved(r)
  }

  function Run(r: Reader, turns: seq<Turn>): Reader {
    if turns == [] then r else After(Run(r, turns[..|turns|-1]), turns[|turns|-1])
  }

  /** Do some turns leave the server marked as connected? */
  function ConnectedAfter(before: bool, turns: seq<Turn>): bool {
    if turns == [] then before
    else
      match turns[|turns|-1]
      case Connects => true
      case Disconnects => false
      case _ => ConnectedAfter(before, turns[..|turns|-1])
  }

  /** Do some turns bring bytes? */
  predicate Grows(turns: seq<Turn>) {
    exists i :: 0 <= i < |turns| && turns[i].Appends? && turns[i].bytes != ""
  }

  /** A reader that has just come to an element. */
  predicate Arrives(r: Reader) { r.count == 0 && r.sent == "" && r.place == CheckServer }

  lemma RunMore(r: Reader, turns: seq<Turn>, m: nat)
    requires m < |turns|
    ensures Run(r, turns[..m+1]) == After(Run(r, turns[..m]), turns[m])
  {
    assert turns[..m+1][..m] == turns[..m];
  }

  lemma {:induction false} RunConcat(r: Reader, s: seq<Turn>, t: seq<Turn>)
    ensures Run(r, s + t) == Run(Run(r, s), t)
  {
    hide After;
    if t == [] {
      assert s + t == s;
    } else {
      var n := |t| - 1;
      RunConcat(r, s, t[..n]);
      assert (s + t)[..|s + t| - 1] == s + t[..n];
    }
  }

  lemma RunMove(r: Reader, q: seq<Turn>, m: seq<Turn>)
    ensures Run(r, q + [Moves] + m) == Run(Moved(Run(r, q)), m)
  {
    RunConcat(r, q + [Moves], m);
    assert (q + [Moves])[..|q|] == q;
  }

  lemma NothingGrows()
    ensures !Grows([])
  {
  }

  lemma GrowsMore(turns: seq<Turn>, t: Turn)
    ensures Grows(turns + [t]) <==> Grows(turns) || (t.Appends? && t.bytes != "")
  {
    var more := turns + [t];
    if Grows(turns) {
      var i :| 0 <= i < |turns| && turns[i].Appends? && turns[i].bytes != "";
      assert more[i] == turns[i];
    }
    assert more[|turns|] == t;
  }

  lemma ConnectedMore(before: bool, turns: seq<Turn>, t: Turn)
    ensures ConnectedAfter(before, turns + [t])
            == if t == Connects then true else if t == Disconnects then false else ConnectedAfter(before, turns)
  {
    assert (turns + [t])[..|turns|] == turns;
  }

  lemma StepConnects(r: Reader, t: Turn)
    ensures After(r, t).connected == if t == Connects then true else if t == Disconnects then false else r.connected
  {
  }

  lemma {:induction false} ConnectedIs(r: Reader, turns: seq<Turn>)
    ensures Run(r, turns).connected == ConnectedAfter(r.connected, turns)
  {
    hide After;
    if turns != [] {
      var n := |turns| - 1;
      ConnectedIs(r, turns[..n]);
      StepConnects(Run(r, turns[..n]), turns[n]);
    }
  }

  lemma {:induction false} ConnectedConcat(before: bool, s: seq<Turn>, t: seq<Turn>)
    ensures ConnectedAfter(before, s + t) == ConnectedAfter(ConnectedAfter(before, s), t)
  {
    if t == [] {
      assert s + t == s;
    } else {
      var n := |t| - 1;
      ConnectedConcat(before, s, t[..n]);
      assert (s + t)[..|s|+n] == s + t[..n] && (s + t)[|s|+n] == t[n];
    }
  }

  // ----- what is sent -----

  /** What has been sent is a first part of the element. */
  predicate Faithful(r: Reader) {
    && r.count <= |r.cash|
    && (if r.place.Prove?
        then r.count + |r.place.block| <= |r.cash| && r.sent == r.cash[..r.count+|r.place.block|]
        else r.sent == r.cash[..r.count])
    && (r.place.Prove? ==> r.ready)
    && (r.place.Write? ==> r.ready)
  }

  lemma WriteFaithful(r: Reader)
    requires Faithful(r) && r.place.Write?
    ensures Faithful(Moved(r))
  {
    var block := NextBlock(r.cash, r.count);
    assert r.cash[..r.count] + block == r.cash[..r.count+|block|];
  }

  lemma ProveFaithful(r: Reader)
    requires Faithful(r) && r.place.Prove?
    ensures Faithful(Moved(r))
  {
    hide NextBlock;
  }

  lemma OtherFaithful(r: Reader)
    requires Faithful(r) && !r.place.Write? && !r.place.Prove?
    ensures Faithful(Moved(r))
  {
    hide NextBlock;
  }

  lemma MoveFaithful(r: Reader)
    requires Faithful(r)
    ensures Faithful(Moved(r))
  {
    hide Faithful, Moved;
    match r.place
    case Write(_) => WriteFaithful(r);
    case Prove(_, _) => ProveFaithful(r);
    case _ => OtherFaithful(r);
  }

  lemma AppendFaithful(r: Reader, bytes: string)
    requires Faithful(r)
    ensures Faithful(r.(cash := r.cash + bytes))
  {
    var n := if r.place.Prove? then r.count + |r.place.block| else r.count;
    assert (r.cash + bytes)[..n] == r.cash[..n];
  }

  lemma StepFaithful(r: Reader, t: Turn)
    requires Faithful(r)
    ensures Faithful(After(r, t))
  {
    hide Moved;
    match t
    case Appends(bytes) => AppendFaithful(r, bytes);
    case Moves => MoveFaithful(r);
    case _ =>
  }

  /** In every run the client has a first part of the element, and it has all of it at each step at which the reader stops
      sending. */
  lemma {:induction false} AlwaysPrefix(r: Reader, turns: seq<Turn>)
    requires Arrives(r)
    ensures var s := Run(r, turns); Faithful(s) && s.sent <= s.cash
    ensures turns != [] ==>
      var before, s := Run(r, turns[..|turns|-1]), Run(r, turns);
      before.place.Top? && !s.place.Top? && !s.place.Write? ==> s.sent == s.cash
  {
    if turns != [] {
      AlwaysPrefix(r, turns[..|turns|-1]);
      StepFaithful(Run(r, turns[..|turns|-1]), turns[|turns|-1]);
    }
  }
}
