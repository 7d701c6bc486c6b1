/** The thread of one connection of the proxy: everything that its buffer lives through. */
module ProxyHandler {
  import opened ProxyBuffer
  import opened ProxyParser
  import opened ProxyReader

  // ----- a client and its server -----

  /** What can happen next. With bytes that come in comes the element that the cache has for the request, if it has one when
      it is asked; the writes take what the buffer hands out. */
  datatype Event =
    | FromClient(bytes: string, found: CashElement?)
    | FromServer(bytes: string, found: CashElement?)
    | ToServer
    | ToClient
    | ClientLeaves
    | ServerLeaves

  function Brought(event: Event): string {
    if event.FromClient? || event.FromServer? then event.bytes else ""
  }

  /** All bytes that some events bring. */
  function AllBrought(events: seq<Event>): string {
    if events == [] then "" else AllBrought(events[..|events|-1]) + Brought(events[|events|-1])
  }

  /** Is `s` made of `a` and `b`, each in its order? */
  predicate Interleaved(a: string, b: string, s: string)
    decreases s
  {
    if s == "" then a == b == ""
    else
      var (last, rest) := (s[|s|-1], s[..|s|-1]);
      || (a != "" && a[|a|-1] == last && Interleaved(a[..|a|-1], b, rest))
      || (b != "" && b[|b|-1] == last && Interleaved(a, b[..|b|-1], rest))
  }

  lemma {:induction false} InterleavedMore(a: string, b: string, s: string, x: string)
    requires Interleaved(a, b, s)
    ensures Interleaved(a + x, b, s + x) && Interleaved(a, b + x, s + x)
    decreases x
  {
    if x == "" {
      assert a + x == a && b + x == b && s + x == s;
    } else {
      var n := |x| - 1;
      InterleavedMore(a, b, s, x[..n]);
      assert (s + x)[..|s|+n] == s + x[..n] && (a + x)[..|a|+n] == a + x[..n] && (b + x)[..|b|+n] == b + x[..n];
    }
  }

  lemma OneSide(s: string)
    ensures Interleaved("", s, s)
  {
    InterleavedMore("", "", "", s);
    assert "" + s == s;
  }

  /** What has been written to which side. All that is written to the server is the request, and all that is written to the
      client the answer, unless the two are mixed: then each byte of the answer has gone to one of them. */
  predicate Told(forwarded: string, sent: string, toServer: string, toClient: string, mixed: bool) {
    && forwarded <= toServer && Interleaved(toServer[|forwarded|..], toClient, sent)
    && (!mixed ==> toServer == forwarded && toClient == sent)
  }

  lemma ToldRequest(forwarded: string, toServer: string, toClient: string, x: string)
    requires Told(forwarded, "", toServer, toClient, false)
    ensures Told(forwarded + x, "", toServer + x, toClient, false)
  {
    assert (toServer + x)[|forwarded + x|..] == "";
    OneSide("");
  }

  lemma ToldServer(forwarded: string, sent: string, toServer: string, toClient: string, x: string)
    requires Told(forwarded, sent, toServer, toClient, true)
    ensures Told(forwarded, sent + x, toServer + x, toClient, true)
  {
    InterleavedMore(toServer[|forwarded|..], toClient, sent, x);
    assert (toServer + x)[|forwarded|..] == toServer[|forwarded|..] + x;
  }

  lemma ToldClient(forwarded: string, sent: string, toServer: string, toClient: string, mixed: bool, x: string)
    requires Told(forwarded, sent, toServer, toClient, mixed)
    ensures Told(forwarded, sent + x, toServer, toClient + x, mixed)
  {
    InterleavedMore(toServer[|forwarded|..], toClient, sent, x);
  }

  lemma ToldMixed(forwarded: string, sent: string, toServer: string, toClient: string, mixed: bool)
    requires Told(forwarded, sent, toServer, toClient, mixed)
    ensures Told(forwarded, sent, toServer, toClient, true)
  {
  }

  /** The two sides are mixed when a request is refused whose server is connected already: either may be sent the refusal. */
  ghost predicate Sided(b: Buffer, toServer: string, toClient: string)
    reads b
  {
    Told(b.forwarded, b.sent, toServer, toClient, Mixed(b))
  }

  ghost predicate Mixed(b: Buffer)
    reads b
  {
    b.CurrentPhase() == Refused && b.isReadyConnectHttpServer
  }

  // ----- how long it takes -----

  ghost predicate ServerReady(b: Buffer)
    reads b
  {
    b.isReadyToSend && b.isReadyConnectHttpServer && b.statusHttpServer == READ_REQUEST && b.statusClient != END_WORK
  }

  ghost predicate ClientReady(b: Buffer)
    reads b
  {
    b.isReadyToSend && b.statusClient == READ_RESPONSE
  }

  /** What a write takes out of the buffer. */
  function Written(ready: bool, buf: string): string { if ready then NextBlock(buf, 0) else "" }

  /** How many times in a row an event has just happened. */
  ghost function Tail(events: seq<Event>, event: Event): nat {
    if events == [] || events[|events|-1] != event then 0 else 1 + Tail(events[..|events|-1], event)
  }

  /** Nothing of an accepted request is left, or each of the last `k` events has sent a whole block of it to the server. */
  ghost predicate ServerDrained(b: Buffer, k: nat)
    reads b
  {
    b.CurrentPhase() == TakingRequest && b.Accepted() && b.statusHttpServer == READ_REQUEST && b.buf != "" ==>
      k * (BUF_SIZE - 1) <= |b.forwarded|
  }

  /** Nothing is left for a client that is ready, or each of the last `k` events has sent it a whole block. */
  ghost predicate ClientDrained(b: Buffer, k: nat)
    reads b
  {
    ClientReady(b) && b.buf != "" ==> k * (BUF_SIZE - 1) <= |b.sent|
  }

  // ----- the loop -----

  /** Everything that passes between a client and its server, until the client is served from the cache or there is nobody
      left to serve: what has been written to each side is what has been taken for it, up to what is still in the buffer,
      and every byte that has come in has been taken for one of them, or came after a refusal. And a side that is ready often
      enough gets all of it: the server an accepted request, the client the response or the refusal. */
  method Serve(events: seq<Event>) returns (b: Buffer, n: nat, over: bool, toServer: string, toClient: string)
    ensures fresh(b) && b.Valid() && n <= |events| && (n == |events| || b.isDataGetCash || over)
    ensures b.Arrived() == AllBrought(events[..n])
    ensures over ==> n > 0 && (events[n-1].ClientLeaves? || (events[n-1].ServerLeaves? && !b.isClientConnect))
    ensures b.CurrentPhase() == TakingRequest ==> toServer + b.buf == b.requested && toClient == ""
    ensures b.CurrentPhase() == Refused && !b.isReadyConnectHttpServer ==> toClient + b.buf == REFUSAL + b.late
    ensures b.CurrentPhase() == Refused ==>
      && b.forwarded <= toServer && Interleaved(toServer[|b.forwarded|..], toClient, b.sent)
      && b.sent + b.buf == REFUSAL + b.late
    ensures b.CurrentPhase() == FromCash ==> b.cashElement != null && Reads(b, b.cashElement) && toClient == b.sent == ""
    ensures b.CurrentPhase() in {AwaitingHeading, TakingBody, ServerDone} && b.isClientConnect ==>
      toClient + b.buf == b.received
    ensures b.CurrentPhase() in {AwaitingHeading, TakingBody, ServerDone} ==> toServer == b.requested
    ensures b.CurrentPhase() == TakingBody && b.isAddDataToCash ==>
      && b.headLength <= |b.received| && b.cashElement != null && b.cashElement.cash == b.received
      && (b.cashElement.isDownloadEnd <==> |b.received| >= b.headLength + b.Head().contentLength)
    ensures Tail(events[..n], ToServer) * (BUF_SIZE - 1) >= |b.requested| ==>
      b.CurrentPhase() == TakingRequest && b.statusHttpServer == READ_REQUEST && FindEndHeading(b.requested).Some? ==>
      toServer == b.requested
    ensures Tail(events[..n], ToClient) * (BUF_SIZE - 1) >= |b.received| ==>
      b.isClientConnect && (b.CurrentPhase() == TakingBody || (b.CurrentPhase() == ServerDone && ClientReady(b))) ==>
      toClient == b.received
    ensures Tail(events[..n], ToClient) * (BUF_SIZE - 1) >= |REFUSAL + b.late| ==>
      b.CurrentPhase() == Refused && !b.isReadyConnectHttpServer ==>
      REFUSAL <= toClient
  {
    hide FindEndHeading, ParsingResponseHeading, AllBrought, Interleaved, Tail, Told, Buffer.Valid;
    b := new Buffer();
    n, over, toServer, toClient := 0, false, "", "";
    NoneBrought(events);
    NoTail(events);
    Starts(b);
    while n < |events| && !b.isDataGetCash && !over
      invariant n <= |events| && fresh(b) && b.Valid() && Sided(b, toServer, toClient)
      invariant if b.isDataGetCash then b.sent == "" else fresh(b.Repr())
      invariant b.Arrived() == AllBrought(events[..n])
      invariant b.isDataGetCash || ServerDrained(b, Tail(events[..n], ToServer))
      invariant b.isDataGetCash || ClientDrained(b, Tail(events[..n], ToClient))
      invariant over ==> n > 0 && (events[n-1].ClientLeaves? || (events[n-1].ServerLeaves? && !b.isClientConnect))
    {
      ghost var ks, kc := Tail(events[..n], ToServer), Tail(events[..n], ToClient);
      TailMore(events, n, ToServer);
      TailMore(events, n, ToClient);
      over, toServer, toClient := Happens(b, events[n], toServer, toClient, ks, kc);
      BroughtMore(events, n);
      n := n + 1;
    }
    Outcome(b, toServer, toClient);
    AllWritten(b, Tail(events[..n], ToServer), Tail(events[..n], ToClient));
  }

  lemma Starts(b: Buffer)
    requires b.CurrentPhase() == TakingRequest && b.forwarded == b.sent == ""
    ensures Sided(b, "", "") && ServerDrained(b, 0) && ClientDrained(b, 0)
  {
    OneSide("");
  }

  /** What the buffer's invariant says about what has been written. */
  lemma Outcome(b: Buffer, toServer: string, toClient: string)
    requires b.Valid() && Sided(b, toServer, toClient)
    ensures b.CurrentPhase() == TakingRequest ==> toServer + b.buf == b.requested && toClient == ""
    ensures b.CurrentPhase() == Refused && !b.isReadyConnectHttpServer ==> toClient + b.buf == REFUSAL + b.late
    ensures b.CurrentPhase() == Refused ==>
      && b.forwarded <= toServer && Interleaved(toServer[|b.forwarded|..], toClient, b.sent)
      && b.sent + b.buf == REFUSAL + b.late && (!b.isReadyConnectHttpServer ==> toClient == b.sent)
    ensures b.CurrentPhase() == FromCash ==> b.cashElement != null && toClient == b.sent
    ensures b.CurrentPhase() in {AwaitingHeading, TakingBody, ServerDone} && b.isClientConnect ==>
      toClient + b.buf == b.received
    ensures b.CurrentPhase() in {AwaitingHeading, TakingBody, ServerDone} ==> toServer == b.requested
    ensures b.CurrentPhase() == TakingBody && b.isAddDataToCash ==>
      && b.headLength <= |b.received| && b.cashElement != null && b.cashElement.cash == b.received
      && (b.cashElement.isDownloadEnd <==> |b.received| >= b.headLength + b.Head().contentLength)
  {
    hide FindEndHeading, ParsingResponseHeading, ParsingHeading, Interleaved, Buffer.EndsByLength, Buffer.Head;
    assert REFUSAL + b.late + "" == REFUSAL + b.late && b.received + "" == b.received;
  }

  lemma NoTail(events: seq<Event>)
    ensures forall e :: Tail(events[..0], e) == 0
  {
  }

  lemma TailMore(events: seq<Event>, n: nat, event: Event)
    requires n < |events|
    ensures Tail(events[..n+1], event) == if events[n] == event then Tail(events[..n], event) + 1 else 0
  {
    assert events[..n+1][..n] == events[..n];
  }

  /** After enough writes nothing is left. */
  lemma AllWritten(b: Buffer, ks: nat, kc: nat)
    requires b.Valid() && (b.isDataGetCash || (ServerDrained(b, ks) && ClientDrained(b, kc)))
    ensures ks * (BUF_SIZE - 1) >= |b.requested| ==>
      b.CurrentPhase() == TakingRequest && b.statusHttpServer == READ_REQUEST && FindEndHeading(b.requested).Some? ==>
      b.buf == ""
    ensures kc * (BUF_SIZE - 1) >= |b.received| ==>
      b.isClientConnect && (b.CurrentPhase() == TakingBody || (b.CurrentPhase() == ServerDone && ClientReady(b))) ==>
      b.buf == ""
    ensures kc * (BUF_SIZE - 1) >= |REFUSAL + b.late| ==> b.CurrentPhase() == Refused ==> REFUSAL <= b.sent
  {
    hide FindEndHeading, ParsingResponseHeading, ParsingHeading, Buffer.Filling, Buffer.Head, Buffer.EndsByLength;
    if b.CurrentPhase() == Refused && |b.sent| >= |REFUSAL| {
      FirstPart(b.sent, b.buf, REFUSAL, b.late + "");
      assert REFUSAL + b.late + "" == REFUSAL + (b.late + "");
    }
  }

  lemma FirstPart(a: string, b: string, c: string, d: string)
    ensures a + b == c + d && |a| >= |c| ==> c <= a
  {
    if a + b == c + d && |a| >= |c| {
      assert forall i :: 0 <= i < |c| ==> c[i] == (c + d)[i] == (a + b)[i] == a[i];
    }
  }

  lemma NoneBrought(events: seq<Event>)
    ensures AllBrought(events[..0]) == ""
  {
  }

  lemma BroughtMore(events: seq<Event>, n: nat)
    requires n < |events|
    ensures AllBrought(events[..n+1]) == AllBrought(events[..n]) + Brought(events[n])
  {
    assert events[..n+1][..n] == events[..n];
  }

  /** One event. It is `over` when the client leaves and nobody needs the response, or when the server leaves too. */
  method Happens(b: Buffer, event: Event, toServer: string, toClient: string, ghost ks: nat, ghost kc: nat)
    returns (over: bool, toServer': string, toClient': string)
    requires b.Valid() && !b.isDataGetCash && Sided(b, toServer, toClient)
    requires ServerDrained(b, ks) && ClientDrained(b, kc)
    modifies b.Repr()
    ensures b.Valid() && Sided(b, toServer', toClient') && (b.isDataGetCash ==> b.sent == "")
    ensures b.Arrived() == old(b.Arrived()) + Brought(event)
    ensures b.isDataGetCash || b.cashElement == old(b.cashElement) || fresh(b.cashElement)
    ensures over ==> event.ClientLeaves? || (event.ServerLeaves? && !b.isClientConnect)
    ensures toServer' == toServer + if event.ToServer? then old(Written(ServerReady(b), b.buf)) else ""
    ensures toClient' == toClient + if event.ToClient? then old(Written(ClientReady(b), b.buf)) else ""
    ensures event.ClientLeaves? ==> over || !b.isClientConnect
    ensures event.ServerLeaves? && old(b.CurrentPhase()) in {AwaitingHeading, TakingBody} ==>
      b.CurrentPhase() == ServerDone && (b.isAddDataToCash ==> b.cashElement != null && !b.cashElement.isServerConnected)
    ensures b.isDataGetCash || ServerDrained(b, if event.ToServer? then ks + 1 else 0)
    ensures b.isDataGetCash || ClientDrained(b, if event.ToClient? then kc + 1 else 0)
  {
    hide Buffer.Valid, Told;
    b.Sides();
    over, toServer', toClient' := false, toServer, toClient;
    ToldMixed(b.forwarded, b.sent, toServer, toClient, Mixed(b));
    assert b.Arrived() + "" == b.Arrived() && toServer + "" == toServer && toClient + "" == toClient;
    match event
    case FromClient(bytes, found) =>
      if bytes != "" {
        var ok := b.ReadFromSocket(bytes, found);
      }
    case FromServer(bytes, found) =>
      if bytes != "" {
        var ok := b.ReadFromSocket(bytes, found);
      }
    case ToServer =>
      toServer' := WriteToServer(b, toServer, toClient, ks);
    case ToClient =>
      toClient' := WriteToClient(b, toServer, toClient, kc);
    case ClientLeaves =>
      if b.statusHttpServer == WRITE_RESPONSE_BODY && b.isAddDataToCash {
        b.ClientLeaves();
      } else {
        over := true;
      }
    case ServerLeaves =>
      if b.isReadyConnectHttpServer || b.statusHttpServer != READ_REQUEST {
        b.ServerLeaves();
        over := !b.isClientConnect;
      }
  }

  /** The server is ready for a write. */
  method WriteToServer(b: Buffer, toServer: string, ghost toClient: string, ghost k: nat) returns (toServer': string)
    requires b.Valid() && !b.isDataGetCash && Sided(b, toServer, toClient) && ServerDrained(b, k)
    modifies b
    ensures toServer' == toServer + old(Written(ServerReady(b), b.buf)) && ServerDrained(b, k + 1)
    ensures b.Valid() && Sided(b, toServer', toClient) && unchanged(b`isDataGetCash, b`cashElement)
    ensures b.Arrived() == old(b.Arrived())
  {
    hide Buffer.Valid, Told;
    b.Sides();
    toServer' := toServer;
    var ready := b.IsReadyToSend();
    if ready && b.isReadyConnectHttpServer && b.statusHttpServer == READ_REQUEST && b.statusClient != END_WORK {
      var block := b.SendBuf();
      if b.CurrentPhase() == TakingRequest {
        ToldRequest(b.forwarded, toServer, toClient, block);
      } else {
        ToldServer(b.forwarded, b.sent, toServer, toClient, block);
      }
      toServer' := toServer + block;
      b.ProofSend(block);
    }
  }

  /** The client is ready for a write. */
  method WriteToClient(b: Buffer, ghost toServer: string, toClient: string, ghost k: nat) returns (toClient': string)
    requires b.Valid() && !b.isDataGetCash && Sided(b, toServer, toClient) && ClientDrained(b, k)
    modifies b
    ensures toClient' == toClient + old(Written(ClientReady(b), b.buf)) && ClientDrained(b, k + 1)
    ensures b.Valid() && Sided(b, toServer, toClient') && unchanged(b`isDataGetCash, b`cashElement)
    ensures b.Arrived() == old(b.Arrived())
  {
    hide Buffer.Valid, Told;
    b.Sides();
    toClient' := toClient;
    var ready := b.IsReadyToSend();
    if ready && b.statusClient == READ_RESPONSE {
      var block := b.SendBuf();
      ToldClient(b.forwarded, b.sent, toServer, toClient, Mixed(b), block);
      toClient' := toClient + block;
      b.ProofSend(block);
    }
  }

  // ----- a client that reads from the cache -----

  /** Is a buffer the reader of a cache element? */
  ghost predicate Reads(b: Buffer, element: CashElement)
    reads b, b.Repr(), element
  {
    b.isDataGetCash && b.cashElement == element && b.Valid()
  }

  /** What a reader has sent is a first part of what the element holds. */
  lemma ReaderSends(b: Buffer, element: CashElement)
    requires Reads(b, element)
    ensures b.countByteReadFromCash <= |element.cash| && b.sent == element.cash[..b.countByteReadFromCash]
    ensures b.CurrentPhase() == FromCash
  {
  }

  /** A reader that has just come to an element. */
  ghost function Arriving(b: Buffer, element: CashElement): Reader
    reads b, element
  {
    Reader(element.cash, element.isDownloadEnd, element.isServerConnected, b.isReadyToSend, 0, "", CheckServer)
  }

  /** Are the buffer, its element and what has been written to the client as in a state of the machine? */
  ghost predicate Looks(b: Buffer, element: CashElement, written: string, r: Reader)
    reads b, b.Repr(), element
  {
    && Reads(b, element) && r.cash == element.cash && r.ended == element.isDownloadEnd
    && r.connected == element.isServerConnected && r.count == b.countByteReadFromCash && r.sent == written
    && r.ready == b.isReadyToSend && written == b.sent + if r.place.Prove? then r.place.block else ""
  }

  ghost function PlaceAt(r0: Reader, turns: seq<Turn>, m: nat): Place
    requires m <= |turns|
  {
    Run(r0, turns[..m]).place
  }

  /** A turn of another thread. */
  method Others(turn: Turn, ghost b: Buffer, element: CashElement, ghost written: string, ghost r: Reader)
    requires turn != Moves && Looks(b, element, written, r)
    modifies element
    ensures Looks(b, element, written, After(r, turn)) && old(element.cash) <= element.cash
  {
    match turn
    case Appends(bytes) => element.AppendStringToCash(bytes);
    case Ends => element.isDownloadEnd := true;
    case Connects => element.isServerConnected := true;
    case Disconnects => element.isServerConnected := false;
    case _ =>
  }

  /** The other threads have their turns until the reader has one. */
  method UntilMove(b: Buffer, element: CashElement, turns: seq<Turn>, n: nat, ghost written: string, ghost r0: Reader)
    returns (m: nat)
    requires n <= |turns| && Looks(b, element, written, Run(r0, turns[..n])) && Run(r0, turns[..n]).place != Asleep
    modifies element
    ensures n <= m <= |turns| && Looks(b, element, written, Run(r0, turns[..m]))
    ensures Run(r0, turns[..m]).place == Run(r0, turns[..n]).place && old(element.cash) <= element.cash
    ensures m < |turns| ==> turns[m] == Moves && Run(r0, turns[..m+1]) == Moved(Run(r0, turns[..m]))
  {
    hide Run, Looks, Moved;
    m := n;
    while m < |turns| && turns[m] != Moves
      invariant n <= m <= |turns| && Looks(b, element, written, Run(r0, turns[..m]))
      invariant Run(r0, turns[..m]).place == Run(r0, turns[..n]).place && old(element.cash) <= element.cash
    {
      Others(turns[m], b, element, written, Run(r0, turns[..m]));
      RunMore(r0, turns, m);
      m := m + 1;
    }
    if m < |turns| {
      RunMore(r0, turns, m);
    }
  }

  /** The reader goes to sleep, and sleeps until it is woken: no signal that was given before counts. */
  method CondWait(b: Buffer, element: CashElement, turns: seq<Turn>, n: nat, ghost written: string, ghost r0: Reader)
    returns (m: nat, woken: bool)
    requires n <= |turns| && Looks(b, element, written, Run(r0, turns[..n])) && PlaceAt(r0, turns, n) == Window
    modifies element
    ensures n <= m <= |turns| && Looks(b, element, written, Run(r0, turns[..m]))
    ensures if woken then n < m && PlaceAt(r0, turns, m) == CheckServer
            else m == |turns| && PlaceAt(r0, turns, m) in {Window, Asleep}
  {
    hide Run, Looks;
    woken := false;
    m := UntilMove(b, element, turns, n, written, r0);
    if m == |turns| {
      return;
    }
    FallsAsleep(b, element, written, Run(r0, turns[..m]));
    m := m + 1;
    while m < |turns| && !woken
      invariant n < m <= |turns| && Looks(b, element, written, Run(r0, turns[..m]))
      invariant PlaceAt(r0, turns, m) == if woken then CheckServer else Asleep
    {
      RunMore(r0, turns, m);
      if turns[m] != Moves {
        Others(turns[m], b, element, written, Run(r0, turns[..m]));
        woken := turns[m] == Signals || turns[m] == WakesAnyway;
      }
      m := m + 1;
    }
  }

  lemma FallsAsleep(b: Buffer, element: CashElement, written: string, r: Reader)
    requires Looks(b, element, written, r) && r.place == Window
    ensures Looks(b, element, written, Moved(r)) && Moved(r).place == Asleep
  {
  }

  /** The reader's turn at which it looks whether the server is there; not `ran` when there is no turn for it any more. */
  method AskServer(b: Buffer, element: CashElement, turns: seq<Turn>, n: nat, ghost written: string, ghost r0: Reader)
    returns (m: nat, ran: bool, connected: bool)
    requires n <= |turns| && Looks(b, element, written, Run(r0, turns[..n]))
    requires PlaceAt(r0, turns, n) in {CheckServer, LookAgain}
    modifies element
    ensures n <= m <= |turns| && Looks(b, element, written, Run(r0, turns[..m]))
    ensures if ran then n < m else m == |turns| && PlaceAt(r0, turns, m) == PlaceAt(r0, turns, n)
    ensures ran && PlaceAt(r0, turns, n) == CheckServer ==>
      PlaceAt(r0, turns, m) == if connected then CheckReady else LookAgain
    ensures ran && PlaceAt(r0, turns, n) == LookAgain ==>
      PlaceAt(r0, turns, m) == if connected then ReadyAgain else Top(true)
  {
    hide Run, Reads;
    ran, connected := false, false;
    m := UntilMove(b, element, turns, n, written, r0);
    if m < |turns| {
      connected := element.isServerConnected;
      m, ran := m + 1, true;
    }
  }

  /** The reader's turn at which it looks whether there is something to send. */
  method AskReady(b: Buffer, element: CashElement, turns: seq<Turn>, n: nat, ghost written: string, ghost r0: Reader)
    returns (m: nat, ran: bool, ready: bool)
    requires n <= |turns| && Looks(b, element, written, Run(r0, turns[..n]))
    requires PlaceAt(r0, turns, n) in {CheckReady, ReadyAgain} || PlaceAt(r0, turns, n).Top?
    modifies element, b`isReadyToSend
    ensures n <= m <= |turns| && Looks(b, element, written, Run(r0, turns[..m]))
    ensures if ran then n < m else m == |turns| && PlaceAt(r0, turns, m) == PlaceAt(r0, turns, n)
    ensures ran ==> b.isReadyToSend == ready && (!ready ==> b.countByteReadFromCash >= |element.cash|)
    ensures ran && PlaceAt(r0, turns, n) == CheckReady ==>
      PlaceAt(r0, turns, m) == if ready then LookAgain else Window
    ensures ran && PlaceAt(r0, turns, n) == ReadyAgain ==>
      PlaceAt(r0, turns, m) == if ready then Top(false) else CheckServer
    ensures ran && PlaceAt(r0, turns, n).Top? ==>
      var last := PlaceAt(r0, turns, n).last;
      PlaceAt(r0, turns, m) == if ready then Write(last) else if last then Gone else CheckServer
  {
    hide Run, Buffer.Valid;
    ran, ready := false, false;
    m := UntilMove(b, element, turns, n, written, r0);
    if m < |turns| {
      ReaderSends(b, element);
      ready := b.IsReadyToSend();
      m, ran := m + 1, true;
    }
  }

  /** The reader's turns at which it takes a block and writes it, and counts it. */
  method WriteBlock(b: Buffer, element: CashElement, turns: seq<Turn>, n: nat, written: string, ghost r0: Reader)
    returns (m: nat, ran: bool, written': string)
    requires n <= |turns| && Looks(b, element, written, Run(r0, turns[..n])) && PlaceAt(r0, turns, n).Write?
    requires b.isReadyToSend
    modifies element, b
    ensures n <= m <= |turns| && Looks(b, element, written', Run(r0, turns[..m]))
    ensures if ran then n < m && PlaceAt(r0, turns, m) == Top(PlaceAt(r0, turns, n).last)
            else m == |turns| && PlaceAt(r0, turns, m) != Gone
  {
    hide Run, Buffer.Valid;
    ghost var last := PlaceAt(r0, turns, n).last;
    ran, written' := false, written;
    m := UntilMove(b, element, turns, n, written, r0);
    if m < |turns| {
      ReaderSends(b, element);
      var block := b.SendBuf();
      written' := written' + block;
      m := m + 1;
      assert Looks(b, element, written', Run(r0, turns[..m])) && PlaceAt(r0, turns, m) == Prove(last, block);
      m := UntilMove(b, element, turns, m, written', r0);
      if m < |turns| {
        ReaderSends(b, element);
        b.ProofSend(block);
        m, ran := m + 1, true;
      }
    }
  }

  /** Writes to the client until there is nothing left: the client then has all that the element holds by then. */
  method SendAll(b: Buffer, element: CashElement, turns: seq<Turn>, n: nat, written: string, ghost last: bool,
                 ghost r0: Reader)
    returns (m: nat, ran: bool, written': string)
    requires n <= |turns| && Looks(b, element, written, Run(r0, turns[..n])) && PlaceAt(r0, turns, n) == Top(last)
    modifies b, element
    ensures n <= m <= |turns| && Looks(b, element, written', Run(r0, turns[..m]))
    ensures if ran then PlaceAt(r0, turns, m) == (if last then Gone else CheckServer) && n < m
            else m == |turns| && PlaceAt(r0, turns, m) != Gone
    ensures ran ==> written' == b.sent == element.cash
  {
    hide Run, Looks, PlaceAt;
    m, written' := n, written;
    while true
      invariant n <= m <= |turns| && Looks(b, element, written', Run(r0, turns[..m]))
      invariant PlaceAt(r0, turns, m) == Top(last)
      decreases |turns| - m
    {
      var ready;
      m, ran, ready := AskReady(b, element, turns, m, written', r0);
      if !ran { return; }
      if !ready {
        NothingLeft(b, element, turns, m, written', r0);
        return;
      }
      m, ran, written' := WriteBlock(b, element, turns, m, written', r0);
      if !ran { return; }
    }
  }

  lemma NothingLeft(b: Buffer, element: CashElement, turns: seq<Turn>, m: nat, written: string, r0: Reader)
    requires m <= |turns| && Looks(b, element, written, Run(r0, turns[..m])) && !PlaceAt(r0, turns, m).Prove?
    requires b.countByteReadFromCash >= |element.cash|
    ensures written == b.sent == element.cash
  {
    hide Run;
    ReaderSends(b, element);
  }

  /** The reader looks, and sleeps in between, until the server has left or there is something to send. */
  method WaitForWork(b: Buffer, element: CashElement, turns: seq<Turn>, n: nat, ghost written: string, ghost r0: Reader)
    returns (m: nat, ran: bool)
    requires n <= |turns| && Looks(b, element, written, Run(r0, turns[..n])) && PlaceAt(r0, turns, n) == CheckServer
    modifies element, b`isReadyToSend
    ensures n <= m <= |turns| && Looks(b, element, written, Run(r0, turns[..m]))
    ensures if ran then n < m && PlaceAt(r0, turns, m) == LookAgain else m == |turns| && PlaceAt(r0, turns, m) != Gone
  {
    hide Run, Looks, PlaceAt;
    var connected, ready;
    m, ran, ready := n, true, false;
    while true
      invariant n <= m <= |turns| && Looks(b, element, written, Run(r0, turns[..m])) && ran
      invariant PlaceAt(r0, turns, m) == CheckServer
      decreases |turns| - m
    {
      m, ran, connected := AskServer(b, element, turns, m, written, r0);
      if !ran || !connected { return; }
      m, ran, ready := AskReady(b, element, turns, m, written, r0);
      if !ran || ready { return; }
      m, ran := CondWait(b, element, turns, m, written, r0);
      if !ran { return; }
    }
  }

  /** The thread of a client that is served from the cache, for any turns of the threads: it is always as the machine says,
      and either it has left, with everything sent, or no thread has a turn any more. */
  method GetFromCash(b: Buffer, element: CashElement, turns: seq<Turn>) returns (m: nat, written: string)
    requires Reads(b, element) && b.sent == ""
    modifies b, element
    ensures m <= |turns| && Looks(b, element, written, Run(old(Arriving(b, element)), turns[..m]))
    ensures if Run(old(Arriving(b, element)), turns[..m]).place == Gone then written == b.sent == element.cash
            else m == |turns|
  {
    ghost var r0 := Arriving(b, element);
    ReaderSends(b, element);
    m, written := 0, "";
    assert Run(r0, turns[..0]) == r0;
    hide Run, Looks, PlaceAt;
    while true
      invariant m <= |turns| && Looks(b, element, written, Run(r0, turns[..m])) && PlaceAt(r0, turns, m) == CheckServer
      decreases |turns| - m
    {
      var ran, connected, ready;
      m, ran := WaitForWork(b, element, turns, m, written, r0);
      if !ran { return; }
      m, ran, connected := AskServer(b, element, turns, m, written, r0);
      if !ran { return; }
      if !connected {
        m, ran, written := SendAll(b, element, turns, m, written, true, r0);
        return;
      }
      m, ran, ready := AskReady(b, element, turns, m, written, r0);
      if !ran { return; }
      if ready {
        m, ran, written := SendAll(b, element, turns, m, written, false, r0);
        if !ran { return; }
      }
    }
  }
}
