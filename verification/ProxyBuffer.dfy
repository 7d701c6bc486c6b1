/** One connection of the caching proxy: what its buffer and its cache element do with the bytes that pass through. */
module ProxyBuffer {
  import opened Options
  import opened ProxyParser

  datatype StatusHttp =
    | WRITE_REQUEST_HEADING
    | WRITE_REQUEST_BODY
    | READ_RESPONSE
    | READ_REQUEST
    | WRITE_RESPONSE_HEADING
    | WRITE_RESPONSE_BODY
    | END_WORK

  const BUF_SIZE := 1024 * 512

  /** What one write takes: at most a block of what is there from `first` on. */
  function NextBlock(text: string, first: nat): (block: string)
    requires first <= |text|
    ensures first + |block| <= |text| && block == text[first..first+|block|] && |block| <= BUF_SIZE - 1
    ensures first < |text| ==> block != ""
  {
    text[first..if |text| >= first + BUF_SIZE - 1 then first + BUF_SIZE - 1 else |text|]
  }

  const REFUSAL := "incorrect heading\r\n"

  /** A response in the cache, which grows while it is downloaded. */
  class CashElement {
    var cash: string
    var isDownloadEnd: bool
    var isServerConnected: bool

    constructor ()
      ensures cash == "" && !isDownloadEnd && !isServerConnected
    {
      cash, isDownloadEnd, isServerConnected := "", false, false;
    }

    method AppendStringToCash(binaryString: string)
      modifies this`cash
      ensures cash == old(cash) + binaryString
    {
      cash := cash + binaryString;
    }

    method MemCopyFromCash(offset: nat, sizeCopy: nat) returns (target: string)
      requires offset + sizeCopy <= |cash|
      ensures target == cash[offset..offset+sizeCopy]
    {
      target := cash[offset..offset+sizeCopy];
    }
  }

  /** What a buffer is doing. */
  datatype Phase = TakingRequest | Refused | FromCash | AwaitingHeading | TakingBody | ServerDone

  class Buffer {
    var statusClient: StatusHttp
    var statusHttpServer: StatusHttp
    var requestHeading: string
    var buf: string
    var isClientConnect: bool
    var isReadyToSend: bool
    var isEndSend: bool
    var isReadyConnectHttpServer: bool
    var lengthBody: int
    var isGet: bool
    var isHaveContentLengthResponse: bool
    var isAddDataToCash: bool
    var isDataGetCash: bool
    var countByteReadFromCash: nat
    var cashElement: CashElement?
    var error: bool

    // The bytes that have come in before and after the request was through, or after it was settled without a server, and
    // those that have gone out to the two sides; whether any came in behind the request; the lengths of the headings of the
    // request and the response.
    ghost var late: string
    ghost var behind: bool
    ghost var requestEnd: nat
    ghost var requested: string
    ghost var forwarded: string
    ghost var received: string
    ghost var sent: string
    ghost var headLength: nat

    ghost function Repr(): set<object>
      reads this
    {
      if cashElement == null then {this} else {this, cashElement}
    }

    ghost function CurrentPhase(): Phase
      reads this
    {
      if isDataGetCash then FromCash
      else if error then Refused
      else if statusClient in {WRITE_REQUEST_HEADING, WRITE_REQUEST_BODY} then TakingRequest
      else if statusHttpServer == WRITE_RESPONSE_HEADING then AwaitingHeading
      else if statusHttpServer == WRITE_RESPONSE_BODY then TakingBody
      else ServerDone
    }

    /** No response is on its way: the server waits for the request, or has left. */
    ghost predicate NoResponse()
      reads this`statusHttpServer
    {
      statusHttpServer in {READ_REQUEST, END_WORK}
    }

    /** A request on its way to the server: nothing of it is lost. */
    ghost predicate ValidRequest()
      reads this
    {
      && statusClient in {WRITE_REQUEST_HEADING, WRITE_REQUEST_BODY} && NoResponse()
      && requested == forwarded + buf && received == "" && sent == "" && late == ""
      && !isAddDataToCash && cashElement == null && isClientConnect
      && (statusClient == WRITE_REQUEST_HEADING && !isEndSend ==>
            forwarded == "" && !isReadyToSend && FindEndHeading(requested) == None)
      && (statusClient == WRITE_REQUEST_BODY ==> EndsByLength())
      && (Accepted() ==> isReadyConnectHttpServer && (isReadyToSend <==> buf != "") && (isEndSend ==> buf != ""))
    }

    /** The heading of the request has come and is taken, so that the request can be forwarded. */
    ghost predicate Accepted()
      reads this`statusClient, this`isEndSend
    {
      statusClient == WRITE_REQUEST_BODY || isEndSend
    }

    /** The request ends with the length that its heading has announced, unless bytes have come in behind it. */
    ghost predicate EndsByLength()
      reads this`lengthBody, this`isEndSend, this`behind, this`requested, this`requestEnd
    {
      && (lengthBody <= 0 ==> isEndSend)
      && (behind || (isEndSend ==> lengthBody <= 0))
      && (behind ||
          (requestEnd <= |requested| && ParsingHeading(requested[..requestEnd]).Some?
           && lengthBody == requestEnd + ParsingHeading(requested[..requestEnd]).value.contentLength - |requested|))
    }

    ghost predicate ValidRefused()
      reads this
    {
      RefusedAppended("")
    }

    /** The same with more bytes in the buffer. */
    ghost predicate RefusedAppended(more: string)
      reads this
    {
      && statusClient in {READ_RESPONSE, END_WORK} && NoResponse()
      && sent + buf == REFUSAL + late + more && received == "" && cashElement == null && !isAddDataToCash
      && (if statusClient == READ_RESPONSE then isReadyToSend && isEndSend && buf != "" else |sent| >= |REFUSAL|)
    }

    /** A reader of the cache has sent a first part of its element. */
    ghost predicate ValidFromCash()
      reads this`cashElement, this`isAddDataToCash, this`statusClient, this`statusHttpServer, this`received
      reads this`countByteReadFromCash, this`sent, cashElement
    {
      && cashElement != null && !isAddDataToCash && statusClient in {READ_RESPONSE, END_WORK}
      && NoResponse() && received == ""
      && countByteReadFromCash <= |cashElement.cash| && sent == cashElement.cash[..countByteReadFromCash]
    }

    /** The request is through, and all that has come of the response is waiting for the end of its heading. */
    ghost predicate ValidBeforeHeading()
      reads this
    {
      ValidAppended("")
    }

    /** The same with more bytes in the buffer. */
    ghost predicate ValidAppended(more: string)
      reads this
    {
      && statusClient == READ_RESPONSE && isClientConnect
      && forwarded == requested && buf == received + more && sent == "" && late == ""
      && !isReadyToSend && !isEndSend && !isAddDataToCash && cashElement == null
    }

    ghost predicate ValidHeading()
      reads this
    {
      ValidBeforeHeading() && FindEndHeading(received) == None
    }

    /** What the heading of the response says. */
    ghost function Head(): Response
      requires headLength <= |received|
      reads this`headLength, this`received
    {
      ParsingResponseHeading(received[..headLength])
    }

    /** Bytes of a response, for a client and for the cache: nothing is lost, doubled or changed. */
    ghost predicate ValidBody()
      reads Repr()
    {
      TakingBytes("") && (isClientConnect ==> (isReadyToSend <==> buf != ""))
    }

    /** The same with more bytes in the buffer when there is a client, and not yet in the cache. */
    ghost predicate TakingBytes(more: string)
      reads Repr()
    {
      && headLength <= |received| && forwarded == requested && late == ""
      && (isClientConnect ==> statusClient == READ_RESPONSE && sent + buf == received + more)
      && (!isClientConnect ==> statusClient == END_WORK)
      && isHaveContentLengthResponse == Head().haveContentLength
      && (isHaveContentLengthResponse ==>
            lengthBody == headLength + Head().contentLength - |received| && (isEndSend <==> lengthBody <= 0))
      && (isAddDataToCash ==> isGet && !Head().withError && isHaveContentLengthResponse && Filling(received))
      && (!isAddDataToCash ==> cashElement == null)
    }

    /** The cache element holds `bytes`, and is marked as complete exactly when the heading and as many more bytes as it
        announces have arrived. */
    ghost predicate Filling(bytes: string)
      requires headLength <= |received|
      reads this`headLength, this`received, this`cashElement, cashElement
    {
      && cashElement != null && cashElement.cash == bytes
      && (cashElement.isDownloadEnd <==> |bytes| >= headLength + Head().contentLength)
    }

    /** The server is gone or has sent all it announced; what comes after that is not taken. */
    ghost predicate ValidDone()
      reads Repr()
    {
      statusHttpServer == END_WORK && DoneArrives("")
    }

    ghost predicate Valid()
      reads Repr()
    {
      match CurrentPhase()
      case TakingRequest => ValidRequest()
      case Refused => ValidRefused()
      case FromCash => ValidFromCash()
      case AwaitingHeading => ValidHeading()
      case TakingBody => ValidBody()
      case ServerDone => ValidDone()
    }

    /** A buffer for a client that has just connected. */
    constructor ()
      ensures Valid() && CurrentPhase() == TakingRequest && cashElement == null
      ensures requested == received == late == forwarded == sent == "" && isClientConnect
    {
      statusClient, statusHttpServer := WRITE_REQUEST_HEADING, READ_REQUEST;
      requestHeading, buf := "", "";
      isClientConnect, isReadyToSend, isEndSend, isReadyConnectHttpServer := true, false, false, false;
      lengthBody, isGet, isHaveContentLengthResponse := 0, false, false;
      isAddDataToCash, isDataGetCash, countByteReadFromCash, cashElement, error := false, false, 0, null, false;
      requested, forwarded, received, sent, late, behind, requestEnd, headLength := "", "", "", "", "", false, 0, 0;
    }

    /** All bytes that have come in. */
    ghost function Arrived(): string
      reads this`requested, this`received, this`late
    {
      Together(requested, received, late)
    }

    static function Together(requested: string, received: string, late: string): string { requested + received + late }

    static lemma TogetherMore(requested: string, received: string, late: string, more: string)
      ensures received == late == "" ==>
        Together(requested + more, received, late) == Together(requested, received, late) + more
      ensures late == "" ==> Together(requested, received + more, late) == Together(requested, received, late) + more
      ensures Together(requested, received, late + more) == Together(requested, received, late) + more
    {
      assert requested + received + (late + more) == requested + received + late + more;
      if late == "" {
        assert requested + (received + more) + late == requested + received + late + more;
      }
    }

    /** Takes bytes that have arrived from one of the sides; the code does not ask which. `found` is the element that the
        cache has for the request, if it has one when it is asked. The result is false when the request is refused. */
    method ReadFromSocket(binaryString: string, found: CashElement?) returns (ok: bool)
      requires Valid() && binaryString != ""
      modifies Repr()
      ensures Valid() && isClientConnect == old(isClientConnect)
      ensures Arrived() == old(Arrived()) + binaryString
      ensures old(CurrentPhase()) == TakingRequest ==> TookRequest(old(requested) + binaryString, ok, found)
      ensures old(CurrentPhase()) in {AwaitingHeading, TakingBody, ServerDone} ==>
        ok && TookResponse(old(CurrentPhase()), old(requested), old(received) + binaryString, old(sent))
      ensures old(CurrentPhase()) in {Refused, FromCash} ==>
        && ok && CurrentPhase() == old(CurrentPhase()) && late == old(late) + binaryString
        && unchanged(`requested, `received, `statusClient, `isReadyConnectHttpServer, `countByteReadFromCash)
      ensures old(CurrentPhase()) != TakingRequest ==> unchanged(`isReadyConnectHttpServer)
      ensures cashElement == old(cashElement) || fresh(cashElement) || (isDataGetCash && cashElement == found)
      ensures unchanged(`forwarded, `sent)
    {
      hide Valid, RequestAppended, RefusedAppended, ValidFromCash, ResponseAppended, Together, FindEndHeading;
      TogetherMore(requested, received, late, binaryString);
      Sides();
      Append(binaryString);
      if statusClient == WRITE_REQUEST_HEADING || statusClient == WRITE_REQUEST_BODY {
        ok := ReadRequest(binaryString, found);
      } else if statusHttpServer == WRITE_RESPONSE_HEADING || statusHttpServer == WRITE_RESPONSE_BODY {
        ok := true;
        ReadResponse(binaryString, found);
      } else {
        ok := true;
        TakeBehind(binaryString);
      }
    }

    /** What arrives while a response is being taken stands in the buffer, unless it is for the cache alone. */
    ghost predicate ResponseAppended(more: string)
      reads Repr()
    {
      && statusClient in {READ_RESPONSE, END_WORK}
      && (CurrentPhase() == AwaitingHeading ==> ValidAppended(more))
      && (CurrentPhase() == TakingBody ==> TakingBytes(more) && (isClientConnect ==> buf != ""))
      && (CurrentPhase() == ServerDone ==> statusHttpServer == END_WORK && DoneArrives(more))
    }

    ghost predicate RequestAppended(more: string)
      reads this
    {
      && statusClient in {WRITE_REQUEST_HEADING, WRITE_REQUEST_BODY} && NoResponse()
      && requested + more == forwarded + buf && received == "" && sent == "" && late == ""
      && !isAddDataToCash && cashElement == null && isClientConnect
      && (statusClient == WRITE_REQUEST_HEADING ==> isEndSend || (forwarded == "" && !isReadyToSend))
      && (statusClient == WRITE_REQUEST_BODY ==> EndsByLength())
      && buf != "" && (Accepted() ==> isReadyConnectHttpServer) && (isEndSend ==> isReadyToSend)
    }

    /** What the phase says about the two sides. */
    lemma Sides()
      requires Valid()
      ensures CurrentPhase() == TakingRequest <==> statusClient in {WRITE_REQUEST_HEADING, WRITE_REQUEST_BODY}
      ensures CurrentPhase() == AwaitingHeading <==> statusHttpServer == WRITE_RESPONSE_HEADING
      ensures CurrentPhase() == TakingBody <==> statusHttpServer == WRITE_RESPONSE_BODY
      ensures CurrentPhase() == ServerDone ==> statusHttpServer == END_WORK
      ensures statusClient in {WRITE_REQUEST_HEADING, WRITE_REQUEST_BODY, READ_RESPONSE, END_WORK}
      ensures CurrentPhase() == TakingRequest ==> isClientConnect && cashElement == null && sent == ""
      ensures CurrentPhase() == TakingRequest && Accepted() ==> isReadyConnectHttpServer && (isReadyToSend <==> buf != "")
      ensures CurrentPhase() == TakingRequest && !Accepted() ==> !isReadyToSend && FindEndHeading(requested) == None
      ensures CurrentPhase() in {Refused, FromCash} || late == ""
      ensures CurrentPhase() in {AwaitingHeading, TakingBody, ServerDone} || received == ""
    {
    }

    method Append(binaryString: string)
      requires Valid() && binaryString != ""
      modifies this`buf
      ensures match CurrentPhase()
              case TakingRequest => RequestAppended(binaryString)
              case Refused => RefusedAppended(binaryString)
              case FromCash => ValidFromCash()
              case _ => ResponseAppended(binaryString)
    {
      hide FindEndHeading, ParsingResponseHeading, Filling, Head, EndsByLength;
      assert sent + (buf + binaryString) == (sent + buf) + binaryString;
      assert forwarded + (buf + binaryString) == (forwarded + buf) + binaryString;
      if !isClientConnect && statusHttpServer == WRITE_RESPONSE_BODY {
        buf := "";
      } else {
        buf := buf + binaryString;
      }
    }

    /** Bytes that nobody looks at: the buffer has them already. */
    ghost method TakeBehind(binaryString: string)
      requires CurrentPhase() in {Refused, FromCash, ServerDone}
      requires match CurrentPhase()
               case Refused => RefusedAppended(binaryString)
               case FromCash => ValidFromCash()
               case _ => ResponseAppended(binaryString)
      modifies this`late, this`received
      ensures Valid()
      ensures CurrentPhase() == ServerDone ==>
        TookResponse(ServerDone, requested, old(received) + binaryString, sent) && late == old(late)
      ensures CurrentPhase() != ServerDone ==> late == old(late) + binaryString && received == old(received)
    {
      hide FindEndHeading, ParsingResponseHeading;
      if CurrentPhase() == ServerDone {
        received := received + binaryString;
        assert received + "" == received && old(received) <= received;
        assert headLength <= |old(received)| ==> received[..headLength] == old(received)[..headLength];
      } else {
        late := late + binaryString;
        assert REFUSAL + (old(late) + binaryString) == (REFUSAL + old(late)) + binaryString;
        assert REFUSAL + late + "" == REFUSAL + late;
      }
    }

    ghost predicate TookRequest(request: string, ok: bool, found: CashElement?)
      reads this
    {
      && requested == request && received == "" && late == ""
      && CurrentPhase() == (if isDataGetCash then FromCash else if !ok then Refused else TakingRequest)
      && (isDataGetCash ==> found != null && cashElement == found)
    }

    ghost predicate TookResponse(before: Phase, request: string, response: string, delivered: string)
      reads this
    {
      && requested == request && received == response && sent == delivered && late == ""
      && CurrentPhase() == if before == AwaitingHeading && FindEndHeading(response).Some? then TakingBody else before
    }

    /** The client's bytes are in the buffer already. */
    method ReadRequest(binaryString: string, found: CashElement?) returns (ok: bool)
      requires CurrentPhase() == TakingRequest && binaryString != ""
      requires RequestAppended(binaryString)
      modifies this
      ensures Valid() && TookRequest(old(requested) + binaryString, ok, found)
      ensures isClientConnect && unchanged(`forwarded, `sent)
      ensures cashElement == null || (isDataGetCash && cashElement == found)
    {
      hide ValidFromCash, ValidRequest, ValidRefused, FindEndHeading, ParsingHeading, EndsByLength;
      ok := true;
      if statusClient == WRITE_REQUEST_HEADING {
        requested := requested + binaryString;
        behind := behind || isEndSend;
        assert forwarded == "" ==> forwarded + buf == buf;
        ok := WrightRequestHeading(found);
      } else if statusClient == WRITE_REQUEST_BODY {
        WrightRequestBody(binaryString);
      }
    }

    /** The server's bytes are in the buffer already, or are for the cache alone. */
    method ReadResponse(binaryString: string, found: CashElement?)
      requires CurrentPhase() in {AwaitingHeading, TakingBody} && binaryString != ""
      requires ResponseAppended(binaryString)
      modifies Repr()
      ensures Valid() && isClientConnect == old(isClientConnect)
      ensures TookResponse(old(CurrentPhase()), old(requested), old(received) + binaryString, old(sent))
      ensures cashElement == old(cashElement) || fresh(cashElement)
      ensures unchanged(`forwarded, `isReadyConnectHttpServer)
    {
      hide ValidRequest, ValidRefused, ValidFromCash, FindEndHeading, ParsingResponseHeading;
      received := received + binaryString;
      assert received + "" == received;
      if statusHttpServer == WRITE_RESPONSE_HEADING {
        WrightResponseHeading(found);
      } else if statusHttpServer == WRITE_RESPONSE_BODY {
        assert received[..headLength] == old(received)[..headLength];
        WrightResponseBody(binaryString);
      }
    }

    /** The request is ready for the server: all of what came, with its body still to come unless it is a GET. */
    ghost predicate Forwards(parsed: Request, text: string)
      reads this
    {
      && buf == text && isReadyToSend && isReadyConnectHttpServer && isGet == parsed.isGet
      && (if isGet then isEndSend && statusClient == WRITE_REQUEST_HEADING else statusClient == WRITE_REQUEST_BODY)
    }

    /** What is waiting for the end of its heading, or is a request with more behind it. */
    ghost predicate RequestWaits()
      reads this
    {
      && statusClient == WRITE_REQUEST_HEADING && NoResponse() && !error && !isDataGetCash
      && (isEndSend ==> behind && isReadyToSend && isReadyConnectHttpServer)
      && (!isEndSend ==> !isReadyToSend && forwarded == "") && (!behind ==> requested == buf)
      && requested == forwarded + buf && buf != "" && received == "" && sent == "" && late == ""
      && !isAddDataToCash && cashElement == null && isClientConnect
    }

    ghost predicate RequestTaken(ok: bool, found: CashElement?)
      reads this, if cashElement == null then {} else {cashElement}
    {
      && (error <==> !ok) && (isDataGetCash ==> found != null) && (!isDataGetCash ==> cashElement == null)
      && (if !ok then ValidRefused() && !isDataGetCash
          else if isDataGetCash then ValidFromCash() && cashElement == found
          else ValidRequest())
    }

    method WrightRequestHeading(found: CashElement?) returns (ok: bool)
      requires RequestWaits()
      modifies this
      ensures FindEndHeading(old(buf)) == None ==>
        && ok && !isDataGetCash
        && unchanged(`buf, `statusClient, `isReadyToSend, `isEndSend, `isReadyConnectHttpServer)
      ensures FindEndHeading(old(buf)).Some? ==>
        var parsed := ParsingHeading(old(buf)[..FindEndHeading(old(buf)).value]);
        && (ok <==> parsed.Some?) && (ok ==> (isDataGetCash <==> found != null))
        && (ok && found == null ==> Forwards(parsed.value, old(buf)))
        && (!ok ==> buf == "incorrect heading\r\n" && statusClient == READ_RESPONSE)
      ensures unchanged(`requested, `forwarded, `received, `sent, `late, `isClientConnect, `statusHttpServer)
      ensures RequestTaken(ok, found)
    {
      hide FindEndHeading, ParsingHeading, EndsByLength;
      assert forwarded == "" ==> forwarded + buf == buf;
      ok := true;
      var posEndHeading := FindEndHeading(buf);
      if posEndHeading.Some? {
        ok := HeadingEnds(posEndHeading.value, found);
      }
    }

    /** The heading ends here. */
    method HeadingEnds(posEndHeading: nat, found: CashElement?) returns (ok: bool)
      requires RequestWaits() && posEndHeading <= |buf|
      modifies this
      ensures var parsed := ParsingHeading(old(buf)[..posEndHeading]);
              && (ok <==> parsed.Some?) && (ok ==> (isDataGetCash <==> found != null))
              && (ok && found == null ==> Forwards(parsed.value, old(buf)))
              && (!ok ==> buf == REFUSAL && statusClient == READ_RESPONSE)
      ensures unchanged(`requested, `forwarded, `received, `sent, `late, `isClientConnect, `statusHttpServer)
      ensures RequestTaken(ok, found)
    {
      hide FindEndHeading, ParsingHeading, EndsByLength, ValidRequest;
      assert REFUSAL + "" == REFUSAL && "" + REFUSAL == REFUSAL;
      ok := true;
      requestHeading := buf[..posEndHeading];
      var parsed := ParsingHeading(requestHeading);
      if parsed.None? {
        Refuse();
        return false;
      }
      isGet := parsed.value.isGet;
      if found != null {
        ServeFromCash(found);
        return;
      }
      RequestReady(parsed.value);
    }

    /** The request can be forwarded: a GET as it is, another one with the body that it announces. */
    method RequestReady(parsed: Request)
      requires RequestWaits() && HeadingIs(parsed) && isGet == parsed.isGet
      modifies this`isEndSend, this`statusClient, this`lengthBody, this`isReadyConnectHttpServer, this`isReadyToSend
      modifies this`requestEnd
      ensures ValidRequest() && Forwards(parsed, old(buf)) && CurrentPhase() == TakingRequest
    {
      hide HeadingIs, FindEndHeading, EndsByLength, ValidRequest;
      isReadyConnectHttpServer := true;
      isReadyToSend := true;
      if parsed.isGet {
        isEndSend := true;
      } else {
        BodyComes(parsed);
      }
      AcceptedIsValid();
    }

    /** The heading has been read off the beginning of the buffer. */
    ghost predicate HeadingIs(parsed: Request)
      reads this`requestHeading, this`buf
    {
      requestHeading <= buf && ParsingHeading(requestHeading) == Some(parsed)
    }

    /** A body of the announced length, some of which may have come. */
    method BodyComes(parsed: Request)
      requires HeadingIs(parsed) && (isEndSend ==> behind) && (!behind ==> requested == buf)
      modifies this`isEndSend, this`statusClient, this`lengthBody, this`requestEnd
      ensures statusClient == WRITE_REQUEST_BODY && EndsByLength()
    {
      hide ParsingHeading;
      assert requestHeading == buf[..|requestHeading|];
      requestEnd := |requestHeading|;
      statusClient := WRITE_REQUEST_BODY;
      lengthBody := parsed.contentLength;
      lengthBody := lengthBody - (|buf| - |requestHeading|);
      if lengthBody <= 0 {
        isEndSend := true;
      }
    }

    lemma AcceptedIsValid()
      requires statusClient in {WRITE_REQUEST_HEADING, WRITE_REQUEST_BODY} && NoResponse() && Accepted()
      requires requested == forwarded + buf && received == "" && sent == "" && late == "" && buf != ""
      requires !isAddDataToCash && cashElement == null && isClientConnect
      requires isReadyConnectHttpServer && isReadyToSend && (statusClient == WRITE_REQUEST_BODY ==> EndsByLength())
      ensures ValidRequest()
    {
      hide EndsByLength, FindEndHeading;
    }

    lemma Announced(parsed: Request)
      requires |requestHeading| <= |buf| && requestHeading == buf[..|requestHeading|] && requestEnd == |requestHeading|
      requires ParsingHeading(requestHeading) == Some(parsed)
      requires lengthBody == parsed.contentLength - (|buf| - |requestHeading|)
      requires (lengthBody <= 0 ==> isEndSend) && (behind || (requested == buf && (isEndSend ==> lengthBody <= 0)))
      ensures EndsByLength()
    {
      hide ParsingHeading;
    }

    method Refuse()
      modifies this`buf, this`statusClient, this`isReadyToSend, this`isEndSend, this`error
      ensures buf == REFUSAL && statusClient == READ_RESPONSE && isReadyToSend && isEndSend && error
    {
      buf := REFUSAL;
      statusClient := READ_RESPONSE;
      isReadyToSend := true;
      isEndSend := true;
      error := true;
    }

    method ServeFromCash(found: CashElement)
      modifies this`isDataGetCash, this`cashElement, this`countByteReadFromCash, this`buf, this`statusClient
      ensures isDataGetCash && cashElement == found && countByteReadFromCash == 0 && buf == ""
      ensures statusClient == READ_RESPONSE
    {
      isDataGetCash := true;
      cashElement := found;
      countByteReadFromCash := 0;
      buf := "";
      statusClient := READ_RESPONSE;
    }

    method WrightRequestBody(binaryString: string)
      requires statusClient == WRITE_REQUEST_BODY && RequestAppended(binaryString) && CurrentPhase() == TakingRequest
      modifies this`isReadyToSend, this`lengthBody, this`isEndSend, this`requested, this`behind
      ensures ValidRequest() && CurrentPhase() == TakingRequest
      ensures requested == old(requested) + binaryString && isReadyToSend && lengthBody == old(lengthBody) - |binaryString|
      ensures isEndSend <==> old(isEndSend) || lengthBody <= 0
    {
      hide FindEndHeading, ParsingHeading;
      requested := requested + binaryString;
      behind := behind || isEndSend;
      assert requestEnd <= |old(requested)| ==> requested[..requestEnd] == old(requested)[..requestEnd];
      isReadyToSend := true;
      lengthBody := lengthBody - |binaryString|;
      if lengthBody <= 0 {
        isEndSend := true;
      }
    }

    method WrightResponseHeading(found: CashElement?)
      requires ValidBeforeHeading() && buf != ""
      modifies this
      ensures FindEndHeading(received).None? ==> ValidBeforeHeading() && statusHttpServer == old(statusHttpServer)
      ensures FindEndHeading(received).Some? ==> ValidBody() && statusHttpServer == WRITE_RESPONSE_BODY
      ensures FindEndHeading(received).Some? ==>
        && headLength == FindEndHeading(received).value
        && (isAddDataToCash <==> isGet && !Head().withError && Head().haveContentLength && found == null)
        && (isAddDataToCash ==> cashElement != null && cashElement.isServerConnected)
      ensures unchanged(`requested, `forwarded, `received, `sent, `isClientConnect, `isDataGetCash, `error)
      ensures unchanged(`isReadyConnectHttpServer)
      ensures cashElement == null || fresh(cashElement)
    {
      hide FindEndHeading, FindEndBody, ParsingResponseHeading;
      assert received + "" == received && sent + buf == buf;
      var posEndHeading := FindEndHeading(buf);
      if posEndHeading.Some? {
        var responseHead := buf[..posEndHeading.value];
        var result := ParsingResponseHeading(responseHead);
        headLength := posEndHeading.value;
        if IsCashingData(result) && found == null {
          StartCashing();
        }
        BodyBegins(result, |responseHead|);
      }
    }

    /** The rest of the buffer, after a heading of a given length, belongs to the body. */
    method BodyBegins(result: Response, heading: nat)
      requires !isEndSend && (isAddDataToCash ==> cashElement != null && !cashElement.isDownloadEnd)
      modifies this`isReadyToSend, this`statusHttpServer, this`isHaveContentLengthResponse
      modifies this`lengthBody, this`isEndSend
      modifies if isAddDataToCash then {cashElement} else {}
      ensures isReadyToSend && statusHttpServer == WRITE_RESPONSE_BODY
      ensures isHaveContentLengthResponse == result.haveContentLength
      ensures isHaveContentLengthResponse ==>
        lengthBody == result.contentLength - (|buf| - heading) && (isEndSend <==> lengthBody <= 0)
      ensures !isHaveContentLengthResponse ==> (isEndSend <==> Occurs(buf, "0\r\n\r\n"))
      ensures isAddDataToCash ==> cashElement.isServerConnected == old(cashElement.isServerConnected)
      ensures isAddDataToCash ==> cashElement.cash == old(cashElement.cash)
      ensures isAddDataToCash ==> (cashElement.isDownloadEnd <==> isHaveContentLengthResponse && lengthBody <= 0)
    {
      hide FindEndBody, Occurs;
      EndBodyIs(buf);
      isReadyToSend := true;
      statusHttpServer := WRITE_RESPONSE_BODY;
      isHaveContentLengthResponse := result.haveContentLength;
      if isHaveContentLengthResponse {
        lengthBody := result.contentLength;
        CountBytes(|buf| - heading);
      } else {
        if FindEndBody(buf).Some? {
          isEndSend := true;
        }
      }
    }

    /** A new cache element with what has come of the response. */
    method StartCashing()
      modifies this`cashElement, this`isAddDataToCash
      ensures isAddDataToCash && fresh(cashElement) && cashElement != null
      ensures cashElement.cash == buf && !cashElement.isDownloadEnd && cashElement.isServerConnected
    {
      var element := new CashElement();
      element.AppendStringToCash(buf);
      element.isDownloadEnd := false;
      element.isServerConnected := true;
      cashElement := element;
      isAddDataToCash := true;
    }

    /** Counts bytes of a body of a known length, and notes its end. */
    method CountBytes(count: int)
      requires isAddDataToCash ==> cashElement != null
      modifies this`lengthBody, this`isEndSend, if isAddDataToCash then {cashElement} else {}
      ensures lengthBody == old(lengthBody) - count && (isEndSend <==> old(isEndSend) || lengthBody <= 0)
      ensures isAddDataToCash ==> cashElement.cash == old(cashElement.cash)
      ensures isAddDataToCash ==> (cashElement.isDownloadEnd <==> old(cashElement.isDownloadEnd) || lengthBody <= 0)
      ensures isAddDataToCash ==> cashElement.isServerConnected == old(cashElement.isServerConnected)
    {
      lengthBody := lengthBody - count;
      if lengthBody <= 0 {
        isEndSend := true;
        if isAddDataToCash {
          cashElement.isDownloadEnd := true;
        }
      }
    }

    predicate IsCashingData(result: Response)
      reads this
    {
      !result.withError && isGet && result.haveContentLength
    }

    ghost predicate DoneArrives(more: string)
      reads Repr()
    {
      && forwarded == requested && late == ""
      && (isClientConnect ==> statusClient in {READ_RESPONSE, END_WORK} && sent + buf == received + more)
      && (!isClientConnect ==> statusClient == END_WORK)
      && (isAddDataToCash ==> headLength <= |received| && cashElement != null && cashElement.cash <= received
                              && Filling(cashElement.cash))
      && (!isAddDataToCash ==> cashElement == null)
    }

    method WrightResponseBody(binaryString: string)
      requires headLength + |binaryString| <= |received| && binaryString != "" && forwarded == requested && late == ""
      requires isClientConnect ==> statusClient == READ_RESPONSE && sent + buf == received && buf != ""
      requires !isClientConnect ==> statusClient == END_WORK
      requires isHaveContentLengthResponse == Head().haveContentLength
      requires isHaveContentLengthResponse ==>
        lengthBody == headLength + Head().contentLength - (|received| - |binaryString|) && (isEndSend <==> lengthBody <= 0)
      requires isAddDataToCash ==> isGet && !Head().withError && isHaveContentLengthResponse
      requires isAddDataToCash ==> cashElement != null && cashElement.cash + binaryString == received
      requires isAddDataToCash ==> (cashElement.isDownloadEnd <==> isEndSend)
      requires !isAddDataToCash ==> cashElement == null
      modifies this`isReadyToSend, this`lengthBody, this`isEndSend, if isAddDataToCash then {cashElement} else {}
      ensures ValidBody()
      ensures !isHaveContentLengthResponse ==> (isEndSend <==> old(isEndSend) || Occurs(buf, "0\r\n\r\n"))
    {
      hide FindEndBody, ParsingResponseHeading, Occurs;
      EndBodyIs(buf);
      assert received + "" == received;
      isReadyToSend := true;
      if isAddDataToCash {
        cashElement.AppendStringToCash(binaryString);
      }
      if isHaveContentLengthResponse {
        CountBytes(|binaryString|);
      } else {
        if FindEndBody(buf).Some? {
          isEndSend := true;
        }
      }
    }

    /** What the next write is to be: at most a block, and something whenever there is something to send. */
    method SendBuf() returns (binaryString: string)
      requires Valid()
      ensures Valid()
      ensures isDataGetCash ==> Unsent(binaryString) && binaryString == NextBlock(cashElement.cash, countByteReadFromCash)
      ensures !isDataGetCash ==> binaryString <= buf && binaryString == NextBlock(buf, 0)
    {
      hide ValidRequest, ValidRefused, ValidHeading, ValidBody, ValidDone;
      binaryString := "";
      if isDataGetCash {
        var length := |cashElement.cash|;
        if length > countByteReadFromCash {
          if length >= countByteReadFromCash + BUF_SIZE - 1 {
            binaryString := cashElement.MemCopyFromCash(countByteReadFromCash, BUF_SIZE - 1);
          } else {
            binaryString := cashElement.MemCopyFromCash(countByteReadFromCash, length - countByteReadFromCash);
          }
        }
      } else {
        if |buf| >= BUF_SIZE - 1 {
          binaryString := buf[..BUF_SIZE-1];
        } else {
          binaryString := buf[..|buf|];
        }
      }
    }

    /** Are these the next bytes of the cache element? */
    ghost predicate Unsent(block: string)
      reads Repr()
    {
      && cashElement != null && countByteReadFromCash + |block| <= |cashElement.cash|
      && block == cashElement.cash[countByteReadFromCash..countByteReadFromCash+|block|]
    }

    /** Is it the turn of one side to be written to? */
    ghost predicate Sending()
      reads this
    {
      && isReadyToSend
      && match CurrentPhase()
         case TakingRequest => statusHttpServer == READ_REQUEST
         case FromCash => true
         case _ => statusClient == READ_RESPONSE
    }

    /** The client has all that the server has sent, and that is no less than announced. */
    ghost predicate AllDelivered()
      reads this
    {
      && sent == received && headLength <= |received|
      && (isHaveContentLengthResponse ==> |received| >= headLength + Head().contentLength)
    }

    /** After a write of the whole block: the block is done with, and the states of the two sides move on. */
    method ProofSend(binaryString: string)
      requires Valid() && Sending()
      requires if isDataGetCash then Unsent(binaryString) else binaryString <= buf
      modifies this
      ensures Valid() && cashElement == old(cashElement) && isClientConnect == old(isClientConnect)
      ensures unchanged(`requested, `received, `late, `isDataGetCash, `isReadyConnectHttpServer)
      ensures CurrentPhase() == Refused <==> old(CurrentPhase()) == Refused
      ensures !isDataGetCash ==> buf == old(buf)[|binaryString|..]
      ensures isDataGetCash ==> countByteReadFromCash == old(countByteReadFromCash) + |binaryString|
      ensures isDataGetCash ==> isReadyToSend == (old(isReadyToSend) && countByteReadFromCash != |cashElement.cash|)
      ensures old(CurrentPhase()) == TakingRequest ==>
        && forwarded == old(forwarded) + binaryString && sent == old(sent)
        && CurrentPhase() == (if forwarded == requested && old(isEndSend) then AwaitingHeading else TakingRequest)
      ensures old(CurrentPhase()) != TakingRequest ==>
        && forwarded == old(forwarded) && sent == old(sent) + binaryString
      ensures old(CurrentPhase()) == TakingBody ==>
        CurrentPhase() == if buf == "" && old(isEndSend) then ServerDone else TakingBody
      ensures old(CurrentPhase()) == TakingBody && CurrentPhase() == ServerDone && isClientConnect ==> AllDelivered()
    {
      hide FindEndHeading, ParsingResponseHeading, Filling, Head;
      if isDataGetCash {
        ProofSendFromCash(binaryString);
      } else if statusHttpServer == READ_REQUEST && !error {
        ProofForwarded(binaryString);
      } else {
        ProofDelivered(binaryString);
      }
    }

    /** After a write to the server. */
    method ProofForwarded(binaryString: string)
      requires CurrentPhase() == TakingRequest && ValidRequest() && isReadyToSend && binaryString <= buf
      requires statusHttpServer == READ_REQUEST
      modifies this`forwarded, this`buf, this`isReadyToSend, this`isEndSend, this`statusClient, this`statusHttpServer
      ensures Valid() && forwarded == old(forwarded) + binaryString && buf == old(buf)[|binaryString|..]
      ensures CurrentPhase() == if forwarded == requested && old(isEndSend) then AwaitingHeading else TakingRequest
    {
      assert FindEndHeading("") == None && received + "" == "" && forwarded + binaryString + "" == forwarded + binaryString;
      hide FindEndHeading;
      assert forwarded + buf == (forwarded + binaryString) + buf[|binaryString|..];
      forwarded := forwarded + binaryString;
      EraseSent(|binaryString|);
    }

    /** After a write to the client. */
    method ProofDelivered(binaryString: string)
      requires Valid() && CurrentPhase() in {Refused, TakingBody, ServerDone} && statusClient == READ_RESPONSE
      requires isReadyToSend && binaryString <= buf
      modifies this`sent, this`buf, this`isReadyToSend, this`isEndSend, this`statusClient, this`statusHttpServer
      ensures Valid() && sent == old(sent) + binaryString && buf == old(buf)[|binaryString|..]
      ensures old(CurrentPhase()) == TakingBody ==>
        CurrentPhase() == if buf == "" && old(isEndSend) then ServerDone else TakingBody
      ensures old(CurrentPhase()) == TakingBody && CurrentPhase() == ServerDone && isClientConnect ==> AllDelivered()
    {
      hide FindEndHeading, ParsingResponseHeading, Head, ValidRequest, ValidHeading, ValidFromCash;
      assert sent + buf == (sent + binaryString) + buf[|binaryString|..];
      sent := sent + binaryString;
      EraseSent(|binaryString|);
      assert sent + "" == sent && received + "" == received;
    }

    /** Takes sent bytes out of the buffer, and notes when all is sent. */
    method EraseSent(count: nat)
      requires count <= |buf|
      modifies this`buf, this`isReadyToSend, this`isEndSend, this`statusClient, this`statusHttpServer
      ensures buf == old(buf)[count..]
      ensures buf != "" || !old(isEndSend) ==>
        && unchanged(`statusClient, `statusHttpServer, `isEndSend) && isReadyToSend == (old(isReadyToSend) && buf != "")
      ensures buf == "" && old(isEndSend) && old(statusClient) == READ_RESPONSE && error ==>
        statusClient == END_WORK && unchanged(`statusHttpServer) && !isEndSend
      ensures buf == "" && old(isEndSend) && !(old(statusClient) == READ_RESPONSE && error) ==>
        && !isReadyToSend
        && (if old(statusHttpServer) == READ_REQUEST
            then statusClient == READ_RESPONSE && statusHttpServer == WRITE_RESPONSE_HEADING && !isEndSend
            else old(statusClient) == READ_RESPONSE ==>
              statusClient == END_WORK && statusHttpServer == END_WORK && isEndSend)
    {
      buf := buf[count..];
      if buf == "" && !isEndSend {
        isReadyToSend := false;
      }
      if buf == "" && isEndSend {
        if statusClient == READ_RESPONSE && error {
          statusClient := END_WORK;
          isEndSend := false;
          return;
        }
        if statusHttpServer == READ_REQUEST {
          statusClient := READ_RESPONSE;
          statusHttpServer := WRITE_RESPONSE_HEADING;
          isEndSend := false;
        } else if statusClient == READ_RESPONSE {
          statusClient := END_WORK;
          statusHttpServer := END_WORK;
          isEndSend := true;
        }
        isReadyToSend := false;
      }
    }

    static lemma NextUnsent(text: string, count: nat, block: string)
      requires count + |block| <= |text| && block == text[count..count+|block|]
      ensures text[..count] + block == text[..count+|block|]
    {
    }

    method ProofSendFromCash(binaryString: string)
      requires isDataGetCash && ValidFromCash() && Unsent(binaryString)
      modifies this`countByteReadFromCash, this`isReadyToSend, this`isEndSend, this`statusClient, this`error, this`sent
      ensures ValidFromCash() && sent == old(sent) + binaryString
      ensures countByteReadFromCash == old(countByteReadFromCash) + |binaryString|
      ensures isReadyToSend == (old(isReadyToSend) && countByteReadFromCash != |cashElement.cash|)
      ensures cashElement.isDownloadEnd ==> isEndSend && statusClient == END_WORK && error == old(error)
      ensures !cashElement.isDownloadEnd ==>
        unchanged(`isEndSend, `statusClient) && error == (old(error) || !cashElement.isServerConnected)
    {
      NextUnsent(cashElement.cash, countByteReadFromCash, binaryString);
      sent := sent + binaryString;
      countByteReadFromCash := countByteReadFromCash + |binaryString|;
      if |cashElement.cash| == countByteReadFromCash {
        isReadyToSend := false;
      }
      if cashElement.isDownloadEnd {
        isEndSend := true;
        statusClient := END_WORK;
      } else if !cashElement.isServerConnected {
        error := true;
      }
    }

    /** Is there something to send? A reader of the cache is ready again when its element has grown. */
    method IsReadyToSend() returns (ready: bool)
      requires Valid()
      modifies this`isReadyToSend
      ensures Valid() && ready == isReadyToSend && CurrentPhase() == old(CurrentPhase())
      ensures isDataGetCash ==> (ready <==> old(isReadyToSend) || countByteReadFromCash < |cashElement.cash|)
      ensures !isDataGetCash ==> ready == old(isReadyToSend)
    {
      hide ValidRequest, ValidRefused, ValidHeading, ValidBody, ValidDone;
      if !isReadyToSend && isDataGetCash && |cashElement.cash| > countByteReadFromCash {
        isReadyToSend := true;
      }
      ready := isReadyToSend;
    }

    /** The client leaves while the response goes on for the cache. */
    method ClientLeaves()
      requires Valid() && CurrentPhase() == TakingBody
      modifies this`statusClient, this`isClientConnect
      ensures Valid() && !isClientConnect && CurrentPhase() == TakingBody
    {
      hide FindEndHeading, ParsingResponseHeading, Filling, Head;
      statusClient := END_WORK;
      isClientConnect := false;
    }

    /** The server leaves. */
    method ServerLeaves()
      requires Valid()
      modifies Repr()
      ensures Valid() && unchanged(`isClientConnect, `cashElement, `statusClient)
      ensures CurrentPhase()
              == if old(CurrentPhase()) in {AwaitingHeading, TakingBody} then ServerDone else old(CurrentPhase())
      ensures unchanged(`requested, `forwarded, `received, `late, `sent, `isReadyConnectHttpServer, `isDataGetCash)
      ensures isAddDataToCash ==> cashElement != null && !cashElement.isServerConnected
    {
      hide FindEndHeading, ParsingResponseHeading;
      if isAddDataToCash {
        cashElement.isServerConnected := false;
      }
      statusHttpServer := END_WORK;
    }
  }
}
