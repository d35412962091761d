/**
  The HTTP server loop: how `http_process_handler` turns a parsed request
  into a status, a content length and a body, and the per-socket state
  machine of `httpServer_run` with its round-robin choice of socket.
 */
module HttpServer {
  import opened CTypes
  import opened Wrappers
  import opened CString
  import opened HttpTables
  import opened HttpResponse
  import opened HttpParser
  import opened RestApiHandler
  import opened ConfigData
  import opened GpioHandler
  import opened TimerHandler

  /** Size of the shared send and receive buffers. */
  const DataBufSize: nat := 2048
  /** The resource a GET of `/` is answered with. */
  const InitialResource: string := "index"

  // ---------------------------------------------------------------------------
  // The resource name of a request

  /** The methods `http_process_handler` looks a resource up for. */
  predicate KnownMethod(m: uint8) {
    m == MethodGet || m == MethodHead || m == MethodPost || m == MethodPut || m == MethodDelete
  }

  /**
    The lookup key can be taken: GET and HEAD need a token for
    `get_http_uri_name` (it compares a NULL pointer otherwise), the other
    methods need the `/` and the ` HTTP` that `mid` looks for.
   */
  predicate NameDefined(m: uint8, uri: string) {
    if m == MethodGet || m == MethodHead then Strtok(uri, 0, " ?").Some?
    else Find(uri, "/").Some? && Find(uri[Find(uri, "/").value + 1..], " HTTP").Some?
  }

  /**
    The lookup key: for GET and HEAD the resource name of the URI, `/`
    becoming `index`; for POST, PUT and DELETE the text between the first
    `/` and the following ` HTTP`.
   */
  function ResourceName(m: uint8, uri: string): (r: string)
    requires KnownMethod(m) && NameDefined(m, uri)
    ensures (m == MethodGet || m == MethodHead) && UriName(uri) == "/" ==> r == InitialResource
    ensures (m == MethodGet || m == MethodHead) && UriName(uri) != "/" ==> r == UriName(uri)
  {
    if m == MethodGet || m == MethodHead then
      if UriName(uri) == "/" then InitialResource else UriName(uri)
    else Mid(uri, "/", " HTTP")
  }

  /**
    `GET /` and `HEAD /` ask for the index resource, and so does `GET //`
    (its name, with the first character dropped, is `/`); `GET /name` asks
    for `name`.
   */
  lemma GetResourceName(m: uint8, name: string, rest: string)
    requires m == MethodGet || m == MethodHead
    requires name == [] || IsToken(name, " ?")
    requires rest == [] || rest[0] in " ?"
    ensures NameDefined(m, "/" + name + rest)
    ensures ResourceName(m, "/" + name + rest) == if name == [] || name == "/" then InitialResource else name
  {
    UriNameOfPath(name, rest);
  }

  /** `POST /path HTTP/1.1...`: the key is `path`, from after the `/` up to ` HTTP`. */
  lemma BodyResourceName(m: uint8, uri: string, path: string, post: string)
    requires m == MethodPost || m == MethodPut || m == MethodDelete
    requires uri == "/" + path + " HTTP" + post
    requires Find(path + " HTTP", " HTTP") == Some(|path|)
    ensures NameDefined(m, uri) && ResourceName(m, uri) == path
  {
    var rest := path + " HTTP" + post;
    assert uri == "/" + rest;
    assert Find(uri, "/") == Some(0) by {
      assert OccursAt(uri, "/", 0);
    }
    FindExtends(path + " HTTP", " HTTP", post);
    MidOfFields("/", rest, "/", " HTTP", |path|);
    assert rest[..|path|] == path;
  }

  // ---------------------------------------------------------------------------
  // Status codes

  /** The status of a failed search: "not allowed" for -2, "not found" for anything else. */
  function SearchFailureStatus(tableNum: int): (s: uint16)
    requires tableNum < 0
    ensures s == CodeNotAllowed <==> tableNum == ErrNotAllowed
    ensures s != CodeNotAllowed ==> s == CodeNotFound
  {
    if tableNum == ErrNotAllowed then CodeNotAllowed else CodeNotFound
  }

  /**
    The status and content length for a handler's return value: "created"
    with an empty body, "OK" for a document, "no content", "conflict", and
    "not found" for any other negative value.
   */
  function HandlerStatus(len: int): (r: (uint16, int))
    ensures r.0 == CodeCreated <==> len == RetCreated
    ensures r.0 == CodeOk <==> len > RetCreated
    ensures r.0 == CodeNoContent <==> len == 0
    ensures r.0 == CodeConflict <==> len == ErrConflict
    ensures r.0 == CodeNotFound <==> len < 0 && len != ErrConflict
    ensures r.1 == if len == RetCreated then 0 else len
  {
    if len == RetCreated then (CodeCreated, 0)
    else if len > 0 then (CodeOk, len)
    else if len == 0 then (CodeNoContent, 0)
    else if len == ErrConflict then (CodeConflict, len)
    else (CodeNotFound, len)
  }

  /** Each handler outcome has its own status; only a document keeps its length. */
  lemma HandlerStatusOfOutcome(o: HandlerOutcome, docLen: nat)
    requires docLen >= 2
    ensures var r := HandlerStatus(Sentinel(o, docLen));
      && (o.Emitted? ==> r == (CodeOk, docLen as int))
      && (o == Created ==> r == (CodeCreated, 0))
      && (o == Done ==> r == (CodeNoContent, 0))
      && (o == Conflict ==> r.0 == CodeConflict)
      && (o == NotFound ==> r.0 == CodeNotFound)
  {
  }

  /** The test for an error document: the status has all the bits of 400, or all the bits of 500. */
  predicate NeedsErrorBody(status: uint16): (b: bool)
    ensures b ==> status >= 400
  {
    var s := status as bv16;
    (s & 400) == 400 || (s & 500) == 500
  }

  /** On the statuses `code_table` lists, the bit test is exactly "an error status". */
  lemma ErrorBodyExactlyForTableErrors(k: nat)
    requires k < |CodeTable|
    ensures NeedsErrorBody(CodeTable[k].0) <==> CodeTable[k].0 >= 400
  {
    ComposedStatusesClassified();
    ClientErrorsClassified();
    var code := CodeTable[k].0;
    assert code == CodeOk || code == CodeCreated || code == CodeNoContent || code == CodeBadRequest
      || code == CodeForbidden || code == CodeNotFound || code == CodeNotAllowed || code == CodeConflict
      || code == CodeNotImple;
  }

  lemma ClientErrorsClassified()
    ensures NeedsErrorBody(CodeBadRequest) && NeedsErrorBody(CodeForbidden)
  {
  }

  // ---------------------------------------------------------------------------
  // The response

  /** What the response body holds: nothing, a handler's document, or the error document. */
  datatype Payload = NoPayload | Document(body: Body) | ErrorDoc(msg: ErrorMessage)

  /** The response `http_process_handler` sends: its status, the content length its header announces, the body, and whether the body is sent. */
  datatype Response = Response(status: uint16, contentLen: nat, payload: Payload, sendsBody: bool)

  /**
    The response for a status, the content length and the payload so far:
    an error status gets the error document and its length; the body goes
    out unless the method is HEAD or the length is 0.
   */
  function Respond(m: uint8, status: uint16, len: int, payload: Payload, errLen: nat): (r: Response)
    requires CodeStr(status).Some? && 2 <= errLen < DataBufSize
    requires !NeedsErrorBody(status) ==> 0 <= len < DataBufSize
    ensures r.contentLen < DataBufSize
  {
    if NeedsErrorBody(status) then
      Response(status, errLen, ErrorDoc(MakeHttpResponseErrorMessage(status).value), m != MethodHead)
    else Response(status, len, payload, m != MethodHead && len > 0)
  }

  /** The header sent with a response: the status line, the JSON content type and the content length. */
  function ResponseHeaderOf(r: Response): (h: string)
    requires CodeStr(r.status).Some? && r.contentLen < DataBufSize
    ensures HttpVersionStr + " " + CodeStr(r.status).value + Crlf <= h
  {
    JsonHasMime();
    MakeHttpResponseHeader(TypeJson, r.contentLen, r.status)
  }

  lemma JsonHasMime()
    ensures MimeStr(TypeJson) == Some(StrJson)
  {
    assert MimeTable[6].mimeType == TypeJson;
  }

  /** The statuses the composer picks all have a `code_table` row. */
  lemma ComposedStatusesListed()
    ensures CodeStr(CodeOk).Some? && CodeStr(CodeCreated).Some? && CodeStr(CodeNoContent).Some?
    ensures CodeStr(CodeNotFound).Some? && CodeStr(CodeNotAllowed).Some? && CodeStr(CodeConflict).Some?
    ensures CodeStr(CodeNotImple).Some?
  {
    assert CodeTable[0].0 == CodeOk && CodeTable[1].0 == CodeCreated && CodeTable[2].0 == CodeNoContent;
    assert CodeTable[5].0 == CodeNotFound && CodeTable[6].0 == CodeNotAllowed && CodeTable[7].0 == CodeConflict;
    assert CodeTable[8].0 == CodeNotImple;
  }

  /** The bit test on the statuses the composer picks: no document for the success codes, one for every error. */
  lemma ComposedStatusesClassified()
    ensures !NeedsErrorBody(CodeOk) && !NeedsErrorBody(CodeCreated) && !NeedsErrorBody(CodeNoContent)
    ensures NeedsErrorBody(CodeNotFound) && NeedsErrorBody(CodeNotAllowed) && NeedsErrorBody(CodeConflict)
    ensures NeedsErrorBody(CodeNotImple)
  {
  }

  /** The response to a handler's outcome: its status from the returned value, its body the document or the error. */
  function FoundResponse(m: uint8, o: HandlerOutcome, docLen: nat, errLen: nat): (r: Response)
    requires DocLengths(docLen, errLen)
    ensures r.contentLen < DataBufSize
  {
    ComposedStatusesListed();
    ComposedStatusesClassified();
    var (status, len) := HandlerStatus(Sentinel(o, docLen));
    Respond(m, status, len, if o.Emitted? then Document(o.body) else NoPayload, errLen)
  }

  // ---------------------------------------------------------------------------
  // http_process_handler

  /** What handling a request gives: the response, and the request type, resource id and pin masks it leaves. */
  datatype Outcome = Outcome(resp: Response, reqType: uint8, reqId: string, userIo: UserIoInfo)

  /**
    The search on the key is defined: the key fits the search's buffer and
    leaves room for a copied id, and a `userio/:id` row is reached only with
    the id of a pin (the handlers index the pin table with the lookup result).
   */
  predicate SearchDefined(m: uint8, name: string, id: string) {
    && Nul !in name && |name| < SearchBufSize && IdFits(name)
    && var r := SearchOutcome(m, name, id);
       (0 <= r.0 < |UriTable| && UsesId(UriTable[r.0].process) ==> KnownId(r.1))
  }

  /**
    `http_process_handler` is defined on the request: the URI fits the name
    buffer, the key can be taken and searched for; a request whose method
    was not recognised leaves the name unset, which the search would read,
    so only the stale file type of an earlier request keeps it defined.
   */
  predicate ProcessDefined(m: uint8, uri: string, reqType: uint8, id: string) {
    if KnownMethod(m) then
      && Nul !in uri && |uri| < MaxUriSize && NameDefined(m, uri)
      && (FindHttpUriType(ResourceName(m, uri)) == TypeErr ==> SearchDefined(m, ResourceName(m, uri), id))
    else reqType != TypeErr
  }

  /**
    What the handlers read from outside the request: the chip's network
    settings, the uptime clock and the pin hardware; and the lengths of the
    handler's document and of the error document the JSON emitter writes.
   */
  datatype Env = Env(chip: NetInfo, clock: Clock, hw: PinReading, docLen: nat, errLen: nat)
  {
    /** Valid settings, and documents of 2 or more characters that fit the buffer. */
    predicate Valid() {
      chip.Valid() && DocLengths(docLen, errLen)
    }
  }

  predicate DocLengths(docLen: nat, errLen: nat) {
    2 <= docLen < DataBufSize && 2 <= errLen < DataBufSize
  }

  /**
    `http_process_handler` on method `m`, URI `uri` and the request's file
    type `reqType` before the call, with the resource id `id` and the pin
    masks `info` the handlers see.
   */
  function Process(m: uint8, uri: string, reqType: uint8, id: string, info: UserIoInfo, env: Env): (r: Outcome)
    requires ProcessDefined(m, uri, reqType, id) && env.Valid()
    ensures r.resp.contentLen < DataBufSize
  {
    ComposedStatusesListed();
    var typ := if KnownMethod(m) then FindHttpUriType(ResourceName(m, uri)) else reqType;
    if typ != TypeErr then
      Outcome(Respond(m, CodeNotFound, 0, NoPayload, env.errLen), typ, id, info)
    else Searched(m, ResourceName(m, uri), id, info, env)
  }

  /** The request whose key has no file type: the key is searched for and the row found, if any, handled. */
  function Searched(m: uint8, name: string, id: string, info: UserIoInfo, env: Env): (r: Outcome)
    requires SearchDefined(m, name, id) && env.Valid()
    ensures r.resp.contentLen < DataBufSize && r.reqType == TypeErr
  {
    ComposedStatusesListed();
    var (ret, id') := SearchOutcome(m, name, id);
    if ret < 0 then
      Outcome(Respond(m, SearchFailureStatus(ret), 0, NoPayload, env.errLen), TypeErr, id', info)
    else
      SearchSpec(m, name, id);
      var (o, info') := Dispatch(UriTable[ret].process, info, id', env.chip, env.clock, env.hw);
      Outcome(FoundResponse(m, o, env.docLen, env.errLen), TypeErr, id', info')
  }

  /** The statuses the composer can pick. */
  predicate Composed(status: uint16) {
    || status == CodeOk || status == CodeCreated || status == CodeNoContent
    || status == CodeNotFound || status == CodeNotAllowed || status == CodeConflict
  }

  /**
    The response to a composed status: the error document exactly for a
    status of 400 or more, with the status text as its message; the body is
    sent exactly when the method is not HEAD and the length is not 0.
   */
  lemma RespondSpec(m: uint8, status: uint16, len: int, payload: Payload, errLen: nat)
    requires Composed(status) && 2 <= errLen < DataBufSize && !payload.ErrorDoc?
    requires status < 400 ==> 0 <= len < DataBufSize
    ensures CodeStr(status).Some? && (!NeedsErrorBody(status) ==> 0 <= len < DataBufSize)
    ensures var r := Respond(m, status, len, payload, errLen);
      && r.status == status
      && (r.payload.ErrorDoc? <==> status >= 400)
      && (status >= 400 ==> r.contentLen == errLen && MakeHttpResponseErrorMessage(status) == Some(r.payload.msg))
      && (status < 400 ==> r.contentLen == len && r.payload == payload)
      && (r.sendsBody <==> m != MethodHead && r.contentLen > 0)
  {
    ComposedStatusFacts(status);
  }

  lemma ComposedStatusFacts(status: uint16)
    requires Composed(status)
    ensures CodeStr(status).Some? && (NeedsErrorBody(status) <==> status >= 400)
  {
    ComposedStatusesListed();
    ComposedStatusesClassified();
  }

  /**
    Every request is answered with one of the six composed statuses, with
    an error document exactly when the status is 400 or more; HEAD never
    gets a body, other methods get one exactly when its length is not 0.
   */
  lemma ProcessStatuses(m: uint8, uri: string, reqType: uint8, id: string, info: UserIoInfo, env: Env)
    requires ProcessDefined(m, uri, reqType, id) && env.Valid()
    ensures var r := Process(m, uri, reqType, id, info, env).resp;
      && Composed(r.status)
      && (r.payload.ErrorDoc? <==> r.status >= 400)
      && (r.payload.ErrorDoc? ==> r.contentLen == env.errLen && MakeHttpResponseErrorMessage(r.status) == Some(r.payload.msg))
      && (r.sendsBody <==> m != MethodHead && r.contentLen > 0)
  {
    var typ := if KnownMethod(m) then FindHttpUriType(ResourceName(m, uri)) else reqType;
    if typ != TypeErr {
      RespondSpec(m, CodeNotFound, 0, NoPayload, env.errLen);
    } else {
      var name := ResourceName(m, uri);
      var (ret, id') := SearchOutcome(m, name, id);
      if ret < 0 {
        RespondSpec(m, SearchFailureStatus(ret), 0, NoPayload, env.errLen);
      } else {
        SearchSpec(m, name, id);
        var (o, info') := Dispatch(UriTable[ret].process, info, id', env.chip, env.clock, env.hw);
        FoundResponseSpec(m, o, env.docLen, env.errLen);
      }
    }
  }

  /** The response to each handler outcome. */
  lemma FoundResponseSpec(m: uint8, o: HandlerOutcome, docLen: nat, errLen: nat)
    requires DocLengths(docLen, errLen)
    ensures var r := FoundResponse(m, o, docLen, errLen);
      && Composed(r.status)
      && (r.payload.ErrorDoc? <==> r.status >= 400)
      && (r.payload.ErrorDoc? ==> r.contentLen == errLen && MakeHttpResponseErrorMessage(r.status) == Some(r.payload.msg))
      && (r.sendsBody <==> m != MethodHead && r.contentLen > 0)
      && (o.Emitted? ==> r.status == CodeOk && r.payload == Document(o.body) && r.contentLen == docLen)
      && (o == Created ==> r.status == CodeCreated && r.contentLen == 0)
      && (o == Done ==> r.status == CodeNoContent && r.contentLen == 0)
      && (o == Conflict ==> r.status == CodeConflict)
      && (o == NotFound ==> r.status == CodeNotFound)
  {
    HandlerStatusOfOutcome(o, docLen);
    var (status, len) := HandlerStatus(Sentinel(o, docLen));
    RespondSpec(m, status, len, if o.Emitted? then Document(o.body) else NoPayload, errLen);
  }

  /**
    A key with a file extension is never searched: the answer is "not
    found", and the id and the pin masks are left as they were.
   */
  lemma ProcessFileType(m: uint8, uri: string, reqType: uint8, id: string, info: UserIoInfo, env: Env)
    requires ProcessDefined(m, uri, reqType, id) && env.Valid()
    requires KnownMethod(m) && FindHttpUriType(ResourceName(m, uri)) != TypeErr
    ensures var r := Process(m, uri, reqType, id, info, env);
      && r.resp.status == CodeNotFound && r.reqType == FindHttpUriType(ResourceName(m, uri))
      && r.reqId == id && r.userIo == info
  {
  }

  /**
    A failed search is answered "not allowed" when it returned -2 and "not
    found" otherwise; the pin masks are left as they were.
   */
  lemma ProcessSearchFailed(m: uint8, uri: string, reqType: uint8, id: string, info: UserIoInfo, env: Env)
    requires ProcessDefined(m, uri, reqType, id) && env.Valid()
    requires KnownMethod(m) && FindHttpUriType(ResourceName(m, uri)) == TypeErr
    requires SearchOutcome(m, ResourceName(m, uri), id).0 < 0
    ensures var r := Process(m, uri, reqType, id, info, env);
      && (r.resp.status == CodeNotAllowed <==> SearchOutcome(m, ResourceName(m, uri), id).0 == ErrNotAllowed)
      && (r.resp.status != CodeNotAllowed ==> r.resp.status == CodeNotFound)
      && r.reqId == SearchOutcome(m, ResourceName(m, uri), id).1 && r.userIo == info
  {
  }

  /**
    A search that finds row `k` runs that row's handler: its outcome gives
    the status and the document, and its pin masks are the ones left.
   */
  lemma ProcessFound(m: uint8, uri: string, reqType: uint8, id: string, info: UserIoInfo, env: Env)
    requires ProcessDefined(m, uri, reqType, id) && env.Valid()
    requires KnownMethod(m) && FindHttpUriType(ResourceName(m, uri)) == TypeErr
    requires SearchOutcome(m, ResourceName(m, uri), id).0 >= 0
    ensures var (k, id') := SearchOutcome(m, ResourceName(m, uri), id);
      k < |UriTable| &&
      var (o, info') := Dispatch(UriTable[k].process, info, id', env.chip, env.clock, env.hw);
      var r := Process(m, uri, reqType, id, info, env);
      && r.reqId == id' && r.userIo == info'
      && (o.Emitted? ==> r.resp.status == CodeOk && r.resp.payload == Document(o.body) && r.resp.contentLen == env.docLen)
      && (o == Created ==> r.resp.status == CodeCreated && r.resp.contentLen == 0 && !r.resp.sendsBody)
      && (o == Done ==> r.resp.status == CodeNoContent && r.resp.contentLen == 0 && !r.resp.sendsBody)
      && (o == Conflict ==> r.resp.status == CodeConflict)
      && (o == NotFound ==> r.resp.status == CodeNotFound)
  {
    var name := ResourceName(m, uri);
    SearchSpec(m, name, id);
    var (k, id') := SearchOutcome(m, name, id);
    var (o, info') := Dispatch(UriTable[k].process, info, id', env.chip, env.clock, env.hw);
    FoundResponseSpec(m, o, env.docLen, env.errLen);
  }

  /** HEAD on a registered path is answered "not allowed", with no body. */
  lemma HeadRegisteredNotAllowed(uri: string, reqType: uint8, id: string, info: UserIoInfo, env: Env, k: nat)
    requires ProcessDefined(MethodHead, uri, reqType, id) && env.Valid()
    requires FindHttpUriType(ResourceName(MethodHead, uri)) == TypeErr
    requires k < |UriTable| && |Tokens(ResourceName(MethodHead, uri), "/")| <= MaxUriDepth
    requires PathMatches(Tokens(ResourceName(MethodHead, uri), "/"), UriTable[k].segments)
    ensures var r := Process(MethodHead, uri, reqType, id, info, env);
      r.resp.status == CodeNotAllowed && !r.resp.sendsBody && r.userIo == info
  {
    HeadOnRegisteredPath(ResourceName(MethodHead, uri), id, k);
    ProcessSearchFailed(MethodHead, uri, reqType, id, info, env);
    ProcessStatuses(MethodHead, uri, reqType, id, info, env);
  }

  // ---------------------------------------------------------------------------
  // An unrecognised method

  /**
    As written, the 501 set for an unrecognised method is overwritten: the
    method is only defined when an earlier request left a file type, and a
    file type answers "not found".
   */
  lemma MethodErrAnsweredNotFound(m: uint8, uri: string, reqType: uint8, id: string, info: UserIoInfo, env: Env)
    requires ProcessDefined(m, uri, reqType, id) && env.Valid() && !KnownMethod(m)
    ensures var r := Process(m, uri, reqType, id, info, env);
      r.resp.status == CodeNotFound && r.resp.status != CodeNotImple
  {
  }

  /** An unknown method after a request for a style sheet: "not found", not "not implemented". */
  lemma MethodErrAfterStyleSheet(id: string, info: UserIoInfo, env: Env)
    requires env.Valid()
    ensures ProcessDefined(MethodErr, "FOO", TypeCss, id)
    ensures Process(MethodErr, "FOO", TypeCss, id, info, env).resp.status == CodeNotFound
  {
  }

  /** With the 501 kept, an unrecognised method no longer depends on the name or on an earlier request. */
  predicate ProcessCorrectedDefined(m: uint8, uri: string, reqType: uint8, id: string) {
    KnownMethod(m) ==> ProcessDefined(m, uri, reqType, id)
  }

  /** `http_process_handler` as evidently intended: an unrecognised method is answered 501 straight away. */
  function ProcessCorrected(m: uint8, uri: string, reqType: uint8, id: string, info: UserIoInfo, env: Env): (r: Outcome)
    requires ProcessCorrectedDefined(m, uri, reqType, id) && env.Valid()
  {
    if KnownMethod(m) then Process(m, uri, reqType, id, info, env)
    else
      ComposedStatusesListed();
      ComposedStatusesClassified();
      Outcome(Respond(m, CodeNotImple, 0, NoPayload, env.errLen), reqType, id, info)
  }

  /**
    The corrected composer answers "not implemented", with its error
    document, exactly for an unrecognised method, and agrees with the
    original on every recognised one.
   */
  lemma CorrectedNotImplemented(m: uint8, uri: string, reqType: uint8, id: string, info: UserIoInfo, env: Env)
    requires ProcessCorrectedDefined(m, uri, reqType, id) && env.Valid()
    ensures var r := ProcessCorrected(m, uri, reqType, id, info, env);
      && (r.resp.status == CodeNotImple <==> !KnownMethod(m))
      && (!KnownMethod(m) ==> r.resp.payload == ErrorDoc(MakeHttpResponseErrorMessage(CodeNotImple).value)
                              && r.resp.sendsBody && r.userIo == info && r.reqId == id)
      && (KnownMethod(m) ==> r == Process(m, uri, reqType, id, info, env))
  {
    if KnownMethod(m) {
      ProcessStatuses(m, uri, reqType, id, info, env);
    } else {
      ComposedStatusesClassified();
    }
  }

  // ---------------------------------------------------------------------------
  // Connection states

  const StateIdle: uint8 := 0
  const StateReqInproc: uint8 := 1
  const StateReqDone: uint8 := 2
  const StateResInproc: uint8 := 3
  const StateResDone: uint8 := 4

  /** `st_http_socket`, without the file name no code path writes. */
  datatype HttpSocket = HttpSocket(status: uint8, fileStart: uint32, fileLen: uint32, fileOffset: uint32)

  /** The re-initialised connection: idle, with no file in progress. */
  const IdleSocket: HttpSocket := HttpSocket(StateIdle, 0, 0, 0)

  /** The hardware socket status `getSn_SR` reports, as far as the server distinguishes it. */
  datatype SockStatus = SockEstablished | SockCloseWait | SockInit | SockListen | SockSynSent | SockSynRecv | SockClosed | SockOther

  /** What one poll asks of the chip. */
  datatype SockAction =
    | NoAction
    | Answer            // the received request is parsed and answered
    | SendRest          // the rest of a response body is sent
    | Disconnect
    | Listen
    | Open(port: uint16)

  /**
    One poll of a connection in state `slot` whose socket reports `st`:
    `rxSize` is the size of the received data, `received` what `recv`
    returned (`None` for an error).  A socket that is closed is reopened on
    `port`, or on `defaultPort` when `port` is 0.
   */
  function SlotStep(slot: HttpSocket, st: SockStatus, rxSize: nat, received: Option<string>,
                    port: uint16, defaultPort: uint16): (r: (HttpSocket, SockAction))
    ensures r.1 == Answer <==> st == SockEstablished && slot.status == StateIdle && rxSize > 0 && received.Some?
    ensures r.1 == SendRest <==> st == SockEstablished && slot.status == StateResInproc
    ensures r.1 == Disconnect <==> st == SockCloseWait || (st == SockEstablished && slot.status == StateResDone)
    ensures r.1 == Disconnect ==> r.0 == IdleSocket
    ensures r.1 != Disconnect ==> r.0.fileLen == slot.fileLen
  {
    match st
    case SockEstablished =>
      if slot.status == StateIdle then
        if rxSize > 0 && received.Some? then
          (slot.(status := if slot.fileLen > 0 then StateResInproc else StateResDone), Answer)
        else (slot, NoAction)
      else if slot.status == StateResInproc then
        (if slot.fileLen == 0 then slot.(status := StateResDone) else slot, SendRest)
      else if slot.status == StateResDone then (IdleSocket, Disconnect)
      else (slot, NoAction)
    case SockCloseWait => (IdleSocket, Disconnect)
    case SockInit => (slot, Listen)
    case SockClosed => (slot, Open(if port == 0 then defaultPort else port))
    case _ => (slot, NoAction)
  }

  /** A connection with no file in progress, idle or done: the only states the server reaches. */
  predicate Quiet(slot: HttpSocket) {
    slot.fileLen == 0 && (slot.status == StateIdle || slot.status == StateResDone)
  }

  /**
    Polls keep a connection quiet, so "sending in progress" is never
    entered: a received request takes an idle connection to done, and the
    next poll of an established or closing socket takes it back to idle.
   */
  lemma SlotStepQuiet(slot: HttpSocket, st: SockStatus, rxSize: nat, received: Option<string>, port: uint16, defaultPort: uint16)
    requires Quiet(slot)
    ensures var (slot', a) := SlotStep(slot, st, rxSize, received, port, defaultPort);
      && Quiet(slot') && slot'.status != StateResInproc && a != SendRest
      && (slot.status == StateIdle && st == SockEstablished && rxSize > 0 && received.Some? ==>
            slot'.status == StateResDone && a == Answer)
      && (slot.status == StateResDone && st == SockEstablished ==> slot' == IdleSocket && a == Disconnect)
      && (st == SockCloseWait ==> slot' == IdleSocket && a == Disconnect)
  {
  }

  /** A request on an idle connection is answered, and the following poll closes it: back to idle. */
  lemma RequestCycle(slot: HttpSocket, rxSize: nat, data: string, port: uint16, defaultPort: uint16)
    requires Quiet(slot) && slot.status == StateIdle && rxSize > 0
    ensures var (s1, a1) := SlotStep(slot, SockEstablished, rxSize, Some(data), port, defaultPort);
      var (s2, a2) := SlotStep(s1, SockEstablished, 0, None, port, defaultPort);
      a1 == Answer && a2 == Disconnect && s2 == IdleSocket
  {
    SlotStepQuiet(slot, SockEstablished, rxSize, Some(data), port, defaultPort);
  }

  // ---------------------------------------------------------------------------
  // Socket selection

  /** The counter of `getAvailableHTTPSocketNum` after one call with `cnt` sockets (8-bit, reset at the count). */
  function NextSlot(i: uint8, cnt: uint8): (r: uint8)
    ensures cnt > 0 && i < cnt ==> r == (if i + 1 == cnt as int then 0 else i + 1)
  {
    if cnt == 0 then i
    else
      var j := Trunc8(i + 1);
      if cnt <= j then 0 else j
  }

  /** The sequence numbers `n` successive calls read, starting from counter `i`. */
  function Visits(i: uint8, cnt: uint8, n: nat): seq<uint8>
    ensures |Visits(i, cnt, n)| == n
    decreases n
  {
    if n == 0 then [] else [i] + Visits(NextSlot(i, cnt), cnt, n - 1)
  }

  /** The counter after `n` calls. */
  function After(i: uint8, cnt: uint8, n: nat): uint8
    decreases n
  {
    if n == 0 then i else After(NextSlot(i, cnt), cnt, n - 1)
  }

  /** From counter `i`, the calls read `i`, `i + 1`, ... up to the last socket, and then the counter is back at 0. */
  lemma {:induction false} RoundRobinFrom(i: uint8, cnt: uint8)
    requires i < cnt
    ensures var v := Visits(i, cnt, cnt as int - i); forall k :: 0 <= k < |v| ==> v[k] as int == i + k
    ensures After(i, cnt, cnt as int - i) == 0
    decreases cnt as int - i
  {
    var n := cnt as int - i;
    if i + 1 < cnt as int {
      RoundRobinFrom(i + 1, cnt);
      assert Visits(i, cnt, n) == [i] + Visits(i + 1, cnt, n - 1);
    } else {
      assert Visits(i, cnt, n) == [i] + Visits(0, cnt, 0);
    }
  }

  /** From the start, `cnt` calls read every sequence number once, in order, and come back to the start. */
  lemma RoundRobinCycle(cnt: uint8)
    requires cnt > 0
    ensures var v := Visits(0, cnt, cnt as int); forall k :: 0 <= k < |v| ==> v[k] as int == k
    ensures After(0, cnt, cnt as int) == 0
  {
    RoundRobinFrom(0, cnt);
  }

  /** The first index of `x` in `s`, or -1. */
  function IndexOf(s: seq<uint8>, x: uint8): (r: int)
    ensures -1 <= r < |s|
    ensures r == -1 <==> x !in s
    ensures r >= 0 ==> s[r] == x && forall k :: 0 <= k < r ==> s[k] != x
  {
    if s == [] then -1
    else if s[0] == x then 0
    else
      var r := IndexOf(s[1..], x);
      assert x in s[1..] ==> x in s;
      if r == -1 then -1 else r + 1
  }

  /** The socket count `httpServer_init` keeps: the requested count, capped at the number of hardware sockets. */
  function CappedCount(cnt: uint8, sockNum: nat): (r: uint8)
    ensures r <= cnt && r <= sockNum
    ensures r == cnt || r == sockNum
  {
    if cnt as int > sockNum then sockNum as uint8 else cnt
  }

  /** The sequence numbers the mapping loop of `httpServer_init` writes as written: all of them up to the uncapped count. */
  function MappedAsWritten(cnt: uint8): (r: seq<nat>)
    ensures |r| == cnt && forall k :: 0 <= k < |r| ==> r[k] == k
  {
    seq(cnt, k => k)
  }

  /** As written, a count above the number of hardware sockets writes past the end of `httpsock_num`. */
  lemma InitOverrunsAsWritten(cnt: uint8, sockNum: nat)
    requires cnt as int > sockNum
    ensures sockNum < |MappedAsWritten(cnt)| && MappedAsWritten(cnt)[sockNum] == sockNum
    ensures CappedCount(cnt, sockNum) as int == sockNum
  {
  }

  // ---------------------------------------------------------------------------
  // The server

  /** The URI field after `parse_http_request` on the text `s`: the new URI, or the old one when none was copied. */
  function UriAfterParse(s: string, oldUri: string): string {
    var p := ParsedRequest(s);
    if p.uri.Some? then p.uri.value else oldUri
  }

  /** Parsing the received text and handling the request it holds are defined (see `ProcessDefined`). */
  predicate RequestDefined(data: string, oldUri: string, reqType: uint8, id: string) {
    var s := CStr(data);
    UriFits(s) && ProcessDefined(ParsedRequest(s).code, UriAfterParse(s, oldUri), reqType, id)
  }

  /** A poll that receives a request: an established socket, an idle connection, and data that `recv` delivered. */
  predicate Receives(slot: HttpSocket, st: SockStatus, rxSize: nat, received: Option<string>) {
    st == SockEstablished && slot.status == StateIdle && rxSize > 0 && received.Some?
  }

  /** `resp` is the answer `http_process_handler` gives to the request parsed from `data`. */
  predicate Answered(data: string, resp: Response, oldUri: string, reqType: uint8, id: string, info: UserIoInfo, env: Env) {
    && RequestDefined(data, oldUri, reqType, id) && env.Valid()
    && var s := CStr(data);
       resp == Process(ParsedRequest(s).code, UriAfterParse(s, oldUri), reqType, id, info, env).resp
  }

  class HttpServer {
    /** `_WIZCHIP_SOCK_NUM_`: the number of hardware sockets. */
    const sockNum: nat
    /** `HTTP_SERVER_PORT`: the port a closed socket is reopened on when the caller passes 0. */
    const defaultPort: uint16
    /** `httpserver.sock_cnt`: how many sockets serve HTTP. */
    var sockCnt: uint8
    /** `httpsock_num`: the hardware socket number of each sequence number. */
    const httpsockNum: array<uint8>
    /** `HTTPSock`: the connection state of each sequence number. */
    const httpSock: array<HttpSocket>
    /** The static counter `i` of `getAvailableHTTPSocketNum`. */
    var next: uint8
    /** The parsed request buffer `http_req`. */
    const req: HttpRequest
    /** The REST handlers' state. */
    const api: RestApi

    /** The tables have one entry per socket; a sequence number fits the `int8_t` it is returned in. */
    ghost predicate Valid()
      reads this
    {
      && sockNum <= 0x80 && httpsockNum.Length == sockNum && httpSock.Length == sockNum
      && sockCnt as int <= sockNum && (next == 0 || next as int < sockNum)
    }

    /** Every connection is quiet. */
    ghost predicate AllQuiet()
      reads this, httpSock
    {
      forall k :: 0 <= k < httpSock.Length ==> Quiet(httpSock[k])
    }

    /** The static state before `httpServer_init`: no sockets, everything zero, every connection idle. */
    constructor (sockNum: nat, defaultPort: uint16, cfg: DevConfig)
      requires sockNum <= 0x80
      ensures Valid() && AllQuiet()
      ensures this.sockNum == sockNum && this.defaultPort == defaultPort && sockCnt == 0 && next == 0
      ensures httpsockNum[..] == seq(sockNum, _ => 0) && api.cfg == cfg
      ensures fresh(httpsockNum) && fresh(httpSock) && fresh(req) && fresh(api)
    {
      this.sockNum := sockNum;
      this.defaultPort := defaultPort;
      sockCnt := 0;
      next := 0;
      httpsockNum := new uint8[sockNum](_ => 0);
      httpSock := new HttpSocket[sockNum](_ => IdleSocket);
      req := new HttpRequest();
      api := new RestApi(cfg);
    }

    /**
      `httpServer_init`, with the mapping loop bounded by the capped count:
      the first sequence numbers are mapped to the given hardware sockets.
     */
    method Init(cnt: uint8, sockList: seq<uint8>)
      requires Valid() && |sockList| >= CappedCount(cnt, sockNum) as int
      modifies this`sockCnt, httpsockNum
      ensures Valid() && sockCnt == CappedCount(cnt, sockNum)
      ensures httpsockNum[..sockCnt] == sockList[..sockCnt]
      ensures httpsockNum[sockCnt..] == old(httpsockNum[..])[sockCnt..]
    {
      if cnt as int > sockNum {
        sockCnt := sockNum as uint8;
      } else {
        sockCnt := cnt;
      }
      var i: uint8 := 0;
      while i < sockCnt
        invariant sockCnt == CappedCount(cnt, sockNum) && i <= sockCnt
        invariant httpsockNum[..i] == sockList[..i]
        invariant httpsockNum[i..] == old(httpsockNum[i..])
      {
        httpsockNum[i] := sockList[i];
        i := i + 1;
      }
    }

    /** `getAvailableHTTPSocketNum`: the hardware socket of the counter's sequence number, the counter moving on. */
    method GetAvailableHTTPSocketNum() returns (sock: int)
      requires Valid()
      modifies this`next
      ensures Valid() && next == NextSlot(old(next), sockCnt)
      ensures sock == if sockCnt == 0 then -1 else Int8(httpsockNum[old(next)])
    {
      if sockCnt == 0 {
        return -1;
      }
      sock := Int8(httpsockNum[next]);
      next := Trunc8(next as int + 1);
      if sockCnt <= next {
        next := 0;
      }
    }

    /** `getHTTPSequenceNum`: the first sequence number mapped to `sock`, or -1. */
    method GetHTTPSequenceNum(sock: uint8) returns (r: int)
      requires Valid()
      ensures r == IndexOf(httpsockNum[..], sock)
    {
      var i := 0;
      while i < sockNum
        invariant 0 <= i <= sockNum
        invariant forall k :: 0 <= k < i ==> httpsockNum[k] != sock
      {
        if httpsockNum[i] == sock {
          return i;
        }
        i := i + 1;
      }
      return -1;
    }

    /**
      `http_process_handler` on the parsed request: the key is taken from the
      URI and its file type recorded, the key is searched for and the
      matching handler run, and the status and the content length are set
      step by step, the error document replacing the body for an error
      status.
     */
    method ProcessHandler(env: Env) returns (resp: Response)
      requires ProcessDefined(req.reqMethod, req.uri, req.reqType, api.reqResourceId) && env.Valid()
      modifies req`reqType, api`reqResourceId, api.cfg`userIo
      ensures var o := Process(req.reqMethod, req.uri, old(req.reqType), old(api.reqResourceId), old(api.cfg.userIo), env);
        && resp == o.resp && req.reqType == o.reqType
        && api.reqResourceId == o.reqId && api.cfg.userIo == o.userIo
    {
      var m := req.reqMethod;
      var name, status := TakeResourceName();
      if req.reqType == TypeErr {
        resp := SearchAndRespond(m, name, env);
      } else {
        status := CodeNotFound;
        ComposedStatusFacts(status);
        resp := AttachErrorBody(m, status, 0, NoPayload, env.errLen);
      }
    }

    /**
      The rest of the composer for a key without a file type: -1 from the
      search gives 404, -2 gives 405 and a row number runs that row's
      handler.
     */
    method SearchAndRespond(m: uint8, name: string, env: Env) returns (resp: Response)
      requires SearchDefined(m, name, api.reqResourceId) && env.Valid()
      modifies api`reqResourceId, api.cfg`userIo
      ensures var o := Searched(m, name, old(api.reqResourceId), old(api.cfg.userIo), env);
        resp == o.resp && api.reqResourceId == o.reqId && api.cfg.userIo == o.userIo
    {
      ghost var id := api.reqResourceId;
      var status: uint16 := 0;
      var contentLen: int := 0;
      var payload := NoPayload;
      var tableNum := api.SearchHttpResources(m, name);
      if tableNum < 0 {
        if tableNum == ErrNotFound {
          status := CodeNotFound;
        }
        if tableNum == ErrNotAllowed {
          status := CodeNotAllowed;
        } else {
          status := CodeNotFound;
        }
      } else {
        SearchSpec(m, name, id);
        status, contentLen, payload := RunHandler(tableNum, env);
      }
      ComposedStatusFacts(status);
      resp := AttachErrorBody(m, status, contentLen, payload, env.errLen);
    }

    /**
      The key of the request and its file type: the resource name for GET
      and HEAD (`/` becoming `index`), the text between `/` and ` HTTP`
      for the other known methods; an unknown method sets 501 and leaves
      the file type of the previous request.
     */
    method TakeResourceName() returns (name: string, status: uint16)
      requires KnownMethod(req.reqMethod) ==> Nul !in req.uri && |req.uri| < MaxUriSize && NameDefined(req.reqMethod, req.uri)
      modifies req`reqType
      ensures KnownMethod(req.reqMethod) ==>
        && name == ResourceName(req.reqMethod, req.uri)
        && req.reqType == FindHttpUriType(name) && status == 0
      ensures !KnownMethod(req.reqMethod) ==> req.reqType == old(req.reqType) && status == CodeNotImple
    {
      var m := req.reqMethod;
      name := [];
      status := 0;
      if m == MethodHead || m == MethodGet {
        var uriBuf := new char[MaxUriSize];
        GetHttpUriName(req.uri, uriBuf);
        name := uriBuf[..|UriName(req.uri)|];
        if name == "/" {
          name := InitialResource;
        }
        req.reqType := FindHttpUriType(name);
      } else if m == MethodPost || m == MethodPut || m == MethodDelete {
        name := Mid(req.uri, "/", " HTTP");
        req.reqType := FindHttpUriType(name);
      } else {
        status := CodeNotImple;
      }
    }

    /**
      The handler of table row `row` is run and its returned value turned
      into the status and the content length: 1 means 201 with no body, a
      positive length 200, 0 means 204, the conflict code 409 and any other
      negative value 404.
     */
    method RunHandler(row: nat, env: Env) returns (status: uint16, contentLen: int, payload: Payload)
      requires row < |UriTable| && env.Valid() && (UsesId(UriTable[row].process) ==> KnownId(api.reqResourceId))
      modifies api.cfg`userIo
      ensures var (o, info) := Dispatch(UriTable[row].process, old(api.cfg.userIo), api.reqResourceId, env.chip, env.clock, env.hw);
        && (status, contentLen) == HandlerStatus(Sentinel(o, env.docLen))
        && payload == (if o.Emitted? then Document(o.body) else NoPayload)
        && api.cfg.userIo == info
      ensures Composed(status) && (status < 400 ==> 0 <= contentLen < DataBufSize)
    {
      var o := api.HttpResourcesHandler(row, env.chip, env.clock, env.hw);
      contentLen := Sentinel(o, env.docLen);
      payload := NoPayload;
      if o.Emitted? {
        payload := Document(o.body);
      }
      if contentLen == RetCreated {
        status := CodeCreated;
        contentLen := 0;
      } else if contentLen > 0 {
        status := CodeOk;
      } else if contentLen == 0 {
        status := CodeNoContent;
      } else if contentLen == ErrConflict {
        status := CodeConflict;
      } else {
        status := CodeNotFound;
      }
    }

    /**
      The last step of the composer: a status whose bits include those of
      400 or 500 gets the error document and its length; the body is sent
      unless the method is HEAD or the length is 0.
     */
    method AttachErrorBody(m: uint8, status: uint16, len: int, payload: Payload, errLen: nat) returns (resp: Response)
      requires CodeStr(status).Some? && 2 <= errLen < DataBufSize
      requires !NeedsErrorBody(status) ==> 0 <= len < DataBufSize
      ensures resp == Respond(m, status, len, payload, errLen)
    {
      var contentLen := len;
      var body := payload;
      if NeedsErrorBody(status) {
        contentLen := errLen;
        body := ErrorDoc(MakeHttpResponseErrorMessage(status).value);
      }
      resp := Response(status, contentLen, body, m != MethodHead && contentLen > 0);
    }

    /**
      The sequence number the next poll serves: the one mapped to the
      hardware socket the counter points at, or none when no socket serves
      HTTP or the socket number does not fit an `int8_t`.
     */
    ghost function Selected(): (r: Option<nat>)
      requires Valid()
      reads this, httpsockNum
      ensures r.Some? ==> r.value < httpSock.Length && httpsockNum[r.value] == httpsockNum[next]
    {
      if sockCnt == 0 || Int8(httpsockNum[next]) < 0 then None
      else
        var x := httpsockNum[next];
        assert httpsockNum[..][next] == x;
        Some(IndexOf(httpsockNum[..], x))
    }

    /** The poll receives a request: the selected connection is idle, its socket established, and data arrived. */
    ghost predicate Serving(st: SockStatus, rxSize: nat, received: Option<string>)
      requires Valid()
      reads this, httpsockNum, httpSock
    {
      Selected().Some? && Receives(httpSock[Selected().value], st, rxSize, received)
    }

    /**
      `httpServer_run`: one poll of the next HTTP socket.  Its connection
      takes the step `SlotStep` gives for the socket's status `st`, the
      size `rxSize` waiting and the text `received` (none when `recv`
      fails); a received request is parsed and answered; no other
      connection changes.
     */
    method Run(serverPort: uint16, st: SockStatus, rxSize: nat, received: Option<string>, env: Env)
      returns (action: SockAction, resp: Option<Response>)
      requires Valid() && env.Valid()
      requires received.Some? ==> |received.value| <= rxSize && |received.value| < DataBufSize
      requires Serving(st, rxSize, received) ==> RequestDefined(received.value, req.uri, req.reqType, api.reqResourceId)
      modifies this`next, httpSock, req, api`reqResourceId, api.cfg`userIo
      ensures Valid() && next == NextSlot(old(next), sockCnt)
      ensures old(Selected()).None? ==>
        && action == NoAction && resp.None? && httpSock[..] == old(httpSock[..])
        && unchanged(req) && api.reqResourceId == old(api.reqResourceId) && api.cfg.userIo == old(api.cfg.userIo)
      ensures old(Selected()).Some? ==>
        var q := old(Selected()).value;
        var (slot, a) := SlotStep(old(httpSock[q]), st, rxSize, received, serverPort, defaultPort);
        && action == a && httpSock[..] == old(httpSock[..])[q := slot]
        && (Receives(old(httpSock[q]), st, rxSize, received) ==>
              resp.Some? && Answered(received.value, resp.value, old(req.uri), old(req.reqType), old(api.reqResourceId), old(api.cfg.userIo), env))
        && (!Receives(old(httpSock[q]), st, rxSize, received) ==>
              resp.None? && unchanged(req) && api.reqResourceId == old(api.reqResourceId) && api.cfg.userIo == old(api.cfg.userIo))
      ensures old(AllQuiet()) ==> AllQuiet()
    {
      ghost var sel := Selected();
      ghost var quiet := AllQuiet();
      ghost var serving := Serving(st, rxSize, received);
      var sock := GetAvailableHTTPSocketNum();
      if sock < 0 {
        return NoAction, None;
      }
      var seqnum := GetHTTPSequenceNum(sock as uint8);
      assert sel == Some(seqnum);
      assert Receives(httpSock[seqnum], st, rxSize, received) == serving;
      if quiet {
        SlotStepQuiet(httpSock[seqnum], st, rxSize, received, serverPort, defaultPort);
      }
      action, resp := Poll(seqnum, serverPort, st, rxSize, received, env);
    }

    /** The state switch of `httpServer_run` on connection `q`. */
    method Poll(q: nat, serverPort: uint16, st: SockStatus, rxSize: nat, received: Option<string>, env: Env)
      returns (action: SockAction, resp: Option<Response>)
      requires q < httpSock.Length && env.Valid()
      requires received.Some? ==> |received.value| < DataBufSize
      requires Receives(httpSock[q], st, rxSize, received) ==> RequestDefined(received.value, req.uri, req.reqType, api.reqResourceId)
      modifies httpSock, req, api`reqResourceId, api.cfg`userIo
      ensures var (slot, a) := SlotStep(old(httpSock[q]), st, rxSize, received, serverPort, defaultPort);
        action == a && httpSock[..] == old(httpSock[..])[q := slot]
      ensures Receives(old(httpSock[q]), st, rxSize, received) ==>
        resp.Some? && Answered(received.value, resp.value, old(req.uri), old(req.reqType), old(api.reqResourceId), old(api.cfg.userIo), env)
      ensures !Receives(old(httpSock[q]), st, rxSize, received) ==>
        resp.None? && unchanged(req) && api.reqResourceId == old(api.reqResourceId) && api.cfg.userIo == old(api.cfg.userIo)
    {
      action, resp := NoAction, None;
      match st {
        case SockEstablished =>
          var status := httpSock[q].status;
          if status == StateIdle {
            if rxSize > 0 && received.Some? {
              var r := AnswerRequest(received.value, env);
              resp := Some(r);
              action := Answer;
              if httpSock[q].fileLen > 0 {
                httpSock[q] := httpSock[q].(status := StateResInproc);
              } else {
                httpSock[q] := httpSock[q].(status := StateResDone);
              }
            }
          } else if status == StateResInproc {
            action := SendRest;
            if httpSock[q].fileLen == 0 {
              httpSock[q] := httpSock[q].(status := StateResDone);
            }
          } else if status == StateResDone {
            httpSock[q] := httpSock[q].(fileLen := 0, fileOffset := 0, fileStart := 0, status := StateIdle);
            action := Disconnect;
          }
        case SockCloseWait =>
          httpSock[q] := httpSock[q].(fileLen := 0, fileOffset := 0, fileStart := 0, status := StateIdle);
          action := Disconnect;
        case SockInit =>
          action := Listen;
        case SockClosed =>
          var port := serverPort;
          if port == 0 {
            port := defaultPort;
          }
          action := Open(port);
        case _ =>
      }
    }

    /** The received text is parsed into the request buffer and the request answered. */
    method AnswerRequest(data: string, env: Env) returns (resp: Response)
      requires |data| < DataBufSize && env.Valid() && RequestDefined(data, req.uri, req.reqType, api.reqResourceId)
      modifies req, api`reqResourceId, api.cfg`userIo
      ensures Answered(data, resp, old(req.uri), old(req.reqType), old(api.reqResourceId), old(api.cfg.userIo), env)
      ensures var s := CStr(data);
        && req.reqMethod == ParsedRequest(s).code && req.uri == UriAfterParse(s, old(req.uri))
        && var o := Process(ParsedRequest(s).code, UriAfterParse(s, old(req.uri)), old(req.reqType), old(api.reqResourceId), old(api.cfg.userIo), env);
           req.reqType == o.reqType && api.reqResourceId == o.reqId && api.cfg.userIo == o.userIo
    {
      req.ParseHttpRequest(data);
      resp := ProcessHandler(env);
    }
  }
}
