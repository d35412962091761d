/**
  The REST resources of the server: the constant resource table, the search
  that matches a request path against it (with `:id` segments standing for a
  pin id, which the search records in `req_resource_ID`), the handlers of the
  ten resources and the error message body.  JSON text is abstract: a handler's
  answer is a `Body` value, and the length `json_emit` reports for it is an input.
 */
module RestApiHandler {
  import opened CTypes
  import opened Wrappers
  import opened CString
  import opened HttpTables
  import opened ConfigData
  import opened GpioHandler
  import opened TimerHandler
  import Board
  import HttpParser

  const MaxUriDepth: nat := 4
  const MaxResourceIdSize: nat := 20
  const ResourceIdMark: string := ":id"
  /** `uri_buf[MAX_URI_SIZE/2]`, the copy of the path the search tokenises. */
  const SearchBufSize: nat := 256

  /** The handler sentinels: a body length, or one of these. */
  const RetCreated: int := 1
  const ErrNotFound: int := -1
  const ErrNotAllowed: int := -2
  const ErrConflict: int := -3

  const SegIndex: string := "index"
  const SegUptime: string := "uptime"
  const SegNetinfo: string := "netinfo"
  const SegUserio: string := "userio"
  const SegInfo: string := "info"

  datatype Handler =
    | ReadIndex | ReadUptime | ReadNetinfo | ReadUserio | ReadUserioId
    | CreateUserioId | UpdateUserioId | DeleteUserioId | ReadUserioInfo | UpdateUserioInfo

  /** A row of `uri_table`; the path is held as its `/`-separated segments. */
  datatype Resource = Resource(reqMethod: uint8, segments: seq<string>, process: Handler, description: string)
  {
    /** The path text of the row, as the C table spells it. */
    function Uri(): string {
      Join(segments, '/')
    }
  }

  /** `uri_table`, in the order the search scans it. */
  const UriTable: seq<Resource> :=
    [Resource(MethodGet, [SegIndex], ReadIndex, "index page"),
     Resource(MethodGet, [SegUptime], ReadUptime, "uptime"),
     Resource(MethodGet, [SegNetinfo], ReadNetinfo, "network configration"),
     Resource(MethodGet, [SegUserio], ReadUserio, "enabled io list"),
     Resource(MethodGet, [SegUserio, ResourceIdMark], ReadUserioId, "get io status or value"),
     Resource(MethodPost, [SegUserio, ResourceIdMark], CreateUserioId, "enable new io pin"),
     Resource(MethodPut, [SegUserio, ResourceIdMark], UpdateUserioId, "set the io status (digital output only)"),
     Resource(MethodDelete, [SegUserio, ResourceIdMark], DeleteUserioId, "disable the io pin"),
     Resource(MethodGet, [SegUserio, ResourceIdMark, SegInfo], ReadUserioInfo, "get the io configuration, type and direction"),
     Resource(MethodPut, [SegUserio, ResourceIdMark, SegInfo], UpdateUserioInfo, "set the io configuration, type and direction")]

  lemma SegmentNamesAreTokens()
    ensures IsToken(SegIndex, "/") && IsToken(SegUptime, "/") && IsToken(SegNetinfo, "/")
    ensures IsToken(SegUserio, "/") && IsToken(SegInfo, "/") && IsToken(ResourceIdMark, "/")
  {
  }

  /** Every row's path splits back into its segments, and has at least one. */
  lemma UriTableTokens(i: nat)
    requires i < |UriTable|
    ensures 1 <= |UriTable[i].segments| <= 3
    ensures Tokens(UriTable[i].Uri(), "/") == UriTable[i].segments
  {
    SegmentNamesAreTokens();
    var ps := UriTable[i].segments;
    assert forall k :: 0 <= k < |ps| ==> IsToken(ps[k], "/");
    TokensOfJoin(ps, '/', "/");
  }

  // ---------------------------------------------------------------------------
  // search_http_resources

  /** A request segment against a pattern segment: `:id` takes any id that fits, anything else must be equal. */
  predicate SegmentMatches(r: string, p: string) {
    (p == ResourceIdMark && |r| <= MaxResourceIdSize) || r == p
  }

  /** The request segments `ts` match the row segments `ps` position by position (the first never by `:id`). */
  predicate PathMatches(ts: seq<string>, ps: seq<string>) {
    && |ts| == |ps| && |ts| > 0 && ts[0] == ps[0]
    && forall j :: 1 <= j < |ts| ==> SegmentMatches(ts[j], ps[j])
  }

  /**
    The inner loop of the search from pattern position `j` on: whether every
    remaining segment matched, and the resource id it leaves behind.  A request
    position past the request's depth holds no token.
   */
  function SegmentsFrom(ts: seq<string>, ps: seq<string>, j: nat, id: string): (bool, string)
    requires 1 <= j <= |ps|
    decreases |ps| - j
  {
    if j == |ps| then (true, id)
    else
      var id' := if j < |ts| && ps[j] == ResourceIdMark && |ts[j]| <= MaxResourceIdSize then ts[j] else id;
      if j < |ts| && SegmentMatches(ts[j], ps[j]) then SegmentsFrom(ts, ps, j + 1, id') else (false, id')
  }

  /** One row of the outer loop: whether the path matched (the whole depth), and the id afterwards. */
  function RowOutcome(ts: seq<string>, ps: seq<string>, id: string): (bool, string)
    requires |ts| > 0 && |ps| > 0
  {
    if ts[0] != ps[0] then (false, id)
    else
      var r := SegmentsFrom(ts, ps, 1, id);
      (r.0 && |ps| == |ts|, r.1)
  }

  /** Every row of a resource table has at least one path segment. */
  predicate RowsNonEmpty(tbl: seq<Resource>) {
    forall k :: 0 <= k < |tbl| ==> |tbl[k].segments| > 0
  }

  /** The outer loop over the table `tbl` from row `i` on: the row number or sentinel, and the id afterwards. */
  function ScanFrom(tbl: seq<Resource>, m: uint8, ts: seq<string>, i: nat, matched: bool, id: string): (r: (int, string))
    requires RowsNonEmpty(tbl) && |ts| > 0 && i <= |tbl|
    ensures r.0 >= 0 ==> i <= r.0 < |tbl| && tbl[r.0].reqMethod == m
    ensures r.0 < 0 ==> r.0 == ErrNotAllowed || r.0 == ErrNotFound
    decreases |tbl| - i
  {
    if i == |tbl| then (if matched then ErrNotAllowed else ErrNotFound, id)
    else
      var r := RowOutcome(ts, tbl[i].segments, id);
      if r.0 && tbl[i].reqMethod == m then (i, r.1)
      else ScanFrom(tbl, m, ts, i + 1, matched || r.0, r.1)
  }

  lemma UriTableRowsNonEmpty()
    ensures RowsNonEmpty(UriTable)
  {
    forall k | 0 <= k < |UriTable|
      ensures |UriTable[k].segments| > 0
    {
      UriTableTokens(k);
    }
  }

  /** What `search_http_resources(m, uri)` returns, and the resource id it leaves. */
  function SearchOutcome(m: uint8, uri: string, id: string): (r: (int, string))
    ensures r.0 >= 0 ==> 1 <= |Tokens(uri, "/")| <= MaxUriDepth && r.0 < |UriTable| && UriTable[r.0].reqMethod == m
    ensures r.0 < 0 ==> r.0 == ErrNotAllowed || r.0 == ErrNotFound
    ensures |Tokens(uri, "/")| == 0 || |Tokens(uri, "/")| > MaxUriDepth ==> r == (ErrNotFound, id)
  {
    var ts := Tokens(uri, "/");
    if |ts| == 0 || |ts| > MaxUriDepth then (ErrNotFound, id)
    else
      UriTableRowsNonEmpty();
      ScanFrom(UriTable, m, ts, 0, false, id)
  }

  /** The search copies an id into `req_resource_ID[20]` with its NUL, so a 20-character id would overflow it. */
  predicate IdFits(uri: string) {
    var ts := Tokens(uri, "/");
    |ts| >= 2 && ts[0] == SegUserio ==> |ts[1]| != MaxResourceIdSize
  }

  /** The inner loop matches exactly when every remaining pattern segment has a matching request segment. */
  lemma {:induction false} SegmentsFromMatches(ts: seq<string>, ps: seq<string>, j: nat, id: string)
    requires 1 <= j <= |ps|
    ensures SegmentsFrom(ts, ps, j, id).0 <==>
      (|ps| <= |ts| || j == |ps|) && forall k :: j <= k < |ps| ==> k < |ts| && SegmentMatches(ts[k], ps[k])
    decreases |ps| - j
  {
    if j < |ps| {
      var id' := if j < |ts| && ps[j] == ResourceIdMark && |ts[j]| <= MaxResourceIdSize then ts[j] else id;
      if j < |ts| && SegmentMatches(ts[j], ps[j]) {
        SegmentsFromMatches(ts, ps, j + 1, id');
        if j + 1 == |ps| {
          assert |ps| <= |ts|;
        }
      }
    }
  }

  /** A row matches in the loop exactly when the path matches it. */
  lemma RowOutcomeMatches(ts: seq<string>, ps: seq<string>, id: string)
    requires |ts| > 0 && |ps| > 0
    ensures RowOutcome(ts, ps, id).0 <==> PathMatches(ts, ps)
  {
    SegmentsFromMatches(ts, ps, 1, id);
  }

  /**
    If the remaining pattern has its only `:id` at `k` and all of it matched,
    the id left behind is the request's segment at `k`.
   */
  lemma {:induction false} SegmentsFromId(ts: seq<string>, ps: seq<string>, j: nat, k: nat, id: string)
    requires 1 <= j <= k < |ps| && ps[k] == ResourceIdMark
    requires forall q :: j <= q < |ps| && q != k ==> ps[q] != ResourceIdMark
    requires SegmentsFrom(ts, ps, j, id).0
    ensures k < |ts| && SegmentsFrom(ts, ps, j, id).1 == ts[k]
    decreases |ps| - j
  {
    var id' := if j < |ts| && ps[j] == ResourceIdMark && |ts[j]| <= MaxResourceIdSize then ts[j] else id;
    assert j < |ts| && SegmentMatches(ts[j], ps[j]);
    if j < k {
      SegmentsFromId(ts, ps, j + 1, k, id');
    } else {
      SegmentsFromNoId(ts, ps, j + 1, id');
    }
  }

  /** Without an `:id` in the remaining pattern, the id is left as it was. */
  lemma {:induction false} SegmentsFromNoId(ts: seq<string>, ps: seq<string>, j: nat, id: string)
    requires 1 <= j <= |ps|
    requires forall q :: j <= q < |ps| ==> ps[q] != ResourceIdMark
    ensures SegmentsFrom(ts, ps, j, id).1 == id
    decreases |ps| - j
  {
    if j < |ps| {
      SegmentsFromNoId(ts, ps, j + 1, id);
    }
  }

  /** Row `k` of the table serves the request segments `ts` with method `m`. */
  predicate Serves(tbl: seq<Resource>, m: uint8, ts: seq<string>, k: nat)
    requires k < |tbl|
  {
    PathMatches(ts, tbl[k].segments) && tbl[k].reqMethod == m
  }

  /** A row number from the scan at or after `i` is the first row from `i` on that serves the request. */
  lemma {:induction false} ScanFromHit(tbl: seq<Resource>, m: uint8, ts: seq<string>, i: nat, matched: bool, id: string)
    requires RowsNonEmpty(tbl) && |ts| > 0 && i <= |tbl| && ScanFrom(tbl, m, ts, i, matched, id).0 >= 0
    ensures Serves(tbl, m, ts, ScanFrom(tbl, m, ts, i, matched, id).0)
    ensures forall k :: i <= k < ScanFrom(tbl, m, ts, i, matched, id).0 ==> !Serves(tbl, m, ts, k)
    decreases |tbl| - i
  {
    var row := RowOutcome(ts, tbl[i].segments, id);
    RowOutcomeMatches(ts, tbl[i].segments, id);
    if !(row.0 && tbl[i].reqMethod == m) {
      ScanFromHit(tbl, m, ts, i + 1, matched || row.0, row.1);
    }
  }

  /**
    A sentinel from the scan means no row from `i` on serves the request; it is
    "not allowed" exactly when some path matched, before `i` or after.
   */
  lemma {:induction false} ScanFromMiss(tbl: seq<Resource>, m: uint8, ts: seq<string>, i: nat, matched: bool, id: string)
    requires RowsNonEmpty(tbl) && |ts| > 0 && i <= |tbl| && ScanFrom(tbl, m, ts, i, matched, id).0 < 0
    ensures forall k :: i <= k < |tbl| ==> !Serves(tbl, m, ts, k)
    ensures ScanFrom(tbl, m, ts, i, matched, id).0 == ErrNotAllowed <==>
      matched || exists k :: i <= k < |tbl| && PathMatches(ts, tbl[k].segments)
    ensures ScanFrom(tbl, m, ts, i, matched, id).0 != ErrNotAllowed ==> ScanFrom(tbl, m, ts, i, matched, id).0 == ErrNotFound
    decreases |tbl| - i
  {
    if i < |tbl| {
      var row := RowOutcome(ts, tbl[i].segments, id);
      RowOutcomeMatches(ts, tbl[i].segments, id);
      ScanFromMiss(tbl, m, ts, i + 1, matched || row.0, row.1);
    }
  }

  /**
    The search returns the least row whose path has the request's segments,
    matching position by position, and whose method is the request's; failing
    that, -2 when some row's path matched and -1 otherwise.  A path with no
    segment or more than four gives -1.
   */
  lemma SearchSpec(m: uint8, uri: string, id: string)
    ensures SearchOutcome(m, uri, id).0 >= 0 ==>
      && 1 <= |Tokens(uri, "/")| <= MaxUriDepth && SearchOutcome(m, uri, id).0 < |UriTable|
      && Serves(UriTable, m, Tokens(uri, "/"), SearchOutcome(m, uri, id).0)
      && forall k :: 0 <= k < SearchOutcome(m, uri, id).0 ==> !Serves(UriTable, m, Tokens(uri, "/"), k)
    ensures SearchOutcome(m, uri, id).0 == ErrNotAllowed <==>
      && 1 <= |Tokens(uri, "/")| <= MaxUriDepth
      && (exists k :: 0 <= k < |UriTable| && PathMatches(Tokens(uri, "/"), UriTable[k].segments))
      && forall k :: 0 <= k < |UriTable| ==> !Serves(UriTable, m, Tokens(uri, "/"), k)
    ensures SearchOutcome(m, uri, id).0 < 0 ==>
      SearchOutcome(m, uri, id).0 == ErrNotAllowed || SearchOutcome(m, uri, id).0 == ErrNotFound
  {
    var ts := Tokens(uri, "/");
    if 1 <= |ts| <= MaxUriDepth {
      UriTableRowsNonEmpty();
      if ScanFrom(UriTable, m, ts, 0, false, id).0 >= 0 {
        ScanFromHit(UriTable, m, ts, 0, false, id);
      } else {
        ScanFromMiss(UriTable, m, ts, 0, false, id);
      }
    }
  }

  /** `strtok` skips empty segments: a doubled and a trailing `/` leave the segments as they were. */
  lemma EmptySegmentsSkippedFor(t: string, a: string)
    requires IsToken(t, "/") && IsToken(a, "/")
    ensures Tokens(t + "//" + a + "/", "/") == [t, a] == Tokens(t + "/" + a, "/")
  {
    var tail := a + "/";
    assert t + "//" + a + "/" == t + (['/'] + (['/'] + tail));
    TokensOfCons(t, '/', ['/'] + tail, "/");
    TokensSkipLeading('/', tail, "/");
    TrailingDelimiterSkipped(a);
    assert t + "/" + a == Join([t, a], '/');
    TokensOfJoin([t, a], '/', "/");
  }

  lemma TrailingDelimiterSkipped(a: string)
    requires IsToken(a, "/")
    ensures Tokens(a + "/", "/") == [a]
  {
    assert a + "/" == a + (['/'] + []);
    TokensOfCons(a, '/', [], "/");
    assert Tokens([], "/") == [];
  }

  /** So `userio//a/` is searched exactly like `userio/a`. */
  lemma EmptySegmentsSkipped(u: string, v: string, m: uint8, id: string)
    requires u == "userio//a/" && v == "userio/a"
    ensures Tokens(u, "/") == Tokens(v, "/") == [SegUserio, "a"]
    ensures SearchOutcome(m, u, id) == SearchOutcome(m, v, id)
  {
    SegmentNamesAreTokens();
    assert IsToken("a", "/");
    assert u == SegUserio + "//" + "a" + "/" && v == SegUserio + "/" + "a";
    EmptySegmentsSkippedFor(SegUserio, "a");
  }

  /** No row is registered for HEAD: a HEAD request on any registered path is answered "not allowed". */
  lemma HeadOnRegisteredPath(uri: string, id: string, k: nat)
    requires k < |UriTable| && |Tokens(uri, "/")| <= MaxUriDepth
    requires PathMatches(Tokens(uri, "/"), UriTable[k].segments)
    ensures SearchOutcome(MethodHead, uri, id).0 == ErrNotAllowed
  {
    SearchSpec(MethodHead, uri, id);
    assert forall q :: 0 <= q < |UriTable| ==> UriTable[q].reqMethod != MethodHead;
  }

  /** In table `tbl`, an `:id` segment appears only in second position. */
  predicate IdOnlySecond(tbl: seq<Resource>) {
    forall i, q :: 0 <= i < |tbl| && 0 <= q < |tbl[i].segments| && q != 1 ==> tbl[i].segments[q] != ResourceIdMark
  }

  lemma UriTableIdOnlySecond()
    ensures IdOnlySecond(UriTable)
  {
  }

  /**
    The scan's id after a hit on a row with `:id` as its second segment is the
    request's second segment.
   */
  lemma {:induction false} ScanFromId(tbl: seq<Resource>, m: uint8, ts: seq<string>, i: nat, matched: bool, id: string)
    requires RowsNonEmpty(tbl) && IdOnlySecond(tbl) && |ts| > 0 && i <= |tbl|
    requires ScanFrom(tbl, m, ts, i, matched, id).0 >= 0
    requires |tbl[ScanFrom(tbl, m, ts, i, matched, id).0].segments| >= 2
    requires tbl[ScanFrom(tbl, m, ts, i, matched, id).0].segments[1] == ResourceIdMark
    ensures |ts| >= 2 && ScanFrom(tbl, m, ts, i, matched, id).1 == ts[1]
    decreases |tbl| - i
  {
    var ps := tbl[i].segments;
    var row := RowOutcome(ts, ps, id);
    if row.0 && tbl[i].reqMethod == m {
      SegmentsFromId(ts, ps, 1, 1, id);
    } else {
      ScanFromId(tbl, m, ts, i + 1, matched || row.0, row.1);
    }
  }

  /** A search that lands on a `userio/:id` row leaves the request's id in `req_resource_ID`. */
  lemma SearchRecordsId(m: uint8, uri: string, id: string)
    requires 0 <= SearchOutcome(m, uri, id).0 < |UriTable|
    requires |UriTable[SearchOutcome(m, uri, id).0].segments| >= 2
    requires UriTable[SearchOutcome(m, uri, id).0].segments[1] == ResourceIdMark
    ensures |Tokens(uri, "/")| >= 2 && SearchOutcome(m, uri, id).1 == Tokens(uri, "/")[1]
  {
    var ts := Tokens(uri, "/");
    UriTableRowsNonEmpty();
    UriTableIdOnlySecond();
    ScanFromId(UriTable, m, ts, 0, false, id);
  }

  // ---------------------------------------------------------------------------
  // Handler answers

  /** One pin of the `userio` list or of its `info` resource. */
  datatype PinEntry = PinEntry(id: string, analog: bool, output: bool)

  /** One resource of the index page: its URL, its method's name and its description. */
  datatype ResourceEntry = ResourceEntry(url: string, methodName: string, description: string)

  /** The JSON documents the handlers emit, as values. */
  datatype Body =
    | IndexBody(target: string, ios: seq<(string, string)>, resources: seq<ResourceEntry>)
    | UptimeBody(clock: Clock)
    | NetinfoBody(mac: string, ip: string, gw: string, sn: string, dns: string, dhcpEnabled: bool)
    | UserioNone
    | UserioList(pins: seq<PinEntry>)
    | PinValue(id: string, value: uint16)
    | PinInfo(entry: PinEntry)

  /** What a handler returns: an emitted document, or a sentinel. */
  datatype HandlerOutcome = Emitted(body: Body) | Created | Done | NotFound | Conflict

  /**
    The `int16_t` a handler returns: the document's length, or the sentinel.
    A JSON document is at least two characters long, so it cannot be taken
    for "created".
   */
  function Sentinel(o: HandlerOutcome, jsonLen: nat): (r: int)
    requires jsonLen >= 2
    ensures o.Emitted? <==> r >= 2
    ensures o.Emitted? ==> r == jsonLen
    ensures o == Created <==> r == RetCreated
    ensures o == Done <==> r == 0
    ensures o == Conflict <==> r == ErrConflict
    ensures o == NotFound <==> r == ErrNotFound
  {
    match o
    case Emitted(_) => jsonLen
    case Created => RetCreated
    case Done => 0
    case NotFound => ErrNotFound
    case Conflict => ErrConflict
  }

  /** The index of `id` among the pin ids "a".."d", or -1. */
  function UserioIndex(id: string): (r: int)
    ensures -1 <= r < Board.UserIoCount
    ensures r >= 0 ==> Board.UserIoStr[r] == id && forall k :: 0 <= k < r ==> Board.UserIoStr[k] != id
    ensures r == -1 <==> forall k :: 0 <= k < Board.UserIoCount ==> Board.UserIoStr[k] != id
  {
    if id == Board.UserIoStr[0] then 0
    else if id == Board.UserIoStr[1] then 1
    else if id == Board.UserIoStr[2] then 2
    else if id == Board.UserIoStr[3] then 3
    else -1
  }

  /** Each pin's own id finds that pin. */
  lemma UserioIndexOfPin(p: nat)
    requires Board.IsPin(p)
    ensures UserioIndex(Board.UserIoStr[p]) == p
  {
  }

  /** `find_matched_userio_id`: a linear search of the pin ids. */
  method FindMatchedUserioId(reqId: string) returns (r: int)
    ensures r == UserioIndex(reqId)
  {
    r := -1;
    var i := 0;
    while i < Board.UserIoCount
      invariant 0 <= i <= Board.UserIoCount
      invariant forall k :: 0 <= k < i ==> Board.UserIoStr[k] != reqId
    {
      if reqId == Board.UserIoStr[i] {
        r := i;
        return;
      }
      i := i + 1;
    }
  }

  /** The entry that describes pin `p`. */
  function EntryOf(info: UserIoInfo, p: nat): PinEntry
    requires Board.IsPin(p)
  {
    PinEntry(Board.UserIoStr[p],
             GetUserIoType(info, Board.UserIoSel[p]) == IoAnalogIn,
             GetUserIoDirection(info, Board.UserIoSel[p]) == IoOutput)
  }

  /** The enabled pins from `p` on, in pin order. */
  function EnabledFrom(info: UserIoInfo, p: nat): seq<nat>
    requires p <= Board.UserIoCount
    decreases Board.UserIoCount - p
  {
    if p == Board.UserIoCount then []
    else if GetUserIoEnabled(info, Board.UserIoSel[p]) == IoEnable then [p] + EnabledFrom(info, p + 1)
    else EnabledFrom(info, p + 1)
  }

  /** `EnabledFrom` holds exactly the enabled pins from `p` on, in increasing order. */
  lemma EnabledFromSpec(info: UserIoInfo, p: nat)
    requires p <= Board.UserIoCount
    ensures forall q :: q in EnabledFrom(info, p) <==>
      p <= q < Board.UserIoCount && AllSet(info.enable, Wide(Board.UserIoSel[q]))
    ensures forall a, b :: 0 <= a < b < |EnabledFrom(info, p)| ==> EnabledFrom(info, p)[a] < EnabledFrom(info, p)[b]
    ensures forall a :: 0 <= a < |EnabledFrom(info, p)| ==> p <= EnabledFrom(info, p)[a]
  {
    EnabledFromMembers(info, p);
    EnabledFromIncreasing(info, p);
  }

  lemma {:induction false} EnabledFromMembers(info: UserIoInfo, p: nat)
    requires p <= Board.UserIoCount
    ensures forall q :: q in EnabledFrom(info, p) <==>
      p <= q < Board.UserIoCount && AllSet(info.enable, Wide(Board.UserIoSel[q]))
    decreases Board.UserIoCount - p
  {
    if p < Board.UserIoCount {
      EnabledFromMembers(info, p + 1);
    }
  }

  lemma {:induction false} EnabledFromIncreasing(info: UserIoInfo, p: nat)
    requires p <= Board.UserIoCount
    ensures forall a, b :: 0 <= a < b < |EnabledFrom(info, p)| ==> EnabledFrom(info, p)[a] < EnabledFrom(info, p)[b]
    ensures forall a :: 0 <= a < |EnabledFrom(info, p)| ==> p <= EnabledFrom(info, p)[a]
    decreases Board.UserIoCount - p
  {
    if p < Board.UserIoCount {
      EnabledFromIncreasing(info, p + 1);
    }
  }

  /** `restapi_read_userio`: "NULL" for an empty enable mask, otherwise the enabled pins in order. */
  function ReadUserioBody(info: UserIoInfo): (b: Body)
    ensures b == UserioNone <==> info.enable == 0
    ensures b.UserioList? ==> |b.pins| == |EnabledPins(info)|
  {
    if info.enable == 0 then UserioNone
    else
      var ps := EnabledPins(info);
      UserioList(seq(|ps|, k requires 0 <= k < |ps| => EntryOf(info, ps[k])))
  }

  /** The enabled pins, in pin order. */
  function EnabledPins(info: UserIoInfo): seq<nat> {
    EnabledFrom(info, 0)
  }

  /** `EnabledPins` holds every pin whose enable bit is set, and only those, in increasing order. */
  lemma EnabledPinsSpec(info: UserIoInfo)
    ensures forall q :: q in EnabledPins(info) <==> Board.IsPin(q) && AllSet(info.enable, Wide(Board.UserIoSel[q]))
    ensures forall a, b :: 0 <= a < b < |EnabledPins(info)| ==> EnabledPins(info)[a] < EnabledPins(info)[b]
  {
    EnabledFromSpec(info, 0);
  }

  /**
    The list has one entry per enabled pin, in pin order, each analog exactly
    when its type bit is set and an output exactly when its direction bit is set.
   */
  lemma ReadUserioLists(info: UserIoInfo)
    requires info.enable != 0
    ensures ReadUserioBody(info).UserioList?
    ensures |ReadUserioBody(info).pins| == |EnabledPins(info)|
    ensures forall k :: 0 <= k < |EnabledPins(info)| ==>
      && Board.IsPin(EnabledPins(info)[k])
      && ReadUserioBody(info).pins[k] == PinEntry(Board.UserIoStr[EnabledPins(info)[k]],
           AllSet(info.ioType, Wide(Board.UserIoSel[EnabledPins(info)[k]])),
           AllSet(info.direction, Wide(Board.UserIoSel[EnabledPins(info)[k]])))
  {
    var ps := EnabledPins(info);
    EnabledPinsSpec(info);
    forall k | 0 <= k < |ps|
      ensures Board.IsPin(ps[k])
    {
      assert ps[k] in ps;
    }
  }

  /**
    The handlers of `userio/:id` look the id up and index `USER_IO_SEL` with
    the result before they test it, so they are only defined for an id that
    names a pin.
   */
  predicate KnownId(reqId: string) {
    UserioIndex(reqId) >= 0
  }

  /** The selector of the pin a known id names. */
  function SelOf(reqId: string): bv8
    requires KnownId(reqId)
  {
    Board.UserIoSel[UserioIndex(reqId)]
  }

  /** `restapi_read_userio_id`: a disabled pin is not found; an enabled pin reports the value `get_user_io_val` reads. */
  function ReadUserioIdOutcome(info: UserIoInfo, reqId: string, hw: PinReading): (o: HandlerOutcome)
    requires KnownId(reqId)
    ensures o == NotFound <==> !AllSet(info.enable, Wide(SelOf(reqId)))
    ensures o != NotFound ==> o == Emitted(PinValue(reqId, GetUserIoVal(info, Wide(SelOf(reqId)), hw).1))
  {
    if GetUserIoEnabled(info, SelOf(reqId)) == IoDisable then NotFound
    else Emitted(PinValue(reqId, GetUserIoVal(info, Wide(SelOf(reqId)), hw).1))
  }

  /** `restapi_read_userio_info`: a disabled pin is not found; an enabled one reports its type and direction. */
  function ReadUserioInfoOutcome(info: UserIoInfo, reqId: string): (o: HandlerOutcome)
    requires KnownId(reqId)
    ensures o == NotFound <==> !AllSet(info.enable, Wide(SelOf(reqId)))
    ensures o != NotFound ==> o == Emitted(PinInfo(PinEntry(reqId, AllSet(info.ioType, Wide(SelOf(reqId))),
                                                            AllSet(info.direction, Wide(SelOf(reqId))))))
  {
    if GetUserIoEnabled(info, SelOf(reqId)) == IoDisable then NotFound
    else Emitted(PinInfo(EntryOf(info, UserioIndex(reqId))))
  }

  /** The value a pin reports is the one `get_user_io_val` reads from it, which for a digital pin is a latch bit. */
  lemma ReadEnabledPinValue(info: UserIoInfo, p: nat, hw: PinReading)
    requires Board.IsPin(p) && AllSet(info.enable, Wide(Board.UserIoSel[p]))
    ensures KnownId(Board.UserIoStr[p])
    ensures ReadUserioIdOutcome(info, Board.UserIoStr[p], hw) ==
      Emitted(PinValue(Board.UserIoStr[p],
        if AllSet(info.ioType, Wide(Board.UserIoSel[p])) then hw.adc
        else if AllSet(info.direction, Wide(Board.UserIoSel[p])) then hw.outputBit as uint16 else hw.inputBit as uint16))
  {
    UserioIndexOfPin(p);
  }

  /**
    The search hands the `userio/:id` handlers ids that name no pin: it
    accepts any id of up to 20 characters, so `KnownId` is a real restriction.
   */
  lemma UnknownIdIndexesPinTable(uri: string, id: string)
    requires uri == "userio/x"
    ensures SearchOutcome(MethodGet, uri, id) == (4, "x")
    ensures !KnownId("x") && !(0 <= UserioIndex("x") < |Board.UserIoSel|)
  {
    assert uri == Join([SegUserio, "x"], '/');
    SegmentNamesAreTokens();
    assert IsToken("x", "/");
    TokensOfJoin([SegUserio, "x"], '/', "/");
    var ts := [SegUserio, "x"];
    var tbl := UriTable;
    UriTableRowsNonEmpty();
    assert RowOutcome(ts, tbl[0].segments, id) == (false, id);
    assert RowOutcome(ts, tbl[1].segments, id) == (false, id);
    assert RowOutcome(ts, tbl[2].segments, id) == (false, id);
    assert RowOutcome(ts, tbl[3].segments, id) == (false, id);
    assert SegmentsFrom(ts, tbl[4].segments, 2, "x") == (true, "x");
    assert RowOutcome(ts, tbl[4].segments, id) == (true, "x");
    assert ScanFrom(tbl, MethodGet, ts, 4, false, id) == (4, "x");
    assert ScanFrom(tbl, MethodGet, ts, 2, false, id) == ScanFrom(tbl, MethodGet, ts, 4, false, id);
    assert ScanFrom(tbl, MethodGet, ts, 0, false, id) == ScanFrom(tbl, MethodGet, ts, 2, false, id);
    assert Tokens(uri, "/") == ts;
  }

  /** The id of every row of the index and every address of the network page, as text. */
  function DottedQuad(ip: seq<uint8>): string
    requires |ip| == 4
  {
    Join([Decimal(ip[0]), Decimal(ip[1]), Decimal(ip[2]), Decimal(ip[3])], '.')
  }

  /** `%.2x:%.2x:...`: a MAC address as six lower-case hex pairs. */
  function MacText(mac: seq<uint8>): string
    requires |mac| == 6
  {
    Join([HexByte(mac[0]), HexByte(mac[1]), HexByte(mac[2]), HexByte(mac[3]), HexByte(mac[4]), HexByte(mac[5])], ':')
  }

  /** `inet_addr_` reads `addr` as the four bytes `ip`. */
  predicate ParsesTo(addr: string, ip: seq<uint8>) {
    |Tokens(addr, ".")| >= 4 && HttpParser.InetOctets(addr) == ip
  }

  /** An address the server prints is read back to the same bytes by `inet_addr_`. */
  lemma DottedQuadParses(ip: seq<uint8>)
    requires |ip| == 4
    ensures ParsesTo(DottedQuad(ip), ip)
  {
    HttpParser.InetOctetsOfDottedDecimal(ip);
  }

  /** The name of the first `method_table` row for method `m`. */
  function MethodName(m: uint8): (r: Option<string>)
    ensures r.None? ==> forall k :: 0 <= k < |MethodTable| ==> MethodTable[k].0 != m
    ensures r.Some? ==> (m, r.value) in MethodTable
  {
    if m == MethodGet then Some("GET")
    else if m == MethodHead then Some("HEAD")
    else if m == MethodPost then Some("POST")
    else if m == MethodPut then Some("PUT")
    else if m == MethodDelete then Some("DELETE")
    else None
  }

  /** Every method name the index lists is parsed back to the method by `http_parser`. */
  lemma MethodNameParses(m: uint8)
    requires MethodName(m).Some?
    ensures HttpParser.MethodCode(MethodName(m).value) == m
  {
  }

  /** Each table row's method appears in `method_table`. */
  lemma UriTableMethodsNamed(i: nat)
    requires i < |UriTable|
    ensures MethodName(UriTable[i].reqMethod).Some?
  {
  }

  /** `restapi_read_index`: the board name, the pins with their board pins, and every resource as a URL on `ip`. */
  function ReadIndexBody(ip: seq<uint8>): (b: Body)
    requires |ip| == 4
    ensures b.IndexBody? && |b.ios| == Board.UserIoCount && |b.resources| == |UriTable|
    ensures forall i :: 0 <= i < |UriTable| ==> b.resources[i].description == UriTable[i].description
  {
    IndexBody("wizwiki-7500eco",
      seq(Board.UserIoCount, k requires 0 <= k < Board.UserIoCount => (Board.UserIoStr[k], Board.UserIoPinStr[k])),
      seq(|UriTable|, i requires 0 <= i < |UriTable| =>
        UriTableMethodsNamed(i);
        ResourceEntry("http://" + DottedQuad(ip) + "/" + UriTable[i].Uri(),
                      MethodName(UriTable[i].reqMethod).value, UriTable[i].description)))
  }

  /**
    The index lists one entry per table row, in table order; each URL is the
    host, which `inet_addr_` reads back as `ip`, a slash and a path that the
    search splits back into the row's segments; each method name parses back
    to the row's method.
   */
  lemma ReadIndexLists(ip: seq<uint8>, i: nat)
    requires |ip| == 4 && i < |UriTable|
    ensures var b := ReadIndexBody(ip);
      && |b.ios| == Board.UserIoCount && |b.resources| == |UriTable|
      && b.resources[i].url == "http://" + DottedQuad(ip) + "/" + UriTable[i].Uri()
      && HttpParser.MethodCode(b.resources[i].methodName) == UriTable[i].reqMethod
      && b.resources[i].description == UriTable[i].description
    ensures ParsesTo(DottedQuad(ip), ip) && Tokens(UriTable[i].Uri(), "/") == UriTable[i].segments
  {
    UriTableMethodsNamed(i);
    MethodNameParses(UriTable[i].reqMethod);
    DottedQuadParses(ip);
    UriTableTokens(i);
  }

  /** `restapi_read_netinfo`: the chip's addresses as text, and whether DHCP is on. */
  function ReadNetinfoBody(chip: NetInfo): (b: Body)
    requires chip.Valid()
    ensures b.NetinfoBody? && (b.dhcpEnabled <==> chip.dhcp == NetinfoDhcp)
  {
    NetinfoBody(MacText(chip.mac), DottedQuad(chip.ip), DottedQuad(chip.gw), DottedQuad(chip.sn),
                DottedQuad(chip.dns), chip.dhcp == NetinfoDhcp)
  }

  /** Each address on the network page is read back to the chip's bytes; DHCP shows as enabled exactly in DHCP mode. */
  lemma ReadNetinfoRoundTrip(chip: NetInfo)
    requires chip.Valid()
    ensures var b := ReadNetinfoBody(chip);
      && ParsesTo(b.ip, chip.ip) && ParsesTo(b.gw, chip.gw)
      && ParsesTo(b.sn, chip.sn) && ParsesTo(b.dns, chip.dns)
      && (b.dhcpEnabled <==> chip.dhcp == NetinfoDhcp)
  {
    DottedQuadParses(chip.ip);
    DottedQuadParses(chip.gw);
    DottedQuadParses(chip.sn);
    DottedQuadParses(chip.dns);
  }

  /** The error document: the status text without its "NNN " prefix, and the code. */
  datatype ErrorMessage = ErrorMessage(message: string, code: uint16)

  /** `make_http_response_error_message`: nothing for a status `code_table` does not list. */
  function MakeHttpResponseErrorMessage(status: uint16): (r: Option<ErrorMessage>)
    ensures r.Some? <==> CodeStr(status).Some?
    ensures r.Some? ==> r.value.code == status
  {
    match CodeStr(status)
    case None => None
    case Some(text) =>
      StatusTextsHavePrefix(status);
      Some(ErrorMessage(text[4..], status))
  }

  /** Every status text is the three-digit code, a space and the reason phrase. */
  lemma StatusTextsHavePrefix(status: uint16)
    requires CodeStr(status).Some?
    ensures var text := CodeStr(status).value;
      |text| >= 4 && text[..4] == Decimal(status) + " "
  {
    var text := CodeStr(status).value;
    var k :| 0 <= k < |CodeTable| && CodeTable[k] == (status, text);
    ThreeDigits(status);
    if k < 3 {
      SuccessTextsHavePrefix(k);
    } else if k < 6 {
      RequestTextsHavePrefix(k);
    } else {
      ConflictTextsHavePrefix(k);
    }
  }

  /** The decimal text of a three-digit number. */
  lemma ThreeDigits(n: nat)
    requires 100 <= n < 1000
    ensures Decimal(n) == [DigitChar(n / 100), DigitChar(n / 10 % 10), DigitChar(n % 10)]
  {
    assert Decimal(n / 10) == Decimal(n / 100) + [DigitChar(n / 10 % 10)];
  }

  /** Status text `text` begins with the three digits of `code` and a space. */
  predicate CodePrefixed(code: uint16, text: string) {
    100 <= code < 1000 && |text| >= 4
    && text[..4] == [DigitChar(code as nat / 100), DigitChar(code as nat / 10 % 10), DigitChar(code as nat % 10), ' ']
  }

  lemma SuccessTextsHavePrefix(k: nat)
    requires k < 3
    ensures CodePrefixed(CodeTable[k].0, CodeTable[k].1)
  {
  }

  lemma RequestTextsHavePrefix(k: nat)
    requires 3 <= k < 6
    ensures CodePrefixed(CodeTable[k].0, CodeTable[k].1)
  {
  }

  lemma ConflictTextsHavePrefix(k: nat)
    requires 6 <= k < |CodeTable|
    ensures CodePrefixed(CodeTable[k].0, CodeTable[k].1)
  {
  }

  /** The message is the reason phrase that follows the code in the status line. */
  lemma ErrorMessageIsReason(status: uint16)
    requires CodeStr(status).Some?
    ensures MakeHttpResponseErrorMessage(status).Some?
    ensures CodeStr(status).value == Decimal(status) + " " + MakeHttpResponseErrorMessage(status).value.message
  {
    StatusTextsHavePrefix(status);
    var text := CodeStr(status).value;
    assert text == text[..4] + text[4..];
  }

  /**
    The tokenising loop of `search_http_resources`: the `/`-separated segments
    of the path, stopping with `tooDeep` at a fifth one.
   */
  method SplitPath(uri: string) returns (toks: seq<string>, tooDeep: bool)
    ensures tooDeep <==> |Tokens(uri, "/")| > MaxUriDepth
    ensures !tooDeep ==> toks == Tokens(uri, "/")
  {
    ghost var ts := Tokens(uri, "/");
    toks, tooDeep := [], false;
    var pos: nat := 0;
    var t := Strtok(uri, pos, "/");
    while t.Some?
      invariant pos <= |uri| && t == Strtok(uri, pos, "/")
      invariant |toks| <= MaxUriDepth
      invariant toks + TokensFrom(uri, pos, "/") == ts
      decreases |uri| - pos
    {
      ghost var rest := TokensFrom(uri, t.value.1, "/");
      assert TokensFrom(uri, pos, "/") == [t.value.0] + rest;
      if |toks| >= MaxUriDepth {
        assert |ts| == |toks| + 1 + |rest|;
        tooDeep := true;
        return;
      }
      assert (toks + [t.value.0]) + rest == ts;
      toks := toks + [t.value.0];
      pos := t.value.1;
      t := Strtok(uri, pos, "/");
    }
    assert TokensFrom(uri, pos, "/") == [];
  }

  /** `restapi_create_userio_id`: an enabled pin is a conflict, and a disabled pin is enabled. */
  function CreateOutcome(info: UserIoInfo, reqId: string): (r: (HandlerOutcome, UserIoInfo))
    requires KnownId(reqId)
    ensures r.0 == Conflict <==> AllSet(info.enable, Wide(SelOf(reqId)))
    ensures r.0 != Conflict ==> r.0 == Created
    ensures r.0 == Conflict ==> r.1 == info
    ensures r.0 == Created ==> r.1 == WithEnable(info, SelOf(reqId), IoEnable)
  {
    if GetUserIoEnabled(info, SelOf(reqId)) == IoEnable then (Conflict, info)
    else (Created, WithEnable(info, SelOf(reqId), IoEnable))
  }

  /** `restapi_delete_userio_id`: a disabled pin is not found; an enabled pin is disabled. */
  function DeleteOutcome(info: UserIoInfo, reqId: string): (r: (HandlerOutcome, UserIoInfo))
    requires KnownId(reqId)
    ensures r.0 == NotFound <==> !AllSet(info.enable, Wide(SelOf(reqId)))
    ensures r.0 == NotFound ==> r.1 == info
    ensures r.0 != NotFound ==> r.0 == Done && r.1 == WithEnable(info, SelOf(reqId), IoDisable)
  {
    if GetUserIoEnabled(info, SelOf(reqId)) == IoDisable then (NotFound, info)
    else (Done, WithEnable(info, SelOf(reqId), IoDisable))
  }

  /** Each pin has one bit of its own. */
  lemma PinSelIsOneBit(p: nat, m: bv16)
    requires Board.IsPin(p)
    ensures !AllSet(m, Wide(Board.UserIoSel[p])) <==> m & Wide(Board.UserIoSel[p]) == 0
  {
  }

  /** Enabling pin `p` enables it and leaves every other pin, and every type and direction, as it was. */
  lemma EnablePinEffect(info: UserIoInfo, p: nat, q: nat)
    requires Board.IsPin(p) && Board.IsPin(q)
    ensures var after := WithEnable(info, Board.UserIoSel[p], IoEnable);
      && after.ioType == info.ioType && after.direction == info.direction
      && (q == p ==> AllSet(after.enable, Wide(Board.UserIoSel[q])))
      && (q != p ==> (AllSet(after.enable, Wide(Board.UserIoSel[q])) <==> AllSet(info.enable, Wide(Board.UserIoSel[q]))))
  {
    if q == p {
      EnableQuerySelf(info, Board.UserIoSel[p], IoEnable);
    } else {
      DistinctPinsDisjoint(p, q);
      EnableQueryOther(info, Board.UserIoSel[p], Board.UserIoSel[q], IoEnable);
    }
  }

  /** Creating a pin enables it and leaves every other pin, and every type and direction, as it was. */
  lemma CreateEnablesOnlyThatPin(info: UserIoInfo, reqId: string, q: nat)
    requires KnownId(reqId) && CreateOutcome(info, reqId).0 == Created && Board.IsPin(q)
    ensures var after := CreateOutcome(info, reqId).1;
      && after.ioType == info.ioType && after.direction == info.direction
      && (q == UserioIndex(reqId) ==> AllSet(after.enable, Wide(Board.UserIoSel[q])))
      && (q != UserioIndex(reqId) ==> (AllSet(after.enable, Wide(Board.UserIoSel[q])) <==> AllSet(info.enable, Wide(Board.UserIoSel[q]))))
  {
    EnablePinEffect(info, UserioIndex(reqId), q);
  }

  /** Clearing bits that were all set and setting them again gives the mask back. */
  lemma SetAfterClear(m: bv16, sel: bv16)
    requires m & sel == sel
    ensures SetBits(ClearBits(m, sel), sel) == m
  {
  }

  /** Setting bits that were all clear and clearing them again gives the mask back. */
  lemma ClearAfterSet(m: bv16, sel: bv16)
    requires m & sel == 0
    ensures ClearBits(SetBits(m, sel), sel) == m
  {
  }

  /** Deleting a pin that was just created brings the masks back to what they were. */
  lemma CreateThenDeleteRestores(info: UserIoInfo, reqId: string)
    requires KnownId(reqId) && CreateOutcome(info, reqId).0 == Created
    ensures DeleteOutcome(CreateOutcome(info, reqId).1, reqId) == (Done, info)
  {
    var p := UserioIndex(reqId);
    var sel := Board.UserIoSel[p];
    PinSelIsOneBit(p, info.enable);
    EnableQuerySelf(info, sel, IoEnable);
    ClearAfterSet(info.enable, Wide(sel));
  }

  /** Creating a pin that was just deleted brings the masks back to what they were. */
  lemma DeleteThenCreateRestores(info: UserIoInfo, reqId: string)
    requires KnownId(reqId) && DeleteOutcome(info, reqId).0 == Done
    ensures CreateOutcome(DeleteOutcome(info, reqId).1, reqId) == (Created, info)
  {
    var p := UserioIndex(reqId);
    var sel := Board.UserIoSel[p];
    DistinctPinsDisjoint(p, p);
    EnableQuerySelf(info, sel, IoDisable);
    SetAfterClear(info.enable, Wide(sel));
  }

  /** The handlers of the `userio/:id` rows, which look up `req_resource_ID`. */
  predicate UsesId(h: Handler) {
    h in {ReadUserioId, CreateUserioId, DeleteUserioId, ReadUserioInfo}
  }

  /**
    What the handler of a table row answers, and the pin masks afterwards.
    Only the create and delete handlers change the pin masks; the four
    resource-wide reads always emit a document; "created" and "conflict" come
    only from the create handler; the two update handlers answer "no content".
   */
  function Dispatch(h: Handler, info: UserIoInfo, reqId: string, chip: NetInfo, clock: Clock, hw: PinReading): (r: (HandlerOutcome, UserIoInfo))
    requires chip.Valid() && (UsesId(h) ==> KnownId(reqId))
    ensures h != CreateUserioId && h != DeleteUserioId ==> r.1 == info
    ensures h in {ReadIndex, ReadUptime, ReadNetinfo, ReadUserio} ==> r.0.Emitted?
    ensures r.0 == Created || r.0 == Conflict ==> h == CreateUserioId
    ensures h == UpdateUserioId || h == UpdateUserioInfo ==> r.0 == Done
  {
    match h
    case ReadIndex => (Emitted(ReadIndexBody(chip.ip)), info)
    case ReadUptime => (Emitted(UptimeBody(clock)), info)
    case ReadNetinfo => (Emitted(ReadNetinfoBody(chip)), info)
    case ReadUserio => (Emitted(ReadUserioBody(info)), info)
    case ReadUserioId => (ReadUserioIdOutcome(info, reqId, hw), info)
    case CreateUserioId => CreateOutcome(info, reqId)
    case UpdateUserioId => (Done, info)
    case DeleteUserioId => DeleteOutcome(info, reqId)
    case ReadUserioInfo => (ReadUserioInfoOutcome(info, reqId), info)
    case UpdateUserioInfo => (Done, info)
  }

  // ---------------------------------------------------------------------------
  // The handler state: `req_resource_ID` and the device configuration

  class RestApi {
    /** `req_resource_ID`: the id the last search copied from a `:id` position. */
    var reqResourceId: string
    /** The device configuration record whose pin masks the handlers read and change. */
    const cfg: DevConfig

    constructor (cfg: DevConfig)
      ensures this.cfg == cfg && reqResourceId == []
    {
      this.cfg := cfg;
      reqResourceId := [];
    }

    /**
      `search_http_resources`: the path is copied into `uri_buf[256]` and split
      on `/` into at most four tokens; each table row's path is split the same
      way and compared segment by segment.
     */
    method SearchHttpResources(m: uint8, uri: string) returns (ret: int)
      requires Nul !in uri && |uri| < SearchBufSize && IdFits(uri)
      modifies this`reqResourceId
      ensures (ret, reqResourceId) == SearchOutcome(m, uri, old(reqResourceId))
    {
      var reqToks, tooDeep := SplitPath(uri);
      if reqToks == [] || tooDeep {
        return ErrNotFound;
      }
      UriTableRowsNonEmpty();
      var matched := false;
      var i := 0;
      while i < |UriTable|
        invariant 0 <= i <= |UriTable|
        invariant ScanFrom(UriTable, m, reqToks, i, matched, reqResourceId) == SearchOutcome(m, uri, old(reqResourceId))
        decreases |UriTable| - i
      {
        var count := MatchRow(reqToks, i);
        if |reqToks| == count {
          matched := true;
          if UriTable[i].reqMethod == m {
            return i;
          }
        }
        i := i + 1;
      }
      ret := if matched then ErrNotAllowed else ErrNotFound;
    }

    /** `restapi_create_userio_id` on the id the search recorded. */
    method CreateUserioId() returns (o: HandlerOutcome)
      requires KnownId(reqResourceId)
      modifies cfg`userIo
      ensures (o, cfg.userIo) == CreateOutcome(old(cfg.userIo), reqResourceId)
    {
      var idNum := FindMatchedUserioId(reqResourceId);
      if GetUserIoEnabled(cfg.userIo, Board.UserIoSel[idNum]) == IoEnable {
        return Conflict;
      }
      var _ := SetUserIoEnable(cfg, Board.UserIoSel[idNum], IoEnable);
      o := Created;
    }

    /** `restapi_delete_userio_id` on the id the search recorded. */
    method DeleteUserioId() returns (o: HandlerOutcome)
      requires KnownId(reqResourceId)
      modifies cfg`userIo
      ensures (o, cfg.userIo) == DeleteOutcome(old(cfg.userIo), reqResourceId)
    {
      var idNum := FindMatchedUserioId(reqResourceId);
      if GetUserIoEnabled(cfg.userIo, Board.UserIoSel[idNum]) == IoDisable {
        return NotFound;
      }
      var _ := SetUserIoEnable(cfg, Board.UserIoSel[idNum], IoDisable);
      o := Done;
    }

    /**
      `http_resources_handler`: calls the handler of table row `row`.  The
      inputs stand for what the handlers read from outside: the chip's network
      settings, the uptime clock and the pin's hardware state.
     */
    method HttpResourcesHandler(row: nat, chip: NetInfo, clock: Clock, hw: PinReading) returns (o: HandlerOutcome)
      requires row < |UriTable| && chip.Valid() && (UsesId(UriTable[row].process) ==> KnownId(reqResourceId))
      modifies cfg`userIo
      ensures (o, cfg.userIo) == Dispatch(UriTable[row].process, old(cfg.userIo), reqResourceId, chip, clock, hw)
    {
      match UriTable[row].process
      case CreateUserioId => o := CreateUserioId();
      case DeleteUserioId => o := DeleteUserioId();
      case h => o := Dispatch(h, cfg.userIo, reqResourceId, chip, clock, hw).0;
    }

    /**
      The inner loop of the search for row `i`: the number of leading segments
      matched, or 0 on a mismatch, with the `:id` copies it makes on the way.
     */
    method MatchRow(reqToks: seq<string>, i: nat) returns (count: nat)
      requires 1 <= |reqToks| && i < |UriTable|
      modifies this`reqResourceId
      ensures (count == |reqToks|, reqResourceId) == RowOutcome(reqToks, UriTable[i].segments, old(reqResourceId))
    {
      UriTableTokens(i);
      ghost var ps := UriTable[i].segments;
      var path := UriTable[i].Uri();
      TokensFromStep(path, 0, "/");
      var r := Strtok(path, 0, "/");
      if reqToks[0] != r.value.0 {
        return 0;
      }
      count := 1;
      var rpos := r.value.1;
      var j := 1;
      var tk := Strtok(path, rpos, "/");
      while tk.Some?
        invariant rpos <= |path| && tk == Strtok(path, rpos, "/")
        invariant 1 <= j <= |ps| && count == j
        invariant TokensFrom(path, rpos, "/") == ps[j..]
        invariant SegmentsFrom(reqToks, ps, j, reqResourceId) == SegmentsFrom(reqToks, ps, 1, old(reqResourceId))
        decreases |path| - rpos
      {
        TokensFromStep(path, rpos, "/");
        assert ps[j..] == [tk.value.0] + TokensFrom(path, tk.value.1, "/");
        assert ps[j] == tk.value.0 && ps[j + 1..] == TokensFrom(path, tk.value.1, "/");
        var p := tk.value.0;
        if j < |reqToks| && p == ResourceIdMark {
          if |reqToks[j]| <= MaxResourceIdSize {
            reqResourceId := reqToks[j];
            p := reqToks[j];
          }
        }
        if j >= |reqToks| || reqToks[j] != p {
          return 0;
        }
        count := count + 1;
        rpos := tk.value.1;
        j := j + 1;
        tk := Strtok(path, rpos, "/");
      }
      assert TokensFrom(path, rpos, "/") == [] && j == |ps|;
    }
  }
}
