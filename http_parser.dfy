/**
  The request-side half of the HTTP parser: number conversion (`ATOI`), the
  substring extraction `mid`, the request line, the resource name, the file
  type of a name, form parameters and dotted-quad addresses.
 */
module HttpParser {
  import opened CTypes
  import opened Wrappers
  import opened CString
  import opened UrlCodec
  import opened HttpTables
  import opened HttpResponse

  // ---------------------------------------------------------------------------
  // ATOI

  /** The characters `ATOI` consumes: everything before the first NUL or space. */
  function AtoiRun(s: string): (r: string)
    ensures |r| <= |s| && r == s[..|r|]
    ensures |r| < |s| ==> s[|r|] == Nul || s[|r|] == ' '
    decreases |s|
  {
    if s == [] || s[0] == Nul || s[0] == ' ' then [] else [s[0]] + AtoiRun(s[1..])
  }

  /** Nothing in the run `ATOI` consumes is a terminator. */
  lemma {:induction false} AtoiRunHasNoTerminator(s: string)
    ensures forall k :: 0 <= k < |AtoiRun(s)| ==> s[k] != Nul && s[k] != ' '
    decreases |s|
  {
    if s != [] && s[0] != Nul && s[0] != ' ' {
      AtoiRunHasNoTerminator(s[1..]);
    }
  }

  /** The run ends at the first terminator. */
  lemma {:induction false} AtoiRunEndsAt(s: string, i: nat)
    requires i <= |s|
    requires forall k :: 0 <= k < i ==> s[k] != Nul && s[k] != ' '
    requires i == |s| || s[i] == Nul || s[i] == ' '
    ensures AtoiRun(s) == s[..i]
    decreases i
  {
    if i > 0 {
      AtoiRunEndsAt(s[1..], i - 1);
      assert s[..i] == [s[0]] + s[1..][..i - 1];
    }
  }

  /** The unbounded value of the digits `s` in base `base`, each digit read by `C2D`. */
  function AtoiValue(s: string, base: nat): nat
    decreases |s|
  {
    if s == [] then 0 else AtoiValue(s[..|s| - 1], base) * base + C2D(s[|s| - 1])
  }

  /**
    `ATOI`: the run before the first NUL or space, accumulated in a 32-bit
    `unsigned int` that wraps around, and returned as a `uint16_t`.
   */
  method Atoi(str: string, base: nat) returns (r: uint16)
    ensures r == Trunc16(AtoiValue(AtoiRun(str), base))
  {
    var num: uint32 := 0;
    var i := 0;
    while i < |str| && str[i] != Nul && str[i] != ' '
      invariant 0 <= i <= |str|
      invariant forall k :: 0 <= k < i ==> str[k] != Nul && str[k] != ' '
      invariant num == Trunc32(AtoiValue(str[..i], base))
      decreases |str| - i
    {
      assert str[..i + 1][..i] == str[..i];
      ModMulAdd(AtoiValue(str[..i], base), base, C2D(str[i]), 0x1_0000_0000);
      num := Trunc32(num * base + C2D(str[i]));
      i := i + 1;
    }
    AtoiRunEndsAt(str, i);
    Trunc16OfTrunc32(AtoiValue(str[..i], base));
    r := Trunc16(num);
  }

  /** Reading back a decimal rendering gives the number. */
  lemma {:induction false} AtoiValueOfDecimal(n: nat)
    ensures AtoiValue(Decimal(n), 10) == n
  {
    if n >= 10 {
      AtoiValueOfDecimal(n / 10);
      var s := Decimal(n);
      assert s[..|s| - 1] == Decimal(n / 10);
    }
  }

  /** A decimal rendering has no NUL or space in it, so `ATOI` reads all of it. */
  lemma AtoiRunOfDigits(s: string, rest: string)
    requires forall k :: 0 <= k < |s| ==> '0' <= s[k] <= '9'
    requires rest == [] || rest[0] == Nul || rest[0] == ' '
    ensures AtoiRun(s + rest) == s
  {
    AtoiRunEndsAt(s + rest, |s|);
    assert (s + rest)[..|s|] == s;
  }

  // ---------------------------------------------------------------------------
  // mid

  /**
    `mid`: the text between the first occurrence of `s1` and the first
    occurrence of `s2` after it.  The C dereferences NULL if either is missing,
    so both must occur.
   */
  function Mid(src: string, s1: string, s2: string): (r: string)
    requires Find(src, s1).Some?
    requires Find(src[Find(src, s1).value + |s1|..], s2).Some?
    ensures var a := Find(src, s1).value + |s1|;
      a + |r| <= |src| && r == src[a..a + |r|] && OccursAt(src[a..], s2, |r|)
  {
    var a := Find(src, s1).value + |s1|;
    src[a..a + Find(src[a..], s2).value]
  }

  /**
    `mid` of `head + rest`, where `s1` first occurs at the end of `head`
    and `s2` first occurs at `j` in `rest`: exactly the first `j`
    characters of `rest`.
   */
  lemma MidOfFields(head: string, rest: string, s1: string, s2: string, j: nat)
    requires |s1| <= |head| && Find(head + rest, s1) == Some(|head| - |s1|) && Find(rest, s2) == Some(j)
    ensures Find((head + rest)[|head|..], s2).Some?
    ensures Mid(head + rest, s1, s2) == rest[..j]
  {
    assert (head + rest)[|head|..] == rest;
  }

  // ---------------------------------------------------------------------------
  // find_http_uri_type

  /** A name has the row's file type when either of its extensions occurs anywhere in it. */
  predicate HasExtension(name: string, m: Mime) {
    Find(name, m.ext1).Some? || Find(name, m.ext2).Some?
  }

  /** The type of the first row from `i` on whose extension occurs in the name; `TypeErr` if none. */
  function TypeScan(name: string, table: seq<Mime>, i: nat): uint8
    requires i <= |table|
    decreases |table| - i
  {
    if i == |table| then TypeErr
    else if HasExtension(name, table[i]) then table[i].mimeType
    else TypeScan(name, table, i + 1)
  }

  /** The scan answers the first matching row, or `TypeErr` exactly when no row matches. */
  lemma TypeScanFirstMatch(name: string, table: seq<Mime>, i: nat)
    requires i <= |table|
    requires forall k :: 0 <= k < |table| ==> table[k].mimeType != TypeErr
    ensures TypeScan(name, table, i) == TypeErr <==> forall k :: i <= k < |table| ==> !HasExtension(name, table[k])
    ensures TypeScan(name, table, i) != TypeErr ==>
      exists k :: i <= k < |table| && HasExtension(name, table[k]) && TypeScan(name, table, i) == table[k].mimeType
        && forall j :: i <= j < k ==> !HasExtension(name, table[j])
  {
    TypeScanErr(name, table, i);
    TypeScanHit(name, table, i);
  }

  lemma {:induction false} TypeScanErr(name: string, table: seq<Mime>, i: nat)
    requires i <= |table|
    requires forall k :: 0 <= k < |table| ==> table[k].mimeType != TypeErr
    ensures TypeScan(name, table, i) == TypeErr <==> forall k :: i <= k < |table| ==> !HasExtension(name, table[k])
    decreases |table| - i
  {
    if i < |table| && !HasExtension(name, table[i]) {
      TypeScanErr(name, table, i + 1);
    }
  }

  lemma {:induction false} TypeScanHit(name: string, table: seq<Mime>, i: nat)
    requires i <= |table|
    ensures TypeScan(name, table, i) != TypeErr ==>
      exists k :: i <= k < |table| && HasExtension(name, table[k]) && TypeScan(name, table, i) == table[k].mimeType
        && forall j :: i <= j < k ==> !HasExtension(name, table[j])
    decreases |table| - i
  {
    if i < |table| {
      if HasExtension(name, table[i]) {
        assert HasExtension(name, table[i]) && TypeScan(name, table, i) == table[i].mimeType;
      } else if TypeScan(name, table, i) != TypeErr {
        TypeScanHit(name, table, i + 1);
        var k :| i + 1 <= k < |table| && HasExtension(name, table[k]) && TypeScan(name, table, i + 1) == table[k].mimeType
            && forall j :: i + 1 <= j < k ==> !HasExtension(name, table[j]);
        assert forall j :: i <= j < k ==> !HasExtension(name, table[j]);
      }
    }
  }

  /** `find_http_uri_type`: the type of the first `mime_table` row whose extension occurs in the name. */
  function FindHttpUriType(name: string): (r: uint8)
    ensures r == TypeErr <==> forall k :: 0 <= k < |MimeTable| ==> !HasExtension(name, MimeTable[k])
    ensures r != TypeErr ==>
      exists k :: 0 <= k < |MimeTable| && HasExtension(name, MimeTable[k]) && r == MimeTable[k].mimeType
        && forall j :: 0 <= j < k ==> !HasExtension(name, MimeTable[j])
  {
    MimeTypesSet();
    TypeScanFirstMatch(name, MimeTable, 0);
    TypeScan(name, MimeTable, 0)
  }

  lemma MimeTypesSet()
    ensures forall k :: 0 <= k < |MimeTable| ==> MimeTable[k].mimeType != TypeErr
  {
  }

  /** The scan of a table answers `TypeErr` exactly when none of its rows matches. */
  lemma TypeScanNone(name: string, table: seq<Mime>)
    requires forall k :: 0 <= k < |table| ==> table[k].mimeType != TypeErr
    ensures TypeScan(name, table, 0) == TypeErr <==> forall m :: m in table ==> !HasExtension(name, m)
  {
    TypeScanFirstMatch(name, table, 0);
  }

  /** Every name holding `.json` (or `.JSON`) also holds `.js` (or `.JS`). */
  lemma JsonExtensionHasJs(name: string)
    ensures HasExtension(name, MimeTable[6]) ==> HasExtension(name, MimeTable[2])
  {
    PrefixPatternFound(name, ".json", ".js");
    PrefixPatternFound(name, ".JSON", ".JS");
  }

  /** Wherever a pattern is found, every prefix of it is found too. */
  lemma PrefixPatternFound(s: string, pat: string, pre: string)
    requires pre <= pat
    ensures Find(s, pat).Some? ==> Find(s, pre).Some?
  {
    if Find(s, pat).Some? {
      var k := Find(s, pat).value;
      assert s[k..k + |pre|] == s[k..k + |pat|][..|pre|];
      assert OccursAt(s, pre, k);
    }
  }

  /** As written, `find_http_uri_type` never answers `PTYPE_JSON`: the `.js` row shadows it. */
  lemma FindHttpUriTypeNeverJson(name: string)
    ensures FindHttpUriType(name) != TypeJson
  {
    TypeScanFirstMatch(name, MimeTable, 0);
    JsonExtensionHasJs(name);
  }

  /** The scan with the `.json` row placed before the `.js` row that shadows it. */
  const JsonFirstMimeTable: seq<Mime> := MimeTable[..2] + [MimeTable[6]] + MimeTable[2..6] + MimeTable[7..]

  /** `find_http_uri_type` over the reordered table. */
  function FindHttpUriTypeJsonFirst(name: string): uint8 {
    TypeScan(name, JsonFirstMimeTable, 0)
  }

  /** With the reordered table a `.json` name that is not HTML or CSS is typed `PTYPE_JSON`. */
  lemma JsonFirstTypesJson(name: string)
    requires HasExtension(name, MimeTable[6])
    requires !HasExtension(name, MimeTable[0]) && !HasExtension(name, MimeTable[1])
    ensures FindHttpUriTypeJsonFirst(name) == TypeJson
  {
    assert JsonFirstMimeTable[0] == MimeTable[0] && JsonFirstMimeTable[1] == MimeTable[1];
    assert JsonFirstMimeTable[2] == MimeTable[6] && MimeTable[6].mimeType == TypeJson;
    assert TypeScan(name, JsonFirstMimeTable, 2) == TypeJson;
    assert TypeScan(name, JsonFirstMimeTable, 1) == TypeJson;
  }

  /** The reordering changes no verdict between "typed" and "untyped". */
  lemma JsonFirstSameUntyped(name: string)
    ensures FindHttpUriTypeJsonFirst(name) == TypeErr <==> FindHttpUriType(name) == TypeErr
  {
    SameUntypedScan(name);
  }

  lemma SameUntypedScan(name: string)
    ensures TypeScan(name, JsonFirstMimeTable, 0) == TypeErr <==> TypeScan(name, MimeTable, 0) == TypeErr
  {
    assert MimeTable == MimeTable[..2] + MimeTable[2..6] + [MimeTable[6]] + MimeTable[7..];
    assert forall m :: m in JsonFirstMimeTable <==> m in MimeTable;
    TypeScanNone(name, MimeTable);
    TypeScanNone(name, JsonFirstMimeTable);
  }

  /** `data.json` is typed as JavaScript as written, and as JSON with the reordered table. */
  lemma JsonNameTypedAsJs(name: string)
    requires name == "data.json"
    ensures FindHttpUriType(name) != TypeJson
    ensures FindHttpUriTypeJsonFirst(name) == TypeJson
  {
    FindHttpUriTypeNeverJson(name);
    DataJsonTypedJson(name);
  }

  lemma DataJsonTypedJson(name: string)
    requires name == "data.json"
    ensures FindHttpUriTypeJsonFirst(name) == TypeJson
  {
    NotHtmlNorCss(name);
    assert OccursAt(name, ".json", 4) by { assert name[4..9] == ".json"; }
    JsonFirstTypesJson(name);
  }

  /** A name without `h`, `c` or `C` has neither an HTML nor a CSS extension. */
  lemma NotHtmlNorCss(name: string)
    requires 'h' !in name && 'c' !in name && 'C' !in name
    ensures !HasExtension(name, MimeTable[0]) && !HasExtension(name, MimeTable[1])
  {
    NotFoundWithoutChar(name, ".htm", 'h');
    NotFoundWithoutChar(name, ".html", 'h');
    NotFoundWithoutChar(name, ".css", 'c');
    NotFoundWithoutChar(name, ".CSS", 'C');
  }

  /** A pattern holding a character the text lacks is not found. */
  lemma NotFoundWithoutChar(s: string, pat: string, c: char)
    requires c in pat && c !in s
    ensures Find(s, pat).None?
  {
    var j :| 0 <= j < |pat| && pat[j] == c;
    forall k: nat
      ensures !OccursAt(s, pat, k)
    {
      if k + |pat| <= |s| {
        assert s[k..k + |pat|][j] == s[k + j] != c;
      }
    }
  }

  // ---------------------------------------------------------------------------
  // parse_http_request

  const MaxUriSize: nat := 512

  /** The method code of a request-line token: an exact, case-sensitive comparison with each name. */
  function MethodCode(tok: string): (m: uint8)
    ensures m != MethodErr ==> (m, tok) in MethodTable
    ensures m == MethodErr ==> forall k :: 0 <= k < |MethodTable| ==> MethodTable[k].1 != tok
  {
    if tok == "GET" then MethodGet
    else if tok == "HEAD" then MethodHead
    else if tok == "POST" then MethodPost
    else if tok == "PUT" then MethodPut
    else if tok == "DELETE" then MethodDelete
    else MethodErr
  }

  /** What `parse_http_request` stores: the method, and the URI text it copies (`None`: `URI` is left as it was). */
  datatype RequestLine = RequestLine(code: uint8, uri: Option<string>)

  /**
    The request as `parse_http_request` reads it from the NUL-terminated text
    `s`: the first space-delimited token names the method; GET and HEAD take
    the next space-delimited token as the URI, POST, PUT and DELETE the whole
    remainder (`strtok` with an empty delimiter set); an unknown method keeps
    its own token as the URI.
   */
  function ParsedRequest(s: string): (r: RequestLine)
    ensures r.code != MethodErr ==> Strtok(s, 0, " ").Some? && (r.code, Strtok(s, 0, " ").value.0) in MethodTable
    ensures r.code != MethodErr ==> r.uri.Some?
    ensures r.uri.Some? ==> |r.uri.value| > 0 && Strtok(s, 0, " ").Some?
  {
    var first := Strtok(s, 0, " ");
    if first.None? then RequestLine(MethodErr, None)
    else
      var tok, next := first.value.0, first.value.1;
      var m := MethodCode(tok);
      var uriTok :=
        if m == MethodGet || m == MethodHead then Strtok(s, next, " ")
        else if m != MethodErr then Strtok(s, next, "")
        else first;
      if uriTok.None? then RequestLine(MethodErr, None)
      else RequestLine(m, Some(uriTok.value.0))
  }

  /** The URI `parse_http_request` copies fits `URI[MAX_URI_SIZE]` (`strcpy` overflows it otherwise). */
  predicate UriFits(s: string) {
    ParsedRequest(s).uri.Some? ==> |ParsedRequest(s).uri.value| < MaxUriSize
  }

  /** The parsed request (`st_http_request`): method, file type and URI. */
  class HttpRequest {
    var reqMethod: uint8
    var reqType: uint8
    var uri: string

    /** The zero-initialised static request buffer. */
    constructor ()
      ensures reqMethod == MethodErr && reqType == TypeErr && uri == []
    {
      reqMethod, reqType, uri := MethodErr, TypeErr, [];
    }

    /** `parse_http_request` on the received text `buf` (up to its first NUL). */
    method ParseHttpRequest(buf: string)
      requires UriFits(CStr(buf))
      modifies this
      ensures reqMethod == ParsedRequest(CStr(buf)).code
      ensures uri == (if ParsedRequest(CStr(buf)).uri.Some? then ParsedRequest(CStr(buf)).uri.value else old(uri))
      ensures reqType == old(reqType)
    {
      var s := CStr(buf);
      var nexttok := Strtok(s, 0, " ");
      if nexttok.None? {
        reqMethod := MethodErr;
        return;
      }
      var tok, saved := nexttok.value.0, nexttok.value.1;
      if tok == "GET" {
        reqMethod := MethodGet;
        nexttok := Strtok(s, saved, " ");
      } else if tok == "HEAD" {
        reqMethod := MethodHead;
        nexttok := Strtok(s, saved, " ");
      } else if tok == "POST" {
        reqMethod := MethodPost;
        nexttok := Strtok(s, saved, "");
      } else if tok == "PUT" {
        reqMethod := MethodPut;
        nexttok := Strtok(s, saved, "");
      } else if tok == "DELETE" {
        reqMethod := MethodDelete;
        nexttok := Strtok(s, saved, "");
      } else {
        reqMethod := MethodErr;
      }
      if nexttok.None? {
        reqMethod := MethodErr;
        return;
      }
      uri := nexttok.value.0;
    }
  }

  /** A request with no token at all is an error and sets no URI. */
  lemma BlankRequest(s: string)
    requires forall k :: 0 <= k < |s| ==> s[k] == ' '
    ensures ParsedRequest(s) == RequestLine(MethodErr, None)
  {
  }

  /** A method is recognised only by its exact name, and then its code is the one `method_table` gives the name. */
  lemma MethodOnlyByExactName(s: string)
    ensures ParsedRequest(s).code != MethodErr ==>
      && Strtok(s, 0, " ").Some?
      && (ParsedRequest(s).code, Strtok(s, 0, " ").value.0) in MethodTable
  {
  }

  /** `GET path ...` and `HEAD path ...`: the URI is the second space-delimited token. */
  lemma GetRequestLine(name: string, path: string, rest: string)
    requires name == "GET" || name == "HEAD"
    requires IsToken(path, " ") && (rest == [] || rest[0] == ' ')
    ensures ParsedRequest(name + " " + path + rest) == RequestLine(MethodCode(name), Some(path))
  {
    var s := name + " " + path + rest;
    LeadingMethodToken(name, path + rest);
    assert s == (name + " ") + (path + rest);
    StrtokLeadingToken(path, rest, " ");
    StrtokShift(name + " ", path + rest, 0, " ");
  }

  /** The first `strtok` of `name rest` returns the method name and continues after the space. */
  lemma LeadingMethodToken(name: string, rest: string)
    requires name == "GET" || name == "HEAD" || name == "POST" || name == "PUT" || name == "DELETE"
    ensures Strtok(name + " " + rest, 0, " ") == Some((name, |name| + 1))
  {
    assert IsToken(name, " ");
    assert name + " " + rest == name + (" " + rest);
    StrtokLeadingToken(name, " " + rest, " ");
  }

  /** `POST rest`, `PUT rest` and `DELETE rest`: the URI is everything after the first space. */
  lemma BodyRequestLine(name: string, rest: string)
    requires name == "POST" || name == "PUT" || name == "DELETE"
    requires rest != []
    ensures ParsedRequest(name + " " + rest) == RequestLine(MethodCode(name), Some(rest))
  {
    var s := name + " " + rest;
    LeadingMethodToken(name, rest);
    StrtokNoDelims(s, |name| + 1);
    assert s[|name| + 1..] == rest;
  }

  /** An unknown (or differently cased) method is an error, and its own token becomes the URI. */
  lemma UnknownMethodRequestLine(tok: string, rest: string)
    requires IsToken(tok, " ") && MethodCode(tok) == MethodErr
    requires rest == [] || rest[0] == ' '
    ensures ParsedRequest(tok + rest) == RequestLine(MethodErr, Some(tok))
  {
    StrtokLeadingToken(tok, rest, " ");
  }

  /** `GET` followed by nothing but spaces names no URI: an error. */
  lemma GetWithoutUri(name: string, spaces: string)
    requires name == "GET" || name == "HEAD" || name == "POST" || name == "PUT" || name == "DELETE"
    requires forall k :: 0 <= k < |spaces| ==> spaces[k] == ' '
    requires |spaces| <= 1 || name == "GET" || name == "HEAD"
    ensures ParsedRequest(name + spaces) == RequestLine(MethodErr, None)
  {
    var s := name + spaces;
    assert IsToken(name, " ");
    StrtokLeadingToken(name, spaces, " ");
    var next := if spaces == [] then |name| else |name| + 1;
    if name == "GET" || name == "HEAD" {
      assert forall k :: next <= k < |s| ==> s[k] in " ";
    } else {
      StrtokNoDelims(s, next);
    }
  }

  // ---------------------------------------------------------------------------
  // get_http_uri_name

  /**
    The resource name `get_http_uri_name` extracts: the text before the first
    space or `?`, without its first character (the leading `/`), except that
    `/` alone stays `/`.  `strtok` finding no token leaves `strcmp` a NULL
    pointer, so there must be one.
   */
  function UriName(uri: string): (r: string)
    requires Strtok(uri, 0, " ?").Some?
  {
    var tok := Strtok(uri, 0, " ?").value.0;
    if tok == "/" then tok else tok[1..]
  }

  /** A path `/name` followed by a space or a query gives `name`, and the bare `/` gives `/`. */
  lemma UriNameOfPath(name: string, rest: string)
    requires name == [] || IsToken(name, " ?")
    requires rest == [] || rest[0] in " ?"
    ensures Strtok("/" + name + rest, 0, " ?").Some?
    ensures UriName("/" + name + rest) == if name == [] then "/" else name
  {
    var tok := "/" + name;
    assert IsToken(tok, " ?");
    assert "/" + name + rest == tok + rest;
    StrtokLeadingToken(tok, rest, " ?");
    assert tok[1..] == name;
  }

  /**
    `get_http_uri_name`: copies `uri` into `uriBuf`, cuts it at the first
    space or `?` with `strtok`, and copies the name down to the front of the
    buffer (a forward, overlapping copy).
   */
  method GetHttpUriName(uri: string, uriBuf: array<char>)
    requires Nul !in uri && |uri| < uriBuf.Length
    requires Strtok(uri, 0, " ?").Some?
    modifies uriBuf
    ensures |UriName(uri)| < uriBuf.Length
    ensures uriBuf[..|UriName(uri)|] == UriName(uri) && uriBuf[|UriName(uri)|] == Nul
    ensures uriBuf[|uri| + 1..] == old(uriBuf[|uri| + 1..])
  {
    StrCpy(uriBuf, uri);
    // strtok(uri_buf, " ?") ends the token with a NUL
    var start := SkipDelims(uri, 0, " ?");
    var end := TokenEnd(uri, start, " ?");
    UriNameSlice(uri, start, end);
    ghost var name := UriName(uri);
    assert uriBuf[..end] == uri[..end];
    if end < |uri| {
      uriBuf[end] := Nul;
    }
    assert uriBuf[..end] == uri[..end] && uriBuf[end] == Nul;
    var p := if uri[start..end] == "/" then start else start + 1;
    assert uriBuf[p..end] == uri[p..end] == name by {
      assert uriBuf[p..end] == uriBuf[..end][p..];
      assert uri[p..end] == uri[..end][p..];
    }
    assert forall k :: p <= k < end ==> uriBuf[k] != Nul by {
      forall k | p <= k < end ensures uriBuf[k] != Nul {
        assert uriBuf[k] == uriBuf[..end][k] == uri[k];
      }
    }
    ghost var tail := uriBuf[|uri| + 1..];
    assert tail == old(uriBuf[|uri| + 1..]);
    // strcpy(uri_buf, uri_ptr)
    StrCpyDown(uriBuf, p, end);
    assert |name| == end - p;
    assert uriBuf[|uri| + 1..] == uriBuf[end - p + 1..][|uri| - (end - p)..];
  }

  /** Where the name lies in `uri`: between the token start (or one past it) and the token end. */
  lemma UriNameSlice(uri: string, start: nat, end: nat)
    requires Strtok(uri, 0, " ?").Some?
    requires start == SkipDelims(uri, 0, " ?") && end == TokenEnd(uri, start, " ?")
    ensures start < end <= |uri|
    ensures UriName(uri) == uri[if uri[start..end] == "/" then start else start + 1..end]
  {
  }

  // ---------------------------------------------------------------------------
  // get_http_param_value

  const BufPubSize: nat := 512

  /**
    The request has what `get_http_param_value` dereferences: a Content-Length
    line ended by CRLF with a value that fits `tmp_buf[10]`, and a blank line
    in front of the body.
   */
  predicate HasBody(uri: string) {
    && Find(uri, HeaderLen).Some?
    && Find(uri[Find(uri, HeaderLen).value + |HeaderLen|..], Crlf).Some?
    && |Mid(uri, HeaderLen, Crlf)| < 10
    && Find(uri, Crlf + Crlf).Some?
  }

  /** The Content-Length value, read by `ATOI` into a `uint16_t`. */
  function ContentLength(uri: string): uint16
    requires HasBody(uri)
  {
    Trunc16(AtoiValue(AtoiRun(Mid(uri, HeaderLen, Crlf)), 10))
  }

  /**
    The body: the text after the first blank line, cut to Content-Length
    characters by the NUL the C writes there.
   */
  function RequestBody(uri: string): (b: string)
    requires HasBody(uri)
    ensures |b| <= ContentLength(uri)
    ensures b <= uri[Find(uri, Crlf + Crlf).value + 4..]
    ensures |b| < |uri[Find(uri, Crlf + Crlf).value + 4..]| ==> |b| == ContentLength(uri)
  {
    var rest := uri[Find(uri, Crlf + Crlf).value + 4..];
    if ContentLength(uri) < |rest| then rest[..ContentLength(uri)] else rest
  }

  /** The C steps over the name and the character after it, which must lie inside the body. */
  predicate NameInside(body: string, param: string) {
    Find(body, param).Some? ==> Find(body, param).value + |param| < |body|
  }

  /**
    The raw value of `param`: from one character past the first occurrence of
    the name up to the next `&` or the end of the body; None when the name
    does not occur.
   */
  function RawParamValue(body: string, param: string): (v: Option<string>)
    requires NameInside(body, param)
    ensures v.None? <==> Find(body, param).None?
    ensures v.Some? ==> v.value <= body[Find(body, param).value + |param| + 1..]
  {
    match Find(body, param)
    case None => None
    case Some(i) =>
      var rest := body[i + |param| + 1..];
      match Find(rest, "&")
      case None => Some(rest)
      case Some(j) => Some(rest[..j])
  }

  /** The raw value stops before the first `&`, so it holds none. */
  lemma RawParamValueHasNoAmpersand(body: string, param: string)
    requires NameInside(body, param) && RawParamValue(body, param).Some?
    ensures '&' !in RawParamValue(body, param).value
  {
    var rest := body[Find(body, param).value + |param| + 1..];
    var v := RawParamValue(body, param).value;
    forall k | 0 <= k < |v|
      ensures v[k] != '&'
    {
      assert v[k] == rest[k];
      assert !OccursAt(rest, "&", k) && rest[k..k + 1] == [rest[k]];
    }
  }

  /** What `get_http_param_value` needs of its inputs beyond the C types. */
  predicate ParamRequestOk(uri: string, param: string) {
    && Nul !in uri
    && HasBody(uri)
    && NameInside(RequestBody(uri), param)
    && (RawParamValue(RequestBody(uri), param).Some? ==>
          |RawParamValue(RequestBody(uri), param).value| < BufPubSize
          && WellEscaped(RawParamValue(RequestBody(uri), param).value))
  }

  /** The decoded value of `param` in the body, or None when the name does not occur. */
  function ParamValue(uri: string, param: string): (v: Option<string>)
    requires ParamRequestOk(uri, param)
    ensures v.Some? ==> |v.value| < BufPubSize
  {
    match RawParamValue(RequestBody(uri), param)
    case None => None
    case Some(raw) => Some(FormDecoded(raw))
  }

  /**
    `get_http_param_value`, with the two decoding steps in the order form
    encoding requires (the C decodes escapes before it turns '+' into a space,
    see `FormDecodedAsWritten`): the decoded value is left NUL-terminated in
    `bufPub`, and the result says whether the name occurred.
   */
  method GetHttpParamValue(uri: string, param: string, bufPub: array<char>) returns (found: bool)
    requires ParamRequestOk(uri, param) && bufPub.Length == BufPubSize
    modifies bufPub
    ensures found <==> ParamValue(uri, param).Some?
    ensures found ==> var v := ParamValue(uri, param).value;
      bufPub[..|v|] == v && bufPub[|v|] == Nul
  {
    var body := RequestBody(uri);
    var raw := RawParamValue(body, param);
    if raw.None? {
      return false;
    }
    var v := raw.value;
    RawValueHasNoNul(uri, param);
    if |v| > 0 {
      StrCpy(bufPub, v);
      ReplaceToChar(bufPub, |v|, '+', ' ');
      ghost var r := Replaced(v, '+', ' ');
      assert bufPub[..|v|] == r;
      assert bufPub[|v|] == Nul;
      forall k | 0 <= k < |v|
        ensures bufPub[k] != Nul
      {
        assert bufPub[k] == r[k];
      }
      WellEscapedFromReplaced(v, '+', ' ', 0);
      assert WellEscaped(bufPub[..|v|]);
      UnescapeHttpUrl(bufPub, |v|);
    } else {
      bufPub[0] := Nul;
    }
    return true;
  }

  /** The raw value is a slice of the request, so it holds no NUL either. */
  lemma RawValueHasNoNul(uri: string, param: string)
    requires ParamRequestOk(uri, param)
    ensures RawParamValue(RequestBody(uri), param).Some? ==> Nul !in RawParamValue(RequestBody(uri), param).value
  {
    var body := RequestBody(uri);
    SliceHasNoNul(uri, Find(uri, Crlf + Crlf).value + 4, body);
    if RawParamValue(body, param).Some? {
      SliceHasNoNul(body, Find(body, param).value + |param| + 1, RawParamValue(body, param).value);
    }
  }

  /** A prefix of a suffix of a NUL-free string is NUL-free. */
  lemma SliceHasNoNul(s: string, i: nat, v: string)
    requires i <= |s| && v <= s[i..] && Nul !in s
    ensures Nul !in v
  {
    forall k | 0 <= k < |v|
      ensures v[k] != Nul
    {
      assert v[k] == s[i..][k] == s[i + k];
    }
  }

  /**
    A field `param=value` at the first occurrence of the name, ended by `&`
    or by the end of the body, gives back exactly the value.
   */
  lemma RawParamValueOfField(pre: string, param: string, v: string, tail: string)
    requires Find(pre + param, param) == Some(|pre|)
    requires '&' !in v && (tail == [] || tail[0] == '&')
    ensures var body := pre + param + "=" + v + tail;
      NameInside(body, param) && RawParamValue(body, param) == Some(v)
  {
    var body := pre + param + "=" + v + tail;
    assert body == (pre + param) + ("=" + v + tail);
    FindExtends(pre + param, param, "=" + v + tail);
    var rest := body[|pre| + |param| + 1..];
    assert rest == v + tail;
    forall k: nat | k < |v|
      ensures !OccursAt(rest, "&", k)
    {
      assert rest[k..k + 1] == [v[k]];
    }
    if tail == [] {
      assert rest == v;
      assert forall k: nat :: !OccursAt(rest, "&", k);
    } else {
      assert OccursAt(rest, "&", |v|) by {
        assert rest[|v|..|v| + 1] == [tail[0]];
      }
      FindFromUnique(rest, "&", 0, |v|);
      assert rest[..|v|] == v;
    }
  }

  /** A client that percent-encodes every byte of a value gets that value back. */
  lemma FormValueRoundTrip(s: string)
    requires IsBytes(s)
    ensures '&' !in PercentEncoded(s)
    ensures WellEscaped(PercentEncoded(s)) && FormDecoded(PercentEncoded(s)) == s
  {
    FormDecodedPercentEncoded(s);
    PercentEncodedHasNoAmpersand(s);
  }

  lemma {:induction false} PercentEncodedHasNoAmpersand(s: string)
    requires IsBytes(s)
    ensures '&' !in PercentEncoded(s)
  {
    if s != [] {
      var b := s[0] as int;
      PercentEncodedHasNoAmpersand(s[1..]);
      assert PercentEncoded(s) == ['%', HexUpper(b / 16), HexUpper(b % 16)] + PercentEncoded(s[1..]);
    }
  }

  // ---------------------------------------------------------------------------
  // inet_addr_

  predicate HexPrefixed(tok: string) {
    |tok| >= 2 && tok[0] == '0' && tok[1] == 'x'
  }

  /** One `.`-separated part: hexadecimal after a `0x` prefix, decimal otherwise, stored in a `uint8_t`. */
  function Octet(tok: string): (r: uint8)
    ensures HexPrefixed(tok) ==> r == AtoiValue(AtoiRun(tok[2..]), 16) % 0x100
    ensures !HexPrefixed(tok) ==> r == AtoiValue(AtoiRun(tok), 10) % 0x100
  {
    Trunc8OfTrunc16(AtoiValue(AtoiRun(if HexPrefixed(tok) then tok[2..] else tok), if HexPrefixed(tok) then 16 else 10));
    if HexPrefixed(tok) then Trunc8(Trunc16(AtoiValue(AtoiRun(tok[2..]), 16)))
    else Trunc8(Trunc16(AtoiValue(AtoiRun(tok), 10)))
  }

  /** The four address bytes: the first four `strtok` tokens of the text, each read as an octet. */
  function InetOctets(addr: string): (r: seq<uint8>)
    requires |Tokens(addr, ".")| >= 4
    ensures |r| == 4 && forall k :: 0 <= k < 4 ==> r[k] == Octet(Tokens(addr, ".")[k])
  {
    var ts := Tokens(addr, ".");
    [Octet(ts[0]), Octet(ts[1]), Octet(ts[2]), Octet(ts[3])]
  }

  /**
    `inet_addr_`: the address is copied into `taddr[30]` and cut into four
    tokens with `strtok`; each is converted and stored in `ip`.  Fewer than
    four tokens would hand NULL to the conversion, so four must be there.
   */
  method InetAddr(addr: string, ip: array<uint8>)
    requires Nul !in addr && |addr| < 30 && ip.Length >= 4
    requires |Tokens(addr, ".")| >= 4
    modifies ip
    ensures ip[..4] == InetOctets(addr)
    ensures forall k :: 4 <= k < ip.Length ==> ip[k] == old(ip[k])
  {
    ghost var ts := Tokens(addr, ".");
    var pos: nat := 0;
    var i := 0;
    while i < 4
      invariant 0 <= i <= 4 && pos <= |addr|
      invariant TokensFrom(addr, pos, ".") == ts[i..]
      invariant forall k :: 0 <= k < i ==> ip[k] == Octet(ts[k])
      invariant forall k :: 4 <= k < ip.Length ==> ip[k] == old(ip[k])
    {
      TokensFromStep(addr, pos, ".");
      var t := Strtok(addr, pos, ".");
      ghost var later := TokensFrom(addr, t.value.1, ".");
      assert ts[i..] == [t.value.0] + later;
      assert ts[i] == t.value.0 && later == ts[i..][1..] == ts[i + 1..];
      var tok := t.value.0;
      var num := ReadOctet(tok);
      ip[i] := num;
      pos := t.value.1;
      i := i + 1;
    }
    InetOctetsPointwise(addr, ip[..4]);
  }

  /** Four bytes that agree with the octets one by one are the octets. */
  lemma InetOctetsPointwise(addr: string, ip: seq<uint8>)
    requires |Tokens(addr, ".")| >= 4
    requires |ip| == 4 && forall k :: 0 <= k < 4 ==> ip[k] == Octet(Tokens(addr, ".")[k])
    ensures ip == InetOctets(addr)
  {
  }

  /** The conversion `inet_addr_` applies to one token. */
  method ReadOctet(tok: string) returns (b: uint8)
    ensures b == Octet(tok)
  {
    var num: uint16;
    if HexPrefixed(tok) {
      num := Atoi(tok[2..], 16);
    } else {
      num := Atoi(tok, 10);
    }
    b := Trunc8(num);
  }

  /** An address rendered as four decimal octets joined by dots reads back as those octets. */
  lemma InetOctetsOfDottedDecimal(o: seq<uint8>)
    requires |o| == 4
    ensures var addr := Join([Decimal(o[0]), Decimal(o[1]), Decimal(o[2]), Decimal(o[3])], '.');
      |Tokens(addr, ".")| >= 4 && InetOctets(addr) == o
  {
    var ts := [Decimal(o[0]), Decimal(o[1]), Decimal(o[2]), Decimal(o[3])];
    forall k | 0 <= k < 4
      ensures IsToken(ts[k], ".") && Octet(ts[k]) == o[k]
    {
      OctetOfDecimal(o[k]);
    }
    TokensOfJoin(ts, '.', ".");
  }

  /** A decimal rendering of a byte is read back as that byte. */
  lemma OctetOfDecimal(n: uint8)
    ensures IsToken(Decimal(n), ".") && Octet(Decimal(n)) == n
  {
    var s := Decimal(n);
    assert s + [] == s;
    AtoiRunOfDigits(s, []);
    AtoiValueOfDecimal(n);
    assert !HexPrefixed(s) by {
      if |s| >= 2 {
        assert '0' <= s[1] <= '9';
      }
    }
  }

  /** A `0x` rendering of a byte with two hex digits is read back as that byte. */
  lemma OctetOfHex(n: uint8)
    ensures IsToken("0x" + HexByte(n), ".") && Octet("0x" + HexByte(n)) == n
  {
    var h := HexByte(n);
    var tok := "0x" + h;
    assert HexPrefixed(tok) && tok[2..] == h;
    AtoiRunEndsAt(h, 2);
    assert h[..2] == h && h[..1] == [h[0]] && h[..1][..0] == [];
    assert AtoiValue(h[..1], 16) == C2D(h[0]);
    assert AtoiValue(h, 16) == C2D(h[0]) * 16 + C2D(h[1]);
    C2DInvertsHexDigits(n / 16);
    C2DInvertsHexDigits(n % 16);
  }
}
