/**
  The HTTP constants of the parser: method codes and names, status codes with
  their status-line texts, and the MIME table of file extensions.
 */
module HttpTables {
  import opened CTypes
  import opened Wrappers
  import CString

  /** Request methods, one bit each; 0 marks a request that could not be parsed. */
  const MethodErr: uint8 := 0x00
  const MethodGet: uint8 := 0x01
  const MethodHead: uint8 := 0x02
  const MethodPost: uint8 := 0x04
  const MethodPut: uint8 := 0x08
  const MethodDelete: uint8 := 0x10

  /** `method_table`: the registered methods and their (case-sensitive) names. */
  const MethodTable: seq<(uint8, string)> :=
    [(MethodGet, "GET"), (MethodHead, "HEAD"), (MethodPost, "POST"), (MethodPut, "PUT"),
     (MethodDelete, "DELETE")]

  const HttpVersionStr: string := "HTTP/1.1"

  const CodeOk: uint16 := 200
  const CodeCreated: uint16 := 201
  const CodeNoContent: uint16 := 204
  const CodeBadRequest: uint16 := 400
  const CodeForbidden: uint16 := 403
  const CodeNotFound: uint16 := 404
  const CodeNotAllowed: uint16 := 405
  const CodeConflict: uint16 := 409
  const CodeIntServer: uint16 := 500
  const CodeNotImple: uint16 := 501

  const StrOk: string := "200 OK"
  const StrCreated: string := "201 Created"
  const StrNoContent: string := "204 No Content"
  const StrBadRequest: string := "400 Bad Request"
  const StrForbidden: string := "403 Forbidden"
  const StrNotFound: string := "404 Not Found"
  const StrNotAllowed: string := "405 Method Not Allowed"
  const StrConflict: string := "409 Conflict"
  const StrIntServer: string := "500 Internal Server Error"
  const StrNotImple: string := "501 Not Implemented"

  /** `code_table`: the status codes the server can name.  500 has a text but no row. */
  const CodeTable: seq<(uint16, string)> :=
    [(CodeOk, StrOk), (CodeCreated, StrCreated), (CodeNoContent, StrNoContent),
     (CodeBadRequest, StrBadRequest), (CodeForbidden, StrForbidden),
     (CodeNotFound, StrNotFound), (CodeNotAllowed, StrNotAllowed),
     (CodeConflict, StrConflict), (CodeNotImple, StrNotImple)]

  const TypeErr: uint8 := 0
  const TypeHtml: uint8 := 1
  const TypeCss: uint8 := 2
  const TypeJs: uint8 := 3
  const TypeText: uint8 := 4
  const TypeCgi: uint8 := 5
  const TypeXml: uint8 := 6
  const TypeJson: uint8 := 7
  const TypeGif: uint8 := 8
  const TypeJpeg: uint8 := 9
  const TypePng: uint8 := 10
  const TypeFlash: uint8 := 11
  const TypeIco: uint8 := 12
  const TypeTtf: uint8 := 20
  const TypeOtf: uint8 := 21
  const TypeWoff: uint8 := 22
  const TypeEot: uint8 := 23
  const TypeSvg: uint8 := 24

  const StrHtml: string := "text/html"
  const StrCss: string := "text/css"
  const StrJs: string := "application/javascript"
  const StrText: string := "text/plain"
  const StrCgi: string := "text/html"
  const StrXml: string := "text/xml"
  const StrJson: string := "application/json"
  const StrGif: string := "image/gif"
  const StrJpeg: string := "image/jpeg"
  const StrPng: string := "image/png"
  const StrFlash: string := "application/x-shockwave-flash"
  const StrIco: string := "image/x-icon"
  const StrTtf: string := "application/x-font-truetype"
  const StrOtf: string := "application/x-font-opentype"
  const StrWoff: string := "application/font-woff"
  const StrEot: string := "application/vnd.ms-fontobject"
  const StrSvg: string := "image/svg+xml"

  datatype Mime = Mime(mimeType: uint8, ext1: string, ext2: string, typeStr: string)

  /** `mime_table`, in the order `find_http_uri_type` scans it. */
  const MimeTable: seq<Mime> :=
    [Mime(TypeHtml, ".htm", ".html", StrHtml),
     Mime(TypeCss, ".css", ".CSS", StrCss),
     Mime(TypeJs, ".js", ".JS", StrJs),
     Mime(TypeText, ".txt", ".text", StrText),
     Mime(TypeCgi, ".cgi", ".CGI", StrCgi),
     Mime(TypeXml, ".xml", ".XML", StrXml),
     Mime(TypeJson, ".json", ".JSON", StrJson),
     Mime(TypeGif, ".gif", ".GIF", StrGif),
     Mime(TypeJpeg, ".jpg", ".jpeg", StrJpeg),
     Mime(TypePng, ".png", ".PNG", StrPng),
     Mime(TypeFlash, ".swf", ".SWF", StrFlash),
     Mime(TypeIco, ".ico", ".ICO", StrIco),
     Mime(TypeTtf, ".ttf", ".TTF", StrTtf),
     Mime(TypeOtf, ".otf", ".OTF", StrOtf),
     Mime(TypeWoff, ".woff", ".WOFF", StrWoff),
     Mime(TypeEot, ".eot", ".EOT", StrEot),
     Mime(TypeSvg, ".svg", ".SVG", StrSvg)]

  /** The text of the first `code_table` row for `code`, or NULL. */
  function CodeStr(code: uint16): (r: Option<string>)
    ensures r.None? <==> forall k :: 0 <= k < |CodeTable| ==> CodeTable[k].0 != code
    ensures r.Some? ==> exists k :: 0 <= k < |CodeTable| && CodeTable[k] == (code, r.value)
  {
    CodeScan(code, 0)
  }

  function CodeScan(code: uint16, i: nat): (r: Option<string>)
    requires i <= |CodeTable|
    ensures r.None? <==> forall k :: i <= k < |CodeTable| ==> CodeTable[k].0 != code
    ensures r.Some? ==> exists k :: i <= k < |CodeTable| && CodeTable[k] == (code, r.value)
    decreases |CodeTable| - i
  {
    if i == |CodeTable| then None
    else if CodeTable[i].0 == code then Some(CodeTable[i].1)
    else CodeScan(code, i + 1)
  }

  /** The Content-Type string of the first `mime_table` row of type `t`, or NULL. */
  function MimeStr(t: uint8): (r: Option<string>)
    ensures r.None? <==> forall k :: 0 <= k < |MimeTable| ==> MimeTable[k].mimeType != t
    ensures r.Some? ==> exists k :: 0 <= k < |MimeTable| && MimeTable[k].mimeType == t && MimeTable[k].typeStr == r.value
  {
    MimeScan(t, 0)
  }

  function MimeScan(t: uint8, i: nat): (r: Option<string>)
    requires i <= |MimeTable|
    ensures r.None? <==> forall k :: i <= k < |MimeTable| ==> MimeTable[k].mimeType != t
    ensures r.Some? ==> exists k :: i <= k < |MimeTable| && MimeTable[k].mimeType == t && MimeTable[k].typeStr == r.value
    decreases |MimeTable| - i
  {
    if i == |MimeTable| then None
    else if MimeTable[i].mimeType == t then Some(MimeTable[i].typeStr)
    else MimeScan(t, i + 1)
  }
  /** No status text of `code_table` and no MIME string of `mime_table` holds a CR. */
  lemma TableStringsHaveNoCr(t: uint8, status: uint16)
    ensures CodeStr(status).Some? ==> '\r' !in CodeStr(status).value
    ensures MimeStr(t).Some? ==> '\r' !in MimeStr(t).value
  {
    CodeTextsHaveNoCr();
    MimeTextsHaveNoCr();
  }

  lemma CodeTextsHaveNoCr()
    ensures forall k :: 0 <= k < |CodeTable| ==> '\r' !in CodeTable[k].1
  {
    StatusTextsHaveNoCr();
  }

  lemma StatusTextsHaveNoCr()
    ensures '\r' !in StrOk && '\r' !in StrCreated && '\r' !in StrNoContent && '\r' !in StrBadRequest
    ensures '\r' !in StrForbidden && '\r' !in StrNotFound && '\r' !in StrNotAllowed && '\r' !in StrConflict
    ensures '\r' !in StrNotImple
  {
    SuccessTextsHaveNoCr();
    ClientErrorTextsHaveNoCr();
  }

  lemma SuccessTextsHaveNoCr()
    ensures '\r' !in StrOk && '\r' !in StrCreated && '\r' !in StrNoContent && '\r' !in StrNotImple
  {
  }

  lemma ClientErrorTextsHaveNoCr()
    ensures '\r' !in StrBadRequest && '\r' !in StrForbidden && '\r' !in StrNotFound
    ensures '\r' !in StrNotAllowed && '\r' !in StrConflict
  {
  }

  lemma MimeTextsHaveNoCr()
    ensures forall k :: 0 <= k < |MimeTable| ==> '\r' !in MimeTable[k].typeStr
  {
    TextTypesHaveNoCr();
    ImageTypesHaveNoCr();
    FontTypesHaveNoCr();
  }

  lemma TextTypesHaveNoCr()
    ensures '\r' !in StrHtml && '\r' !in StrCss && '\r' !in StrJs && '\r' !in StrText
    ensures '\r' !in StrCgi && '\r' !in StrXml && '\r' !in StrJson
  {
  }

  lemma ImageTypesHaveNoCr()
    ensures '\r' !in StrGif && '\r' !in StrJpeg && '\r' !in StrPng && '\r' !in StrFlash
    ensures '\r' !in StrIco && '\r' !in StrSvg
  {
  }

  lemma FontTypesHaveNoCr()
    ensures '\r' !in StrTtf && '\r' !in StrOtf && '\r' !in StrWoff && '\r' !in StrEot
  {
  }
}
