# W7500 REST HTTP server, modelled in Dafny

This project models the REST web server firmware of the WIZnet W7500
(WIZwiki-W7500eco) board and proves properties of that model. The server
receives an HTTP request on one of its hardware sockets, parses the request
line, and looks the path up in a constant resource table. It then runs that
row's handler and answers with a JSON document and a status line. The
handlers read the device state: the uptime counter, the network settings
and four user I/O pins. The create and delete handlers change a pin's
enable bit.

The modules follow the firmware's source files:

| module | file | what it holds |
|---|---|---|
| `CTypes`, `Wrappers`, `CString`, `Board` | — | C integer widths with explicit truncation, `Option`, C strings (`strtok`, `strstr`, `strcpy` as functions and array methods), the pin constants of the board header |
| `HttpTables` | `httpParser_rest.c` | `method_table`, `code_table`, `mime_table` and their lookups |
| `HttpResponse` | `httpParser_rest.c` | `make_http_response_header` |
| `UrlCodec` | `httpParser_rest.c` | `C2D`, `unescape_http_url`, `replacetochar`, form decoding |
| `HttpParser` | `httpParser_rest.c` | `ATOI`, `mid`, `find_http_uri_type`, `parse_http_request`, `get_http_uri_name`, `get_http_param_value`, `inet_addr_` |
| `RestApiHandler` | `RESTapiHandler.c` | `uri_table`, `search_http_resources`, the `restapi_*` handlers, `find_matched_userio_id`, `make_http_response_error_message`, `http_resources_handler` |
| `HttpServer` | `httpServer_rest.c` | `http_process_handler`, the socket state switch of `httpServer_run`, the round-robin socket choice, `httpServer_init` |
| `GpioHandler` | `gpioHandler.c` | the enable, type and direction masks and their setters and getters, the value guards, `get_user_io_bitorder` |
| `TimerHandler` | `timerHandler.c` | the counters of `Timer_IRQ_Handler` and the uptime getters |
| `ConfigData` | `ConfigData.c` | the `DevConfig` record, factory values, the `wiz_NetInfo` round trip |

The model uses these representation choices:

- **Strings.** C strings are Dafny strings of characters below 256. The C
  buffer's content is the text before the first NUL (`CString.CStr`).
- **Buffer operations.** Operations that rewrite a buffer in place are
  methods on a `char` array. Each is proved against a function on the text:
  `unescape_http_url` against `Unescaped`, `replacetochar` against
  `Replaced`, and `get_http_uri_name` against `UriName`.
- **`strtok`.** It is a function of the text and the saved position.
- **Stateful objects.** The request (`HttpRequest`), `req_resource_ID` and
  the configuration record (`RestApi`, `DevConfig`), the uptime counters
  (`Uptime`) and the per-socket table (`HttpServer`) are classes whose
  methods update their fields.
- **JSON documents.** A document is a value of the datatype `Body`.
- **Outside inputs.** The length `json_emit` gives a document, the ADC and
  GPIO readings, the chip's network settings and the socket status the chip
  reports are inputs of the operations that use them.

## Model

| member | source | states |
|---|---|---|
| CTypes.Trunc8 | Projects/HTTP_Server_RESTAPI/src/HTTPServer/httpParser_rest.c:346-348 | assignment to the `uint8_t` octet `num` keeps every value below 2^8 and leaves a result below 2^8 that differs from the value by a multiple of 2^8 |
| CTypes.Trunc16 | Projects/HTTP_Server_RESTAPI/src/HTTPServer/httpParser_rest.c:358-369 | assignment to a `uint16_t` keeps every value below 2^16 |
| CTypes.Trunc32 | Projects/HTTP_Server_RESTAPI/src/PlatformHandler/timerHandler.c:77-81 | the `uint32_t` hour counter `hour_cnt` keeps every value below 2^32 and otherwise drops a multiple of 2^32 |
| CTypes.Int8 | Projects/HTTP_Server_RESTAPI/src/HTTPServer/httpServer_rest.c:549-560 | a byte read as `int8_t` is negative exactly when its top bit is set, and otherwise equals itself |
| CString.StrtokResult | Projects/HTTP_Server_RESTAPI/src/HTTPServer/httpParser_rest.c:182-228 | every token `strtok` returns lies in the text after a run of delimiters only, ends at a delimiter or at the end of the text, and the saved position is just past that delimiter |
| CString.Strtok | Projects/HTTP_Server_RESTAPI/src/HTTPServer/httpParser_rest.c:182-228 | `strtok` from a saved position: no token exactly when only delimiters remain; otherwise a non-empty token free of delimiters and a saved position past the start and within the text |
| CString.TokensOfJoin | Projects/HTTP_Server_RESTAPI/src/HTTPServer/RESTapiHandler.c:96-121 | splitting tokens joined by a delimiter gives the tokens back |
| CString.FindFrom | Projects/HTTP_Server_RESTAPI/src/HTTPServer/httpParser_rest.c:379-392 | `strstr` from a position: the first occurrence at or after it, or none if there is none |
| CString.Find | Projects/HTTP_Server_RESTAPI/src/HTTPServer/httpParser_rest.c:140-161 | `strstr`: the least position where the pattern occurs, or none when it occurs nowhere |
| CString.FindExtends | Projects/HTTP_Server_RESTAPI/src/HTTPServer/httpParser_rest.c:379-392 | appending text does not move a first occurrence already found |
| CString.CStr | Projects/HTTP_Server_RESTAPI/src/HTTPServer/httpParser_rest.c:167-249 | the C string of a buffer is its prefix up to the first NUL and holds no NUL |
| CString.StrCpy | Projects/HTTP_Server_RESTAPI/src/HTTPServer/httpParser_rest.c:313-330 | `strcpy` writes the text and its NUL and leaves the rest of the buffer unchanged |
| CString.StrCpyDown | Projects/HTTP_Server_RESTAPI/src/HTTPServer/httpParser_rest.c:322-323 | the overlapping `strcpy(uri_buf, uri_buf + 1)` moves the string one place down, NUL included, and leaves every byte past the old NUL unchanged |
| HttpTables.CodeStr | Projects/HTTP_Server_RESTAPI/src/HTTPServer/httpParser_rest.c:106-115 | the status text is the first `code_table` row of the code, and NULL exactly when no row has it |
| HttpTables.MimeStr | Projects/HTTP_Server_RESTAPI/src/HTTPServer/httpParser_rest.c:117-126 | the content type is the first `mime_table` row of the type, and NULL exactly when no row has it |
| HttpTables.TableStringsHaveNoCr | Projects/HTTP_Server_RESTAPI/src/HTTPServer/httpParser_rest.c:27-63 | no status text and no MIME string holds a CR, so none can end a header line early |
| HttpResponse.FormatD | Projects/HTTP_Server_RESTAPI/src/HTTPServer/httpParser_rest.c:129-133 | `%d` of a `uint32_t` length is its decimal below 2^31 and a negative decimal above |
| HttpResponse.MakeHttpResponseHeader | Projects/HTTP_Server_RESTAPI/src/HTTPServer/httpParser_rest.c:93-134 | the header begins with the status line `HTTP/1.1 <code text>` |
| HttpResponse.HeaderEndsAtFirstBlankLine | Projects/HTTP_Server_RESTAPI/src/HTTPServer/httpParser_rest.c:129-133 | the header's first blank line is its last four characters, so its four lines are all header |
| HttpResponse.ResponseHeaderEndsAtFirstBlankLine | Projects/HTTP_Server_RESTAPI/src/HTTPServer/httpParser_rest.c:129-133 | for any CR-free status text and content type, the composed header ends at its first CRLF CRLF |
| HttpResponse.BlankLineEndsLines | Projects/HTTP_Server_RESTAPI/src/HTTPServer/httpParser_rest.c:129-133 | CRLF-terminated lines without CR, followed by CRLF, have their first blank line at the end |
| UrlCodec.C2D | Projects/HTTP_Server_RESTAPI/src/HTTPServer/httpParser_rest.c:418-430 | a hex digit of either case maps to 0..15, and any other byte is returned unchanged |
| UrlCodec.C2DInvertsHexDigits | Projects/HTTP_Server_RESTAPI/src/HTTPServer/httpParser_rest.c:418-430 | `C2D` inverts upper-case and lower-case hex digits |
| UrlCodec.UnescapeHttpUrl | Projects/HTTP_Server_RESTAPI/src/HTTPServer/httpParser_rest.c:74-87 | the buffer holds the percent-decoding of its string, NUL-terminated, never longer than the input; the bytes after the input are untouched |
| UrlCodec.Unescaped | Projects/HTTP_Server_RESTAPI/src/HTTPServer/httpParser_rest.c:74-87 | the decoded text is never longer than the input, and it has the same length exactly when the input holds no `%` |
| UrlCodec.UnescapedFromLength | Projects/HTTP_Server_RESTAPI/src/HTTPServer/httpParser_rest.c:80-84 | each `%XY` escape shortens the rest of the text by two, so decoding from a position keeps the length exactly when no `%` follows it |
| UrlCodec.DecodeInPlace | Projects/HTTP_Server_RESTAPI/src/HTTPServer/httpParser_rest.c:80-86 | the decoding loop writes the decoded text at the front of the buffer, NUL-terminated, and leaves everything past the old NUL unchanged |
| UrlCodec.ReadEscape | Projects/HTTP_Server_RESTAPI/src/HTTPServer/httpParser_rest.c:80-84 | one loop step reads `%XY` as the byte 16·C2D(X)+C2D(Y) and three characters, any other character as itself and one character |
| UrlCodec.UnescapedPercentEncoded | Projects/HTTP_Server_RESTAPI/src/HTTPServer/httpParser_rest.c:74-87 | decoding the percent-encoding of any byte string gives the string back |
| UrlCodec.Replaced | Projects/HTTP_Server_RESTAPI/src/HTTPServer/httpParser_rest.c:401-410 | length is preserved, and exactly the occurrences of the old character become the new one |
| UrlCodec.ReplacedIdempotent | Projects/HTTP_Server_RESTAPI/src/HTTPServer/httpParser_rest.c:401-410 | replacing twice is replacing once, and no old character is left |
| UrlCodec.ReplaceToChar | Projects/HTTP_Server_RESTAPI/src/HTTPServer/httpParser_rest.c:401-410 | the buffer's string becomes its replacement and the rest of the buffer is untouched |
| UrlCodec.WellEscapedFromReplaced | Projects/HTTP_Server_RESTAPI/src/HTTPServer/httpParser_rest.c:290-291 | replacing characters other than `%` keeps a string decodable |
| UrlCodec.FormDecodedAsWritten | Projects/HTTP_Server_RESTAPI/src/HTTPServer/httpParser_rest.c:290-291 | decoding in the order written (percent first, then `+` to space) leaves no `+` at all |
| UrlCodec.FormDecoded | Projects/HTTP_Server_RESTAPI/src/HTTPServer/httpParser_rest.c:286-292 | form decoding in the order the encoding requires is never longer than its input |
| UrlCodec.FormDecodedPercentEncoded | Projects/HTTP_Server_RESTAPI/src/HTTPServer/httpParser_rest.c:286-292 | form decoding inverts percent-encoding of every byte string, `+` included |
| UrlCodec.PercentEncodedHasNoPlus | Projects/HTTP_Server_RESTAPI/src/HTTPServer/httpParser_rest.c:290-291 | a percent-encoding holds no `+`, so the `+` step cannot alter it |
| UrlCodec.EscapedPlusDecodedAsSpace | Projects/HTTP_Server_RESTAPI/src/HTTPServer/httpParser_rest.c:290-291 | `%2B` decodes to a space in the order written and to `+` in the corrected order |
| HttpParser.AtoiRun | Projects/HTTP_Server_RESTAPI/src/HTTPServer/httpParser_rest.c:358-369 | the digits `ATOI` reads are the prefix up to the first NUL or space |
| HttpParser.Atoi | Projects/HTTP_Server_RESTAPI/src/HTTPServer/httpParser_rest.c:358-369 | the accumulator loop gives `num*base + C2D(c)` folded over that prefix, modulo 2^16 |
| HttpParser.AtoiValueOfDecimal | Projects/HTTP_Server_RESTAPI/src/HTTPServer/httpParser_rest.c:358-369 | `ATOI` in base 10 of a number's decimal is the number |
| HttpParser.Mid | Projects/HTTP_Server_RESTAPI/src/HTTPServer/httpParser_rest.c:379-392 | `mid` gives the text between the first `s1` and the first `s2` after it |
| HttpParser.MidOfFields | Projects/HTTP_Server_RESTAPI/src/HTTPServer/httpParser_rest.c:379-392 | when `s1` first occurs at the end of a head, `mid` is the rest up to the first `s2` of the rest |
| HttpParser.TypeScanFirstMatch | Projects/HTTP_Server_RESTAPI/src/HTTPServer/httpParser_rest.c:146-160 | the scan gives 0 exactly when no row's extension occurs; otherwise the type of the first row whose extension occurs |
| HttpParser.TypeScanNone | Projects/HTTP_Server_RESTAPI/src/HTTPServer/httpParser_rest.c:146-160 | the scan gives 0 exactly when no row of the table matches, whatever the order of the rows |
| HttpParser.FindHttpUriType | Projects/HTTP_Server_RESTAPI/src/HTTPServer/httpParser_rest.c:140-161 | `find_http_uri_type` gives the error type exactly when no table extension occurs in the name; otherwise it gives the type of the first row whose extension occurs |
| HttpParser.MimeTypesSet | Projects/HTTP_Server_RESTAPI/src/HTTPServer/httpParser_rest.c:42-63 | no row of the extension table carries the error type, so a match is never mistaken for no match |
| HttpParser.JsonExtensionHasJs | Projects/HTTP_Server_RESTAPI/src/HTTPServer/httpParser_rest.c:42-63 | every name containing `.json` contains `.js` |
| HttpParser.FindHttpUriTypeNeverJson | Projects/HTTP_Server_RESTAPI/src/HTTPServer/httpParser_rest.c:140-161 | as written, no name is ever typed JSON |
| HttpParser.JsonFirstTypesJson | Projects/HTTP_Server_RESTAPI/src/HTTPServer/httpParser_rest.c:42-63 | with `.json` scanned before `.js`, a `.json` name that is not HTML or CSS is typed JSON |
| HttpParser.JsonFirstSameUntyped | Projects/HTTP_Server_RESTAPI/src/HTTPServer/httpParser_rest.c:140-161 | the reordering changes no name from typed to untyped or the reverse |
| HttpParser.SameUntypedScan | Projects/HTTP_Server_RESTAPI/src/HTTPServer/httpParser_rest.c:146-160 | the scan of the reordered table finds no match exactly when the scan of the table as written finds none |
| HttpParser.JsonNameTypedAsJs | Projects/HTTP_Server_RESTAPI/src/HTTPServer/httpParser_rest.c:140-161 | `data.json` is not typed JSON as written, and is typed JSON with the reordered table |
| HttpParser.DataJsonTypedJson | Projects/HTTP_Server_RESTAPI/src/HTTPServer/httpParser_rest.c:42-63 | with the JSON row ahead of the JavaScript row, `data.json` is typed as JSON |
| HttpParser.MethodCode | Projects/HTTP_Server_RESTAPI/src/HTTPServer/httpParser_rest.c:16-25 | a method code is set only for a token equal to a `method_table` name, and METHOD_ERR for any other token |
| HttpParser.ParsedRequest | Projects/HTTP_Server_RESTAPI/src/HTTPServer/httpParser_rest.c:167-249 | a request line has a method exactly when its first space-separated token names one in the method table; a request with a method always has a non-empty URI token |
| HttpParser.HttpRequest.constructor | Projects/HTTP_Server_RESTAPI/src/HTTPServer/httpServer_rest.c:24 | a fresh request has method METHOD_ERR, type 0 and an empty URI |
| HttpParser.HttpRequest.ParseHttpRequest | Projects/HTTP_Server_RESTAPI/src/HTTPServer/httpParser_rest.c:167-249 | the method and URI become those of the parsed request line; the URI stays as it was when none is found, and the type is not touched |
| HttpParser.BlankRequest | Projects/HTTP_Server_RESTAPI/src/HTTPServer/httpParser_rest.c:182-188 | a buffer of spaces has no token and gives METHOD_ERR without a URI |
| HttpParser.MethodOnlyByExactName | Projects/HTTP_Server_RESTAPI/src/HTTPServer/httpParser_rest.c:190-226 | a method is recognised only when the first token is exactly one of the five names (case-sensitive) |
| HttpParser.GetRequestLine | Projects/HTTP_Server_RESTAPI/src/HTTPServer/httpParser_rest.c:192-201 | for GET and HEAD the URI is the next space-delimited token |
| HttpParser.LeadingMethodToken | Projects/HTTP_Server_RESTAPI/src/HTTPServer/httpParser_rest.c:182-183 | the first `strtok` of `NAME rest` gives the name and resumes after its space |
| HttpParser.BodyRequestLine | Projects/HTTP_Server_RESTAPI/src/HTTPServer/httpParser_rest.c:202-228 | for POST, PUT and DELETE the URI is the whole remainder after the method |
| HttpParser.UnknownMethodRequestLine | Projects/HTTP_Server_RESTAPI/src/HTTPServer/httpParser_rest.c:217-226 | an unknown first token gives METHOD_ERR, and the token is what is copied as the URI |
| HttpParser.GetWithoutUri | Projects/HTTP_Server_RESTAPI/src/HTTPServer/httpParser_rest.c:192-226 | a method name with no URI after it gives METHOD_ERR |
| HttpParser.UriName | Projects/HTTP_Server_RESTAPI/src/HTTPServer/httpParser_rest.c:313-330 | the resource name is the first token before ` ` or `?` with its first character dropped, except the token `/` |
| HttpParser.UriNameOfPath | Projects/HTTP_Server_RESTAPI/src/HTTPServer/httpParser_rest.c:313-330 | the name of `/name?...` or `/name ...` is `name`, and that of `/` is `/` |
| HttpParser.GetHttpUriName | Projects/HTTP_Server_RESTAPI/src/HTTPServer/httpParser_rest.c:313-330 | the buffer ends up holding the resource name, NUL-terminated, and every byte past the old NUL is unchanged |
| HttpParser.RequestBody | Projects/HTTP_Server_RESTAPI/src/HTTPServer/httpParser_rest.c:267-273 | the body is cut after the blank line at Content-Length characters, or is shorter when the request ends first |
| HttpParser.RawParamValue | Projects/HTTP_Server_RESTAPI/src/HTTPServer/httpParser_rest.c:276-305 | a value exists exactly when the name occurs, and it is the text after `name=` up to the first `&` |
| HttpParser.RawParamValueHasNoAmpersand | Projects/HTTP_Server_RESTAPI/src/HTTPServer/httpParser_rest.c:279-285 | a raw value holds no `&` |
| HttpParser.RawParamValueOfField | Projects/HTTP_Server_RESTAPI/src/HTTPServer/httpParser_rest.c:276-305 | in `...name=v&...` the value of `name` is `v` |
| HttpParser.ParamValue | Projects/HTTP_Server_RESTAPI/src/HTTPServer/httpParser_rest.c:255-310 | the decoded value fits `BUFPUB` |
| HttpParser.GetHttpParamValue | Projects/HTTP_Server_RESTAPI/src/HTTPServer/httpParser_rest.c:255-310 | the result is non-NULL exactly when the name occurs, and `BUFPUB` then holds the decoded value, NUL-terminated |
| HttpParser.FormValueRoundTrip | Projects/HTTP_Server_RESTAPI/src/HTTPServer/httpParser_rest.c:276-305 | a percent-encoded field value holds no `&` and decodes back to the original bytes |
| HttpParser.InetAddr | Projects/HTTP_Server_RESTAPI/src/HTTPServer/httpParser_rest.c:333-351 | the four bytes are the first four `.`-separated tokens read in decimal, or in hex after `0x`, and nothing else of `ip` is written |
| HttpParser.ReadOctet | Projects/HTTP_Server_RESTAPI/src/HTTPServer/httpParser_rest.c:345-348 | one token becomes the byte its decimal or `0x` hex reading gives, modulo 2^8 |
| HttpParser.InetOctetsOfDottedDecimal | Projects/HTTP_Server_RESTAPI/src/HTTPServer/httpParser_rest.c:333-351 | `inet_addr_` reads a dotted-decimal address back into its four bytes |
| HttpParser.OctetOfHex | Projects/HTTP_Server_RESTAPI/src/HTTPServer/httpParser_rest.c:346 | a `0x`-prefixed two-digit hex octet is read back as its byte |
| HttpParser.Octet | Projects/HTTP_Server_RESTAPI/src/HTTPServer/httpParser_rest.c:345-348 | a part after `0x` is read in base 16 and any other part in base 10, and the stored octet is that value modulo 2^8 |
| HttpParser.InetOctets | Projects/HTTP_Server_RESTAPI/src/HTTPServer/httpParser_rest.c:333-351 | the address has four bytes, the octets of the first four `.`-separated tokens in order |
| RestApiHandler.UriTableTokens | Projects/HTTP_Server_RESTAPI/src/HTTPServer/RESTapiHandler.c:51-65 | every table path splits on `/` into its one to three segments |
| RestApiHandler.SearchSpec | Projects/HTTP_Server_RESTAPI/src/HTTPServer/RESTapiHandler.c:77-188 | the result is the least row that matches the path position by position and has the method; otherwise -2 exactly when some row matched the path, and -1 otherwise |
| RestApiHandler.SearchOutcome | Projects/HTTP_Server_RESTAPI/src/HTTPServer/RESTapiHandler.c:77-188 | a path of no segments or of more than the table depth is not found and keeps the old id; a row index is a table row for the request method with 1 to depth segments; every other answer is "not allowed" or "not found" |
| RestApiHandler.RestApi.SearchHttpResources | Projects/HTTP_Server_RESTAPI/src/HTTPServer/RESTapiHandler.c:77-188 | the strtok loops and row scan return the search outcome and leave `req_resource_ID` as the search defines it |
| RestApiHandler.RestApi.MatchRow | Projects/HTTP_Server_RESTAPI/src/HTTPServer/RESTapiHandler.c:137-169 | one row's match count equals the request depth exactly when its path matches, and an `:id` segment is copied even if a later one fails |
| RestApiHandler.SplitPath | Projects/HTTP_Server_RESTAPI/src/HTTPServer/RESTapiHandler.c:96-121 | more than four segments is reported as too deep, and otherwise the segments are the path's `strtok` tokens |
| RestApiHandler.EmptySegmentsSkipped | Projects/HTTP_Server_RESTAPI/src/HTTPServer/RESTapiHandler.c:96-121 | `userio//a/` splits like `userio/a`, so both are searched alike |
| RestApiHandler.EmptySegmentsSkippedFor | Projects/HTTP_Server_RESTAPI/src/HTTPServer/RESTapiHandler.c:96-121 | for any two segments, a doubled and a trailing `/` change nothing |
| RestApiHandler.HeadOnRegisteredPath | Projects/HTTP_Server_RESTAPI/src/HTTPServer/RESTapiHandler.c:53-185 | HEAD on any registered path gives -2, since no row has HEAD |
| RestApiHandler.SearchRecordsId | Projects/HTTP_Server_RESTAPI/src/HTTPServer/RESTapiHandler.c:145-155 | when the row found has the `:id` segment, the resource id is the request's second segment |
| RestApiHandler.UnknownIdIndexesPinTable | Projects/HTTP_Server_RESTAPI/src/HTTPServer/RESTapiHandler.c:361-372 | `GET userio/x` reaches the `userio/:id` handler with an id that names no pin |
| RestApiHandler.Sentinel | Projects/HTTP_Server_RESTAPI/src/HTTPServer/RESTapiHandler.c:434-501 | the handler's return is the document length (2 or more) for a document, 1 for created, 0 for done, -3 for conflict and -1 for not found |
| RestApiHandler.UserioIndex | Projects/HTTP_Server_RESTAPI/src/HTTPServer/RESTapiHandler.c:503-521 | the index is the first pin whose id string equals the id, and -1 exactly when none does |
| RestApiHandler.UserioIndexOfPin | Projects/HTTP_Server_RESTAPI/src/HTTPServer/RESTapiHandler.c:503-521 | each pin's own id string finds that pin |
| RestApiHandler.FindMatchedUserioId | Projects/HTTP_Server_RESTAPI/src/HTTPServer/RESTapiHandler.c:503-521 | the search loop returns that index |
| RestApiHandler.EnabledFromSpec | Projects/HTTP_Server_RESTAPI/src/HTTPServer/RESTapiHandler.c:330-357 | the pins listed from `p` on are exactly the enabled pins at or after `p`, in increasing order |
| RestApiHandler.EnabledPinsSpec | Projects/HTTP_Server_RESTAPI/src/HTTPServer/RESTapiHandler.c:330-357 | the pins listed are exactly the enabled pins, in a..d order |
| RestApiHandler.ReadUserioLists | Projects/HTTP_Server_RESTAPI/src/HTTPServer/RESTapiHandler.c:321-359 | with some pin enabled, `GET userio` lists one entry per enabled pin in order, analog exactly when the type bit is set and output exactly when the direction bit is set |
| RestApiHandler.ReadUserioBody | Projects/HTTP_Server_RESTAPI/src/HTTPServer/RESTapiHandler.c:321-359 | `restapi_read_userio` answers "none" exactly when the whole 16-bit enable mask is 0 (an enable bit above pin D gives an empty list instead), and otherwise lists one entry per enabled pin |
| RestApiHandler.ReadUserioIdOutcome | Projects/HTTP_Server_RESTAPI/src/HTTPServer/RESTapiHandler.c:361-388 | a disabled pin answers not-found; an enabled one answers its value |
| RestApiHandler.ReadUserioInfoOutcome | Projects/HTTP_Server_RESTAPI/src/HTTPServer/RESTapiHandler.c:390-432 | a disabled pin answers not-found; an enabled one answers its id, type and direction |
| RestApiHandler.ReadEnabledPinValue | Projects/HTTP_Server_RESTAPI/src/HTTPServer/RESTapiHandler.c:361-388 | an enabled pin's value is its ADC sample when analog, its output latch when an output, and its input latch otherwise |
| RestApiHandler.DottedQuadParses | Projects/HTTP_Server_RESTAPI/src/HTTPServer/RESTapiHandler.c:295-319 | an address printed as dotted decimal is read back by `inet_addr_` into the same bytes |
| RestApiHandler.MethodName | Projects/HTTP_Server_RESTAPI/src/HTTPServer/RESTapiHandler.c:242-282 | the method name printed on the index is the `method_table` name of the row's method |
| RestApiHandler.MethodNameParses | Projects/HTTP_Server_RESTAPI/src/HTTPServer/RESTapiHandler.c:242-282 | the printed method name parses back to the method |
| RestApiHandler.ReadIndexLists | Projects/HTTP_Server_RESTAPI/src/HTTPServer/RESTapiHandler.c:242-282 | the index lists the four pins and one entry per table row, in order; each URL's host reads back as the device address, and its path splits back into the row's segments |
| RestApiHandler.ReadIndexBody | Projects/HTTP_Server_RESTAPI/src/HTTPServer/RESTapiHandler.c:242-282 | the index lists all four user pins and one resource per table row, each with that row's description |
| RestApiHandler.ReadNetinfoRoundTrip | Projects/HTTP_Server_RESTAPI/src/HTTPServer/RESTapiHandler.c:295-319 | every address on the network page reads back as the chip's bytes, and DHCP shows as on exactly in DHCP mode |
| RestApiHandler.ReadNetinfoBody | Projects/HTTP_Server_RESTAPI/src/HTTPServer/RESTapiHandler.c:295-319 | the network page reports DHCP as enabled exactly when the chip is in DHCP mode |
| RestApiHandler.MakeHttpResponseErrorMessage | Projects/HTTP_Server_RESTAPI/src/HTTPServer/RESTapiHandler.c:213-237 | an error document exists exactly for a status `code_table` lists, and it carries that code |
| RestApiHandler.ErrorMessageIsReason | Projects/HTTP_Server_RESTAPI/src/HTTPServer/RESTapiHandler.c:221-232 | the status text is the code's decimal, a space and the message, so the message is the text minus its `NNN ` prefix |
| RestApiHandler.CreateOutcome | Projects/HTTP_Server_RESTAPI/src/HTTPServer/RESTapiHandler.c:434-451 | an enabled pin gives conflict and no change; a disabled one gives created with its enable bit set |
| RestApiHandler.DeleteOutcome | Projects/HTTP_Server_RESTAPI/src/HTTPServer/RESTapiHandler.c:478-501 | a disabled pin gives not-found and no change; an enabled one gives done with its enable bit cleared |
| RestApiHandler.CreateEnablesOnlyThatPin | Projects/HTTP_Server_RESTAPI/src/HTTPServer/RESTapiHandler.c:434-451 | creating enables that pin and leaves every other pin's enable bit, and all type and direction bits, unchanged |
| RestApiHandler.CreateThenDeleteRestores | Projects/HTTP_Server_RESTAPI/src/HTTPServer/RESTapiHandler.c:434-501 | deleting a pin just created answers done and restores the masks |
| RestApiHandler.DeleteThenCreateRestores | Projects/HTTP_Server_RESTAPI/src/HTTPServer/RESTapiHandler.c:434-501 | creating a pin just deleted answers created and restores the masks |
| RestApiHandler.Dispatch | Projects/HTTP_Server_RESTAPI/src/HTTPServer/RESTapiHandler.c:190-211 | only the create and delete handlers change the pin configuration; the four resource-wide reads always emit a document; "created" and "conflict" come only from create; the two update handlers always answer "done" |
| RestApiHandler.RestApi.constructor | Projects/HTTP_Server_RESTAPI/src/HTTPServer/RESTapiHandler.c:67 | the handler state starts with an empty `req_resource_ID` over the given configuration |
| RestApiHandler.RestApi.CreateUserioId | Projects/HTTP_Server_RESTAPI/src/HTTPServer/RESTapiHandler.c:434-451 | the POST handler's answer and new masks are the create outcome |
| RestApiHandler.RestApi.DeleteUserioId | Projects/HTTP_Server_RESTAPI/src/HTTPServer/RESTapiHandler.c:478-501 | the DELETE handler's answer and new masks are the delete outcome |
| RestApiHandler.RestApi.HttpResourcesHandler | Projects/HTTP_Server_RESTAPI/src/HTTPServer/RESTapiHandler.c:190-211 | running a table row's handler gives that handler's outcome and masks |
| GpioHandler.SetBits | Projects/HTTP_Server_RESTAPI/src/PlatformHandler/gpioHandler.c:75-79 | `mask |= sel` sets the `sel` bits and keeps every other bit |
| GpioHandler.ClearBits | Projects/HTTP_Server_RESTAPI/src/PlatformHandler/gpioHandler.c:80-84 | `mask &= ~sel` clears the `sel` bits and keeps every other bit |
| GpioHandler.WithEnable | Projects/HTTP_Server_RESTAPI/src/PlatformHandler/gpioHandler.c:69-89 | the enable setter touches only the enable mask, and changes nothing for a value other than ENABLE or DISABLE; the selector is the `uint8_t io_sel`, so `~io_sel` never clears a bit above the low byte |
| GpioHandler.WithDirection | Projects/HTTP_Server_RESTAPI/src/PlatformHandler/gpioHandler.c:119-141 | the direction setter touches only the direction mask, and changes nothing for an invalid value |
| GpioHandler.WithType | Projects/HTTP_Server_RESTAPI/src/PlatformHandler/gpioHandler.c:92-116 | the type setter never touches the enable mask, keeps the direction for DIGITAL, and changes nothing for an invalid type |
| GpioHandler.SetterStatus | Projects/HTTP_Server_RESTAPI/src/PlatformHandler/gpioHandler.c:69-141 | a setter returns 1 exactly for the two valid argument values, and 0 otherwise |
| GpioHandler.SetUserIoEnable | Projects/HTTP_Server_RESTAPI/src/PlatformHandler/gpioHandler.c:69-89 | the configuration's masks become those of the enable setter, and the return is its status |
| GpioHandler.SetUserIoDirection | Projects/HTTP_Server_RESTAPI/src/PlatformHandler/gpioHandler.c:119-141 | likewise for the direction setter |
| GpioHandler.SetUserIoType | Projects/HTTP_Server_RESTAPI/src/PlatformHandler/gpioHandler.c:92-116 | likewise for the type setter |
| GpioHandler.SetBitsKeepsOthers | Projects/HTTP_Server_RESTAPI/src/PlatformHandler/gpioHandler.c:75-79 | setting bits leaves the all-set test of disjoint bits unchanged |
| GpioHandler.ClearBitsKeepsOthers | Projects/HTTP_Server_RESTAPI/src/PlatformHandler/gpioHandler.c:80-84 | clearing bits leaves the all-set test of disjoint bits unchanged |
| GpioHandler.DistinctPinsDisjoint | Projects/HTTP_Server_RESTAPI/src/HTTPServer/RESTapiHandler.c:440-447 | each pin's select bit is non-zero, and two different pins' bits are disjoint |
| GpioHandler.WideDisjoint | Projects/HTTP_Server_RESTAPI/src/PlatformHandler/gpioHandler.c:69-84 | disjoint `uint8_t` selectors stay disjoint once promoted to the 16-bit masks |
| GpioHandler.EnableQuerySelf | Projects/HTTP_Server_RESTAPI/src/PlatformHandler/gpioHandler.c:144-159 | enabling and then querying gives IO_ENABLE; disabling a non-empty selection and then querying gives IO_DISABLE |
| GpioHandler.EnableQueryOther | Projects/HTTP_Server_RESTAPI/src/PlatformHandler/gpioHandler.c:69-89 | the enable setter leaves the query of disjoint pins unchanged |
| GpioHandler.TypeQuerySelf | Projects/HTTP_Server_RESTAPI/src/PlatformHandler/gpioHandler.c:98-111 | ANALOG makes the pin analog and an input; DIGITAL makes it digital |
| GpioHandler.TypeQueryOther | Projects/HTTP_Server_RESTAPI/src/PlatformHandler/gpioHandler.c:92-116 | the type setter leaves the type and direction of disjoint pins unchanged |
| GpioHandler.WithTypeMasks | Projects/HTTP_Server_RESTAPI/src/PlatformHandler/gpioHandler.c:92-116 | ANALOG sets the type bits and clears the direction bits of the selector; DIGITAL clears only its type bits; any other value changes nothing |
| GpioHandler.DirectionQuerySelf | Projects/HTTP_Server_RESTAPI/src/PlatformHandler/gpioHandler.c:125-136 | OUTPUT makes the pin an output and INPUT an input |
| GpioHandler.DirectionQueryOther | Projects/HTTP_Server_RESTAPI/src/PlatformHandler/gpioHandler.c:119-141 | the direction setter leaves the direction of disjoint pins unchanged |
| GpioHandler.GetUserIoEnabled | Projects/HTTP_Server_RESTAPI/src/PlatformHandler/gpioHandler.c:142-157 | `get_user_io_enabled` answers enabled exactly when every selected bit of the enable mask is set, and disabled otherwise, the `uint8_t` selector being promoted to the 16-bit mask as C does |
| GpioHandler.GetUserIoType | Projects/HTTP_Server_RESTAPI/src/PlatformHandler/gpioHandler.c:159-174 | `get_user_io_type` answers analog exactly when every selected bit of the type mask is set, and digital otherwise, the `uint8_t` selector being promoted to the 16-bit mask as C does |
| GpioHandler.GetUserIoDirection | Projects/HTTP_Server_RESTAPI/src/PlatformHandler/gpioHandler.c:177-192 | `get_user_io_direction` answers output exactly when every selected bit of the direction mask is set, and input otherwise, the `uint8_t` selector being promoted to the 16-bit mask as C does |
| GpioHandler.GetUserIoVal | Projects/HTTP_Server_RESTAPI/src/PlatformHandler/gpioHandler.c:199-243 | success exactly on an enabled pin; failure gives value 0; analog reads the ADC, digital output the output latch, digital input the input latch |
| GpioHandler.SetUserIoVal | Projects/HTTP_Server_RESTAPI/src/PlatformHandler/gpioHandler.c:245-265 | success exactly on an enabled, digital output pin; 0 resets and 1 sets the pin, and failure writes nothing |
| GpioHandler.AnalogRefusesWrite | Projects/HTTP_Server_RESTAPI/src/PlatformHandler/gpioHandler.c:98-111 | after ANALOG is selected, writing the pin's value is refused |
| GpioHandler.BitOrder | Projects/HTTP_Server_RESTAPI/src/PlatformHandler/gpioHandler.c:267-282 | the bit order is always a pin index |
| GpioHandler.GetUserIoBitorder | Projects/HTTP_Server_RESTAPI/src/PlatformHandler/gpioHandler.c:267-282 | the search loop returns the bit order |
| GpioHandler.PinBitOrder | Projects/HTTP_Server_RESTAPI/src/PlatformHandler/gpioHandler.c:267-282 | the bit order of pin k's select bit `1<<k` is k |
| TimerHandler.AdvanceCounts | Projects/HTTP_Server_RESTAPI/src/PlatformHandler/timerHandler.c:49-81 | a tick keeps msec ≤ 998, sec ≤ 59 and min ≤ 59, and counts exactly one more tick, except that the last state wraps to zero |
| TimerHandler.Advance | Projects/HTTP_Server_RESTAPI/src/PlatformHandler/timerHandler.c:49-81 | one interrupt keeps the counters in range and counts one more tick; from the last state before the hour counter wraps it returns to zero |
| TimerHandler.AdvanceIncreases | Projects/HTTP_Server_RESTAPI/src/PlatformHandler/timerHandler.c:49-81 | (hour, min, sec, msec) strictly increases lexicographically with each tick, up to the hour wrap |
| TimerHandler.AfterTicksCounts | Projects/HTTP_Server_RESTAPI/src/PlatformHandler/timerHandler.c:8-11 | from zero, the counters stay in range and, before the hour wrap, hold the number of ticks so far with a second of 999 ticks |
| TimerHandler.CheckStep | Projects/HTTP_Server_RESTAPI/src/PlatformHandler/timerHandler.c:51-58 | while running, the routine-check counter counts up and, on reaching the cycle, raises the flag and resets; otherwise both are untouched |
| TimerHandler.CheckStepBound | Projects/HTTP_Server_RESTAPI/src/PlatformHandler/timerHandler.c:51-58 | below the cycle the counter stays below it, and the flag is raised on the running tick that reaches the cycle |
| TimerHandler.Uptime.constructor | Projects/HTTP_Server_RESTAPI/src/PlatformHandler/timerHandler.c:8-15 | the counters and the flag start at zero |
| TimerHandler.Uptime.Tick | Projects/HTTP_Server_RESTAPI/src/PlatformHandler/timerHandler.c:43-88 | one interrupt advances the clock by one tick and the routine-check counter by one check step |
| ConfigData.Normalised | Projects/HTTP_Server_RESTAPI/src/Configuration/ConfigData.c:83-99 | the DHCP mode read back is static exactly when it was static and DHCP otherwise, and every address stays as it was |
| ConfigData.FactoryModuleName | Projects/HTTP_Server_RESTAPI/src/Configuration/ConfigData.c:24-25 | the 25-byte module name is `W7500_Device` followed by NULs |
| ConfigData.DevConfig.constructor | Projects/HTTP_Server_RESTAPI/src/Configuration/ConfigData.c:13 | the static record starts all zero |
| ConfigData.DevConfig.NetInfoView | Projects/HTTP_Server_RESTAPI/src/Configuration/ConfigData.c:89-100 | `get_DevConfig` reports DHCP exactly when `dhcp_use` is non-zero, and static exactly when it is zero |
| ConfigData.DevConfig.SetFactoryValue | Projects/HTTP_Server_RESTAPI/src/Configuration/ConfigData.c:20-64 | factory values: record size, module name, version 0.8.2, 192.168.11.5/.1/255.255.255.0, port 5000, remote 192.168.11.113:5000, DHCP and DNS off, DNS 8.8.8.8, all pins enabled, A and B analog, all inputs; the MAC is untouched |
| ConfigData.DevConfig.SetDevConfig | Projects/HTTP_Server_RESTAPI/src/Configuration/ConfigData.c:76-87 | the record takes the chip's addresses, and `dhcp_use` is 0 exactly for a static mode |
| ConfigData.DevConfig.GetDevConfig | Projects/HTTP_Server_RESTAPI/src/Configuration/ConfigData.c:89-100 | the settings returned are the record's view |
| ConfigData.DevConfig.SetDhcpMode | Projects/HTTP_Server_RESTAPI/src/Configuration/ConfigData.c:142-147 | only `dhcp_use` changes, to 1 |
| ConfigData.DevConfig.SetStaticMode | Projects/HTTP_Server_RESTAPI/src/Configuration/ConfigData.c:149-154 | only `dhcp_use` changes, to 0 |
| ConfigData.DevConfig.SetMac | Projects/HTTP_Server_RESTAPI/src/Configuration/ConfigData.c:156-161 | only the six MAC bytes change, to the given ones |
| ConfigData.SetThenGet | Projects/HTTP_Server_RESTAPI/src/Configuration/ConfigData.c:76-100 | `get_DevConfig` after `set_DevConfig` gives back the same MAC and addresses, static mode exactly when it was set, and DHCP otherwise |
| HttpServer.ResourceName | Projects/HTTP_Server_RESTAPI/src/HTTPServer/httpServer_rest.c:270-298 | for GET and HEAD the key is the resource name, with `/` becoming `index` |
| HttpServer.GetResourceName | Projects/HTTP_Server_RESTAPI/src/HTTPServer/httpServer_rest.c:272-277 | `GET /` and `GET //` ask for `index`, and `GET /name` asks for `name` |
| HttpServer.BodyResourceName | Projects/HTTP_Server_RESTAPI/src/HTTPServer/httpServer_rest.c:280-298 | for POST, PUT and DELETE the key of `/path HTTP...` is `path` |
| HttpServer.SearchFailureStatus | Projects/HTTP_Server_RESTAPI/src/HTTPServer/httpServer_rest.c:316-324 | a failed search gives 405 exactly for -2, and 404 otherwise |
| HttpServer.HandlerStatus | Projects/HTTP_Server_RESTAPI/src/HTTPServer/httpServer_rest.c:332-357 | 1 gives 201 with length 0, more than 1 gives 200, 0 gives 204, -3 gives 409, other negatives give 404 |
| HttpServer.HandlerStatusOfOutcome | Projects/HTTP_Server_RESTAPI/src/HTTPServer/httpServer_rest.c:325-358 | each handler outcome gets its status: a document 200 with its length, created 201, done 204, conflict 409, not found 404 |
| HttpServer.ErrorBodyExactlyForTableErrors | Projects/HTTP_Server_RESTAPI/src/HTTPServer/httpServer_rest.c:373-378 | over the `code_table` codes, the 400/500 bit test holds exactly for the codes of 400 and more |
| HttpServer.NeedsErrorBody | Projects/HTTP_Server_RESTAPI/src/HTTPServer/httpServer_rest.c:373-378 | the bit test `status & 400` or `status & 500` selects only statuses of 400 and above |
| HttpServer.Respond | Projects/HTTP_Server_RESTAPI/src/HTTPServer/httpServer_rest.c:373-387 | the content length of a response fits the send buffer |
| HttpServer.RespondSpec | Projects/HTTP_Server_RESTAPI/src/HTTPServer/httpServer_rest.c:373-387 | an error status gets the error document with its length; HEAD never sends a body, and other methods send one exactly when the length is not 0 |
| HttpServer.ResponseHeaderOf | Projects/HTTP_Server_RESTAPI/src/HTTPServer/httpServer_rest.c:380-381 | the response header starts with the status line of the response's code |
| HttpServer.FoundResponse | Projects/HTTP_Server_RESTAPI/src/HTTPServer/httpServer_rest.c:325-358 | the response to a found row fits the buffer |
| HttpServer.FoundResponseSpec | Projects/HTTP_Server_RESTAPI/src/HTTPServer/httpServer_rest.c:325-387 | the response to each outcome has the handler's status, the document or error body, and the HEAD rule |
| HttpServer.Process | Projects/HTTP_Server_RESTAPI/src/HTTPServer/httpServer_rest.c:254-388 | every response's content length fits the buffer |
| HttpServer.Searched | Projects/HTTP_Server_RESTAPI/src/HTTPServer/httpServer_rest.c:312-360 | a searched request's response fits the buffer, and its type stays 0 |
| HttpServer.ProcessStatuses | Projects/HTTP_Server_RESTAPI/src/HTTPServer/httpServer_rest.c:254-388 | every request gets one of the composed statuses, an error body exactly for 400 and above, and no body for HEAD |
| HttpServer.ProcessFileType | Projects/HTTP_Server_RESTAPI/src/HTTPServer/httpServer_rest.c:361-369 | a key with a file extension is answered 404 without a search or a handler |
| HttpServer.ProcessSearchFailed | Projects/HTTP_Server_RESTAPI/src/HTTPServer/httpServer_rest.c:316-324 | a failed search is answered 405 exactly for -2 and 404 otherwise, and leaves the pins alone |
| HttpServer.ProcessFound | Projects/HTTP_Server_RESTAPI/src/HTTPServer/httpServer_rest.c:325-358 | a found row runs its handler, whose outcome gives the status, the body and the new masks |
| HttpServer.HeadRegisteredNotAllowed | Projects/HTTP_Server_RESTAPI/src/HTTPServer/httpServer_rest.c:316-324 | HEAD on a registered path is answered 405 without a body |
| HttpServer.MethodErrAnsweredNotFound | Projects/HTTP_Server_RESTAPI/src/HTTPServer/httpServer_rest.c:300-369 | as written, an unrecognised method is answered 404, never 501 |
| HttpServer.MethodErrAfterStyleSheet | Projects/HTTP_Server_RESTAPI/src/HTTPServer/httpServer_rest.c:300-369 | an unknown method after a request for a `.css` file is answered 404 |
| HttpServer.CorrectedNotImplemented | Projects/HTTP_Server_RESTAPI/src/HTTPServer/httpServer_rest.c:300-303 | with the 501 kept, exactly the unrecognised methods get 501 and its error body, and every other request is answered as before |
| HttpServer.SlotStepQuiet | Projects/HTTP_Server_RESTAPI/src/HTTPServer/httpServer_rest.c:121-209 | polls keep a connection idle or done with no file: a request takes idle to done, and done or CLOSE_WAIT goes back to idle and disconnects |
| HttpServer.SlotStep | Projects/HTTP_Server_RESTAPI/src/HTTPServer/httpServer_rest.c:118-242 | a poll answers exactly an established idle socket with data received, sends the rest exactly in RES_INPROC, disconnects exactly on CLOSE_WAIT or a finished response, resets the slot when it disconnects, and otherwise keeps the file length |
| HttpServer.RequestCycle | Projects/HTTP_Server_RESTAPI/src/HTTPServer/httpServer_rest.c:131-194 | a request on an idle connection is answered, and the next poll disconnects it and returns it to idle |
| HttpServer.NextSlot | Projects/HTTP_Server_RESTAPI/src/HTTPServer/httpServer_rest.c:549-560 | the round-robin counter moves to the next socket and wraps to 0 after the last |
| HttpServer.RoundRobinFrom | Projects/HTTP_Server_RESTAPI/src/HTTPServer/httpServer_rest.c:549-560 | from any index the calls visit every later index once, in order, and come back to 0 |
| HttpServer.RoundRobinCycle | Projects/HTTP_Server_RESTAPI/src/HTTPServer/httpServer_rest.c:549-560 | `sock_cnt` calls from 0 visit 0..sock_cnt-1 in order and return to 0 |
| HttpServer.IndexOf | Projects/HTTP_Server_RESTAPI/src/HTTPServer/httpServer_rest.c:570-578 | the sequence number is the first index holding the socket, and -1 exactly when none does |
| HttpServer.CappedCount | Projects/HTTP_Server_RESTAPI/src/HTTPServer/httpServer_rest.c:76-79 | the socket count is capped at the number of hardware sockets |
| HttpServer.MappedAsWritten | Projects/HTTP_Server_RESTAPI/src/HTTPServer/httpServer_rest.c:87-92 | as written, the mapping loop writes every index below the uncapped count |
| HttpServer.InitOverrunsAsWritten | Projects/HTTP_Server_RESTAPI/src/HTTPServer/httpServer_rest.c:76-92 | with a count above the number of hardware sockets, the loop writes index `_WIZCHIP_SOCK_NUM_`, one past the table, while the stored count is capped |
| HttpServer.HttpServer.constructor | Projects/HTTP_Server_RESTAPI/src/HTTPServer/httpServer_rest.c:21-33 | the server starts with no sockets, every connection idle, the counter at 0 and the socket table zeroed |
| HttpServer.HttpServer.Init | Projects/HTTP_Server_RESTAPI/src/HTTPServer/httpServer_rest.c:71-93 | the count is capped, the first count entries of the table come from the socket list, and the rest are untouched |
| HttpServer.HttpServer.GetAvailableHTTPSocketNum | Projects/HTTP_Server_RESTAPI/src/HTTPServer/httpServer_rest.c:549-560 | -1 with no sockets; otherwise the socket at the counter, as `int8_t`, with the counter advanced |
| HttpServer.HttpServer.GetHTTPSequenceNum | Projects/HTTP_Server_RESTAPI/src/HTTPServer/httpServer_rest.c:570-578 | the loop returns the first index holding the socket, or -1 |
| HttpServer.HttpServer.TakeResourceName | Projects/HTTP_Server_RESTAPI/src/HTTPServer/httpServer_rest.c:269-304 | a known method gives the lookup key and sets the type from it; an unknown one sets 501 and leaves the type |
| HttpServer.HttpServer.RunHandler | Projects/HTTP_Server_RESTAPI/src/HTTPServer/httpServer_rest.c:325-358 | the row's handler runs; its sentinel gives the status and length, and the masks become the handler's |
| HttpServer.HttpServer.AttachErrorBody | Projects/HTTP_Server_RESTAPI/src/HTTPServer/httpServer_rest.c:373-387 | the error body decision and the HEAD rule give the response |
| HttpServer.HttpServer.SearchAndRespond | Projects/HTTP_Server_RESTAPI/src/HTTPServer/httpServer_rest.c:312-360 | the search and the handler leave the response, resource id and masks the search defines |
| HttpServer.HttpServer.ProcessHandler | Projects/HTTP_Server_RESTAPI/src/HTTPServer/httpServer_rest.c:254-388 | the response, the request's type, the resource id and the masks become those `Process` gives |
| HttpServer.HttpServer.AnswerRequest | Projects/HTTP_Server_RESTAPI/src/HTTPServer/httpServer_rest.c:132-159 | the received buffer is parsed into the request and answered; the method and URI are the parsed ones |
| HttpServer.HttpServer.Poll | Projects/HTTP_Server_RESTAPI/src/HTTPServer/httpServer_rest.c:118-242 | one poll of a socket applies the state step to its connection alone; it answers exactly when an idle connection has received data, and otherwise leaves the request and masks alone |
| HttpServer.HttpServer.Run | Projects/HTTP_Server_RESTAPI/src/HTTPServer/httpServer_rest.c:96-247 | one pass picks the next socket round-robin; it does nothing when no socket is mapped; otherwise it polls that socket's connection; it keeps every connection quiet |

## Left out

- Socket and chip I/O. The socket status, the received size and the received bytes are inputs of a poll. A poll's result names the chip action: answer, send, disconnect, listen, or open on a port. Not modelled: `recv`, `send`, `listen`, `socket`, `getSn_*`, `setSn_*`, the connect-interrupt clear, the `http_disconnect` busy-wait and `ctlnetwork`.
- Hardware. Not modelled: `init_user_io`, `IO_Configuration`, `read_ADC` and the GPIO register reads. Pin readings (`PinReading`) and pin writes (`PinWrite`) are values.
- Board setup. Not modelled: `Timer_Configuration`, `DHCP_time_handler`, `main.c` and the board support file.
- `display_Net_Info`, `Mac_Conf` and `Net_Conf`: these print or call the chip driver, so they are not modelled. `get/set_DevConfig_value` is a plain `memcpy`, and each setter writes its fields directly.
- JSON documents. Handler output is the datatype `Body`, not the bytes `json_emit` writes. The length is an input of at least 2, so the trailing-comma handling is not modelled.
- Undefined behaviour that the model excludes with preconditions rather than models:
  - `USER_IO_SEL[-1]` for an id that names no pin (`KnownId`).
  - A 20-character id copied into `req_resource_ID[20]` (`IdFits`).
  - A URI longer than its buffers (`UriFits`, `MaxUriSize`).
  - `mid` with a missing delimiter, and an unset resource name (`NameDefined`).
  - A request of 2048 bytes or more, whose NUL falls past the receive buffer.
  - An id-less `userio` search reading unset tokens: modelled as NULL, which makes the depth test fail.
- The commented-out file serving and chunking and the PUT body parsing are not modelled. `send_http_response_body` is not modelled either. No code path sets `file_len`, so RES_INPROC is unreachable, and `SlotStepQuiet` proves that.
- `httpServer_time_handler`, `get_httpServer_timecount` and `reg_httpServer_cbfunc` are not modelled. They are a second counter and callback registration, and nothing in the core reads them.
- The interleaving of the timer interrupt with the main loop is not modelled. A tick is one sequential step.
- 405 is sent without an `Allow` header and 204 with `Content-Length: 0`, as the code does.
- `_WIZCHIP_SOCK_NUM_` and `MAIN_ROUTINE_CHECK_CYCLE_MSEC` are not defined in the files modelled, so they are parameters (`sockNum`, `checkCycle`). `sockNum` is at most 128, because a sequence number must fit the `int8_t` it is returned in. `NETINFO_STATIC` and `NETINFO_DHCP` are 1 and 2, as in the WIZnet driver.
- `get_DevConfig_pointer`: the single static record is the `DevConfig` object, which is passed to the code that uses it.
- HttpResponse.MakeHttpResponseHeader: requires a status and a type that the tables list. Otherwise the C reads an uninitialised pointer before its NULL fall-backs.
- The getters `getDeviceUptime_*` are the field reads `TimerHandler.Uptime.UptimeHour` to `UptimeMsec`. Their contracts would only restate the field.
- HttpParser.GetHttpParamValue: decodes `+` before `%XY`, the corrected order (see Findings), instead of the order written.
- HttpParser.GetHttpParamValue: is not defined for requests outside `ParamRequestOk`, where the C is undefined. Excluded are a request with no `Content-Length: ` followed by a CRLF, or with no CRLF CRLF (the C uses a NULL `strstr` result, httpParser_rest.c:267-272); a Content-Length value of 10 characters or more (it overflows `tmp_buf[10]`, 262 and 267); a parameter name that ends the body (the C steps past the NUL, 279); a raw value of 512 characters or more (it overflows `BUFPUB`, 14 and 289-290); and a raw value with a `%` not followed by two characters (see `UrlCodec.UnescapeHttpUrl`).
- HttpParser.ParamValue: takes the corrected decoding order, as above.
- HttpParser.ParamValue: requires `ParamRequestOk`, so it excludes the same requests as `HttpParser.GetHttpParamValue`: no Content-Length line or no CRLF CRLF, a Content-Length value of 10 characters or more, a name that ends the body, a raw value of 512 characters or more, and a badly escaped value.
- UrlCodec.UnescapeHttpUrl: requires `WellEscaped`, a `%` followed by at least two more characters. For a text ending in `%` or `%X`, such as `v=100%`, the C reads the NUL and the bytes after it (httpParser_rest.c:80-84), which is undefined, so these inputs are excluded.
- HttpParser.InetAddr: requires at least four `.`-separated tokens and an address shorter than 30 characters. With fewer tokens `strtok` returns NULL and the C dereferences it (httpParser_rest.c:345-346); a longer address overflows `taddr[30]` (336 and 340).
- HttpServer.HttpServer.Init: the mapping loop is capped at the stored count, since writing past `httpsock_num` is undefined (see Findings).
- HttpServer.Process: follows the code as written for the stale type on METHOD_ERR. It is defined only when an earlier request left a file type, because otherwise the search would read an unset name.

## Findings

| source | as written | input that shows it | evidently intended | confidence | as-written member | corrected member |
|---|---|---|---|---|---|---|
| Projects/HTTP_Server_RESTAPI/src/HTTPServer/httpParser_rest.c:42-63 | `.js` is scanned before `.json` with `strstr`, so no name is ever typed JSON | `data.json` | `.json` names typed `PTYPE_JSON` | not executed | HttpParser.JsonNameTypedAsJs | HttpParser.JsonFirstTypesJson |
| Projects/HTTP_Server_RESTAPI/src/HTTPServer/httpParser_rest.c:291-292 | percent-decoding runs before `+` becomes a space, so an escaped plus turns into a space | the field value `%2B` | `+` decoded first, so `%2B` gives `+` | not executed | UrlCodec.EscapedPlusDecodedAsSpace | UrlCodec.FormDecodedPercentEncoded |
| Projects/HTTP_Server_RESTAPI/src/HTTPServer/httpServer_rest.c:300-369 | the 501 of an unrecognised method is overwritten: a stale file type answers 404, and a search answers 404/405 | `FOO` after a request for a `.css` file | 501 Not Implemented | not executed | HttpServer.MethodErrAfterStyleSheet | HttpServer.CorrectedNotImplemented |
| Projects/HTTP_Server_RESTAPI/src/HTTPServer/httpServer_rest.c:76-92 | the count is capped but the mapping loop runs to the uncapped count, writing past `httpsock_num` | `sock_cnt` = `_WIZCHIP_SOCK_NUM_` + 1 | the loop bounded by the capped count | not executed | HttpServer.InitOverrunsAsWritten | HttpServer.HttpServer.Init |

Two of the corrected definitions are the ones the rest of the model uses:
`get_http_param_value` decodes in the corrected order, and `httpServer_init`
runs the capped loop. The server keeps the MIME scan as written: by
`JsonFirstSameUntyped` the reordering changes no name from typed to untyped
or back, and every typed name is answered 404 under either order. The server
class also follows the METHOD_ERR path as written, because that is what the
firmware answers. `ProcessCorrected` is the corrected composer; it is
defined on top of `Process`.
