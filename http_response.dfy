/**
  The response header the parser module builds (`make_http_response_header`):
  a status line, the Content-Type, Content-Length and Connection lines, and
  the blank line that ends the header.
 */
module HttpResponse {
  import opened CTypes
  import opened Wrappers
  import opened CString
  import opened HttpTables

  const HeaderType: string := "Content-Type: "
  const HeaderLen: string := "Content-Length: "
  const HeaderConn: string := "Connection: "
  const Crlf: string := "\r\n"

  /** `sprintf("%d", v)` of a `uint32_t`: the argument is read back as a signed 32-bit `int`. */
  function FormatD(v: uint32): (r: string)
    ensures |r| > 0 && '\r' !in r
    ensures v < 0x8000_0000 ==> r == Decimal(v)
    ensures v >= 0x8000_0000 ==> r == "-" + Decimal(0x1_0000_0000 - v)
  {
    if v < 0x8000_0000 then Decimal(v) else "-" + Decimal(0x1_0000_0000 - v)
  }

  /** Lines, each followed by CRLF. */
  function HeaderLines(lines: seq<string>): string {
    if lines == [] then [] else lines[0] + Crlf + HeaderLines(lines[1..])
  }

  predicate IsHeaderLine(l: string) {
    |l| > 0 && '\r' !in l
  }

  /** The four header lines `sprintf` writes, then the blank line `strcat` adds. */
  function ResponseHeader(status: string, contentType: string, len: uint32): string {
    HeaderLines([HttpVersionStr + " " + status, HeaderType + " " + contentType,
                 HeaderLen + " " + FormatD(len), HeaderConn + " " + "close"]) + Crlf
  }

  /**
    `make_http_response_header`.  `status_code` and `content_type` are not
    initialised in the C, so a status or type without a table row reads an
    indeterminate pointer: both must have a row.  (The NULL fallbacks to 501
    and JSON are then never taken.)
   */
  function MakeHttpResponseHeader(t: uint8, len: uint32, status: uint16): (h: string)
    requires CodeStr(status).Some? && MimeStr(t).Some?
    ensures HttpVersionStr + " " + CodeStr(status).value + Crlf <= h
  {
    ResponseHeader(CodeStr(status).value, MimeStr(t).value, len)
  }

  /** The first CRLF CRLF of `h` is its last four characters: a reader stops at the end of the header. */
  predicate EndsAtFirstBlankLine(h: string) {
    |h| >= 4 && Find(h, Crlf + Crlf) == Some(|h| - 4)
  }

  /** The first blank line of the header is the one that ends it. */
  lemma HeaderEndsAtFirstBlankLine(t: uint8, len: uint32, status: uint16)
    requires CodeStr(status).Some? && MimeStr(t).Some?
    ensures EndsAtFirstBlankLine(MakeHttpResponseHeader(t, len, status))
  {
    TableStringsHaveNoCr(t, status);
    ResponseHeaderEndsAtFirstBlankLine(CodeStr(status).value, MimeStr(t).value, len);
  }

  /** For any CR-free status and type texts, the header ends at its first blank line. */
  lemma ResponseHeaderEndsAtFirstBlankLine(status: string, contentType: string, len: uint32)
    requires '\r' !in status && '\r' !in contentType
    ensures EndsAtFirstBlankLine(ResponseHeader(status, contentType, len))
  {
    HeaderNamesHaveNoCr();
    var lines := [HttpVersionStr + " " + status, HeaderType + " " + contentType,
                  HeaderLen + " " + FormatD(len), HeaderConn + " " + "close"];
    assert forall k :: 0 <= k < |lines| ==> IsHeaderLine(lines[k]);
    BlankLineEndsLines(lines);
  }

  lemma HeaderNamesHaveNoCr()
    ensures '\r' !in HttpVersionStr && '\r' !in HeaderType && '\r' !in HeaderLen
    ensures '\r' !in HeaderConn && '\r' !in " " && '\r' !in "close"
  {
  }

  /** After CR-free, non-empty lines, the first CRLF CRLF is the final one. */
  lemma {:induction false} BlankLineEndsLines(lines: seq<string>)
    requires |lines| > 0 && forall k :: 0 <= k < |lines| ==> IsHeaderLine(lines[k])
    ensures |HeaderLines(lines)| >= 2
    ensures Find(HeaderLines(lines) + Crlf, Crlf + Crlf) == Some(|HeaderLines(lines)| - 2)
  {
    var l, rest := lines[0], lines[1..];
    assert HeaderLines(lines) == l + Crlf + HeaderLines(rest);
    if rest == [] {
      assert HeaderLines(lines) + Crlf == l + Crlf + Crlf;
      LastLineEndsHeader(l);
    } else {
      BlankLineEndsLines(rest);
      var r := HeaderLines(rest) + Crlf;
      assert HeaderLines(rest) == rest[0] + Crlf + HeaderLines(rest[1..]);
      assert r[0] == rest[0][0] && rest[0][0] in rest[0];
      LineBeforeLines(l, r);
      assert HeaderLines(lines) + Crlf == (l + Crlf) + r;
      FindBeyondPrefix(l + Crlf, r, Crlf + Crlf);
    }
  }

  /** A single CR-free line ends at its CRLF CRLF. */
  lemma LastLineEndsHeader(l: string)
    requires IsHeaderLine(l)
    ensures Find(l + Crlf + Crlf, Crlf + Crlf) == Some(|l|)
  {
    var h := l + Crlf + Crlf;
    forall k: nat | k < |l|
      ensures !OccursAt(h, Crlf + Crlf, k)
    {
      assert h[k] == l[k];
    }
    assert h[|l|..] == Crlf + Crlf;
    FindFromUnique(h, Crlf + Crlf, 0, |l|);
  }

  /** No CRLF CRLF starts in a CR-free line or its CRLF when a character other than CR follows. */
  lemma LineBeforeLines(l: string, r: string)
    requires IsHeaderLine(l) && |r| > 0 && r[0] != '\r'
    ensures forall k: nat :: k < |l + Crlf| ==> !OccursAt(l + Crlf + r, Crlf + Crlf, k)
  {
    var h := l + Crlf + r;
    forall k: nat | k < |l + Crlf|
      ensures !OccursAt(h, Crlf + Crlf, k)
    {
      if k < |l| {
        assert h[k] == l[k];
      } else if k == |l| {
        assert h[k + 2] == r[0];
      } else {
        assert h[k] == '\n';
      }
    }
  }

  /** With no occurrence starting inside `p`, the first occurrence in `p + r` is the first one in `r`, shifted. */
  lemma FindBeyondPrefix(p: string, r: string, pat: string)
    requires forall k: nat :: k < |p| ==> !OccursAt(p + r, pat, k)
    requires Find(r, pat).Some?
    ensures Find(p + r, pat) == Some(|p| + Find(r, pat).value)
  {
    var i := Find(r, pat).value;
    SliceOfAppend(p, r, i, i + |pat|);
    forall k: nat | |p| <= k < |p| + i
      ensures !OccursAt(p + r, pat, k)
    {
      if k + |pat| <= |p + r| {
        SliceOfAppend(p, r, k - |p|, k - |p| + |pat|);
        assert !OccursAt(r, pat, k - |p|);
      }
    }
    FindFromUnique(p + r, pat, 0, |p| + i);
  }
}
