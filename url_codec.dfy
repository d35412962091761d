/**
  The parser's character-level helpers: hex digit conversion, in-place
  percent-decoding of a URL (section 2.1 of RFC 3986) and in-place character
  replacement, as used for form-encoded values.
 */
module UrlCodec {
  import opened CString

  predicate IsHexDigit(c: char) {
    ('0' <= c <= '9') || ('a' <= c <= 'f') || ('A' <= c <= 'F')
  }

  /** `C2D`: the value of a hex digit; any other byte is returned unchanged. */
  function C2D(c: char): (r: nat)
    ensures IsHexDigit(c) ==> r < 16
    ensures !IsHexDigit(c) ==> r == c as int
  {
    if '0' <= c <= '9' then c as int - '0' as int
    else if 'a' <= c <= 'f' then 10 + c as int - 'a' as int
    else if 'A' <= c <= 'F' then 10 + c as int - 'A' as int
    else c as int
  }

  function HexUpper(d: nat): (c: char)
    requires d < 16
    ensures IsHexDigit(c)
  {
    if d < 10 then DigitChar(d) else ('A' as int + d - 10) as char
  }

  /** `C2D` inverts both spellings of a hex digit. */
  lemma C2DInvertsHexDigits(d: nat)
    requires d < 16
    ensures C2D(HexUpper(d)) == d && C2D(HexLower(d)) == d
  {
  }

  /** The byte a `%XY` escape stands for, truncated to 8 bits as the `char` store does. */
  function EscapedByte(x: char, y: char): (c: char)
    ensures c as int < 0x100
  {
    ((C2D(x) * 0x10 + C2D(y)) % 0x100) as char
  }

  /** From position `y` on, every `%` the decoder consumes is followed by two more characters. */
  predicate WellEscapedFrom(s: string, y: nat)
    requires y <= |s|
    decreases |s| - y
  {
    if y == |s| then true
    else if s[y] == '%' then y + 3 <= |s| && WellEscapedFrom(s, y + 3)
    else WellEscapedFrom(s, y + 1)
  }

  predicate WellEscaped(s: string) {
    WellEscapedFrom(s, 0)
  }

  /** The decoded text of `s[y..]`: each `%XY` becomes one byte, every other character is copied. */
  function UnescapedFrom(s: string, y: nat): (r: string)
    requires y <= |s| && WellEscapedFrom(s, y)
    ensures |r| <= |s| - y
    decreases |s| - y
  {
    if y == |s| then []
    else if s[y] == '%' then [EscapedByte(s[y + 1], s[y + 2])] + UnescapedFrom(s, y + 3)
    else [s[y]] + UnescapedFrom(s, y + 1)
  }

  function Unescaped(s: string): (r: string)
    requires WellEscaped(s)
    ensures |r| <= |s|
    ensures |r| == |s| <==> '%' !in s
  {
    UnescapedFromLength(s, 0);
    UnescapedFrom(s, 0)
  }

  /** Each escape shortens the text by two, so the decoding keeps the length exactly when there is no `%`. */
  lemma {:induction false} UnescapedFromLength(s: string, y: nat)
    requires y <= |s| && WellEscapedFrom(s, y)
    ensures |UnescapedFrom(s, y)| == |s| - y <==> '%' !in s[y..]
    decreases |s| - y
  {
    if y < |s| {
      assert s[y] == s[y..][0];
      assert s[y..] == [s[y]] + s[y + 1..];
      if s[y] == '%' {
        UnescapedFromLength(s, y + 3);
      } else {
        UnescapedFromLength(s, y + 1);
      }
    }
  }

  /** Percent-encoding of every byte, with upper-case hex digits. */
  function PercentEncoded(s: string): (r: string)
    requires IsBytes(s)
    ensures |r| == 3 * |s|
  {
    if s == [] then []
    else ['%', HexUpper(s[0] as int / 16), HexUpper(s[0] as int % 16)] + PercentEncoded(s[1..])
  }

  /** Decoding undoes percent-encoding. */
  lemma {:induction false} UnescapedPercentEncoded(s: string)
    requires IsBytes(s)
    ensures WellEscaped(PercentEncoded(s))
    ensures Unescaped(PercentEncoded(s)) == s
  {
    if s != [] {
      var b := s[0] as int;
      var head := ['%', HexUpper(b / 16), HexUpper(b % 16)];
      var tail := PercentEncoded(s[1..]);
      assert PercentEncoded(s) == head + tail;
      UnescapedPercentEncoded(s[1..]);
      UnescapedFromShift(head, tail, 0);
      EscapeOfHexByte(b);
      assert s == [s[0]] + s[1..];
    }
  }

  /** The escape `%XY` written for a byte stands for that byte. */
  lemma EscapeOfHexByte(b: nat)
    requires b < 0x100
    ensures EscapedByte(HexUpper(b / 16), HexUpper(b % 16)) == b as char
  {
    C2DInvertsHexDigits(b / 16);
    C2DInvertsHexDigits(b % 16);
  }

  /** Decoding a suffix does not depend on the text in front of it. */
  lemma {:induction false} UnescapedFromShift(p: string, r: string, i: nat)
    requires i <= |r| && WellEscapedFrom(r, i)
    ensures WellEscapedFrom(p + r, |p| + i)
    ensures UnescapedFrom(p + r, |p| + i) == UnescapedFrom(r, i)
    decreases |r| - i
  {
    if i < |r| {
      assert (p + r)[|p| + i] == r[i];
      if r[i] == '%' {
        assert (p + r)[|p| + i + 1] == r[i + 1] && (p + r)[|p| + i + 2] == r[i + 2];
        UnescapedFromShift(p, r, i + 3);
      } else {
        UnescapedFromShift(p, r, i + 1);
      }
    }
  }

  /**
    `unescape_http_url` on the NUL-terminated string `url[..n]`: the decoded
    text is written over the front of the buffer and terminated with a NUL;
    the buffer beyond the original terminator is not touched.
   */
  method UnescapeHttpUrl(url: array<char>, n: nat)
    requires n < url.Length && url[n] == Nul
    requires forall k :: 0 <= k < n ==> url[k] != Nul
    requires WellEscaped(url[..n])
    modifies url
    ensures |Unescaped(old(url[..n]))| <= n
    ensures url[..|Unescaped(old(url[..n]))|] == Unescaped(old(url[..n]))
    ensures url[|Unescaped(old(url[..n]))|] == Nul
    ensures url[n + 1..] == old(url[n + 1..])
  {
    ghost var s := url[..n];
    assert Nul !in s by {
      forall k | 0 <= k < n ensures s[k] != Nul { }
    }
    var x := DecodeInPlace(url, n, s);
    assert UnescapedFrom(s, 0) == Unescaped(s);
  }

  /**
    The state of the decoding loop over the buffer contents `a`: the first
    `x` characters hold `out`, the text from `y` to the terminator is still
    the input's, and `out` followed by the decoding of the rest is the
    decoding of the whole input.
   */
  ghost predicate Decoding(a: seq<char>, s: string, x: nat, y: nat, out: string) {
    && x <= y <= |s| < |a| && |out| == x
    && a[..x] == out && a[y..|s|] == s[y..]
    && WellEscapedFrom(s, 0) && WellEscapedFrom(s, y) && out + UnescapedFrom(s, y) == UnescapedFrom(s, 0)
  }

  /** The loop of `unescape_http_url`: `x` writes the decoding of `s` while `y` reads it, up to the NUL. */
  method DecodeInPlace(url: array<char>, n: nat, ghost s: string) returns (x: nat)
    requires n < url.Length && url[n] == Nul && url[..n] == s && Nul !in s
    requires WellEscapedFrom(s, 0)
    modifies url
    ensures x <= n && url[..x] == UnescapedFrom(s, 0) && url[x] == Nul
    ensures url[n + 1..] == old(url[n + 1..])
  {
    ghost var out: string := [];
    x := 0;
    var y := 0;
    assert url[..][0..|s|] == s[0..];
    while url[y] != Nul
      invariant Decoding(url[..], s, x, y, out)
      invariant url[n..] == old(url[n..])
      decreases n - y
    {
      assert url[..][y..|s|][0] == url[y];
      var step := DecodeOne(url, x, y, s, out);
      out := out + [url[x]];
      x, y := x + 1, y + step;
      assert url[n..] == old(url[n..]);
    }
    url[x] := Nul;
    assert url[..x] == out;
    assert url[n + 1..] == old(url[n + 1..]) by {
      assert url[n + 1..] == url[n..][1..];
    }
  }

  /** One round of the loop: the character read at `y` is written at `x`, and nothing else changes. */
  method DecodeOne(url: array<char>, x: nat, y: nat, ghost s: string, ghost out: string) returns (step: nat)
    requires Decoding(url[..], s, x, y, out) && y < |s|
    modifies url
    ensures y + step <= |s| && Decoding(url[..], s, x + 1, y + step, out + [url[x]])
    ensures forall k :: 0 <= k < url.Length && k != x ==> url[k] == old(url[k])
  {
    ghost var a := url[..];
    assert url[y] == s[y] by { assert a[y..|s|][0] == a[y]; }
    if s[y] == '%' {
      assert y + 3 <= |s|;
      assert url[y + 1] == s[y + 1] && url[y + 2] == s[y + 2] by {
        assert a[y..|s|][1] == a[y + 1] && a[y..|s|][2] == a[y + 2];
      }
    }
    var w;
    w, step := ReadEscape(url, y, s);
    DecodeStep(s, y, out, w, step);
    url[x] := w;
    assert url[..x + 1] == out + [w];
    assert url[..][y + step..|s|] == s[y + step..] by {
      assert url[..][y + step..|s|] == a[y + step..|s|];
      assert a[y + step..|s|] == a[y..|s|][step..];
    }
  }

  /** The decoder's read at `url[y]`: the character a `%XY` escape or a plain character stands for, and its width. */
  method ReadEscape(url: array<char>, y: nat, ghost s: string) returns (w: char, step: nat)
    requires y < |s| <= url.Length && WellEscapedFrom(s, y)
    requires url[y] == s[y]
    requires s[y] == '%' ==> y + 3 <= |s| && url[y + 1] == s[y + 1] && url[y + 2] == s[y + 2]
    ensures s[y] == '%' ==> step == 3 && w == EscapedByte(s[y + 1], s[y + 2])
    ensures s[y] != '%' ==> step == 1 && w == s[y]
  {
    w, step := url[y], 1;
    if url[y] == '%' {
      w, step := EscapedByte(url[y + 1], url[y + 2]), 3;
    }
  }

  /** One step of the decoder at position `y`: the character it emits and how far it advances. */
  lemma DecodeStep(s: string, y: nat, out: string, w: char, step: nat)
    requires y < |s| && WellEscapedFrom(s, y)
    requires s[y] == '%' ==> step == 3 && w == EscapedByte(s[y + 1], s[y + 2])
    requires s[y] != '%' ==> step == 1 && w == s[y]
    ensures y + step <= |s| && WellEscapedFrom(s, y + step)
    ensures (out + [w]) + UnescapedFrom(s, y + step) == out + UnescapedFrom(s, y)
  {
  }

  /** `str` with every `oldc` replaced by `newc` and every other character kept. */
  function Replaced(s: string, oldc: char, newc: char): (r: string)
    ensures |r| == |s|
    ensures forall k :: 0 <= k < |s| && s[k] == oldc ==> r[k] == newc
    ensures forall k :: 0 <= k < |s| && s[k] != oldc ==> r[k] == s[k]
  {
    seq(|s|, k requires 0 <= k < |s| => if s[k] == oldc then newc else s[k])
  }

  /** Replacing twice changes nothing more. */
  lemma ReplacedIdempotent(s: string, oldc: char, newc: char)
    ensures Replaced(Replaced(s, oldc, newc), oldc, newc) == Replaced(s, oldc, newc)
    ensures oldc != newc ==> oldc !in Replaced(s, oldc, newc)
  {
  }

  /** `replacetochar` on the NUL-terminated string `str[..n]`, in place. */
  method ReplaceToChar(str: array<char>, n: nat, oldc: char, newc: char)
    requires n < str.Length && str[n] == Nul
    requires forall k :: 0 <= k < n ==> str[k] != Nul
    modifies str
    ensures str[..n] == Replaced(old(str[..n]), oldc, newc)
    ensures str[n..] == old(str[n..])
  {
    var x := 0;
    while str[x] != Nul
      invariant 0 <= x <= n
      invariant str[..x] == Replaced(old(str[..n]), oldc, newc)[..x]
      invariant str[x..] == old(str[x..])
      decreases n - x
    {
      if str[x] == oldc {
        str[x] := newc;
      }
      x := x + 1;
    }
  }

  // ---------------------------------------------------------------------------
  // Form values (section 17.13.4.1 of HTML 4.01): '+' stands for a space and
  // "%2B" for a plus sign.

  /** Replacing characters other than `%` by characters other than `%` keeps the escapes where they were. */
  lemma {:induction false} WellEscapedFromReplaced(s: string, oldc: char, newc: char, y: nat)
    requires oldc != '%' && newc != '%' && y <= |s|
    ensures WellEscapedFrom(Replaced(s, oldc, newc), y) <==> WellEscapedFrom(s, y)
    decreases |s| - y
  {
    var r := Replaced(s, oldc, newc);
    if y < |s| {
      assert r[y] == '%' <==> s[y] == '%';
      if s[y] == '%' {
        if y + 3 <= |s| {
          WellEscapedFromReplaced(s, oldc, newc, y + 3);
        }
      } else {
        WellEscapedFromReplaced(s, oldc, newc, y + 1);
      }
    }
  }

  /** Form decoding in the order `get_http_param_value` applies it: percent-decoding first, then '+' to space. */
  function FormDecodedAsWritten(v: string): (r: string)
    requires WellEscaped(v)
    ensures '+' !in r
  {
    Replaced(Unescaped(v), '+', ' ')
  }

  /** Form decoding in the order the encoding requires: '+' to space first, then percent-decoding. */
  function FormDecoded(v: string): (r: string)
    requires WellEscaped(v)
    ensures |r| <= |v|
  {
    WellEscapedFromReplaced(v, '+', ' ', 0);
    Unescaped(Replaced(v, '+', ' '))
  }

  /** A percent-encoding holds no '+'. */
  lemma {:induction false} PercentEncodedHasNoPlus(s: string)
    requires IsBytes(s)
    ensures '+' !in PercentEncoded(s)
  {
    if s != [] {
      var b := s[0] as int;
      PercentEncodedHasNoPlus(s[1..]);
      assert PercentEncoded(s) == ['%', HexUpper(b / 16), HexUpper(b % 16)] + PercentEncoded(s[1..]);
    }
  }

  /** Form decoding undoes percent-encoding of every byte string, plus signs included. */
  lemma FormDecodedPercentEncoded(s: string)
    requires IsBytes(s)
    ensures WellEscaped(PercentEncoded(s)) && FormDecoded(PercentEncoded(s)) == s
  {
    UnescapedPercentEncoded(s);
    PercentEncodedHasNoPlus(s);
    var e := PercentEncoded(s);
    assert Replaced(e, '+', ' ') == e;
  }

  /** The as-written order turns an escaped plus sign into a space. */
  lemma EscapedPlusDecodedAsSpace(v: string)
    requires v == "%2B"
    ensures WellEscaped(v)
    ensures FormDecodedAsWritten(v) == " "
    ensures FormDecoded(v) == "+"
  {
    assert WellEscapedFrom(v, 3);
    assert Unescaped(v) == [EscapedByte('2', 'B')] + UnescapedFrom(v, 3);
    assert Replaced(v, '+', ' ') == v;
  }
}
