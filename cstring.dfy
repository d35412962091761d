/**
  The pieces of the C library and of `sprintf` that the firmware's string code
  relies on: `strtok`, `strstr`, the end-of-string marker, and the `%d`/`%.2x`
  renderings.  A C string is modelled by the characters before its NUL; a byte
  is a character below 256.
 */
module CString {
  import opened Wrappers
  import opened CTypes

  const Nul: char := '\0'

  /** Every character is a byte value (the firmware only handles `uint8_t` text). */
  predicate IsBytes(s: string) {
    forall k :: 0 <= k < |s| ==> s[k] as int < 256
  }

  /** The bytes of a byte string, as `memcpy` would copy them. */
  function Bytes(s: string): (r: seq<uint8>)
    requires IsBytes(s)
    ensures |r| == |s| && forall k :: 0 <= k < |s| ==> r[k] == s[k] as int
  {
    seq(|s|, k requires 0 <= k < |s| => s[k] as int)
  }

  /** A `strtok` token: non-empty and free of delimiters. */
  predicate IsToken(t: string, delims: string) {
    |t| > 0 && forall k :: 0 <= k < |t| ==> t[k] !in delims
  }

  /** The first position at or after `pos` that holds no delimiter. */
  function SkipDelims(s: string, pos: nat, delims: string): (r: nat)
    requires pos <= |s|
    ensures pos <= r <= |s|
    decreases |s| - pos
  {
    if pos == |s| || s[pos] !in delims then pos else SkipDelims(s, pos + 1, delims)
  }

  lemma {:induction false} SkipDelimsSpec(s: string, pos: nat, delims: string)
    requires pos <= |s|
    ensures forall k :: pos <= k < SkipDelims(s, pos, delims) ==> s[k] in delims
    ensures SkipDelims(s, pos, delims) < |s| ==> s[SkipDelims(s, pos, delims)] !in delims
    decreases |s| - pos
  {
    if pos < |s| && s[pos] in delims {
      SkipDelimsSpec(s, pos + 1, delims);
    }
  }

  /** The first position at or after `pos` that holds a delimiter, or the end. */
  function TokenEnd(s: string, pos: nat, delims: string): (r: nat)
    requires pos <= |s|
    ensures pos <= r <= |s|
    decreases |s| - pos
  {
    if pos == |s| || s[pos] in delims then pos else TokenEnd(s, pos + 1, delims)
  }

  lemma {:induction false} TokenEndSpec(s: string, pos: nat, delims: string)
    requires pos <= |s|
    ensures forall k :: pos <= k < TokenEnd(s, pos, delims) ==> s[k] !in delims
    ensures TokenEnd(s, pos, delims) < |s| ==> s[TokenEnd(s, pos, delims)] in delims
    decreases |s| - pos
  {
    if pos < |s| && s[pos] !in delims {
      TokenEndSpec(s, pos + 1, delims);
    }
  }

  /**
    One call of `strtok` that continues at the saved position `pos`: leading
    delimiters are skipped; at the end of the string the result is NULL;
    otherwise the token runs to the next delimiter, which `strtok` overwrites
    with NUL, and the saved position moves past it.
   */
  function Strtok(s: string, pos: nat, delims: string): (r: Option<(string, nat)>)
    requires pos <= |s|
    ensures r.Some? ==> pos < r.value.1 <= |s|
    ensures r.None? <==> forall k :: pos <= k < |s| ==> s[k] in delims
    ensures r.Some? ==> IsToken(r.value.0, delims)
  {
    SkipDelimsSpec(s, pos, delims);
    var start := SkipDelims(s, pos, delims);
    if start == |s| then None
    else
      TokenEndSpec(s, start, delims);
      var end := TokenEnd(s, start, delims);
      Some((s[start..end], if end < |s| then end + 1 else end))
  }

  /**
    One `strtok` call as a description of the text: from `pos` to `start`
    only delimiters, then `tok` at `start`, which ends at a delimiter or at the
    end of the string, and the saved position `next` one past that delimiter.
   */
  predicate TokenAt(s: string, pos: nat, start: nat, tok: string, next: nat, delims: string) {
    && pos <= start && start + |tok| <= |s| && s[start..start + |tok|] == tok
    && (forall k :: pos <= k < start ==> s[k] in delims)
    && (start + |tok| == |s| || s[start + |tok|] in delims)
    && next == (if start + |tok| < |s| then start + |tok| + 1 else |s|)
  }

  /** Every token `strtok` returns is found in the text as `TokenAt` describes it. */
  lemma StrtokResult(s: string, pos: nat, delims: string)
    requires pos <= |s|
    ensures Strtok(s, pos, delims).Some? ==>
      exists start :: TokenAt(s, pos, start, Strtok(s, pos, delims).value.0, Strtok(s, pos, delims).value.1, delims)
  {
    SkipDelimsSpec(s, pos, delims);
    var start := SkipDelims(s, pos, delims);
    if start < |s| {
      TokenEndSpec(s, start, delims);
      var end := TokenEnd(s, start, delims);
      var tok := Strtok(s, pos, delims).value.0;
      assert tok == s[start..end] && start + |tok| == end;
      assert TokenAt(s, pos, start, tok, Strtok(s, pos, delims).value.1, delims);
    }
  }



  /** All tokens that repeated `strtok` calls return, starting at `pos`. */
  function TokensFrom(s: string, pos: nat, delims: string): (r: seq<string>)
    requires pos <= |s|
    decreases |s| - pos
  {
    var r := Strtok(s, pos, delims);
    if r.None? then [] else [r.value.0] + TokensFrom(s, r.value.1, delims)
  }

  /** While tokens remain, the next `strtok` call returns the first of them. */
  lemma TokensFromStep(s: string, pos: nat, delims: string)
    requires pos <= |s| && TokensFrom(s, pos, delims) != []
    ensures Strtok(s, pos, delims).Some?
    ensures TokensFrom(s, pos, delims) == [Strtok(s, pos, delims).value.0] + TokensFrom(s, Strtok(s, pos, delims).value.1, delims)
  {
  }

  function Tokens(s: string, delims: string): seq<string> {
    TokensFrom(s, 0, delims)
  }

  /** `strtok` with an empty delimiter set returns the whole rest of the string. */
  lemma StrtokNoDelims(s: string, pos: nat)
    requires pos <= |s|
    ensures pos == |s| ==> Strtok(s, pos, "").None?
    ensures pos < |s| ==> Strtok(s, pos, "") == Some((s[pos..], |s|))
  {
    if pos < |s| {
      assert SkipDelims(s, pos, "") == pos;
      TokenEndSpec(s, pos, "");
      assert TokenEnd(s, pos, "") == |s|;
      assert s[pos..|s|] == s[pos..];
    }
  }

  /** Every token `strtok` returns is non-empty and free of delimiters. */
  lemma {:induction false} TokensFromAreTokens(s: string, pos: nat, delims: string)
    requires pos <= |s|
    ensures forall k :: 0 <= k < |TokensFrom(s, pos, delims)| ==> IsToken(TokensFrom(s, pos, delims)[k], delims)
    decreases |s| - pos
  {
    var t := Strtok(s, pos, delims);
    if t.Some? {
      TokensFromAreTokens(s, t.value.1, delims);
    }
  }

  /** Text placed in front of the string does not change what `SkipDelims` finds after it. */
  lemma {:induction false} SkipDelimsShift(p: string, r: string, i: nat, delims: string)
    requires i <= |r|
    ensures SkipDelims(p + r, |p| + i, delims) == |p| + SkipDelims(r, i, delims)
    decreases |r| - i
  {
    if i < |r| {
      assert (p + r)[|p| + i] == r[i];
      if r[i] in delims {
        SkipDelimsShift(p, r, i + 1, delims);
      }
    }
  }

  lemma {:induction false} TokenEndShift(p: string, r: string, i: nat, delims: string)
    requires i <= |r|
    ensures TokenEnd(p + r, |p| + i, delims) == |p| + TokenEnd(r, i, delims)
    decreases |r| - i
  {
    if i < |r| {
      assert (p + r)[|p| + i] == r[i];
      if r[i] !in delims {
        TokenEndShift(p, r, i + 1, delims);
      }
    }
  }

  /** One `strtok` call inside `r` gives the same token when `r` follows other text. */
  lemma StrtokShift(p: string, r: string, i: nat, delims: string)
    requires i <= |r|
    ensures Strtok(r, i, delims).None? ==> Strtok(p + r, |p| + i, delims).None?
    ensures Strtok(r, i, delims).Some? ==>
      Strtok(p + r, |p| + i, delims) == Some((Strtok(r, i, delims).value.0, |p| + Strtok(r, i, delims).value.1))
  {
    SkipDelimsShift(p, r, i, delims);
    var start := SkipDelims(r, i, delims);
    if start < |r| {
      TokenEndShift(p, r, start, delims);
      SliceOfAppend(p, r, start, TokenEnd(r, start, delims));
    }
  }

  /** `strtok` continuing inside `r` behaves the same when `r` follows other text. */
  lemma {:induction false} TokensFromShift(p: string, r: string, i: nat, delims: string)
    requires i <= |r|
    ensures TokensFrom(p + r, |p| + i, delims) == TokensFrom(r, i, delims)
    decreases |r| - i
  {
    StrtokShift(p, r, i, delims);
    var t := Strtok(r, i, delims);
    if t.Some? {
      TokensFromShift(p, r, t.value.1, delims);
    }
    TokensFromAligned(p + r, |p| + i, r, i, delims);
  }

  /**
    The step of `TokensFromShift` on two texts that agree from `j` in `q` and
    from `i` in `r`: the same first token, and the same tokens after it.
   */
  lemma TokensFromAligned(q: string, j: nat, r: string, i: nat, delims: string)
    requires i <= j <= |q| && i <= |r|
    requires Strtok(r, i, delims).None? ==> Strtok(q, j, delims).None?
    requires Strtok(r, i, delims).Some? ==>
      var t := Strtok(r, i, delims).value;
      && Strtok(q, j, delims) == Some((t.0, j - i + t.1))
      && TokensFrom(q, j - i + t.1, delims) == TokensFrom(r, t.1, delims)
    ensures TokensFrom(q, j, delims) == TokensFrom(r, i, delims)
  {
  }

  lemma SliceOfAppend(p: string, r: string, i: nat, j: nat)
    requires i <= j <= |r|
    ensures (p + r)[|p| + i..|p| + j] == r[i..j]
  {
    assert forall k :: 0 <= k < j - i ==> (p + r)[|p| + i..|p| + j][k] == r[i..j][k];
  }

  /** The tokens joined by the delimiter `d`, as a client would write a path or an address. */
  function Join(ts: seq<string>, d: char): string {
    if |ts| == 0 then []
    else if |ts| == 1 then ts[0]
    else ts[0] + [d] + Join(ts[1..], d)
  }

  /** Tokenising a joined list of tokens on a delimiter set containing the joiner gives the list back. */
  lemma {:induction false} TokensOfJoin(ts: seq<string>, d: char, delims: string)
    requires d in delims
    requires forall k :: 0 <= k < |ts| ==> IsToken(ts[k], delims)
    ensures Tokens(Join(ts, d), delims) == ts
    decreases |ts|
  {
    if |ts| == 1 {
      assert Join(ts, d) == ts[0] && ts == [ts[0]];
      TokensOfToken(ts[0], delims);
    } else if |ts| > 1 {
      assert Join(ts, d) == ts[0] + ([d] + Join(ts[1..], d));
      TokensOfCons(ts[0], d, Join(ts[1..], d), delims);
      TokensOfJoin(ts[1..], d, delims);
      assert ts == [ts[0]] + ts[1..];
    }
  }

  lemma TokensOfToken(t: string, delims: string)
    requires IsToken(t, delims)
    ensures Tokens(t, delims) == [t]
  {
    assert t == t + [];
    StrtokLeadingToken(t, [], delims);
    assert Strtok(t, |t|, delims).None?;
    assert TokensFrom(t, 0, delims) == [t] + TokensFrom(t, |t|, delims);
  }

  lemma TokensOfCons(t: string, d: char, j: string, delims: string)
    requires IsToken(t, delims) && d in delims
    ensures Tokens(t + ([d] + j), delims) == [t] + Tokens(j, delims)
  {
    assert t + ([d] + j) == (t + [d]) + j;
    StrtokLeadingToken(t, [d] + j, delims);
    assert Tokens(t + ([d] + j), delims) == [t] + TokensFrom((t + [d]) + j, |t + [d]| + 0, delims);
    TokensFromShift(t + [d], j, 0, delims);
  }

  /** A token at the front of the string, ended by a delimiter or by the end, is what `strtok` returns first. */
  lemma StrtokLeadingToken(t: string, rest: string, delims: string)
    requires IsToken(t, delims)
    requires rest == [] || rest[0] in delims
    ensures Strtok(t + rest, 0, delims) == Some((t, if rest == [] then |t| else |t| + 1))
  {
    var s := t + rest;
    assert s[0] == t[0];
    assert SkipDelims(s, 0, delims) == 0;
    TokenEndAt(s, 0, |t|, delims);
    assert s[0..|t|] == t;
  }

  lemma {:induction false} TokenEndAt(s: string, i: nat, e: nat, delims: string)
    requires i <= e <= |s|
    requires forall k :: i <= k < e ==> s[k] !in delims
    requires e == |s| || s[e] in delims
    ensures TokenEnd(s, i, delims) == e
    decreases e - i
  {
    if i < e {
      TokenEndAt(s, i + 1, e, delims);
    }
  }

  /** Leading delimiters are skipped, so a path and the same path after a `/` give the same tokens. */
  lemma {:induction false} TokensSkipLeading(d: char, s: string, delims: string)
    requires d in delims
    ensures Tokens([d] + s, delims) == Tokens(s, delims)
  {
    TokensFromSkip([d] + s, 0, delims);
    TokensFromShift([d], s, 0, delims);
  }

  /** A delimiter at the saved position is skipped without producing a token. */
  lemma TokensFromSkip(s: string, pos: nat, delims: string)
    requires pos < |s| && s[pos] in delims
    ensures TokensFrom(s, pos, delims) == TokensFrom(s, pos + 1, delims)
  {
    assert SkipDelims(s, pos, delims) == SkipDelims(s, pos + 1, delims);
    assert Strtok(s, pos, delims) == Strtok(s, pos + 1, delims);
  }

  /** `pat` occurs in `s` starting at index `k`. */
  predicate OccursAt(s: string, pat: string, k: nat) {
    k + |pat| <= |s| && s[k..k + |pat|] == pat
  }

  function FindFrom(s: string, pat: string, i: nat): (r: Option<nat>)
    ensures r.Some? ==> i <= r.value && OccursAt(s, pat, r.value)
    ensures r.Some? ==> forall k: nat :: i <= k < r.value ==> !OccursAt(s, pat, k)
    ensures r.None? ==> forall k: nat :: i <= k ==> !OccursAt(s, pat, k)
    decreases |s| - i
  {
    if i + |pat| > |s| then None
    else if OccursAt(s, pat, i) then Some(i)
    else FindFrom(s, pat, i + 1)
  }

  /** `strstr`: the index of the first occurrence of `pat` in `s`, or NULL. */
  function Find(s: string, pat: string): (r: Option<nat>)
    ensures r.Some? ==> OccursAt(s, pat, r.value) && forall k: nat :: k < r.value ==> !OccursAt(s, pat, k)
    ensures r.None? ==> forall k: nat :: !OccursAt(s, pat, k)
  {
    FindFrom(s, pat, 0)
  }

  /** The first occurrence found in a prefix stays the first one once text is appended. */
  lemma {:induction false} FindExtends(a: string, pat: string, b: string)
    requires Find(a, pat).Some?
    ensures Find(a + b, pat) == Find(a, pat)
  {
    var i := Find(a, pat).value;
    assert (a + b)[i..i + |pat|] == a[i..i + |pat|];
    forall k: nat | k < i
      ensures !OccursAt(a + b, pat, k)
    {
      assert !OccursAt(a, pat, k);
      assert (a + b)[k..k + |pat|] == a[k..k + |pat|];
    }
    FindFromUnique(a + b, pat, 0, i);
  }

  /** `FindFrom` returns `i` whenever `i` is the first occurrence at or after `j`. */
  lemma {:induction false} FindFromUnique(s: string, pat: string, j: nat, i: nat)
    requires j <= i && OccursAt(s, pat, i)
    requires forall k: nat :: j <= k < i ==> !OccursAt(s, pat, k)
    ensures FindFrom(s, pat, j) == Some(i)
    decreases i - j
  {
    if j < i {
      assert !OccursAt(s, pat, j);
      FindFromUnique(s, pat, j + 1, i);
    }
  }

  /** The characters before the first NUL: what C's string functions see of a buffer. */
  function CStr(s: string): (r: string)
    ensures |r| <= |s| && r == s[..|r|]
    ensures Nul !in r
    ensures |r| < |s| ==> s[|r|] == Nul
  {
    if s == [] || s[0] == Nul then [] else [s[0]] + CStr(s[1..])
  }

  function DigitChar(d: nat): (c: char)
    requires d < 10
    ensures '0' <= c <= '9'
  {
    ('0' as int + d) as char
  }

  /** `sprintf("%d", n)` for a non-negative `n`. */
  function Decimal(n: nat): (r: string)
    ensures |r| > 0 && forall k :: 0 <= k < |r| ==> '0' <= r[k] <= '9'
  {
    if n < 10 then [DigitChar(n)] else Decimal(n / 10) + [DigitChar(n % 10)]
  }

  function HexLower(d: nat): (c: char)
    requires d < 16
    ensures ('0' <= c <= '9') || ('a' <= c <= 'f')
  {
    if d < 10 then DigitChar(d) else ('a' as int + d - 10) as char
  }

  /** `sprintf("%.2x", b)` for a byte. */
  function HexByte(b: nat): (r: string)
    requires b < 256
    ensures |r| == 2
  {
    [HexLower(b / 16), HexLower(b % 16)]
  }

  /** `strcpy(dst, src)` for a NUL-free `src` that fits: the text and its terminator, nothing beyond. */
  method StrCpy(dst: array<char>, src: string)
    requires Nul !in src && |src| < dst.Length
    modifies dst
    ensures dst[..|src|] == src && dst[|src|] == Nul
    ensures dst[|src| + 1..] == old(dst[|src| + 1..])
  {
    var i := 0;
    while i < |src|
      invariant 0 <= i <= |src|
      invariant forall k :: 0 <= k < i ==> dst[k] == src[k]
      invariant forall k :: i <= k < dst.Length ==> dst[k] == old(dst[k])
    {
      dst[i] := src[i];
      i := i + 1;
    }
    dst[|src|] := Nul;
  }

  /** `strcpy(buf, buf + p)`: the string at `p`, ended by the NUL at `n`, moved to the front of its own buffer. */
  method StrCpyDown(buf: array<char>, p: nat, n: nat)
    requires p <= n < buf.Length && buf[n] == Nul
    requires forall k :: p <= k < n ==> buf[k] != Nul
    modifies buf
    ensures buf[..n - p] == old(buf[p..n]) && buf[n - p] == Nul
    ensures buf[n - p + 1..] == old(buf[n - p + 1..])
  {
    ghost var snap := buf[..];
    var i := 0;
    while buf[p + i] != Nul
      invariant 0 <= i <= n - p
      invariant forall k :: 0 <= k < i ==> buf[k] == snap[p + k]
      invariant forall k :: i <= k < buf.Length ==> buf[k] == snap[k]
      decreases n - p - i
    {
      buf[i] := buf[p + i];
      i := i + 1;
    }
    buf[i] := Nul;
    assert buf[..n - p] == snap[p..n];
  }
}
