/**
 * UTF-8 as defined in section 4 of RFC 3629, as far as the buffering
 * adapters use it through `core::str::from_utf8`: decoding a byte buffer,
 * the length of its longest valid prefix (`Utf8Error::valid_up_to`) and the
 * byte length of a string (`str::len`).
 */
module Utf8 {
  import opened Wrappers

  newtype byte = b: int | 0 <= b < 0x100

  /** UTF8-tail of RFC 3629: 0x80..0xBF. */
  predicate IsTail(b: byte) {
    0x80 <= b <= 0xBF
  }

  /** The second byte of a three-byte sequence led by `lead` (UTF8-3). */
  predicate SecondOf3(lead: byte, b: byte) {
    if lead == 0xE0 then 0xA0 <= b <= 0xBF
    else if lead == 0xED then 0x80 <= b <= 0x9F
    else IsTail(b)
  }

  /** The second byte of a four-byte sequence led by `lead` (UTF8-4). */
  predicate SecondOf4(lead: byte, b: byte) {
    if lead == 0xF0 then 0x90 <= b <= 0xBF
    else if lead == 0xF4 then 0x80 <= b <= 0x8F
    else IsTail(b)
  }

  /** The number of bytes UTF-8 uses for `c`. */
  function Width(c: char): (w: nat)
    ensures 1 <= w <= 4
  {
    var n := c as int;
    if n < 0x80 then 1 else if n < 0x800 then 2 else if n < 0x1_0000 then 3 else 4
  }

  /**
   * Byte length of the UTF-8 encoding of `s` (Rust's `str::len`): between
   * one and four bytes per character.
   */
  function Utf8Length(s: string): (n: nat)
    ensures |s| <= n <= 4 * |s|
  {
    if s == [] then 0 else Width(s[0]) + Utf8Length(s[1..])
  }

  /**
   * The character that `b` starts with and the number of bytes it takes,
   * following the UTF8-char rule of RFC 3629 section 4; None when `b` does
   * not start with a complete, valid sequence (empty, truncated, overlong,
   * surrogate, beyond U+10FFFF, or a stray tail byte).
   */
  function DecodeFirst(b: seq<byte>): (r: Option<(char, nat)>)
    ensures r.Some? ==> 1 <= r.value.1 <= |b| && Width(r.value.0) == r.value.1
    ensures r.Some? ==> (b[0] < 0x80 <==> r.value.1 == 1)
  {
    if |b| == 0 then None
    else if b[0] < 0x80 then Some((b[0] as int as char, 1))
    else if 0xC2 <= b[0] <= 0xDF then
      if |b| >= 2 && IsTail(b[1])
      then Some((((b[0] as int - 0xC0) * 0x40 + (b[1] as int - 0x80)) as char, 2))
      else None
    else if 0xE0 <= b[0] <= 0xEF then
      if |b| >= 3 && SecondOf3(b[0], b[1]) && IsTail(b[2])
      then Some((((b[0] as int - 0xE0) * 0x1000 + (b[1] as int - 0x80) * 0x40
                  + (b[2] as int - 0x80)) as char, 3))
      else None
    else if 0xF0 <= b[0] <= 0xF4 then
      if |b| >= 4 && SecondOf4(b[0], b[1]) && IsTail(b[2]) && IsTail(b[3])
      then Some((((b[0] as int - 0xF0) * 0x4_0000 + (b[1] as int - 0x80) * 0x1000
                  + (b[2] as int - 0x80) * 0x40 + (b[3] as int - 0x80)) as char, 4))
      else None
    else None
  }

  /** `b` is a sequence of complete UTF-8 characters (UTF8-octets of RFC 3629). */
  predicate WellFormed(b: seq<byte>)
    decreases |b|
  {
    b == [] || (DecodeFirst(b).Some? && WellFormed(b[DecodeFirst(b).value.1..]))
  }

  /**
   * Length of the longest valid prefix of `b` (`Utf8Error::valid_up_to`):
   * zero exactly when `b` does not start with a valid character, all of `b`
   * exactly when `b` is well formed.
   */
  function ValidLen(b: seq<byte>): (n: nat)
    ensures n <= |b|
    ensures n == 0 <==> DecodeFirst(b).None?
    ensures n == |b| <==> WellFormed(b)
    decreases |b|
  {
    match DecodeFirst(b)
    case None => 0
    case Some((_, w)) => w + ValidLen(b[w..])
  }

  /** The characters of the longest valid prefix of `b`. */
  function Decoded(b: seq<byte>): (s: string)
    ensures Utf8Length(s) == ValidLen(b)
    ensures |s| <= ValidLen(b)
    decreases |b|
  {
    match DecodeFirst(b)
    case None => []
    case Some((c, w)) => [c] + Decoded(b[w..])
  }

  datatype Utf8Error = Utf8Error(validUpTo: nat)

  /** `core::str::from_utf8`: the whole of `b` must be valid. */
  function FromUtf8(b: seq<byte>): (r: Result<string, Utf8Error>)
    ensures r.Ok? <==> WellFormed(b)
    ensures r.Ok? ==> r.value == Decoded(b) && Utf8Length(r.value) == |b|
    ensures r.Err? ==> r.error.validUpTo < |b| && WellFormed(b[..r.error.validUpTo])
    ensures r.Err? ==> r.error.validUpTo == ValidLen(b)
  {
    ValidLenIsLongest(b);
    assert b[..|b|] == b;
    if ValidLen(b) == |b| then Ok(Decoded(b)) else Err(Utf8Error(ValidLen(b)))
  }

  /**
   * The adapters' own `from_utf8`: decode strictly, and on failure decode
   * again up to `valid_up_to`. The second attempt cannot fail, so the result
   * is always the longest valid prefix, decoded.
   */
  function FromUtf8Lenient(b: seq<byte>): (r: Result<string, Utf8Error>)
    ensures r == Ok(Decoded(b))
    ensures Utf8Length(r.value) == ValidLen(b)
  {
    match FromUtf8(b)
    case Ok(s) => Ok(s)
    case Err(e) =>
      TruncateKeepsValidPrefix(b, e.validUpTo);
      FromUtf8(b[..e.validUpTo])
  }

  /** Dropping a non-empty prefix of a string drops at least one byte of its encoding. */
  lemma SuffixUtf8Length(s: string, rest: string)
    requires |rest| < |s| && s[|s| - |rest|..] == rest
    ensures 0 < Utf8Length(s) - Utf8Length(rest) <= Utf8Length(s)
  {
    var prefix := s[..|s| - |rest|];
    assert s == prefix + rest;
    Utf8LengthAppend(prefix, rest);
  }

  /** A valid sequence decodes the same wherever it is followed by other bytes. */
  lemma DecodeFirstLocal(b: seq<byte>, b': seq<byte>)
    requires DecodeFirst(b).Some?
    requires DecodeFirst(b).value.1 <= |b'| && b'[..DecodeFirst(b).value.1] == b[..DecodeFirst(b).value.1]
    ensures DecodeFirst(b') == DecodeFirst(b)
  {
    var w := DecodeFirst(b).value.1;
    assert b'[0] == b[..w][0];
    if w >= 2 { assert b'[1] == b[..w][1]; }
    if w >= 3 { assert b'[2] == b[..w][2]; }
    if w >= 4 { assert b'[3] == b[..w][3]; }
  }

  /** A character decoded from a prefix of `b` is the one `b` starts with. */
  lemma DecodeFirstOfPrefix(b: seq<byte>, n: nat)
    requires n <= |b|
    ensures DecodeFirst(b[..n]).Some? ==> DecodeFirst(b) == DecodeFirst(b[..n])
  {
    hide DecodeFirst;
    if DecodeFirst(b[..n]).Some? {
      var w := DecodeFirst(b[..n]).value.1;
      assert b[..n][..w] == b[..w];
      DecodeFirstLocal(b[..n], b);
    }
  }

  /** ValidLen(b) is the length of the LONGEST well-formed prefix of `b`. */
  lemma {:induction false} ValidLenIsLongest(b: seq<byte>)
    ensures WellFormed(b[..ValidLen(b)])
    ensures forall n :: ValidLen(b) < n <= |b| ==> !WellFormed(b[..n])
    decreases |b|
  {
    hide DecodeFirst;
    match DecodeFirst(b)
    case None =>
      forall n | 0 < n <= |b| ensures !WellFormed(b[..n]) {
        DecodeFirstOfPrefix(b, n);
      }
    case Some((c, w)) =>
      var v := ValidLen(b[w..]);
      ValidLenIsLongest(b[w..]);
      assert b[..w + v][..w] == b[..w];
      DecodeFirstLocal(b, b[..w + v]);
      assert b[..w + v][w..] == b[w..][..v];
      forall n | w + v < n <= |b| ensures !WellFormed(b[..n]) {
        assert b[..n][..w] == b[..w];
        DecodeFirstLocal(b, b[..n]);
        assert b[..n][w..] == b[w..][..n - w];
      }
  }

  /** Cutting `b` anywhere at or after its longest valid prefix keeps that prefix. */
  lemma {:induction false} TruncateKeepsValidPrefix(b: seq<byte>, k: nat)
    requires ValidLen(b) <= k <= |b|
    ensures ValidLen(b[..k]) == ValidLen(b) && Decoded(b[..k]) == Decoded(b)
    decreases |b|
  {
    hide DecodeFirst, WellFormed, Utf8Length;
    match DecodeFirst(b)
    case None =>
      DecodeFirstOfPrefix(b, k);
    case Some((c, w)) =>
      TruncateAfterFirst(b, k);
      TruncateKeepsValidPrefix(b[w..], k - w);
  }

  /** Cutting `b` after its first character keeps that character, and cuts what follows it. */
  lemma TruncateAfterFirst(b: seq<byte>, k: nat)
    requires DecodeFirst(b).Some? && DecodeFirst(b).value.1 <= k <= |b|
    ensures var w := DecodeFirst(b).value.1;
      DecodeFirst(b[..k]) == DecodeFirst(b) && b[..k][w..] == b[w..][..k - w]
  {
    hide DecodeFirst;
    var w := DecodeFirst(b).value.1;
    assert b[..k][..w] == b[..w];
    DecodeFirstLocal(b, b[..k]);
  }

  /**
   * Appending bytes never changes the decoding of what was already valid:
   * it only extends it, by the decoding of the undecoded tail plus the new bytes.
   */
  lemma {:induction false} DecodedAppend(b: seq<byte>, c: seq<byte>)
    ensures Decoded(b + c) == Decoded(b) + Decoded(b[ValidLen(b)..] + c)
    decreases |b|
  {
    hide DecodeFirst;
    if DecodeFirst(b).None? {
      assert b[0..] == b;
    } else {
      var w := DecodeFirst(b).value.1;
      DecodedAppend(b[w..], c);
      DecodedAppendAfterFirst(b, c);
    }
  }

  /** The step of `DecodedAppend` past the first character of `b`. */
  lemma DecodedAppendAfterFirst(b: seq<byte>, c: seq<byte>)
    requires DecodeFirst(b).Some?
    requires var t := b[DecodeFirst(b).value.1..];
      Decoded(t + c) == Decoded(t) + Decoded(t[ValidLen(t)..] + c)
    ensures Decoded(b + c) == Decoded(b) + Decoded(b[ValidLen(b)..] + c)
  {
    hide DecodeFirst, Decoded, ValidLen;
    var (ch, w) := DecodeFirst(b).value;
    var t := b[w..];
    FirstCharSurvivesAppend(b, c);
    var k := ValidLen(t);
    assert b[ValidLen(b)..] == t[k..];
    var d := Decoded(t[k..] + c);
    assert [ch] + (Decoded(t) + d) == [ch] + Decoded(t) + d;
  }

  /** The first character of `b` is still the first one after bytes are appended. */
  lemma FirstCharSurvivesAppend(b: seq<byte>, c: seq<byte>)
    requires DecodeFirst(b).Some?
    ensures var w := DecodeFirst(b).value.1;
      && DecodeFirst(b + c) == DecodeFirst(b)
      && (b + c)[w..] == b[w..] + c
      && ValidLen(b) == w + ValidLen(b[w..])
      && Decoded(b) == [DecodeFirst(b).value.0] + Decoded(b[w..])
      && Decoded(b + c) == [DecodeFirst(b).value.0] + Decoded(b[w..] + c)
  {
    hide DecodeFirst;
    var w := DecodeFirst(b).value.1;
    assert (b + c)[..w] == b[..w];
    DecodeFirstLocal(b, b + c);
    assert (b + c)[w..] == b[w..] + c;
  }

  /**
   * Where the decoding of `b` splits into `u` and then `v`, the bytes after
   * the encoding of `u` decode to `v`, and they are valid exactly when all of
   * `b` is.
   */
  lemma {:induction false} DecodedSplit(b: seq<byte>, u: string, v: string)
    requires Decoded(b) == u + v
    ensures Utf8Length(u) <= |b|
    ensures Decoded(b[Utf8Length(u)..]) == v
    ensures WellFormed(b) <==> WellFormed(b[Utf8Length(u)..])
    decreases |u|
  {
    hide DecodeFirst, ValidLen;
    if u == [] {
      assert u + v == v && b[0..] == b;
    } else {
      var (c, w) := DecodeFirst(b).value;
      assert Decoded(b) == [c] + Decoded(b[w..]);
      assert c == u[0] && Decoded(b[w..]) == u[1..] + v;
      assert Utf8Length(u) == w + Utf8Length(u[1..]);
      hide Utf8Length, Decoded;
      DecodedSplit(b[w..], u[1..], v);
      assert b[w..][Utf8Length(u[1..])..] == b[Utf8Length(u)..];
    }
  }

  lemma {:induction false} Utf8LengthAppend(u: string, v: string)
    ensures Utf8Length(u + v) == Utf8Length(u) + Utf8Length(v)
  {
    if u == [] {
      assert u + v == v;
    } else {
      assert (u + v)[0] == u[0];
      assert (u + v)[1..] == u[1..] + v;
      Utf8LengthAppend(u[1..], v);
    }
  }

}
