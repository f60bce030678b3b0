/** Go's `[]byte(s)` conversion: the UTF-8 bytes of a string (section 3 of RFC 3629).
    The decoder is the partner that shows the conversion loses nothing. */
module Utf8 {
  import opened Results

  newtype byte = x: int | 0 <= x < 256

  type Bytes = seq<byte>

  /** The one to four bytes that encode one Unicode scalar value. */
  function EncodeChar(c: char): (r: Bytes)
    ensures 1 <= |r| <= 4
    ensures |r| == 1 <==> c as int < 0x80
  {
    var n := c as int;
    var q1 := n / 64;
    var q2 := q1 / 64;
    var q3 := q2 / 64;
    if n < 0x80 then [n as byte]
    else if n < 0x800 then [(0xC0 + q1) as byte, (0x80 + n % 64) as byte]
    else if n < 0x10000 then [(0xE0 + q2) as byte, (0x80 + q1 % 64) as byte, (0x80 + n % 64) as byte]
    else [(0xF0 + q3) as byte, (0x80 + q2 % 64) as byte, (0x80 + q1 % 64) as byte, (0x80 + n % 64) as byte]
  }

  function Encode(s: string): (r: Bytes)
    ensures |r| >= |s|
  {
    if |s| == 0 then [] else EncodeChar(s[0]) + Encode(s[1..])
  }

  predicate IsContinuation(b: byte) {
    0x80 <= b < 0xC0
  }

  /** Decodes the character that starts `b`, with the number of bytes it used;
      `None` for a malformed, overlong or surrogate sequence. */
  function DecodeChar(b: Bytes): (r: Option<(char, nat)>)
    requires |b| > 0
    ensures r.Some? ==> 1 <= r.value.1 <= |b|
  {
    var b0 := b[0] as int;
    if b0 < 0x80 then
      Some((b0 as char, 1))
    else if 0xC0 <= b0 < 0xE0 && |b| >= 2 && IsContinuation(b[1]) then
      var n := (b0 - 0xC0) * 64 + (b[1] as int - 0x80);
      if n < 0x80 then None else Some((n as char, 2))
    else if 0xE0 <= b0 < 0xF0 && |b| >= 3 && IsContinuation(b[1]) && IsContinuation(b[2]) then
      var n := ((b0 - 0xE0) * 64 + (b[1] as int - 0x80)) * 64 + (b[2] as int - 0x80);
      if n < 0x800 || (0xD800 <= n < 0xE000) then None else Some((n as char, 3))
    else if 0xF0 <= b0 < 0xF8 && |b| >= 4 && IsContinuation(b[1]) && IsContinuation(b[2]) && IsContinuation(b[3]) then
      var n := (((b0 - 0xF0) * 64 + (b[1] as int - 0x80)) * 64 + (b[2] as int - 0x80)) * 64 + (b[3] as int - 0x80);
      if n < 0x10000 || n >= 0x110000 then None else Some((n as char, 4))
    else
      None
  }

  function Decode(b: Bytes): Option<string>
    decreases |b|
  {
    if |b| == 0 then Some([])
    else match DecodeChar(b)
      case None => None
      case Some((c, len)) =>
        match Decode(b[len..])
        case None => None
        case Some(rest) => Some([c] + rest)
  }

  lemma DecodeCharOfEncodeChar(c: char, rest: Bytes)
    ensures DecodeChar(EncodeChar(c) + rest) == Some((c, |EncodeChar(c)|))
  {
    var n := c as int;
    var q1 := n / 64;
    var q2 := q1 / 64;
    assert n == q1 * 64 + n % 64;
    assert q1 == q2 * 64 + q1 % 64;
    assert q2 == (q2 / 64) * 64 + q2 % 64;
  }

  /** Encoding then decoding gives the string back, so the encoding is injective. */
  lemma {:induction false} DecodeEncode(s: string)
    ensures Decode(Encode(s)) == Some(s)
    decreases |s|
  {
    if |s| > 0 {
      var e := EncodeChar(s[0]);
      DecodeCharOfEncodeChar(s[0], Encode(s[1..]));
      assert Encode(s)[|e|..] == Encode(s[1..]);
      DecodeEncode(s[1..]);
      assert [s[0]] + s[1..] == s;
    }
  }

  lemma DecodeEncodeAll()
    ensures forall s :: Decode(Encode(s)) == Some(s)
  {
    forall s {
      DecodeEncode(s);
    }
  }

  lemma EncodeInjective(s: string, t: string)
    requires Encode(s) == Encode(t)
    ensures s == t
  {
    DecodeEncode(s);
    DecodeEncode(t);
  }

  /** Splitting off the low six bits of `a * 64 + d`. */
  lemma Split64(a: int, d: int)
    requires a >= 0 && 0 <= d < 64
    ensures (a * 64 + d) / 64 == a && (a * 64 + d) % 64 == d
  {
  }

  lemma EncodeCharOfDecode2(b: Bytes, c: char)
    requires |b| >= 2 && DecodeChar(b) == Some((c, 2))
    ensures b[..2] == EncodeChar(c)
  {
    var b0 := b[0] as int;
    var n := (b0 - 0xC0) * 64 + (b[1] as int - 0x80);
    assert 0xC0 <= b0 < 0xE0 && IsContinuation(b[1]);
    assert c as int == n;
    Split64(b0 - 0xC0, b[1] as int - 0x80);
  }

  lemma EncodeCharOfDecode3(b: Bytes, c: char)
    requires |b| >= 3 && DecodeChar(b) == Some((c, 3))
    ensures b[..3] == EncodeChar(c)
  {
    var b0 := b[0] as int;
    var m := (b0 - 0xE0) * 64 + (b[1] as int - 0x80);
    var n := m * 64 + (b[2] as int - 0x80);
    assert 0xE0 <= b0 < 0xF0 && IsContinuation(b[1]) && IsContinuation(b[2]);
    assert c as int == n;
    Split64(m, b[2] as int - 0x80);
    Split64(b0 - 0xE0, b[1] as int - 0x80);
  }

  lemma EncodeCharOfDecode4(b: Bytes, c: char)
    requires |b| >= 4 && DecodeChar(b) == Some((c, 4))
    ensures b[..4] == EncodeChar(c)
  {
    var b0 := b[0] as int;
    var l := (b0 - 0xF0) * 64 + (b[1] as int - 0x80);
    var m := l * 64 + (b[2] as int - 0x80);
    var n := m * 64 + (b[3] as int - 0x80);
    assert 0xF0 <= b0 < 0xF8 && IsContinuation(b[1]) && IsContinuation(b[2]) && IsContinuation(b[3]);
    assert c as int == n;
    Split64(m, b[3] as int - 0x80);
    Split64(l, b[2] as int - 0x80);
    Split64(b0 - 0xF0, b[1] as int - 0x80);
  }

  /** The decoder accepts only the shortest form: the bytes it reads for a character
      are exactly that character's encoding. */
  lemma EncodeCharOfDecodeChar(b: Bytes, c: char, k: nat)
    requires |b| > 0 && DecodeChar(b) == Some((c, k))
    ensures k <= |b| && b[..k] == EncodeChar(c)
  {
    if k == 1 {
      assert b[0] as int < 0x80;
    } else if k == 2 {
      EncodeCharOfDecode2(b, c);
    } else if k == 3 {
      EncodeCharOfDecode3(b, c);
    } else {
      EncodeCharOfDecode4(b, c);
    }
  }

  /** A successful decode of a non-empty input reads the encoding of its first
      character and then decodes what remains. */
  lemma DecodeHead(b: Bytes) returns (c: char, k: nat, rest: string)
    requires |b| > 0 && Decode(b).Some?
    ensures 0 < k <= |b| && b[..k] == EncodeChar(c)
    ensures Decode(b[k..]) == Some(rest) && Decode(b).value == [c] + rest
  {
    c := DecodeChar(b).value.0;
    k := DecodeChar(b).value.1;
    rest := Decode(b[k..]).value;
    EncodeCharOfDecodeChar(b, c, k);
  }

  /** Only the encoding of `s` decodes to `s`, so a value pinned by its decoding is
      pinned byte for byte. */
  lemma {:induction false} DecodeCanonical(b: Bytes, s: string)
    requires Decode(b) == Some(s)
    ensures b == Encode(s)
    decreases |b|
  {
    if |b| > 0 {
      var c, k, rest := DecodeHead(b);
      DecodeCanonical(b[k..], rest);
      assert s[0] == c && s[1..] == rest;
      assert Encode(s) == EncodeChar(c) + Encode(rest);
      assert b == b[..k] + b[k..];
    }
  }

  /** An ASCII string encodes to one byte per character, each the character's code. */
  lemma {:induction false} EncodeAscii(s: string)
    requires forall i :: 0 <= i < |s| ==> s[i] as int < 0x80
    ensures |Encode(s)| == |s|
    ensures forall i :: 0 <= i < |s| ==> Encode(s)[i] as int == s[i] as int
    decreases |s|
  {
    if |s| > 0 {
      EncodeAscii(s[1..]);
    }
  }
}
