/** UTF-8 as defined by RFC 3629: what `new TextEncoder().encode(str)`
    produces, and the strict decoder a mail client applies to it. */
module Utf8 {
  import opened Wrappers

  newtype byte = x: int | 0 <= x < 256

  /** A Unicode scalar value: the code points a Dafny `char` can hold. */
  predicate IsScalar(n: int) {
    0 <= n < 0xD800 || 0xE000 <= n < 0x11_0000
  }

  predicate IsContinuation(b: byte) {
    0x80 <= b < 0xC0
  }

  /** The one- to four-byte encoding of a code point (RFC 3629, section 3). */
  function EncodeChar(c: char): (r: seq<byte>)
    ensures 1 <= |r| <= 4
    ensures (|r| == 1) == (c as int < 0x80)
  {
    var n := c as int;
    if n < 0x80 then
      [n as byte]
    else if n < 0x800 then
      [(0xC0 + n / 0x40) as byte, (0x80 + n % 0x40) as byte]
    else if n < 0x1_0000 then
      [(0xE0 + n / 0x1000) as byte, (0x80 + n / 0x40 % 0x40) as byte, (0x80 + n % 0x40) as byte]
    else
      [(0xF0 + n / 0x4_0000) as byte, (0x80 + n / 0x1000 % 0x40) as byte,
       (0x80 + n / 0x40 % 0x40) as byte, (0x80 + n % 0x40) as byte]
  }

  /** `TextEncoder.encode`: the concatenated encodings of the characters. */
  function Encode(s: string): (r: seq<byte>)
    ensures |s| <= |r| <= 4 * |s|
  {
    if s == [] then [] else EncodeChar(s[0]) + Encode(s[1..])
  }

  function Payload(b: byte): int
    requires IsContinuation(b)
  {
    b as int - 0x80
  }

  /** Decodes the first code point of `b`, giving it and the number of bytes
      it took; None for a malformed, overlong or surrogate sequence. */
  function DecodeFirst(b: seq<byte>): (r: Option<(char, nat)>)
    requires b != []
    ensures r.Some? ==> 1 <= r.value.1 <= |b|
  {
    var b0 := b[0];
    if b0 < 0x80 then
      Some((b0 as int as char, 1))
    else if 0xC2 <= b0 < 0xE0 && 2 <= |b| && IsContinuation(b[1]) then
      Some((((b0 as int - 0xC0) * 0x40 + Payload(b[1])) as char, 2))
    else if 0xE0 <= b0 < 0xF0 && 3 <= |b| && IsContinuation(b[1]) && IsContinuation(b[2]) then
      var n := (b0 as int - 0xE0) * 0x1000 + Payload(b[1]) * 0x40 + Payload(b[2]);
      if 0x800 <= n && IsScalar(n) then Some((n as char, 3)) else None
    else if 0xF0 <= b0 < 0xF5 && 4 <= |b| && IsContinuation(b[1]) && IsContinuation(b[2]) && IsContinuation(b[3]) then
      var n := (b0 as int - 0xF0) * 0x4_0000 + Payload(b[1]) * 0x1000 + Payload(b[2]) * 0x40 + Payload(b[3]);
      if 0x1_0000 <= n < 0x11_0000 then Some((n as char, 4)) else None
    else
      None
  }

  /** Strict UTF-8 decoding: None unless every byte belongs to a well-formed
      sequence. */
  function Decode(b: seq<byte>): Option<string>
    decreases |b|
  {
    if b == [] then Some([])
    else match DecodeFirst(b)
      case None => None
      case Some((c, k)) =>
        match Decode(b[k..])
        case None => None
        case Some(rest) => Some([c] + rest)
  }

  /** Decoding the encoding of one character gives that character back and
      consumes exactly its bytes, whatever follows. */
  lemma DecodeFirstEncodeChar(c: char, rest: seq<byte>)
    ensures DecodeFirst(EncodeChar(c) + rest) == Some((c, |EncodeChar(c)|))
  {
    var n := c as int;
    if n < 0x80 {
    } else if n < 0x800 {
      DecodeTwo(c, rest);
    } else if n < 0x1_0000 {
      DecodeThree(c, rest);
    } else {
      DecodeFour(c, rest);
    }
  }

  lemma DecodeTwo(c: char, rest: seq<byte>)
    requires 0x80 <= c as int < 0x800
    ensures DecodeFirst(EncodeChar(c) + rest) == Some((c, 2))
  {
    var n := c as int;
    var hi, lo := n / 0x40, n % 0x40;
    assert n == hi * 0x40 + lo;
    var b := EncodeChar(c) + rest;
    assert b[0] as int == 0xC0 + hi && b[1] as int == 0x80 + lo;
  }

  lemma DecodeThree(c: char, rest: seq<byte>)
    requires 0x800 <= c as int < 0x1_0000
    ensures DecodeFirst(EncodeChar(c) + rest) == Some((c, 3))
  {
    var n := c as int;
    var q := n / 0x40;
    var x2 := n % 0x40;
    var x0, x1 := q / 0x40, q % 0x40;
    assert n == q * 0x40 + x2;
    assert q == x0 * 0x40 + x1;
    assert n / 0x1000 == x0;
    var b := EncodeChar(c) + rest;
    assert b[0] as int == 0xE0 + x0 && b[1] as int == 0x80 + x1 && b[2] as int == 0x80 + x2;
    assert (b[0] as int - 0xE0) * 0x1000 + Payload(b[1]) * 0x40 + Payload(b[2]) == n;
  }

  lemma DecodeFour(c: char, rest: seq<byte>)
    requires 0x1_0000 <= c as int
    ensures DecodeFirst(EncodeChar(c) + rest) == Some((c, 4))
  {
    var n := c as int;
    var q := n / 0x40;
    var x3 := n % 0x40;
    var q2 := q / 0x40;
    var x2 := q % 0x40;
    var x0, x1 := q2 / 0x40, q2 % 0x40;
    assert n == q * 0x40 + x3;
    assert q == q2 * 0x40 + x2;
    assert q2 == x0 * 0x40 + x1;
    assert n / 0x1000 == q2;
    assert n / 0x4_0000 == x0;
    var b := EncodeChar(c) + rest;
    assert b[0] as int == 0xF0 + x0 && b[1] as int == 0x80 + x1;
    assert b[2] as int == 0x80 + x2 && b[3] as int == 0x80 + x3;
    assert (b[0] as int - 0xF0) * 0x4_0000 + Payload(b[1]) * 0x1000 + Payload(b[2]) * 0x40 + Payload(b[3]) == n;
  }

  /** Round trip (RFC 3629): decoding the UTF-8 encoding of any string gives
      the string back. */
  lemma {:induction false} DecodeEncode(s: string)
    ensures Decode(Encode(s)) == Some(s)
  {
    if s != [] {
      var e := EncodeChar(s[0]);
      var rest := Encode(s[1..]);
      DecodeFirstEncodeChar(s[0], rest);
      assert (e + rest)[|e|..] == rest;
      DecodeEncode(s[1..]);
      assert [s[0]] + s[1..] == s;
    }
  }

  /** ASCII characters encode as the single byte of their code. */
  lemma EncodeAscii(s: string)
    requires forall i :: 0 <= i < |s| ==> s[i] as int < 0x80
    ensures |Encode(s)| == |s|
    ensures forall i :: 0 <= i < |s| ==> Encode(s)[i] as int == s[i] as int
  {
    if s != [] {
      EncodeAscii(s[1..]);
    }
  }

  lemma {:induction false} EncodeAppend(s: string, t: string)
    ensures Encode(s + t) == Encode(s) + Encode(t)
  {
    if s == [] {
      assert s + t == t;
    } else {
      assert (s + t)[1..] == s[1..] + t;
      EncodeAppend(s[1..], t);
    }
  }
}
