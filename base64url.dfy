/** The edge function's `encodeBase64Url`: UTF-8 bytes, then `btoa`
    (base64 of RFC 4648 section 4, padded with '='), then '+' replaced by
    '-', '/' by '_' and the trailing '=' run removed, which gives the
    unpadded URL-safe alphabet of RFC 4648 section 5. */
module Base64Url {
  import opened Wrappers
  import Utf8

  type byte = Utf8.byte

  /** Character of a 6-bit value in the standard alphabet (RFC 4648, table 1). */
  function StdChar(k: int): (c: char)
    requires 0 <= k < 64
  {
    if k < 26 then ('A' as int + k) as char
    else if k < 52 then ('a' as int + k - 26) as char
    else if k < 62 then ('0' as int + k - 52) as char
    else if k == 62 then '+'
    else '/'
  }

  /** Character of a 6-bit value in the URL-safe alphabet (RFC 4648, table 2). */
  function UrlChar(k: int): (c: char)
    requires 0 <= k < 64
  {
    if k < 62 then StdChar(k) else if k == 62 then '-' else '_'
  }

  predicate IsUrlChar(c: char) {
    'A' <= c <= 'Z' || 'a' <= c <= 'z' || '0' <= c <= '9' || c == '-' || c == '_'
  }

  /** The 6-bit value a URL-safe character stands for. */
  function UrlIndex(c: char): (k: int)
    requires IsUrlChar(c)
    ensures 0 <= k < 64 && UrlChar(k) == c
  {
    if 'A' <= c <= 'Z' then c as int - 'A' as int
    else if 'a' <= c <= 'z' then c as int - 'a' as int + 26
    else if '0' <= c <= '9' then c as int - '0' as int + 52
    else if c == '-' then 62
    else 63
  }

  lemma UrlCharInjective(j: int, k: int)
    requires 0 <= j < 64 && 0 <= k < 64 && UrlChar(j) == UrlChar(k)
    ensures j == k
  {
  }

  predicate AreSextets(xs: seq<int>) {
    forall i :: 0 <= i < |xs| ==> 0 <= xs[i] < 64
  }

  /** Number of characters a final group of `r` bytes (r < 3) yields without padding. */
  function TailLength(r: nat): nat {
    if r == 0 then 0 else r + 1
  }

  /** The 6-bit groups of a byte string, most significant bits first; a final
      group of one or two bytes is filled with zero bits. */
  function Sextets(b: seq<byte>): (xs: seq<int>)
    ensures AreSextets(xs)
    ensures |xs| == 4 * (|b| / 3) + TailLength(|b| % 3)
  {
    if |b| == 0 then []
    else if |b| == 1 then
      [b[0] as int / 4, b[0] as int % 4 * 16]
    else if |b| == 2 then
      [b[0] as int / 4, b[0] as int % 4 * 16 + b[1] as int / 16, b[1] as int % 16 * 4]
    else
      [b[0] as int / 4, b[0] as int % 4 * 16 + b[1] as int / 16,
       b[1] as int % 16 * 4 + b[2] as int / 64, b[2] as int % 64] + Sextets(b[3..])
  }

  function Padding(b: seq<byte>): string {
    if |b| % 3 == 0 then "" else if |b| % 3 == 1 then "==" else "="
  }

  /** `btoa`: standard alphabet, padded to a multiple of four characters. */
  function Btoa(b: seq<byte>): string {
    seq(|Sextets(b)|, i requires 0 <= i < |Sextets(b)| => StdChar(Sextets(b)[i])) + Padding(b)
  }

  /** `s.replace(/x/g, y)` for a one-character pattern. */
  function ReplaceAll(s: string, x: char, y: char): (r: string)
    ensures |r| == |s|
    ensures forall i :: 0 <= i < |s| ==> r[i] == if s[i] == x then y else s[i]
  {
    seq(|s|, i requires 0 <= i < |s| => if s[i] == x then y else s[i])
  }

  /** `s.replace(/=+$/, '')`: the maximal run of '=' at the end removed. */
  function StripTrailingEquals(s: string): (r: string)
    ensures r <= s
    ensures r == [] || r[|r| - 1] != '='
    ensures forall i :: |r| <= i < |s| ==> s[i] == '='
  {
    if s != [] && s[|s| - 1] == '=' then StripTrailingEquals(s[..|s| - 1]) else s
  }

  /** The source's `encodeBase64Url` on the bytes of the UTF-8 encoding. */
  function EncodeBytes(b: seq<byte>): string {
    StripTrailingEquals(ReplaceAll(ReplaceAll(Btoa(b), '+', '-'), '/', '_'))
  }

  /** `encodeBase64Url(str)` */
  function EncodeBase64Url(str: string): string {
    EncodeBytes(Utf8.Encode(str))
  }

  /** Reference definition: RFC 4648 section 5 without padding, the sextets
      mapped straight to the URL-safe alphabet. */
  function UrlEncode(b: seq<byte>): (r: string)
    ensures |r| == |Sextets(b)|
  {
    seq(|Sextets(b)|, i requires 0 <= i < |Sextets(b)| => UrlChar(Sextets(b)[i]))
  }

  /** The replace-and-strip pipeline is exactly unpadded base64url. */
  lemma EncodeBytesIsUrlEncode(b: seq<byte>)
    ensures EncodeBytes(b) == UrlEncode(b)
  {
    var xs := Sextets(b);
    var body := seq(|xs|, i requires 0 <= i < |xs| => StdChar(xs[i]));
    var pad := Padding(b);
    assert Btoa(b) == body + pad;
    var r := ReplaceAll(ReplaceAll(body + pad, '+', '-'), '/', '_');
    var u := UrlEncode(b);
    assert r == u + pad;
    StripPadding(u, pad);
  }

  lemma StripPadding(u: string, pad: string)
    requires forall i :: 0 <= i < |u| ==> IsUrlChar(u[i])
    requires forall i :: 0 <= i < |pad| ==> pad[i] == '='
    ensures StripTrailingEquals(u + pad) == u
    decreases |pad|
  {
    if pad != [] {
      assert (u + pad)[..|u + pad| - 1] == u + pad[..|pad| - 1];
      StripPadding(u, pad[..|pad| - 1]);
    } else {
      assert u + pad == u;
    }
  }

  /** The output uses only A-Z, a-z, 0-9, '-' and '_': no '+', '/' or '='. */
  lemma EncodeAlphabet(str: string)
    ensures forall i :: 0 <= i < |EncodeBase64Url(str)| ==> IsUrlChar(EncodeBase64Url(str)[i])
  {
    EncodeBytesIsUrlEncode(Utf8.Encode(str));
  }

  /** The output is the padded length 4 * ceil(n / 3) of the n UTF-8 bytes less
      the stripped padding: 4 * floor(n / 3) plus 0, 2 or 3. */
  lemma EncodeLength(str: string)
    ensures var n := |Utf8.Encode(str)|;
      |EncodeBase64Url(str)| == 4 * (n / 3) + (if n % 3 == 0 then 0 else if n % 3 == 1 then 2 else 3)
  {
    EncodeBytesIsUrlEncode(Utf8.Encode(str));
  }

  /** Bytes of one group of sextets (the inverse of the grouping in Sextets). */
  function Regroup(xs: seq<int>): (b: seq<byte>)
    requires AreSextets(xs)
  {
    if |xs| < 2 then []
    else if |xs| == 2 then
      [(xs[0] * 4 + xs[1] / 16) as byte]
    else if |xs| == 3 then
      [(xs[0] * 4 + xs[1] / 16) as byte, (xs[1] % 16 * 16 + xs[2] / 4) as byte]
    else
      [(xs[0] * 4 + xs[1] / 16) as byte, (xs[1] % 16 * 16 + xs[2] / 4) as byte,
       (xs[2] % 4 * 64 + xs[3]) as byte] + Regroup(xs[4..])
  }

  /** Decoding of unpadded base64url (RFC 4648 section 5): None when a
      character lies outside the alphabet or the length leaves a lone
      character in the last group. */
  function DecodeBase64Url(s: string): Option<seq<byte>> {
    if (forall i :: 0 <= i < |s| ==> IsUrlChar(s[i])) && |s| % 4 != 1 then
      Some(Regroup(seq(|s|, i requires 0 <= i < |s| => UrlIndex(s[i]))))
    else
      None
  }

  lemma {:induction false} RegroupSextets(b: seq<byte>)
    ensures Regroup(Sextets(b)) == b
    decreases |b|
  {
    var xs := Sextets(b);
    if |b| == 1 {
      var b0 := b[0] as int;
      assert b0 / 4 * 4 + b0 % 4 * 16 / 16 == b0;
    } else if |b| == 2 {
      RegroupPair(b[0] as int, b[1] as int);
    } else if |b| >= 3 {
      RegroupTriple(b[0] as int, b[1] as int, b[2] as int);
      assert xs[4..] == Sextets(b[3..]);
      RegroupSextets(b[3..]);
      assert b == b[..3] + b[3..];
    }
  }

  lemma RegroupPair(b0: int, b1: int)
    requires 0 <= b0 < 256 && 0 <= b1 < 256
    ensures var x0, x1, x2 := b0 / 4, b0 % 4 * 16 + b1 / 16, b1 % 16 * 4;
      x0 * 4 + x1 / 16 == b0 && x1 % 16 * 16 + x2 / 4 == b1
  {
    var x1 := b0 % 4 * 16 + b1 / 16;
    assert x1 / 16 == b0 % 4 && x1 % 16 == b1 / 16;
  }

  lemma RegroupTriple(b0: int, b1: int, b2: int)
    requires 0 <= b0 < 256 && 0 <= b1 < 256 && 0 <= b2 < 256
    ensures var x0, x1, x2, x3 := b0 / 4, b0 % 4 * 16 + b1 / 16, b1 % 16 * 4 + b2 / 64, b2 % 64;
      x0 * 4 + x1 / 16 == b0 && x1 % 16 * 16 + x2 / 4 == b1 && x2 % 4 * 64 + x3 == b2
  {
    RegroupPair(b0, b1);
    var x2 := b1 % 16 * 4 + b2 / 64;
    assert x2 / 4 == b1 % 16 && x2 % 4 == b2 / 64;
  }

  /** Round trip: base64url-decoding the output and then UTF-8-decoding it
      gives back the input string, non-ASCII characters included. */
  lemma EncodeRoundTrip(str: string)
    ensures var bytes := DecodeBase64Url(EncodeBase64Url(str));
      bytes.Some? && Utf8.Decode(bytes.value) == Some(str)
  {
    var b := Utf8.Encode(str);
    var u := EncodeBase64Url(str);
    EncodeBytesIsUrlEncode(b);
    var xs := Sextets(b);
    assert u == UrlEncode(b);
    assert |u| % 4 != 1 by {
      assert |u| == 4 * (|b| / 3) + TailLength(|b| % 3);
    }
    assert forall i :: 0 <= i < |u| ==> IsUrlChar(u[i]);
    var ks := seq(|u|, i requires 0 <= i < |u| => UrlIndex(u[i]));
    assert ks == xs by {
      forall i | 0 <= i < |u| ensures ks[i] == xs[i] {
        UrlCharInjective(xs[i], ks[i]);
      }
    }
    assert DecodeBase64Url(u) == Some(Regroup(xs));
    RegroupSextets(b);
    Utf8.DecodeEncode(str);
  }
}
