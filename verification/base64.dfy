/**
 * Base 64 (section 4 of RFC 4648) as `Buffer.from(text, 'base64')` reads it: both the standard
 * and the URL-safe alphabet are accepted, characters outside them are skipped, and the first
 * `=` ends the input. The encoder is the RFC's, with padding, and is the decoder's partner.
 */
module Base64 {
  import opened Base
  import Utf8

  predicate AllSextets(xs: seq<nat>) { forall i | 0 <= i < |xs| :: xs[i] < 64 }

  /** The value of one character of either alphabet, or None for any other character. */
  function SextetValue(c: char): (r: Option<nat>)
    ensures r.Some? ==> r.value < 64
  {
    if 'A' <= c <= 'Z' then Some(c as int - 65)
    else if 'a' <= c <= 'z' then Some(c as int - 71)
    else if '0' <= c <= '9' then Some(c as int + 4)
    else if c == '+' || c == '-' then Some(62)
    else if c == '/' || c == '_' then Some(63)
    else None
  }

  /** The character of the standard alphabet for a 6-bit value. */
  function AlphabetChar(x: nat): (c: char)
    requires x < 64
    ensures SextetValue(c) == Some(x) && c != '='
  {
    if x < 26 then (65 + x) as char
    else if x < 52 then (71 + x) as char
    else if x < 62 then (x - 4) as char
    else if x == 62 then '+'
    else '/'
  }

  /** The 6-bit groups of `bs`, three octets to four groups; a short tail is filled with zero bits. */
  function EncodeSextets(bs: seq<Utf8.Byte>): (xs: seq<nat>)
    ensures AllSextets(xs)
    decreases |bs|
  {
    if |bs| >= 3 then
      [bs[0] / 4, (bs[0] % 4) * 16 + bs[1] / 16, (bs[1] % 16) * 4 + bs[2] / 64, bs[2] % 64] + EncodeSextets(bs[3..])
    else if |bs| == 2 then
      [bs[0] / 4, (bs[0] % 4) * 16 + bs[1] / 16, (bs[1] % 16) * 4]
    else if |bs| == 1 then
      [bs[0] / 4, (bs[0] % 4) * 16]
    else []
  }

  function Alphabet(xs: seq<nat>): (s: string)
    requires AllSextets(xs)
    ensures |s| == |xs| && forall i | 0 <= i < |s| :: s[i] == AlphabetChar(xs[i])
  {
    seq(|xs|, i requires 0 <= i < |xs| => AlphabetChar(xs[i]))
  }

  /** Base 64 encoding with `=` padding to a multiple of four characters. */
  function Encode(bs: seq<Utf8.Byte>): string
  {
    var pad := if |bs| % 3 == 1 then "==" else if |bs| % 3 == 2 then "=" else "";
    Alphabet(EncodeSextets(bs)) + pad
  }

  /** The values of the alphabet characters of `s` before its first `=`; other characters are skipped. */
  function Sextets(s: string): (xs: seq<nat>)
    ensures AllSextets(xs)
  {
    if s == [] || s[0] == '=' then []
    else match SextetValue(s[0])
      case None => Sextets(s[1..])
      case Some(x) => [x] + Sextets(s[1..])
  }

  /** Octets from 6-bit groups: four groups give three octets; a tail of two or three gives one or two. */
  function FromSextets(xs: seq<nat>): seq<Utf8.Byte>
    requires AllSextets(xs)
    decreases |xs|
  {
    if |xs| >= 4 then
      [xs[0] * 4 + xs[1] / 16, (xs[1] % 16) * 16 + xs[2] / 4, (xs[2] % 4) * 64 + xs[3]] + FromSextets(xs[4..])
    else if |xs| == 3 then
      [xs[0] * 4 + xs[1] / 16, (xs[1] % 16) * 16 + xs[2] / 4]
    else if |xs| == 2 then
      [xs[0] * 4 + xs[1] / 16]
    else []
  }

  /** `Buffer.from(s, 'base64')`. */
  function Decode(s: string): seq<Utf8.Byte>
  {
    FromSextets(Sextets(s))
  }

  /** `Buffer.from(s, 'base64').toString('utf-8')`. */
  function DecodeToText(s: string): string
  {
    Utf8.DecodeLossy(Decode(s))
  }

  lemma {:induction false} SextetsOfAlphabet(xs: seq<nat>, pad: string)
    requires AllSextets(xs)
    requires pad == [] || pad[0] == '='
    ensures Sextets(Alphabet(xs) + pad) == xs
  {
    if xs != [] {
      var s := Alphabet(xs) + pad;
      assert s[0] == AlphabetChar(xs[0]);
      assert s[1..] == Alphabet(xs[1..]) + pad;
      SextetsOfAlphabet(xs[1..], pad);
      assert [xs[0]] + xs[1..] == xs;
    } else {
      assert Alphabet(xs) + pad == pad;
    }
  }

  /** Three octets survive the trip through four 6-bit groups. */
  lemma GroupRoundTrip(b0: Utf8.Byte, b1: Utf8.Byte, b2: Utf8.Byte)
    ensures var x0, x1, x2, x3 := b0 / 4, (b0 % 4) * 16 + b1 / 16, (b1 % 16) * 4 + b2 / 64, b2 % 64;
      x0 * 4 + x1 / 16 == b0 && (x1 % 16) * 16 + x2 / 4 == b1 && (x2 % 4) * 64 + x3 == b2
  {
    var x1 := (b0 % 4) * 16 + b1 / 16;
    assert x1 / 16 == b0 % 4 && x1 % 16 == b1 / 16;
    var x2 := (b1 % 16) * 4 + b2 / 64;
    assert x2 / 4 == b1 % 16 && x2 % 4 == b2 / 64;
  }

  /** Decoding the 6-bit groups of a whole group of three octets gives those octets back first. */
  lemma {:induction false} FromEncodeGroup(bs: seq<Utf8.Byte>)
    requires |bs| >= 3
    ensures FromSextets(EncodeSextets(bs)) == bs[..3] + FromSextets(EncodeSextets(bs[3..]))
  {
    var xs := EncodeSextets(bs);
    GroupRoundTrip(bs[0], bs[1], bs[2]);
    assert xs[4..] == EncodeSextets(bs[3..]);
  }

  /** A tail of one or two octets is read back from its two or three groups. */
  lemma {:induction false} FromEncodeTail(bs: seq<Utf8.Byte>)
    requires |bs| < 3
    ensures FromSextets(EncodeSextets(bs)) == bs
  {
    if |bs| == 2 {
      GroupRoundTrip(bs[0], bs[1], 0);
    } else if |bs| == 1 {
      GroupRoundTrip(bs[0], 0, 0);
    }
  }

  lemma {:induction false} FromEncodeSextets(bs: seq<Utf8.Byte>)
    ensures FromSextets(EncodeSextets(bs)) == bs
    decreases |bs|
  {
    if |bs| >= 3 {
      FromEncodeGroup(bs);
      FromEncodeSextets(bs[3..]);
      assert bs == bs[..3] + bs[3..];
    } else {
      FromEncodeTail(bs);
    }
  }

  /** Decoding undoes encoding: section 4 of RFC 4648 is read back octet for octet. */
  lemma DecodeEncode(bs: seq<Utf8.Byte>)
    ensures Decode(Encode(bs)) == bs
  {
    var pad := if |bs| % 3 == 1 then "==" else if |bs| % 3 == 2 then "=" else "";
    SextetsOfAlphabet(EncodeSextets(bs), pad);
    FromEncodeSextets(bs);
  }

  /** A base 64 text of UTF-8 bytes decodes to the string those bytes encode. */
  lemma DecodeToTextEncode(s: string)
    ensures DecodeToText(Encode(Utf8.Encode(s))) == s
  {
    DecodeEncode(Utf8.Encode(s));
    Utf8.DecodeLossyEncode(s);
  }
}
