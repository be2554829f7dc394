/**
 * UTF-8 as the platform applies it: `encodeURIComponent` and `decodeURIComponent` go through it,
 * and so does `Buffer.prototype.toString('utf-8')`.
 */
module Utf8 {
  import opened Base

  type Byte = b: int | 0 <= b < 256

  predicate IsContinuation(b: Byte) { 0x80 <= b < 0xC0 }

  /** The length of the sequence a lead byte announces, or 0 when `b` cannot start one. */
  function LeadLength(b: Byte): (n: nat)
    ensures n <= 4 && n != 1 ==> b >= 0x80
    ensures b < 0x80 ==> n == 1
  {
    if b < 0x80 then 1
    else if 0xC0 <= b < 0xE0 then 2
    else if 0xE0 <= b < 0xF0 then 3
    else if 0xF0 <= b < 0xF8 then 4
    else 0
  }

  /** The UTF-8 bytes of one Unicode scalar value. */
  function EncodeChar(c: char): (bs: seq<Byte>)
    ensures 1 <= |bs| <= 4 && LeadLength(bs[0]) == |bs|
    ensures forall i | 1 <= i < |bs| :: IsContinuation(bs[i])
    ensures |bs| == 1 <==> c as int < 0x80
  {
    var n := c as int;
    if n < 0x80 then [n]
    else if n < 0x800 then [0xC0 + n / 64, 0x80 + n % 64]
    else if n < 0x10000 then [0xE0 + n / 4096, 0x80 + (n / 64) % 64, 0x80 + n % 64]
    else [0xF0 + n / 262144, 0x80 + (n / 4096) % 64, 0x80 + (n / 64) % 64, 0x80 + n % 64]
  }

  /** The UTF-8 bytes of a string. */
  function Encode(s: string): seq<Byte>
  {
    if s == [] then [] else EncodeChar(s[0]) + Encode(s[1..])
  }

  /** A code point that is a Unicode scalar value (not a surrogate, not beyond U+10FFFF). */
  predicate IsScalar(v: int) { 0 <= v < 0xD800 || 0xE000 <= v < 0x110000 }

  /** The code point that the `n` bytes of a multi-byte sequence spell out. */
  function CodePoint(bs: seq<Byte>, n: nat): int
    requires 2 <= n <= 4 && n <= |bs|
  {
    var b0: int, b1: int := bs[0], bs[1];
    if n == 2 then (b0 - 0xC0) * 64 + (b1 - 0x80)
    else
      var b2: int := bs[2];
      if n == 3 then (b0 - 0xE0) * 4096 + (b1 - 0x80) * 64 + (b2 - 0x80)
      else
        var b3: int := bs[3];
        (b0 - 0xF0) * 262144 + (b1 - 0x80) * 4096 + (b2 - 0x80) * 64 + (b3 - 0x80)
  }

  /**
   * The first well-formed sequence of `bs`: the character and the number of bytes it takes.
   * None for a bad lead byte, a missing or bad continuation byte, an overlong form, a
   * surrogate, or a value beyond U+10FFFF.
   */
  function DecodeOne(bs: seq<Byte>): (r: Option<(char, nat)>)
    ensures r.Some? ==> bs != [] && r.value.1 == LeadLength(bs[0]) && 1 <= r.value.1 <= |bs|
  {
    if bs == [] then None
    else
      var n := LeadLength(bs[0]);
      if n == 1 then Some((bs[0] as char, 1))
      else if n == 0 || |bs| < n || exists i | 1 <= i < n :: !IsContinuation(bs[i]) then None
      else
        var v := CodePoint(bs, n);
        var least: int := if n == 2 then 0x80 else if n == 3 then 0x800 else 0x10000;
        if least <= v && IsScalar(v) then Some((v as char, n)) else None
  }

  /** Decoding the bytes of a character, whatever follows them, gives that character back. */
  lemma DecodeOneEncodeChar(c: char, rest: seq<Byte>)
    ensures DecodeOne(EncodeChar(c) + rest) == Some((c, |EncodeChar(c)|))
  {
    var n := c as int;
    if n < 0x80 {
    } else if n < 0x800 {
      DecodeTwo(c, rest);
    } else if n < 0x10000 {
      DecodeThree(c, rest);
    } else {
      DecodeFour(c, rest);
    }
  }

  /** The two-byte case of `DecodeOneEncodeChar`. */
  lemma DecodeTwo(c: char, rest: seq<Byte>)
    requires 0x80 <= c as int < 0x800
    ensures DecodeOne(EncodeChar(c) + rest) == Some((c, 2))
  {
    var n := c as int;
    var bs := EncodeChar(c) + rest;
    assert bs[0] == 0xC0 + n / 64 && bs[1] == 0x80 + n % 64;
    assert CodePoint(bs, 2) == n;
  }

  /** The three-byte case of `DecodeOneEncodeChar`. */
  lemma DecodeThree(c: char, rest: seq<Byte>)
    requires 0x800 <= c as int < 0x10000
    ensures DecodeOne(EncodeChar(c) + rest) == Some((c, 3))
  {
    var n := c as int;
    var bs := EncodeChar(c) + rest;
    var a, b, d := n / 4096, (n / 64) % 64, n % 64;
    assert n / 64 == a * 64 + b;
    assert bs[0] == 0xE0 + a && bs[1] == 0x80 + b && bs[2] == 0x80 + d;
    assert CodePoint(bs, 3) == n;
  }

  /** The four-byte case of `DecodeOneEncodeChar`. */
  lemma DecodeFour(c: char, rest: seq<Byte>)
    requires 0x10000 <= c as int
    ensures DecodeOne(EncodeChar(c) + rest) == Some((c, 4))
  {
    var n := c as int;
    var bs := EncodeChar(c) + rest;
    var a, b, d, e := n / 262144, (n / 4096) % 64, (n / 64) % 64, n % 64;
    assert n / 4096 == a * 64 + b;
    assert n / 64 == (n / 4096) * 64 + d;
    assert bs[0] == 0xF0 + a && bs[1] == 0x80 + b && bs[2] == 0x80 + d && bs[3] == 0x80 + e;
    assert CodePoint(bs, 4) == n;
  }

  /** Strict decoding: None when any sequence is ill-formed. */
  function Decode(bs: seq<Byte>): Option<string>
    decreases |bs|
  {
    if bs == [] then Some([])
    else match DecodeOne(bs)
      case None => None
      case Some((c, k)) =>
        match Decode(bs[k..])
        case None => None
        case Some(s) => Some([c] + s)
  }

  /** The replacement character U+FFFD. */
  const Replacement: char := '\U{FFFD}'

  /**
   * `Buffer.prototype.toString('utf-8')`: well-formed sequences decode, and each byte that cannot
   * start one becomes U+FFFD.
   */
  function DecodeLossy(bs: seq<Byte>): string
    decreases |bs|
  {
    if bs == [] then []
    else match DecodeOne(bs)
      case None => [Replacement] + DecodeLossy(bs[1..])
      case Some((c, k)) => [c] + DecodeLossy(bs[k..])
  }

  /** Strict decoding undoes encoding. */
  lemma {:induction false} DecodeEncode(s: string)
    ensures Decode(Encode(s)) == Some(s)
  {
    if s != [] {
      DecodeOneEncodeChar(s[0], Encode(s[1..]));
      assert (EncodeChar(s[0]) + Encode(s[1..]))[|EncodeChar(s[0])|..] == Encode(s[1..]);
      DecodeEncode(s[1..]);
      assert [s[0]] + s[1..] == s;
    }
  }

  /** On well-formed input the lenient decoder agrees with the strict one: it gives back the string. */
  lemma {:induction false} DecodeLossyEncode(s: string)
    ensures DecodeLossy(Encode(s)) == s
  {
    if s != [] {
      DecodeOneEncodeChar(s[0], Encode(s[1..]));
      assert (EncodeChar(s[0]) + Encode(s[1..]))[|EncodeChar(s[0])|..] == Encode(s[1..]);
      DecodeLossyEncode(s[1..]);
      assert [s[0]] + s[1..] == s;
    }
  }

  /** A lone continuation byte decodes to the replacement character and is skipped. */
  lemma LossyStrayContinuation(b: Byte, rest: seq<Byte>)
    requires IsContinuation(b)
    ensures DecodeLossy([b] + rest) == [Replacement] + DecodeLossy(rest)
  {
    assert ([b] + rest)[1..] == rest;
  }
}
