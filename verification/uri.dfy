/**
 * `encodeURIComponent` and `decodeURIComponent`: every character outside the unreserved set is
 * written as the percent-escaped octets of its UTF-8 form, with upper-case hexadecimal digits.
 */
module Uri {
  import opened Base
  import opened Text
  import Utf8

  /** The characters `encodeURIComponent` leaves as they are. */
  predicate IsUnreserved(c: char)
  {
    ('A' <= c <= 'Z') || ('a' <= c <= 'z') || ('0' <= c <= '9')
    || c == '-' || c == '_' || c == '.' || c == '!' || c == '~' || c == '*' || c == '\'' || c == '(' || c == ')'
  }

  /** `%XY` for one octet. */
  function PercentOctet(b: Utf8.Byte): (s: string)
    ensures |s| == 3 && s[0] == '%' && IsUnreserved(s[1]) && IsUnreserved(s[2])
  {
    ['%', UpperHexChar(b / 16), UpperHexChar(b % 16)]
  }

  function PercentOctets(bs: seq<Utf8.Byte>): (s: string)
    ensures |s| == 3 * |bs|
    ensures forall i | 0 <= i < |s| :: IsUnreserved(s[i]) || s[i] == '%'
  {
    if bs == [] then [] else PercentOctet(bs[0]) + PercentOctets(bs[1..])
  }

  function EncodeChar(c: char): (s: string)
    ensures s != [] && forall i | 0 <= i < |s| :: IsUnreserved(s[i]) || s[i] == '%'
  {
    if IsUnreserved(c) then [c] else PercentOctets(Utf8.EncodeChar(c))
  }

  /**
   * `encodeURIComponent(s)`. The result holds only unreserved characters and `%`, so it can sit
   * inside a query string without ending the parameter (`&`, `#`) or the value (`=`).
   */
  function Encode(s: string): (e: string)
    ensures forall i | 0 <= i < |e| :: IsUnreserved(e[i]) || e[i] == '%'
    ensures |s| <= |e|
  {
    if s == [] then [] else EncodeChar(s[0]) + Encode(s[1..])
  }

  /** The octet written as `%XY` at the front of `s`, if there is one. */
  function OctetAt(s: string): Option<Utf8.Byte>
  {
    if |s| >= 3 && s[0] == '%' && HexValue(s[1]).Some? && HexValue(s[2]).Some? then
      Some(HexValue(s[1]).value * 16 + HexValue(s[2]).value)
    else None
  }

  /** `n` consecutive `%XY` octets at the front of `s`. */
  function ReadOctets(s: string, n: nat): (r: Option<seq<Utf8.Byte>>)
    ensures r.Some? ==> |r.value| == n && 3 * n <= |s|
  {
    if n == 0 then Some([])
    else match OctetAt(s)
      case None => None
      case Some(b) =>
        match ReadOctets(s[3..], n - 1)
        case None => None
        case Some(bs) => Some([b] + bs)
  }

  /**
   * The escape at the front of `s`: the lead octet says how many octets follow, and together
   * they must be one well-formed UTF-8 sequence. Gives the character and the length of the
   * escape; None is the URIError.
   */
  function DecodeEscape(s: string): (r: Option<(char, nat)>)
    ensures r.Some? ==> 3 <= r.value.1 <= |s|
  {
    match OctetAt(s)
    case None => None
    case Some(b) =>
      var n := Utf8.LeadLength(b);
      if n == 0 then None
      else match ReadOctets(s, n)
        case None => None
        case Some(bs) =>
          match Utf8.DecodeOne(bs)
          case None => None
          case Some((c, _)) => Some((c, 3 * n))
  }

  /** `decodeURIComponent(s)`; None is the URIError it throws on a malformed escape. */
  function Decode(s: string): Option<string>
    decreases |s|
  {
    if s == [] then Some([])
    else if s[0] != '%' then
      match Decode(s[1..])
      case None => None
      case Some(t) => Some([s[0]] + t)
    else
      match DecodeEscape(s)
      case None => None
      case Some((c, k)) =>
        match Decode(s[k..])
        case None => None
        case Some(t) => Some([c] + t)
  }

  lemma OctetAtPercentOctet(b: Utf8.Byte, rest: string)
    ensures OctetAt(PercentOctet(b) + rest) == Some(b)
  {
  }

  lemma {:induction false} ReadPercentOctets(bs: seq<Utf8.Byte>, rest: string)
    ensures ReadOctets(PercentOctets(bs) + rest, |bs|) == Some(bs)
  {
    if bs != [] {
      var s, t := PercentOctets(bs) + rest, PercentOctets(bs[1..]) + rest;
      assert s == PercentOctet(bs[0]) + t;
      assert s[3..] == t;
      OctetAtPercentOctet(bs[0], t);
      ReadPercentOctets(bs[1..], rest);
      assert ReadOctets(s, |bs|) == Some([bs[0]] + bs[1..]);
      assert [bs[0]] + bs[1..] == bs;
    }
  }

  /** The escape of a reserved character, whatever follows it, reads back as that character. */
  lemma {:induction false} DecodeEscapeOfChar(c: char, rest: string)
    requires !IsUnreserved(c)
    ensures DecodeEscape(EncodeChar(c) + rest) == Some((c, |EncodeChar(c)|))
  {
    var s := EncodeChar(c) + rest;
    var bs := Utf8.EncodeChar(c);
    assert s == PercentOctet(bs[0]) + (PercentOctets(bs[1..]) + rest);
    OctetAtPercentOctet(bs[0], PercentOctets(bs[1..]) + rest);
    ReadPercentOctets(bs, rest);
    Utf8.DecodeOneEncodeChar(c, []);
    assert bs + [] == bs;
  }

  /** Decoding the encoding of one character, whatever follows it, yields that character first. */
  lemma {:induction false} DecodeEncodeChar(c: char, rest: string)
    ensures Decode(EncodeChar(c) + rest) == match Decode(rest) case None => None case Some(t) => Some([c] + t)
  {
    var s := EncodeChar(c) + rest;
    if IsUnreserved(c) {
      assert s[1..] == rest;
    } else {
      DecodeEscapeOfChar(c, rest);
      assert s[0] == '%';
      assert s[|EncodeChar(c)|..] == rest;
    }
  }

  /** `decodeURIComponent(encodeURIComponent(s)) == s` for every string. */
  lemma {:induction false} DecodeEncode(s: string)
    ensures Decode(Encode(s)) == Some(s)
  {
    if s != [] {
      DecodeEncodeChar(s[0], Encode(s[1..]));
      DecodeEncode(s[1..]);
      assert [s[0]] + s[1..] == s;
    }
  }
}
