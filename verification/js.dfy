/**
 * JavaScript values as the upstream replies, the route queries and the browser state carry them,
 * with the coercions of the language that the source leans on: truthiness, `||`, property reads
 * (which throw on `null` and `undefined`), `String(v)`, `Number(v)`, `===` and `==`.
 */
module Js {
  import opened Base
  import opened Text

  /** One own property of an object. */
  datatype Member = Member(key: string, val: Value)

  /**
   * A JavaScript value of the kinds JSON can produce, plus `undefined`. Numbers are integers.
   * An object keeps its own properties in enumeration order, which is the order
   * `Object.values` reports them in.
   */
  datatype Value =
    | Undefined
    | Null
    | Bool(b: bool)
    | Num(n: int)
    | Str(s: string)
    | Arr(items: seq<Value>)
    | Obj(members: seq<Member>)

  predicate Nullish(v: Value) { v.Undefined? || v.Null? }

  /** Arrays and plain objects: the values JavaScript compares by identity. */
  predicate IsObject(v: Value) { v.Arr? || v.Obj? }

  /** JavaScript truthiness: `undefined`, `null`, `false`, `0` and `""` are falsy. */
  predicate Truthy(v: Value)
  {
    match v
    case Undefined => false
    case Null => false
    case Bool(b) => b
    case Num(n) => n != 0
    case Str(s) => s != ""
    case Arr(_) => true
    case Obj(_) => true
  }

  /** `a || b`. */
  function Or(a: Value, b: Value): Value
  {
    if Truthy(a) then a else b
  }

  /** The value of the first own property named `key`, or `undefined`. */
  function Lookup(ms: seq<Member>, key: string): Value
  {
    if ms == [] then Undefined else if ms[0].key == key then ms[0].val else Lookup(ms[1..], key)
  }

  /** `v?.key`, and `v.key` on a value that is not `null` or `undefined`. */
  function Get(v: Value, key: string): Value
  {
    if v.Obj? then Lookup(v.members, key) else Undefined
  }

  /** The message of the TypeError thrown by reading `key` from `null` or `undefined`. */
  function ReadError(v: Value, key: string): string
  {
    "Cannot read properties of " + (if v.Null? then "null" else "undefined") + " (reading '" + key + "')"
  }

  /** `v.key`: throws a TypeError when `v` is `null` or `undefined`. */
  function Prop(v: Value, key: string): (r: Result<Value>)
    ensures r.Err? <==> Nullish(v)
    ensures r.Ok? ==> r.value == Get(v, key)
  {
    if Nullish(v) then Err(ReadError(v, key)) else Ok(Get(v, key))
  }

  /** The own property values of a non-null value, as `Object.values` lists them. */
  function Values(v: Value): (r: seq<Value>)
    ensures v.Arr? ==> r == v.items
    ensures v.Obj? ==> |r| == |v.members| && forall i | 0 <= i < |r| :: r[i] == v.members[i].val
  {
    match v
    case Arr(items) => items
    case Obj(ms) => seq(|ms|, i requires 0 <= i < |ms| => ms[i].val)
    case Str(s) => seq(|s|, i requires 0 <= i < |s| => Str([s[i]]))
    case _ => []
  }

  /** `parts.join(",")`. */
  function JoinWithCommas(parts: seq<string>): string
  {
    if parts == [] then "" else if |parts| == 1 then parts[0] else parts[0] + "," + JoinWithCommas(parts[1..])
  }

  /** `String(v)`: arrays join their elements with commas, writing `null` and `undefined` as nothing. */
  function ToStr(v: Value): string
    decreases v
  {
    match v
    case Undefined => "undefined"
    case Null => "null"
    case Bool(b) => if b then "true" else "false"
    case Num(n) => IntToString(n)
    case Str(s) => s
    case Arr(items) =>
      JoinWithCommas(seq(|items|, i requires 0 <= i < |items| => if Nullish(items[i]) then "" else ToStr(items[i])))
    case Obj(_) => "[object Object]"
  }

  /** The length of the run of decimal digits that `s` starts with. */
  function LeadingDigits(s: string): (n: nat)
    ensures n <= |s| && AllDigits(s[..n])
    ensures n < |s| ==> !IsDigit(s[n])
  {
    if s != [] && IsDigit(s[0]) then
      var m := LeadingDigits(s[1..]);
      assert s[..m + 1] == [s[0]] + s[1..][..m];
      m + 1
    else 0
  }

  /** Ten to the power `e`. */
  function Pow10(e: nat): (p: nat)
    ensures p >= 1
  {
    if e == 0 then 1 else 10 * Pow10(e - 1)
  }

  /** `m` times ten to the power `e`, when that is a whole number; None when it is a fraction. */
  function Scaled(m: nat, e: int): Option<int>
  {
    if e >= 0 then Some(m * Pow10(e))
    else if m % Pow10(-e) == 0 then Some(m / Pow10(-e))
    else None
  }

  /** The exponent that ends a decimal literal: 0 for none, or `e`/`E`, an optional sign and digits. */
  function ExponentPart(t: string): Option<int>
  {
    if t == [] then Some(0)
    else if t[0] != 'e' && t[0] != 'E' then None
    else
      var rest := t[1..];
      var negative := rest != [] && rest[0] == '-';
      var digits := if rest != [] && (rest[0] == '-' || rest[0] == '+') then rest[1..] else rest;
      if digits != [] && AllDigits(digits) then
        var v: int := DigitsValue(digits);
        Some(if negative then -v else v)
      else None
  }

  /**
   * An unsigned decimal literal as `Number` reads it: digits, optionally a point and more
   * digits (at least one digit in all), then an optional exponent. Its value when that is a
   * whole number; None for text of any other form, and for a fraction, which a `Value` cannot hold.
   */
  function UnsignedDecimal(t: string): Option<int>
  {
    var i := LeadingDigits(t);
    var afterInt := t[i..];
    var afterPoint := if afterInt != [] && afterInt[0] == '.' then afterInt[1..] else afterInt;
    var f := LeadingDigits(afterPoint);
    if i == 0 && f == 0 then None
    else
      match ExponentPart(afterPoint[f..])
      case None => None
      case Some(e) =>
        var mantissa := t[..i] + afterPoint[..f];
        assert forall k | 0 <= k < |mantissa| :: IsDigit(mantissa[k]) by {
          forall k | 0 <= k < |mantissa| ensures IsDigit(mantissa[k]) {
            if k >= i {
              assert mantissa[k] == afterPoint[..f][k - i];
            }
          }
        }
        Scaled(DigitsValue(mantissa), e - f)
  }

  /** The base a letter after a leading `0` announces: `x` 16, `o` 8, `b` 2, in either case; 0 for any other. */
  function RadixOfLetter(c: char): nat
  {
    if c == 'x' || c == 'X' then 16 else if c == 'o' || c == 'O' then 8 else if c == 'b' || c == 'B' then 2 else 0
  }

  /** `0x`, `0o` or `0b` followed by digits of that base and nothing else: their value; None otherwise. */
  function NonDecimalLiteral(t: string): Option<int>
  {
    if |t| >= 3 && t[0] == '0' && RadixOfLetter(t[1]) != 0 && RadixPrefix(t[2..], RadixOfLetter(t[1])) == |t| - 2
    then Some(RadixValue(t[2..], RadixOfLetter(t[1])))
    else None
  }

  /** A decimal literal with an optional sign, read as an integer; None when `t` is not of that form. */
  function SignedDecimal(t: string): Option<int>
  {
    if t != [] && (t[0] == '-' || t[0] == '+') then
      match UnsignedDecimal(t[1..])
      case None => None
      case Some(d) => Some(if t[0] == '-' then -d else d)
    else UnsignedDecimal(t)
  }

  /**
   * `Number(s)` on a string: surrounding white space is ignored, the empty string is 0, and
   * otherwise the text must be an unsigned `0x`/`0o`/`0b` literal or a signed decimal literal.
   * None stands for NaN, and also for a non-integral value.
   */
  function StringToNumber(s: string): Option<int>
  {
    var t := Trim(s);
    if t == "" then Some(0)
    else if NonDecimalLiteral(t).Some? then NonDecimalLiteral(t)
    else SignedDecimal(t)
  }

  /** `Number` reads an unsigned literal with a radix prefix, and a signed one as NaN. */
  lemma RadixLiteralNumber()
    ensures StringToNumber("0x3") == Some(3)
    ensures StringToNumber("-0x3") == None
    ensures LooseEquals(Num(3), Str("0x3"))
  {
    TrimNoSpace("0x3");
    TrimNoSpace("-0x3");
    assert NonDecimalLiteral("0x3") == Some(3) by {
      assert "0x3"[2..] == "3" && "3"[1..] == [] && "3"[..0] == [];
      assert RadixPrefix("3", 16) == 1;
      assert RadixValue("3", 16) == 3;
    }
    assert NonDecimalLiteral("-0x3") == None;
    assert SignedDecimal("-0x3") == None by {
      var t := "0x3";
      assert "-0x3"[1..] == t && t[1..] == "x3" && t[..1] == "0";
      assert LeadingDigits("x3") == 0;
      assert LeadingDigits(t) == 1;
      assert ExponentPart("x3") == None;
    }
  }

  /** A point with no fraction after it still reads as a whole number. */
  lemma PointLiteralNumber()
    ensures StringToNumber("1.") == Some(1)
  {
    TrimNoSpace("1.");
    assert NonDecimalLiteral("1.") == None;
    assert SignedDecimal("1.") == Some(1) by {
      var t := "1.";
      assert t[1..] == "." && t[..1] == "1" && "."[1..] == [] && "1"[1..] == [] && "1"[..0] == [];
      assert LeadingDigits(t) == 1 && LeadingDigits([]) == 0;
      assert DigitsValue("1") == 1;
    }
  }

  /** A fraction, which a `Value` cannot hold, reads as no number. */
  lemma FractionLiteralNumber()
    ensures StringToNumber("1.5") == None
  {
    TrimNoSpace("1.5");
    assert NonDecimalLiteral("1.5") == None;
    var t := "1.5";
    assert t[1..] == ".5" && t[..1] == "1" && ".5"[1..] == "5" && "5"[1..] == [] && "5"[..1] == "5" && "5"[..0] == [];
    assert LeadingDigits(t) == 1;
    assert LeadingDigits("5") == 1;
    assert ExponentPart([]) == Some(0);
    assert "1" + "5" == "15" && "15"[..1] == "1";
    assert DigitsValue("15") == 15;
    assert Scaled(15, -1) == None;
  }

  /** An exponent scales the digits before it. */
  lemma ExponentLiteralNumber()
    ensures StringToNumber("1e3") == Some(1000)
  {
    TrimNoSpace("1e3");
    assert NonDecimalLiteral("1e3") == None;
    assert SignedDecimal("1e3") == Some(1000) by {
      var t := "1e3";
      assert t[1..] == "e3" && t[..1] == "1" && "e3"[1..] == "3" && "3"[..0] == [] && "1"[..0] == [];
      assert LeadingDigits(t) == 1 && LeadingDigits("e3") == 0;
      assert DigitsValue("3") == 3 && DigitsValue("1") == 1;
      assert ExponentPart("e3") == Some(3);
      assert Pow10(3) == 1000;
    }
  }

  /** `Number(v)`; None stands for NaN. Arrays and objects go through their string form. */
  function ToNumber(v: Value): Option<int>
  {
    match v
    case Undefined => None
    case Null => Some(0)
    case Bool(b) => Some(if b then 1 else 0)
    case Num(n) => Some(n)
    case Str(s) => StringToNumber(s)
    case Arr(_) => StringToNumber(ToStr(v))
    case Obj(_) => StringToNumber(ToStr(v))
  }

  /** `v.length` on a value that is not `null` or `undefined`: strings and arrays have one, objects may. */
  function Length(v: Value): Value
  {
    match v
    case Str(s) => Num(|s|)
    case Arr(items) => Num(|items|)
    case Obj(_) => Get(v, "length")
    case _ => Undefined
  }

  /** `v > 0`: `v` is converted to a number, and NaN compares false. */
  predicate Positive(v: Value)
  {
    ToNumber(v).Some? && ToNumber(v).value > 0
  }

  /** `a === b`; two arrays or objects are never the same reference here. */
  predicate StrictEquals(a: Value, b: Value)
  {
    a == b && !IsObject(a)
  }

  /** `a == b` on two values neither of which is an array or an object. */
  predicate LoosePrimitiveEquals(a: Value, b: Value)
  {
    if Nullish(a) || Nullish(b) then Nullish(a) && Nullish(b)
    else if (a.Bool? && b.Bool?) || (a.Num? && b.Num?) || (a.Str? && b.Str?) then a == b
    else ToNumber(a).Some? && ToNumber(b) == ToNumber(a)
  }

  /**
   * `a == b` (the Abstract Equality Comparison): `null` and `undefined` equal each other only,
   * an array or object is turned into its string form, and values of different kinds are
   * compared as numbers.
   */
  predicate LooseEquals(a: Value, b: Value)
  {
    if IsObject(a) && IsObject(b) then false
    else if IsObject(a) then !Nullish(b) && LoosePrimitiveEquals(Str(ToStr(a)), b)
    else if IsObject(b) then !Nullish(a) && LoosePrimitiveEquals(a, Str(ToStr(b)))
    else LoosePrimitiveEquals(a, b)
  }

  /** The numeral of `n` reads back as `n` under `Number(...)`. */
  lemma StringToNumberOfNumeral(n: nat)
    ensures StringToNumber(NatToString(n)) == Some(n)
  {
    var s := NatToString(n);
    NumeralIsTrimmed(n);
    SignedDecimalOfDigits(s);
    DigitsValueOfNatToString(n);
  }

  /** A numeral has no white space around it to trim. */
  lemma NumeralIsTrimmed(n: nat)
    ensures Trim(NatToString(n)) == NatToString(n)
  {
    var s := NatToString(n);
    DigitsAreNotSpace(s);
    TrimNoSpace(s);
  }

  /** Unsigned decimal digits are read as their value. */
  lemma SignedDecimalOfDigits(s: string)
    requires s != [] && AllDigits(s)
    ensures SignedDecimal(s) == Some(DigitsValue(s))
  {
    LeadingDigitsAll(s);
    assert s[|s|..] == [] && s[..|s|] + [] == s;
  }

  /** A string of digits is one run of digits. */
  lemma {:induction false} LeadingDigitsAll(s: string)
    requires AllDigits(s)
    ensures LeadingDigits(s) == |s|
  {
    if s != [] {
      LeadingDigitsAll(s[1..]);
    }
  }

  /** No decimal digit is white space. */
  lemma DigitsAreNotSpace(s: string)
    requires AllDigits(s)
    ensures forall i | 0 <= i < |s| :: !IsJsSpace(s[i])
  {
    forall i | 0 <= i < |s| ensures !IsJsSpace(s[i]) {
      assert IsDigit(s[i]);
    }
  }

  /**
   * Loose equality does not tell a number from its decimal numeral: against any value that is
   * neither a string nor an array or object, `x == "3"` and `x == 3` agree.
   */
  lemma LooseEqualsNumeral(x: Value, n: nat)
    requires !x.Str? && !IsObject(x)
    ensures LooseEquals(x, Str(NatToString(n))) == LooseEquals(x, Num(n))
  {
    StringToNumberOfNumeral(n);
  }

  /** `==` is symmetric. */
  lemma LooseEqualsSymmetric(a: Value, b: Value)
    ensures LooseEquals(a, b) == LooseEquals(b, a)
  {
  }

  /** `c` is a digit of base `radix` (2, 8, 10 or 16), in either case. */
  predicate IsRadixDigit(c: char, radix: nat)
  {
    HexValue(c).Some? && HexValue(c).value < radix
  }

  /** The digits of base 10 are the decimal digits. */
  lemma DecimalRadixDigit(c: char)
    ensures IsRadixDigit(c, 10) <==> IsDigit(c)
  {
  }

  /** The length of the longest prefix of `s` made of digits of base `radix` (2, 8, 10 or 16). */
  function RadixPrefix(s: string, radix: nat): (n: nat)
    ensures n <= |s|
    ensures forall i | 0 <= i < n :: IsRadixDigit(s[i], radix)
    ensures n < |s| ==> !IsRadixDigit(s[n], radix)
  {
    if s != [] && IsRadixDigit(s[0], radix) then 1 + RadixPrefix(s[1..], radix) else 0
  }

  /** The value of a string of digits of base `radix`, most significant first. */
  function RadixValue(s: string, radix: nat): nat
    requires forall i | 0 <= i < |s| :: HexValue(s[i]).Some?
  {
    if s == [] then 0 else RadixValue(s[..|s| - 1], radix) * radix + HexValue(s[|s| - 1]).value
  }

  /**
   * `parseInt(v)` with no radix: the string form without leading white space, an optional
   * sign, `0x` or `0X` for base 16, then the longest run of digits; None (NaN) when there is
   * no digit. Whatever follows the digits is ignored.
   */
  function ParseInt(v: Value): Option<int>
  {
    ParseIntText(TrimStart(ToStr(v)))
  }

  /** `parseInt` on text that no longer starts with white space. */
  function ParseIntText(t: string): Option<int>
  {
    var negative := t != [] && t[0] == '-';
    var unsigned := if t != [] && (t[0] == '-' || t[0] == '+') then t[1..] else t;
    var hex := |unsigned| >= 2 && unsigned[0] == '0' && (unsigned[1] == 'x' || unsigned[1] == 'X');
    var body := if hex then unsigned[2..] else unsigned;
    var radix := if hex then 16 else 10;
    var n := RadixPrefix(body, radix);
    if n == 0 then None
    else
      var m: int := RadixValue(body[..n], radix);
      Some(if negative then -m else m)
  }

  /** Decimal digits read in base 10 have their decimal value. */
  lemma {:induction false} RadixValueDecimal(s: string)
    requires AllDigits(s)
    ensures RadixValue(s, 10) == DigitsValue(s)
  {
    if s != [] {
      RadixValueDecimal(s[..|s| - 1]);
    }
  }

  /** The digits of a numeral run up to the first character that is not a digit. */
  lemma {:induction false} RadixPrefixOfDigits(s: string, rest: string)
    requires AllDigits(s)
    requires rest == [] || !IsDigit(rest[0])
    ensures RadixPrefix(s + rest, 10) == |s|
  {
    var t := s + rest;
    if s != [] {
      assert t[0] == s[0];
      DecimalRadixDigit(s[0]);
      assert t[1..] == s[1..] + rest;
      RadixPrefixOfDigits(s[1..], rest);
    } else {
      assert t == rest;
      if rest != [] {
        DecimalRadixDigit(rest[0]);
      }
    }
  }

  /**
   * `parseInt` reads a numeral back, whatever follows it, unless what follows is a digit or
   * turns a lone `0` into the `0x` prefix.
   */
  lemma ParseIntNumeral(n: nat, rest: string)
    requires rest == [] || (!IsDigit(rest[0]) && rest[0] != 'x' && rest[0] != 'X')
    ensures ParseInt(Str(NatToString(n) + rest)) == Some(n)
  {
    var s := NatToString(n);
    var t := s + rest;
    assert t[0] == s[0] && IsDigit(t[0]);
    TrimStartAtNonSpace(t);
    ParseIntTextDigits(s, rest);
    DigitsValueOfNatToString(n);
  }

  /** Text that starts with a character other than white space is not trimmed. */
  lemma TrimStartAtNonSpace(t: string)
    requires t != [] && !IsJsSpace(t[0])
    ensures TrimStart(t) == t
  {
  }

  /**
   * Unsigned decimal digits with no leading `0` before a second digit are read as their value
   * by `parseInt`, whatever non-digit follows.
   */
  lemma ParseIntTextDigits(s: string, rest: string)
    requires s != [] && AllDigits(s) && (|s| >= 2 ==> s[0] != '0')
    requires rest == [] || (!IsDigit(rest[0]) && rest[0] != 'x' && rest[0] != 'X')
    ensures ParseIntText(s + rest) == Some(DigitsValue(s))
  {
    var t := s + rest;
    assert t[0] == s[0];
    assert !(|t| >= 2 && t[0] == '0' && (t[1] == 'x' || t[1] == 'X')) by {
      if |t| >= 2 && t[0] == '0' {
        assert |s| == 1;
        assert t[1] == rest[0];
      }
    }
    RadixPrefixOfDigits(s, rest);
    assert t[..|s|] == s;
    RadixValueDecimal(s);
  }
}
