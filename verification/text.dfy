/** Characters and strings: decimal and hexadecimal digits, JavaScript white space, prefixes and substrings. */
module Text {
  import opened Base


  predicate IsDigit(c: char) { '0' <= c <= '9' }

  predicate AllDigits(s: string) { forall i | 0 <= i < |s| :: IsDigit(s[i]) }

  predicate IsLowerHex(c: char) { IsDigit(c) || 'a' <= c <= 'f' }

  /** The decimal digit character for `d`. */
  function DigitChar(d: nat): (c: char)
    requires d < 10
    ensures IsDigit(c) && DigitValue(c) == d
  {
    (48 + d) as char
  }

  function DigitValue(c: char): (d: nat)
    requires IsDigit(c)
    ensures d < 10
  {
    c as int - 48
  }

  /** The lower-case hexadecimal digit for `d`, as `Number.prototype.toString(16)` writes it. */
  function LowerHexChar(d: nat): (c: char)
    requires d < 16
    ensures IsLowerHex(c) && HexValue(c) == Some(d)
  {
    if d < 10 then (48 + d) as char else (87 + d) as char
  }

  /** The upper-case hexadecimal digit for `d`, as percent-encoding writes it. */
  function UpperHexChar(d: nat): (c: char)
    requires d < 16
    ensures HexValue(c) == Some(d)
  {
    if d < 10 then (48 + d) as char else (55 + d) as char
  }

  /** The value of a hexadecimal digit of either case, or None. */
  function HexValue(c: char): (r: Option<nat>)
    ensures r.Some? ==> r.value < 16
  {
    if '0' <= c <= '9' then Some(c as int - 48)
    else if 'a' <= c <= 'f' then Some(c as int - 87)
    else if 'A' <= c <= 'F' then Some(c as int - 55)
    else None
  }

  /** The shortest decimal numeral of `n`, as JavaScript's `String(n)` writes a non-negative integer. */
  function NatToString(n: nat): (s: string)
    ensures 1 <= |s| && AllDigits(s)
    ensures s[0] == '0' <==> n == 0
    ensures n == 0 ==> s == "0"
    decreases n
  {
    if n < 10 then [DigitChar(n)] else NatToString(n / 10) + [DigitChar(n % 10)]
  }

  /** `String(i)` for an integer: a minus sign before the numeral of a negative value. */
  function IntToString(i: int): (s: string)
    ensures 1 <= |s|
  {
    if i < 0 then "-" + NatToString(-i) else NatToString(i)
  }

  /** The value of a string of decimal digits, most significant first. */
  function DigitsValue(s: string): nat
    requires AllDigits(s)
  {
    if s == [] then 0 else DigitsValue(s[..|s| - 1]) * 10 + DigitValue(s[|s| - 1])
  }

  /** Reading back a written numeral gives the number. */
  lemma {:induction false} DigitsValueOfNatToString(n: nat)
    ensures DigitsValue(NatToString(n)) == n
    decreases n
  {
    var s := NatToString(n);
    if n >= 10 {
      DigitsValueOfNatToString(n / 10);
      assert s[..|s| - 1] == NatToString(n / 10);
    }
  }

  /** Two numerals that differ are numerals of different numbers. */
  lemma NatToStringInjective(m: nat, n: nat)
    requires NatToString(m) == NatToString(n)
    ensures m == n
  {
    DigitsValueOfNatToString(m);
    DigitsValueOfNatToString(n);
  }

  /** JavaScript's white space and line terminators (the characters `String.prototype.trim` removes). */
  predicate IsJsSpace(c: char)
  {
    c == '\t' || c == '\n' || c == '\U{000B}' || c == '\U{000C}' || c == '\r' || c == ' '
    || c == '\U{00A0}' || c == '\U{1680}' || ('\U{2000}' <= c <= '\U{200A}') || c == '\U{2028}'
    || c == '\U{2029}' || c == '\U{202F}' || c == '\U{205F}' || c == '\U{3000}' || c == '\U{FEFF}'
  }

  /** `s` without its leading white space. */
  function TrimStart(s: string): (t: string)
    ensures |t| <= |s| && t == s[|s| - |t|..]
    ensures t != [] ==> !IsJsSpace(t[0])
    ensures forall i | 0 <= i < |s| - |t| :: IsJsSpace(s[i])
  {
    if s != [] && IsJsSpace(s[0]) then TrimStart(s[1..]) else s
  }

  /** `s` without its trailing white space. */
  function TrimEnd(s: string): (t: string)
    ensures |t| <= |s| && t == s[..|t|]
    ensures t != [] ==> !IsJsSpace(t[|t| - 1])
    ensures forall i | |t| <= i < |s| :: IsJsSpace(s[i])
  {
    if s != [] && IsJsSpace(s[|s| - 1]) then TrimEnd(s[..|s| - 1]) else s
  }

  /** `String.prototype.trim`. */
  function Trim(s: string): string { TrimEnd(TrimStart(s)) }

  /** A string free of white space is its own trim. */
  lemma TrimNoSpace(s: string)
    requires forall i | 0 <= i < |s| :: !IsJsSpace(s[i])
    ensures Trim(s) == s
  {
  }

  /** `s.startsWith(p)`. */
  predicate StartsWith(s: string, p: string) { |p| <= |s| && s[..|p|] == p }

  /** `t` occurs in `s` starting at index `i`. */
  predicate OccursAt(s: string, t: string, i: nat) { i + |t| <= |s| && s[i..i + |t|] == t }

  /** `s.includes(t)`: `t` occurs somewhere in `s`. */
  function Contains(s: string, t: string): (b: bool)
    ensures b <==> exists i: nat :: OccursAt(s, t, i)
    decreases |s|
  {
    if StartsWith(s, t) then
      assert OccursAt(s, t, 0);
      true
    else if |s| <= |t| then
      assert forall i: nat :: !OccursAt(s, t, i) by {
        forall i: nat ensures !OccursAt(s, t, i) {
          if i + |t| <= |s| { assert i == 0 && s[..|t|] == s[i..i + |t|]; }
        }
      }
      false
    else
      var b := Contains(s[1..], t);
      assert forall i: nat :: OccursAt(s, t, i + 1) <==> OccursAt(s[1..], t, i) by {
        forall i: nat ensures OccursAt(s, t, i + 1) <==> OccursAt(s[1..], t, i) {
          if i + 1 + |t| <= |s| {
            var a, b := s[i + 1..i + 1 + |t|], s[1..][i..i + |t|];
            assert |a| == |b| && forall k | 0 <= k < |a| :: a[k] == b[k];
          }
        }
      }
      assert !OccursAt(s, t, 0);
      assert (exists i: nat :: OccursAt(s, t, i)) ==> exists i: nat :: OccursAt(s[1..], t, i) by {
        if exists i: nat :: OccursAt(s, t, i) {
          var i: nat :| OccursAt(s, t, i);
          assert i > 0 && OccursAt(s[1..], t, i - 1);
        }
      }
      b
  }

  /** `String.prototype.toLowerCase` on the ASCII letters; other characters are kept. */
  function AsciiLower(s: string): (t: string)
    ensures |t| == |s|
    ensures forall i | 0 <= i < |s| :: t[i] == if 'A' <= s[i] <= 'Z' then (s[i] as int + 32) as char else s[i]
  {
    seq(|s|, i requires 0 <= i < |s| => if 'A' <= s[i] <= 'Z' then (s[i] as int + 32) as char else s[i])
  }
}
