/**
 * The device identity and the request ticket the client presents to the upstream API
 * (lib/melolo.js lines 4-29). Each `Math.random()` call is a draw in [0, 1) handed in by the
 * caller, in the order the source makes them; `Date.now()` is a clock reading in milliseconds.
 */
module Identity {
  import opened Base
  import opened Text

  /** A value `Math.random()` can return. */
  predicate IsDraw(r: real) { 0.0 <= r < 1.0 }

  predicate AllDraws(ds: seq<real>) { forall i | 0 <= i < |ds| :: IsDraw(ds[i]) }

  /** `Math.floor(r * k)`: a draw scaled to a whole number below `k`. */
  function Scale(r: real, k: nat): (d: nat)
    requires IsDraw(r) && k > 0
    ensures d < k
  {
    assert (1.0 - r) * (k as real) > 0.0;
    (r * k as real).Floor
  }

  /** How many digits `generateRandomId(length)` writes: the first always, then one per index below `length`. */
  function IdLength(length: int): nat
  {
    if length < 1 then 1 else length
  }

  /**
   * `generateRandomId(length)`: a first digit from 1 to 9, then decimal digits up to `length`
   * characters in all, so a positive numeral without a leading zero.
   */
  method GenerateRandomId(length: int, draws: seq<real>) returns (id: string)
    requires |draws| == IdLength(length) && AllDraws(draws)
    ensures |id| == IdLength(length) && AllDigits(id)
    ensures '1' <= id[0] <= '9'
    ensures DigitValue(id[0]) == Scale(draws[0], 9) + 1
    ensures forall i | 1 <= i < |id| :: DigitValue(id[i]) == Scale(draws[i], 10)
  {
    id := [DigitChar(Scale(draws[0], 9) + 1)];
    var i := 1;
    while i < length
      invariant 1 <= i <= IdLength(length) && |id| == i
      invariant AllDigits(id) && '1' <= id[0] <= '9'
      invariant DigitValue(id[0]) == Scale(draws[0], 9) + 1
      invariant forall j | 1 <= j < i :: DigitValue(id[j]) == Scale(draws[j], 10)
    {
      id := id + [DigitChar(Scale(draws[i], 10))];
      i := i + 1;
    }
  }

  /** `r & 0x3 | 0x8` on a nibble: the UUID variant digit. */
  function VariantNibble(r: nat): (v: nat)
    requires r < 16
    ensures v == 8 + r % 4
  {
    (((r as bv8) & 3) | 8) as nat
  }

  predicate IsPlaceholder(c: char) { c == 'x' || c == 'y' }

  /** How many characters of a template get replaced, one draw each. */
  function Placeholders(t: string): nat
  {
    if t == [] then 0 else (if IsPlaceholder(t[0]) then 1 else 0) + Placeholders(t[1..])
  }

  /**
   * `template.replace(/[xy]/g, ...)` as the generators use it: every `x` becomes a hexadecimal
   * digit of a fresh draw, every `y` the variant digit of one, and other characters stay.
   */
  function Fill(template: string, draws: seq<real>): (r: string)
    requires |draws| == Placeholders(template) && AllDraws(draws)
    ensures |r| == |template|
    ensures forall i | 0 <= i < |r| :: !IsPlaceholder(template[i]) ==> r[i] == template[i]
    ensures forall i | 0 <= i < |r| :: template[i] == 'x' ==> IsLowerHex(r[i])
    ensures forall i | 0 <= i < |r| :: template[i] == 'y' ==> r[i] in {'8', '9', 'a', 'b'}
  {
    if template == [] then []
    else if template[0] == 'x' then [LowerHexChar(Scale(draws[0], 16))] + Fill(template[1..], draws[1..])
    else if template[0] == 'y' then [LowerHexChar(VariantNibble(Scale(draws[0], 16)))] + Fill(template[1..], draws[1..])
    else [template[0]] + Fill(template[1..], draws)
  }

  /** `n` placeholder characters `x`. */
  function Xs(n: nat): (t: string)
    ensures |t| == n && forall i | 0 <= i < n :: t[i] == 'x'
  {
    seq(n, _ => 'x')
  }

  lemma {:induction false} PlaceholdersAppend(a: string, b: string)
    ensures Placeholders(a + b) == Placeholders(a) + Placeholders(b)
  {
    if a != [] {
      assert (a + b)[1..] == a[1..] + b;
      PlaceholdersAppend(a[1..], b);
    } else {
      assert a + b == b;
    }
  }

  lemma {:induction false} PlaceholdersXs(n: nat)
    ensures Placeholders(Xs(n)) == n
  {
    if n > 0 {
      assert Xs(n)[1..] == Xs(n - 1);
      PlaceholdersXs(n - 1);
    }
  }

  /** The template of `generateOpenUdid`: sixteen `x`. */
  const OpenUdidTemplate: string := Xs(16)

  /** The template of `generateUUID`: `xxxxxxxx-xxxx-4xxx-yxxx-xxxxxxxxxxxx`. */
  const UuidTemplate: string := Xs(8) + "-" + Xs(4) + "-4" + Xs(3) + "-y" + Xs(3) + "-" + Xs(12)

  lemma UuidTemplatePlaceholders()
    ensures |UuidTemplate| == 36 && Placeholders(UuidTemplate) == 31
  {
    PlaceholdersXs(8); PlaceholdersXs(4); PlaceholdersXs(3); PlaceholdersXs(12);
    assert Placeholders("-") == 0 && Placeholders("-4") == 0 && Placeholders("-y") == 1;
    PlaceholdersAppend(Xs(8), "-");
    PlaceholdersAppend(Xs(8) + "-", Xs(4));
    PlaceholdersAppend(Xs(8) + "-" + Xs(4), "-4");
    PlaceholdersAppend(Xs(8) + "-" + Xs(4) + "-4", Xs(3));
    PlaceholdersAppend(Xs(8) + "-" + Xs(4) + "-4" + Xs(3), "-y");
    PlaceholdersAppend(Xs(8) + "-" + Xs(4) + "-4" + Xs(3) + "-y", Xs(3));
    PlaceholdersAppend(Xs(8) + "-" + Xs(4) + "-4" + Xs(3) + "-y" + Xs(3), "-");
    PlaceholdersAppend(Xs(8) + "-" + Xs(4) + "-4" + Xs(3) + "-y" + Xs(3) + "-", Xs(12));
  }

  /** Where the template has its fixed characters, and `x` everywhere else. */
  lemma UuidTemplateLayout()
    ensures |UuidTemplate| == 36
    ensures UuidTemplate[8] == '-' && UuidTemplate[13] == '-' && UuidTemplate[18] == '-' && UuidTemplate[23] == '-'
    ensures UuidTemplate[14] == '4' && UuidTemplate[19] == 'y'
    ensures forall i | 0 <= i < 36 && i !in {8, 13, 14, 18, 19, 23} :: UuidTemplate[i] == 'x'
  {
  }

  /** `generateOpenUdid()`: sixteen lower-case hexadecimal digits. */
  function OpenUdid(draws: seq<real>): (u: string)
    requires |draws| == 16 && AllDraws(draws)
    ensures |u| == 16 && forall i | 0 <= i < 16 :: IsLowerHex(u[i])
  {
    PlaceholdersXs(16);
    Fill(OpenUdidTemplate, draws)
  }

  /** `generateUUID()`: the layout of a version 4 UUID (section 4.4 of RFC 4122). */
  function Uuid(draws: seq<real>): (u: string)
    requires |draws| == 31 && AllDraws(draws)
    ensures |u| == 36
    ensures u[8] == '-' && u[13] == '-' && u[18] == '-' && u[23] == '-'
    ensures u[14] == '4'
    ensures u[19] in {'8', '9', 'a', 'b'}
    ensures forall i | 0 <= i < 36 && i !in {8, 13, 14, 18, 19, 23} :: IsLowerHex(u[i])
  {
    UuidTemplatePlaceholders();
    UuidTemplateLayout();
    Fill(UuidTemplate, draws)
  }

  /**
   * `generateRticket()`: the clock in whole seconds plus a draw below 1000, written in decimal.
   * The ticket names a second no earlier than now and less than 1000 seconds ahead.
   */
  function Rticket(nowMs: nat, r: real): (t: string)
    requires IsDraw(r)
    ensures AllDigits(t)
    ensures nowMs / 1000 <= DigitsValue(t) < nowMs / 1000 + 1000
  {
    DigitsValueOfNatToString(nowMs / 1000 + Scale(r, 1000));
    NatToString(nowMs / 1000 + Scale(r, 1000))
  }

  /** The identifiers generated once, when the module loads, and sent with every request. */
  datatype ClientIdentity = ClientIdentity(iid: string, deviceId: string, openUdid: string, cdid: string)

  /** The identity `CONFIG.COMMON_PARAMS` is built with (lib/melolo.js lines 44-45, 60 and 76). */
  method NewClientIdentity(iidDraws: seq<real>, deviceDraws: seq<real>, udidDraws: seq<real>, uuidDraws: seq<real>)
    returns (id: ClientIdentity)
    requires |iidDraws| == 19 && AllDraws(iidDraws)
    requires |deviceDraws| == 19 && AllDraws(deviceDraws)
    requires |udidDraws| == 16 && AllDraws(udidDraws)
    requires |uuidDraws| == 31 && AllDraws(uuidDraws)
    ensures |id.iid| == 19 && AllDigits(id.iid) && id.iid[0] != '0'
    ensures |id.deviceId| == 19 && AllDigits(id.deviceId) && id.deviceId[0] != '0'
    ensures id.openUdid == OpenUdid(udidDraws) && id.cdid == Uuid(uuidDraws)
  {
    var iid := GenerateRandomId(19, iidDraws);
    var deviceId := GenerateRandomId(19, deviceDraws);
    id := ClientIdentity(iid, deviceId, OpenUdid(udidDraws), Uuid(uuidDraws));
  }
}
