/**
  The few pieces of JavaScript value semantics that the pages and the API layer
  rely on: `String(n)` for integers, `parseInt` on the text of a number input,
  the `parseInt(v) || fallback` coercion, and `a || b` on optional strings.
  JavaScript numbers are modelled as unbounded integers; `parseInt` yields NaN
  or an integer.
 */
module JsValues {

  datatype Option<T> = None | Some(value: T)

  /** The result of `parseInt`: NaN, or an integer. */
  datatype JsNumber = NaN | Int(value: int)

  predicate IsDigit(c: char) {
    '0' <= c <= '9'
  }

  /** JavaScript white space accepted before the number (ASCII subset). */
  predicate IsSpace(c: char) {
    c == ' ' || c == '\t' || c == '\n' || c == '\r' || c == '\U{000B}' || c == '\U{000C}'
  }

  function DigitValue(c: char): (d: int)
    requires IsDigit(c)
    ensures 0 <= d < 10
  {
    (c as int) - ('0' as int)
  }

  function DigitChar(d: int): (c: char)
    requires 0 <= d < 10
    ensures IsDigit(c) && DigitValue(c) == d
  {
    (('0' as int) + d) as char
  }

  predicate AllDigits(s: string) {
    forall i :: 0 <= i < |s| ==> IsDigit(s[i])
  }

  /** Decimal rendering of a natural number, as `String(n)` produces it. */
  function NatToString(n: nat): (s: string)
    ensures |s| >= 1 && AllDigits(s)
    ensures n < 10 <==> |s| == 1
  {
    if n < 10 then [DigitChar(n)] else NatToString(n / 10) + [DigitChar(n % 10)]
  }

  /** `String(n)` for an integer `n`: a minus sign, then the digits of `|n|`. */
  function IntToString(n: int): (s: string)
    ensures |s| >= 1
    ensures n < 0 <==> s[0] == '-'
    ensures n >= 0 ==> AllDigits(s)
  {
    if n < 0 then "-" + NatToString(-n) else NatToString(n)
  }

  /** The value of a string of decimal digits, most significant first. */
  function DigitsValue(s: string): (v: nat)
    requires AllDigits(s)
  {
    if s == [] then 0 else DigitsValue(s[..|s| - 1]) * 10 + DigitValue(s[|s| - 1])
  }

  /** Length of the longest prefix of `s` made of decimal digits. */
  function DigitPrefixLength(s: string): (k: nat)
    ensures k <= |s| && AllDigits(s[..k])
    ensures k < |s| ==> !IsDigit(s[k])
  {
    if s == [] || !IsDigit(s[0]) then 0
    else
      var k := 1 + DigitPrefixLength(s[1..]);
      assert s[..k] == [s[0]] + s[1..][..k - 1];
      k
  }

  /** `s` without its leading white space. */
  function TrimStart(s: string): (t: string)
    ensures |t| <= |s| && t == s[|s| - |t|..]
    ensures forall i :: 0 <= i < |s| - |t| ==> IsSpace(s[i])
    ensures t != [] ==> !IsSpace(t[0])
  {
    if s != [] && IsSpace(s[0]) then
      var t := TrimStart(s[1..]);
      assert s[1..][|s| - 1 - |t|..] == s[|s| - |t|..];
      assert forall i :: 1 <= i < |s| - |t| ==> s[i] == s[1..][i - 1];
      t
    else s
  }

  /** The unsigned part of `parseInt`: the longest digit prefix, NaN if there is none. */
  function ParseDigits(s: string): (r: JsNumber)
    ensures r.Int? ==> r.value >= 0
    ensures r.NaN? <==> (s == [] || !IsDigit(s[0]))
  {
    var k := DigitPrefixLength(s);
    if k == 0 then NaN else Int(DigitsValue(s[..k]))
  }

  /**
    `parseInt(s)` in base 10: leading white space is skipped, one optional
    sign is read, then the longest run of decimal digits; the rest of the
    string is ignored, and NaN results when no digit follows.
   */
  function ParseInt(s: string): (r: JsNumber)
    ensures r.NaN? <==>
      var t := TrimStart(s);
      t == [] || (t[0] != '-' && t[0] != '+' && !IsDigit(t[0])) ||
      ((t[0] == '-' || t[0] == '+') && (|t| == 1 || !IsDigit(t[1])))
  {
    var t := TrimStart(s);
    if t != [] && t[0] == '-' then
      match ParseDigits(t[1..])
      case NaN => NaN
      case Int(v) => Int(-v)
    else if t != [] && t[0] == '+' then ParseDigits(t[1..])
    else ParseDigits(t)
  }

  /**
    `parseInt(s) || fallback`: NaN and 0 are falsy, so both give `fallback`;
    every other parsed integer is kept, negative ones included.
   */
  function ParseIntOr(s: string, fallback: int): (r: int)
    ensures ParseInt(s).NaN? ==> r == fallback
    ensures ParseInt(s) == Int(0) ==> r == fallback
    ensures ParseInt(s).Int? && ParseInt(s).value != 0 ==> r == ParseInt(s).value
  {
    match ParseInt(s)
    case NaN => fallback
    case Int(v) => if v == 0 then fallback else v
  }

  /** `message || fallback` for an optional string: undefined and "" are falsy. */
  function OrElse(message: Option<string>, fallback: string): (r: string)
    ensures message.Some? && message.value != "" ==> r == message.value
    ensures message.None? || message.value == "" ==> r == fallback
  {
    if message.Some? && message.value != "" then message.value else fallback
  }

  lemma {:induction false} DigitsValueOfNatToString(n: nat)
    ensures DigitsValue(NatToString(n)) == n
  {
    if n >= 10 {
      var a := NatToString(n / 10);
      var s := NatToString(n);
      assert s == a + [DigitChar(n % 10)];
      assert s[..|s| - 1] == a;
      DigitsValueOfNatToString(n / 10);
    }
  }

  lemma {:induction false} DigitPrefixOfDigits(s: string, rest: string)
    requires AllDigits(s)
    requires rest == [] || !IsDigit(rest[0])
    ensures DigitPrefixLength(s + rest) == |s|
  {
    if s != [] {
      assert (s + rest)[1..] == s[1..] + rest;
      DigitPrefixOfDigits(s[1..], rest);
    }
  }

  lemma ParseDigitsOfNatToString(n: nat, rest: string)
    requires rest == [] || !IsDigit(rest[0])
    ensures ParseDigits(NatToString(n) + rest) == Int(n)
  {
    var d := NatToString(n);
    DigitPrefixOfDigits(d, rest);
    assert (d + rest)[..|d|] == d;
    DigitsValueOfNatToString(n);
  }

  /**
    `parseInt` reads back what `String` wrote: the rendering of `n`, followed
    by anything that does not start with a digit (".5", "e3", or nothing),
    parses to `n`.
   */
  lemma ParseIntOfRendered(n: int, rest: string)
    requires rest == [] || !IsDigit(rest[0])
    ensures ParseInt(IntToString(n) + rest) == Int(n)
  {
    if n < 0 {
      ParseIntOfRenderedNegative(-n, rest);
    } else {
      ParseIntOfRenderedNatural(n, rest);
    }
  }

  lemma ParseIntOfRenderedNegative(m: nat, rest: string)
    requires m > 0
    requires rest == [] || !IsDigit(rest[0])
    ensures ParseInt(IntToString(-(m as int)) + rest) == Int(-(m as int))
  {
    var t := NatToString(m) + rest;
    ParseDigitsOfNatToString(m, rest);
    assert IntToString(-(m as int)) + rest == ['-'] + t;
    ParseIntOfSign(t);
  }

  lemma ParseIntOfRenderedNatural(n: nat, rest: string)
    requires rest == [] || !IsDigit(rest[0])
    ensures ParseInt(IntToString(n) + rest) == Int(n)
  {
    var t := NatToString(n) + rest;
    ParseDigitsOfNatToString(n, rest);
    assert IntToString(n) + rest == t;
    ParseIntOfDigits(t);
  }

  lemma ParseIntOfSign(t: string)
    ensures ParseInt(['-'] + t) == match ParseDigits(t) case NaN => NaN case Int(v) => Int(-v)
  {
    var s := ['-'] + t;
    assert TrimStart(s) == s;
    assert s[1..] == t;
  }

  lemma ParseIntOfDigits(t: string)
    requires t != [] && IsDigit(t[0])
    ensures ParseInt(t) == ParseDigits(t)
  {
    assert TrimStart(t) == t;
  }

  /** `String` is injective on integers: distinct numbers render differently. */
  lemma IntToStringInjective(m: int, n: int)
    requires IntToString(m) == IntToString(n)
    ensures m == n
  {
    ParseIntOfRendered(m, []);
    ParseIntOfRendered(n, []);
    assert IntToString(m) + [] == IntToString(m);
    assert IntToString(n) + [] == IntToString(n);
  }

  /**
    The `parseInt(v) || fallback` coercion of a number input: an empty or
    unparsable text gives `fallback`, "0" gives `fallback`, and the text of
    any other integer gives that integer back.
   */
  lemma ParseIntOrRendered(n: int, fallback: int)
    ensures ParseIntOr("", fallback) == fallback
    ensures ParseIntOr(IntToString(n), fallback) == if n == 0 then fallback else n
  {
    ParseIntOfRendered(n, []);
    assert IntToString(n) + [] == IntToString(n);
  }
}
