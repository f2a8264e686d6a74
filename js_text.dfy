/**
 * The two pieces of the JavaScript runtime that the Tasks page relies on:
 * `parseInt(value)` on a form value and the decimal rendering of an integer
 * inside a template literal (`${customDays}`).
 */
module JsText {
  import opened Records

  predicate IsDigit(c: char) {
    '0' <= c <= '9'
  }

  function DigitValue(c: char): (d: nat)
    requires IsDigit(c)
    ensures d < 10
  {
    (c as int) - ('0' as int)
  }

  function DigitChar(d: nat): (c: char)
    requires d < 10
    ensures IsDigit(c) && DigitValue(c) == d
  {
    ('0' as int + d) as char
  }

  /** The white-space characters `parseInt` skips before the number. */
  predicate IsWhiteSpace(c: char) {
    c == ' ' || c == '\t' || c == '\n' || c == '\r' || c == '\U{000B}' || c == '\U{000C}'
    || c == '\U{00A0}' || c == '\U{FEFF}' || c == '\U{2028}' || c == '\U{2029}'
  }

  /** `s` without its leading white space. */
  function TrimStart(s: string): (r: string)
    ensures |r| <= |s| && r == s[|s| - |r|..]
    ensures forall i :: 0 <= i < |s| - |r| ==> IsWhiteSpace(s[i])
    ensures r == [] || !IsWhiteSpace(r[0])
    ensures (s == [] || !IsWhiteSpace(s[0])) ==> r == s
  {
    if s != [] && IsWhiteSpace(s[0]) then
      var r := TrimStart(s[1..]);
      assert forall i :: 1 <= i < |s| - |r| ==> s[i] == s[1..][i - 1];
      r
    else s
  }

  /** The length of the run of decimal digits that starts `s`. */
  function DigitRun(s: string): (k: nat)
    ensures k <= |s|
    ensures forall i :: 0 <= i < k ==> IsDigit(s[i])
    ensures k < |s| ==> !IsDigit(s[k])
  {
    if s != [] && IsDigit(s[0]) then 1 + DigitRun(s[1..]) else 0
  }

  /** The value of a string of decimal digits, most significant first. */
  function DigitsValue(ds: string): nat
    requires forall i :: 0 <= i < |ds| ==> IsDigit(ds[i])
  {
    if ds == [] then 0
    else DigitsValue(ds[..|ds| - 1]) * 10 + DigitValue(ds[|ds| - 1])
  }

  /**
   * `parseInt(s)` with no radix, for the strings a number input produces:
   * leading white space, an optional sign, then as many decimal digits as
   * there are; anything after them is ignored. No digit at all gives NaN,
   * here `None`.
   */
  function ParseInt(s: string): (r: Option<int>)
    ensures r.Some? <==>
      (var t := TrimStart(s);
       var u := if t != [] && (t[0] == '-' || t[0] == '+') then t[1..] else t;
       u != [] && IsDigit(u[0]))
  {
    ParseSigned(TrimStart(s))
  }

  /** An optional sign, then the run of digits at the front of `t`. */
  function ParseSigned(t: string): (r: Option<int>)
    ensures r.Some? <==>
      (var u := if t != [] && (t[0] == '-' || t[0] == '+') then t[1..] else t;
       u != [] && IsDigit(u[0]))
  {
    if t != [] && t[0] == '-' then
      match ParseDigits(t[1..])
      case None => None
      case Some(magnitude) => Some(-(magnitude as int))
    else if t != [] && t[0] == '+' then ParseDigits(t[1..])
    else ParseDigits(t)
  }

  /** The value of the run of digits at the front of `u`, if there is one. */
  function ParseDigits(u: string): (r: Option<nat>)
    ensures r.Some? <==> u != [] && IsDigit(u[0])
  {
    var k := DigitRun(u);
    if k == 0 then None else Some(DigitsValue(u[..k]))
  }

  /** The decimal digits of `n`, with no leading zero. */
  function NatToString(n: nat): (s: string)
    ensures s != []
    ensures forall i :: 0 <= i < |s| ==> IsDigit(s[i])
    ensures s[0] == '0' ==> n == 0
    ensures DigitsValue(s) == n
  {
    if n < 10 then [DigitChar(n)]
    else
      var prefix := NatToString(n / 10);
      var s := prefix + [DigitChar(n % 10)];
      assert s[..|s| - 1] == prefix;
      s
  }

  /** How `${n}` renders an integer. */
  function IntToString(n: int): (s: string)
    ensures s != [] && (s[0] == '-' <==> n < 0)
  {
    if n < 0 then "-" + NatToString(-n) else NatToString(n)
  }

  /** A white-space character in front of the text does not change what `parseInt` reads. */
  lemma ParseIntSkipsWhiteSpace(c: char, s: string)
    requires IsWhiteSpace(c)
    ensures ParseInt([c] + s) == ParseInt(s)
  {
    var t := [c] + s;
    assert t[0] == c && t[1..] == s;
    TrimStartStep(t);
  }

  /** Trimming a text that starts with white space trims its tail. */
  lemma TrimStartStep(t: string)
    requires t != [] && IsWhiteSpace(t[0])
    ensures TrimStart(t) == TrimStart(t[1..])
  {
  }

  /** A run of digits followed by a non-digit is read up to the non-digit. */
  lemma {:induction false} DigitRunOfDigits(ds: string, rest: string)
    requires forall i :: 0 <= i < |ds| ==> IsDigit(ds[i])
    requires rest == [] || !IsDigit(rest[0])
    ensures DigitRun(ds + rest) == |ds|
  {
    if ds != [] {
      assert (ds + rest)[1..] == ds[1..] + rest;
      DigitRunOfDigits(ds[1..], rest);
    } else {
      assert ds + rest == rest;
    }
  }

  /** A run of digits followed by a non-digit is read as the run's value. */
  lemma ParseDigitsOfDigits(digits: string, rest: string)
    requires digits != [] && forall i :: 0 <= i < |digits| ==> IsDigit(digits[i])
    requires rest == [] || !IsDigit(rest[0])
    ensures ParseDigits(digits + rest) == Some(DigitsValue(digits))
  {
    DigitRunOfDigits(digits, rest);
    assert (digits + rest)[..|digits|] == digits;
  }

  /** Text that starts with a digit is neither trimmed nor signed. */
  lemma StartsWithDigit(s: string)
    requires s != [] && IsDigit(s[0])
    ensures TrimStart(s) == s
    ensures ParseSigned(s) == ParseDigits(s)
  {
  }

  /** A minus sign negates the digits after it. */
  lemma ParseSignedMinus(u: string)
    ensures ParseSigned("-" + u) == if ParseDigits(u).Some? then Some(-(ParseDigits(u).value as int)) else None
  {
    assert ("-" + u)[1..] == u;
  }

  lemma ParseIntOfDigits(m: nat, rest: string)
    requires rest == [] || !IsDigit(rest[0])
    ensures ParseInt(NatToString(m) + rest) == Some(m)
  {
    var digits := NatToString(m);
    assert (digits + rest)[0] == digits[0];
    StartsWithDigit(digits + rest);
    ParseDigitsOfDigits(digits, rest);
  }

  lemma ParseIntOfNegativeDigits(m: nat, rest: string)
    requires m > 0
    requires rest == [] || !IsDigit(rest[0])
    ensures ParseInt("-" + (NatToString(m) + rest)) == Some(-(m as int))
  {
    var s := "-" + (NatToString(m) + rest);
    assert s[0] == '-';
    assert TrimStart(s) == s;
    ParseSignedMinus(NatToString(m) + rest);
    ParseDigitsOfDigits(NatToString(m), rest);
  }

  /**
   * `parseInt` reads back what the template literal wrote, even with text
   * after it, provided that text does not start with a digit.
   */
  lemma {:induction false} ParseIntOfIntToString(n: int, rest: string)
    requires rest == [] || !IsDigit(rest[0])
    ensures ParseInt(IntToString(n) + rest) == Some(n)
  {
    if n < 0 {
      var m: nat := -n;
      assert IntToString(n) + rest == "-" + (NatToString(m) + rest);
      ParseIntOfNegativeDigits(m, rest);
    } else {
      var s := IntToString(n) + rest;
      assert IntToString(n) == NatToString(n);
      ParseIntOfDigits(n, rest);
      assert ParseInt(s) == Some(n);
    }
  }
}
