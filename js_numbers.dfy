/**
 * JavaScript's global `parseInt(string)` with no radix argument, as both handlers call it,
 * following the algorithm of ECMA-262 ("parseInt (string, radix)"): leading white space is
 * skipped, one sign is read, a "0x"/"0X" prefix selects radix 16 (otherwise radix 10), and the
 * longest prefix of digits of that radix is converted. No digits at all gives NaN, written `None`.
 * The result is an exact integer; see README for the rounding of JavaScript numbers above 2^53.
 */
module JsNumbers {
  import opened Wrappers

  /** StrWhiteSpaceChar of ECMA-262: the WhiteSpace and LineTerminator code points. */
  predicate IsStrWhiteSpace(c: char) {
    c == '\t' || c == '\n' || c == '\U{0B}' || c == '\U{0C}' || c == '\r' || c == ' ' ||
    c == '\U{A0}' || c == '\U{1680}' || ('\U{2000}' <= c <= '\U{200A}') ||
    c == '\U{2028}' || c == '\U{2029}' || c == '\U{202F}' || c == '\U{205F}' ||
    c == '\U{3000}' || c == '\U{FEFF}'
  }

  predicate IsDecimalDigit(c: char) {
    '0' <= c <= '9'
  }

  /** The digit value parseInt gives a character; 36 for a character that is no digit in any radix. */
  function DigitValue(c: char): (d: nat)
    ensures d <= 36
    ensures IsDecimalDigit(c) <==> d < 10
  {
    if '0' <= c <= '9' then (c - '0') as nat
    else if 'a' <= c <= 'z' then (c - 'a') as nat + 10
    else if 'A' <= c <= 'Z' then (c - 'A') as nat + 10
    else 36
  }

  predicate IsRadixDigit(c: char, radix: nat) {
    DigitValue(c) < radix
  }

  /** `s` without its leading white space (TrimString with `start`). */
  function TrimStart(s: string): (t: string)
    ensures |t| <= |s| && t == s[|s| - |t|..]
    ensures t == [] || !IsStrWhiteSpace(t[0])
    ensures forall i :: 0 <= i < |s| - |t| ==> IsStrWhiteSpace(s[i])
  {
    if |s| > 0 && IsStrWhiteSpace(s[0]) then TrimStart(s[1..]) else s
  }

  /** Length of the longest prefix of `s` made of digits of `radix`. */
  function DigitPrefixLength(s: string, radix: nat): (n: nat)
    ensures n <= |s|
    ensures forall i :: 0 <= i < n ==> IsRadixDigit(s[i], radix)
    ensures n < |s| ==> !IsRadixDigit(s[n], radix)
  {
    if |s| > 0 && IsRadixDigit(s[0], radix) then 1 + DigitPrefixLength(s[1..], radix) else 0
  }

  /** The mathematical value of a numeral written with the digits of `radix`, most significant first. */
  function NumeralValue(digits: string, radix: nat): nat {
    if digits == [] then 0
    else NumeralValue(digits[..|digits| - 1], radix) * radix + DigitValue(digits[|digits| - 1])
  }

  /**
   * `parseInt(s)`; `None` is NaN. The sign of a zero result is lost, as `-0 === 0`.
   * Blank text is NaN, a number that starts with a digit is never negative, and only a minus
   * sign yields a negative result.
   */
  function ParseInt(s: string): (r: Option<int>)
    ensures TrimStart(s) == [] ==> r.None?
    ensures TrimStart(s) != [] && IsDecimalDigit(TrimStart(s)[0]) && r.Some? ==> r.value >= 0
    ensures r.Some? && r.value < 0 ==> TrimStart(s)[0] == '-'
  {
    var t := TrimStart(s);
    var sign := if |t| > 0 && t[0] == '-' then -1 else 1;
    var u := if |t| > 0 && (t[0] == '-' || t[0] == '+') then t[1..] else t;
    var hex := |u| >= 2 && u[0] == '0' && (u[1] == 'x' || u[1] == 'X');
    var radix := if hex then 16 else 10;
    var v := if hex then u[2..] else u;
    var n := DigitPrefixLength(v, radix);
    if n == 0 then None else Some(sign * NumeralValue(v[..n], radix))
  }

  /** A non-empty string of ASCII decimal digits: what `/^\d+$/` accepts. */
  predicate IsDigitString(s: string) {
    |s| > 0 && forall i :: 0 <= i < |s| ==> IsDecimalDigit(s[i])
  }

  /** The decimal value of a digit string. */
  function DecimalValue(s: string): nat {
    NumeralValue(s, 10)
  }

  /** The decimal numeral of `n` without leading zeros, as a client writes an id into a path. */
  function DecimalString(n: nat): (s: string)
    ensures IsDigitString(s)
  {
    var last := ['0' + (n % 10) as char];
    if n < 10 then last else DecimalString(n / 10) + last
  }

  /** The numeral of a number reads back as that number. */
  lemma {:induction false} DecimalStringValue(n: nat)
    ensures DecimalValue(DecimalString(n)) == n
  {
    var s := DecimalString(n);
    assert DigitValue(s[|s| - 1]) == n % 10;
    if n >= 10 {
      assert s[..|s| - 1] == DecimalString(n / 10);
      DecimalStringValue(n / 10);
    } else {
      assert s[..|s| - 1] == [];
      assert DecimalValue(s) == NumeralValue([], 10) * 10 + DigitValue(s[0]);
    }
  }

  /**
   * parseInt reads a run of decimal digits and stops at the first character after it that is no
   * decimal digit; the only exception is a lone "0" followed by "x" or "X", the hexadecimal prefix.
   */
  lemma ParseIntDecimalPrefix(digits: string, rest: string)
    requires IsDigitString(digits)
    requires rest != [] ==> !IsDecimalDigit(rest[0])
    requires digits == "0" && rest != [] ==> rest[0] != 'x' && rest[0] != 'X'
    ensures ParseInt(digits + rest) == Some(DecimalValue(digits))
  {
    var s := digits + rest;
    assert !IsStrWhiteSpace(s[0]);
    assert TrimStart(s) == s;
    assert !(|s| >= 2 && s[0] == '0' && (s[1] == 'x' || s[1] == 'X')) by {
      if |s| >= 2 && |digits| == 1 { assert s[1] == rest[0]; assert s[0] == '0' ==> digits == "0"; }
      if |s| >= 2 && |digits| > 1 { assert s[1] == digits[1]; }
    }
    var n := DigitPrefixLength(s, 10);
    assert forall i :: 0 <= i < |digits| ==> s[i] == digits[i];
    assert |s| > |digits| ==> s[|digits|] == rest[0];
    assert n == |digits|;
    assert s[..n] == digits;
  }

  /** parseInt of a digit string is its decimal value. */
  lemma ParseIntDigitString(s: string)
    requires IsDigitString(s)
    ensures ParseInt(s) == Some(DecimalValue(s))
  {
    assert s + [] == s;
    ParseIntDecimalPrefix(s, []);
  }

  /** Writing a number in decimal and reading it with parseInt gives the number back. */
  lemma ParseIntDecimalString(n: nat)
    ensures ParseInt(DecimalString(n)) == Some(n)
  {
    ParseIntDigitString(DecimalString(n));
    DecimalStringValue(n);
  }

  /** A string that starts with no white space, no sign and no decimal digit is NaN. */
  lemma ParseIntNoLeadingDigit(s: string)
    requires s == [] || (!IsStrWhiteSpace(s[0]) && s[0] != '+' && s[0] != '-' && !IsDecimalDigit(s[0]))
    ensures ParseInt(s) == None
  {
    assert TrimStart(s) == s;
  }

  /** The value of a numeral is below radix^|digits|: a lower bound on the digits a value needs. */
  lemma {:induction false} NumeralValueBound(digits: string, radix: nat)
    requires forall i :: 0 <= i < |digits| ==> IsRadixDigit(digits[i], radix)
    ensures NumeralValue(digits, radix) < Power(radix, |digits|)
  {
    if digits != [] {
      var init := digits[..|digits| - 1];
      assert forall i :: 0 <= i < |init| ==> init[i] == digits[i];
      NumeralValueBound(init, radix);
      assert DigitValue(digits[|digits| - 1]) < radix;
      DigitStepBound(NumeralValue(init, radix), DigitValue(digits[|digits| - 1]), Power(radix, |init|), radix);
    }
  }

  /** Appending a digit below the radix to a value below p gives a value below p * radix. */
  lemma DigitStepBound(v: nat, d: nat, p: nat, radix: nat)
    requires v < p && d < radix
    ensures v * radix + d < p * radix
  {
    MultiplyMonotone(v + 1, p, radix);
    assert (v + 1) * radix == v * radix + radix;
  }

  function Power(b: nat, e: nat): nat {
    if e == 0 then 1 else Power(b, e - 1) * b
  }

  lemma MultiplyMonotone(x: nat, y: nat, k: nat)
    requires x <= y
    ensures x * k <= y * k
  {
  }
}
