/**
 * Which attribute texts JavaScript's `Number(...)` accepts: `!isNaN(Number(s))`
 * holds exactly when `s`, once trimmed, is empty or a StringNumericLiteral
 * (section 7.1.4.1.1 of ECMA-262). A number itself is kept as the literal
 * text it was read from; the floating-point value is not modelled.
 */
module JsNumber {
  import opened JsString

  predicate AllDigits(s: string) { forall i :: 0 <= i < |s| ==> IsDigit(s[i]) }

  predicate IsHexDigit(c: char) { IsDigit(c) || ('a' <= c <= 'f') || ('A' <= c <= 'F') }

  /** Length of the longest run of decimal digits at the start of `s`. */
  function DigitRun(s: string): (r: nat)
    ensures r <= |s|
    ensures AllDigits(s[..r])
    ensures r == |s| || !IsDigit(s[r])
  {
    if |s| == 0 || !IsDigit(s[0]) then 0
    else
      var k := DigitRun(s[1..]);
      assert s[1..][..k] == s[1..k + 1];
      1 + k
  }

  /** SignedInteger: an optional sign and at least one digit. */
  predicate IsSignedInteger(s: string) {
    var u := if |s| > 0 && (s[0] == '+' || s[0] == '-') then s[1..] else s;
    |u| > 0 && AllDigits(u)
  }

  /** An optional ExponentPart: empty, or `e`/`E` and a SignedInteger. */
  predicate IsOptExponent(s: string) {
    |s| == 0 || ((s[0] == 'e' || s[0] == 'E') && IsSignedInteger(s[1..]))
  }

  /**
   * StrUnsignedDecimalLiteral: `Infinity`, `d+ (. d*)? exp?` or `. d+ exp?`.
   */
  predicate IsUnsignedDecimal(u: string) {
    if u == "Infinity" then true
    else
      var m := DigitRun(u);
      var rest := u[m..];
      if |rest| > 0 && rest[0] == '.' then
        var f := DigitRun(rest[1..]);
        (m > 0 || f > 0) && IsOptExponent(rest[1 + f..])
      else m > 0 && IsOptExponent(rest)
  }

  /** The part of a decimal literal after an optional sign. */
  function Unsigned(t: string): string {
    if |t| > 0 && (t[0] == '+' || t[0] == '-') then t[1..] else t
  }

  predicate IsRadixDigits(s: string, radix: nat) {
    |s| > 0 && forall i :: 0 <= i < |s| ==>
      (if radix == 16 then IsHexDigit(s[i]) else if radix == 8 then '0' <= s[i] <= '7' else '0' <= s[i] <= '1')
  }

  /** NonDecimalIntegerLiteral: `0x`, `0o` or `0b` (either case) and its digits. */
  predicate IsNonDecimal(t: string) {
    |t| >= 3 && t[0] == '0' &&
      ((t[1] in "xX" && IsRadixDigits(t[2..], 16)) ||
       (t[1] in "oO" && IsRadixDigits(t[2..], 8)) ||
       (t[1] in "bB" && IsRadixDigits(t[2..], 2)))
  }

  /** `!isNaN(Number(s))`. */
  predicate IsNumeric(s: string) {
    var t := Trim(s);
    |t| == 0 || IsUnsignedDecimal(Unsigned(t)) || IsNonDecimal(t)
  }

  /** The mantissa of a decimal literal: everything before the exponent marker. */
  function Mantissa(u: string): string {
    var i := Find(u, 'e');
    var j := Find(u, 'E');
    u[..if i < j then i else j]
  }

  /**
   * A numeric text whose value is zero, which makes the number falsy.
   * Values that round to zero (underflow) are not modelled.
   */
  predicate IsZero(s: string)
    requires IsNumeric(s)
  {
    var t := Trim(s);
    if |t| == 0 then true
    else if IsNonDecimal(t) then forall i :: 2 <= i < |t| ==> t[i] == '0'
    else
      var u := Unsigned(t);
      u != "Infinity" && forall i :: 0 <= i < |Mantissa(u)| ==> Mantissa(u)[i] in "0."
  }

  lemma TrimNoSpace(s: string)
    requires |s| > 0 && !IsSpace(s[0]) && !IsSpace(s[|s| - 1])
    ensures Trim(s) == s
  {
  }

  /** A non-empty run of digits is a number (`[hello=1]` reads as 1). */
  lemma DigitsAreNumeric(s: string)
    requires |s| > 0 && AllDigits(s)
    ensures IsNumeric(s)
  {
    TrimNoSpace(s);
    assert Unsigned(s) == s;
    assert DigitRun(s) == |s|;
  }

  /** Digits, a point and digits is a number (`[hello=1.1]`, `[hello=.1]`). */
  lemma FractionIsNumeric(a: string, b: string)
    requires AllDigits(a) && AllDigits(b) && |b| > 0
    ensures IsNumeric(a + "." + b)
  {
    var s := a + "." + b;
    TrimNoSpace(s);
    assert Unsigned(s) == s;
    assert DigitRun(s) == |a| by {
      assert s[..|a|] == a;
      assert AllDigits(s[..|a|]);
      assert s[|a|] == '.';
    }
    assert s[|a|..][1..] == b;
    assert DigitRun(b) == |b|;
  }

  /** Text starting with a letter other than `I` is not a number (`[hello=world]`). */
  lemma LetterIsNotNumeric(s: string)
    requires |s| > 0 && IsLetter(s[0]) && s[0] != 'I' && !IsSpace(s[|s| - 1])
    ensures !IsNumeric(s)
  {
    TrimNoSpace(s);
    assert Unsigned(s) == s;
    assert DigitRun(s) == 0;
  }

  /** A run of digits is zero exactly when every digit is `0` (`[id=0]` is falsy, `[id=10]` is not). */
  lemma DigitsZero(s: string)
    requires |s| > 0 && AllDigits(s)
    ensures IsNumeric(s)
    ensures IsZero(s) <==> forall i :: 0 <= i < |s| ==> s[i] == '0'
  {
    DigitsAreNumeric(s);
    TrimNoSpace(s);
    assert Unsigned(s) == s;
    assert !IsNonDecimal(s) by {
      if |s| >= 3 { assert IsDigit(s[1]); }
    }
    FindAbsent(s, 'e');
    FindAbsent(s, 'E');
    assert Mantissa(s) == s;
  }
}
