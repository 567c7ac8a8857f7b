/**
 * The JavaScript conversions between numbers and text that the store double and
 * the engine rely on: String(n) for an integer n, parseInt(s) with radix 10 and
 * the unary plus (Number(s)). NaN is written None.
 */
module JsText {
  import opened Wrappers

  predicate IsDigit(c: char) {
    '0' <= c <= '9'
  }

  function DigitValue(c: char): nat
    requires IsDigit(c)
  {
    c as int - '0' as int
  }

  function DigitChar(d: nat): (c: char)
    requires d < 10
    ensures IsDigit(c) && DigitValue(c) == d
  {
    ('0' as int + d) as char
  }

  predicate AllDigits(s: string) {
    forall i | 0 <= i < |s| :: IsDigit(s[i])
  }

  /** The white space that parseInt and Number skip (the ASCII controls, the no-break space, the byte-order mark and the line and paragraph separators). */
  predicate IsWhiteSpace(c: char) {
    c == ' ' || c == '\t' || c == '\n' || c == '\r' || c == '\U{B}' || c == '\U{C}'
    || c == '\U{A0}' || c == '\U{FEFF}' || c == '\U{2028}' || c == '\U{2029}'
  }

  /** The decimal digits of n without leading zeros. */
  function NatToString(n: nat): (s: string)
    ensures |s| > 0 && AllDigits(s)
  {
    if n < 10 then [DigitChar(n)] else NatToString(n / 10) + [DigitChar(n % 10)]
  }

  /** String(i) for an integer i. */
  function IntToString(i: int): string {
    if i < 0 then "-" + NatToString(-i) else NatToString(i)
  }

  /** The number a string of decimal digits denotes. */
  function DigitsValue(s: string): nat
    requires AllDigits(s)
  {
    if s == [] then 0 else DigitsValue(s[..|s| - 1]) * 10 + DigitValue(s[|s| - 1])
  }

  function TrimStart(s: string): (t: string)
    ensures |t| <= |s| && t == s[|s| - |t|..]
    ensures t != [] ==> !IsWhiteSpace(t[0])
  {
    if s != [] && IsWhiteSpace(s[0]) then TrimStart(s[1..]) else s
  }

  function TrimEnd(s: string): (t: string)
    ensures |t| <= |s| && t == s[..|t|]
    ensures t != [] ==> !IsWhiteSpace(t[|t| - 1])
  {
    if s != [] && IsWhiteSpace(s[|s| - 1]) then TrimEnd(s[..|s| - 1]) else s
  }

  /** The longest prefix of s made of decimal digits. */
  function LeadingDigits(s: string): (d: string)
    ensures AllDigits(d) && d <= s
    ensures |d| < |s| ==> !IsDigit(s[|d|])
  {
    if s != [] && IsDigit(s[0]) then [s[0]] + LeadingDigits(s[1..]) else []
  }

  /** s without one leading sign character. */
  function Unsigned(t: string): string {
    if t != [] && (t[0] == '-' || t[0] == '+') then t[1..] else t
  }

  function Signed(negative: bool, n: nat): int {
    if negative then -(n as int) else n
  }

  /**
   * parseInt(s): leading white space is skipped, then an optional sign, then
   * as many decimal digits as follow; no digit at all gives NaN.
   */
  function ParseInt(s: string): Option<int> {
    var t := TrimStart(s);
    var d := LeadingDigits(Unsigned(t));
    if d == [] then None else Some(Signed(t != [] && t[0] == '-', DigitsValue(d)))
  }

  /**
   * Number(s), as the unary plus computes it on a string: surrounding white
   * space is ignored, the empty text is 0, an optionally signed run of decimal
   * digits is its value, anything else is NaN.
   */
  function ToNumber(s: string): Option<int> {
    var t := TrimEnd(TrimStart(s));
    var body := Unsigned(t);
    if t == [] then Some(0)
    else if body != [] && AllDigits(body) then Some(Signed(t[0] == '-', DigitsValue(body)))
    else None
  }

  // ---------------------------------------------------------------------------
  // Round trips: the text String(i) writes is read back as i.

  lemma {:induction false} DigitsValueOfNatToString(n: nat)
    ensures DigitsValue(NatToString(n)) == n
  {
    var s := NatToString(n);
    if n >= 10 {
      DigitsValueOfNatToString(n / 10);
      assert s[..|s| - 1] == NatToString(n / 10);
    }
  }

  lemma {:induction false} LeadingDigitsOfDigits(s: string)
    requires AllDigits(s)
    ensures LeadingDigits(s) == s
  {
    if s != [] {
      LeadingDigitsOfDigits(s[1..]);
    }
  }

  lemma IntToStringShape(i: int)
    ensures var s := IntToString(i);
      s != [] && !IsWhiteSpace(s[0]) && !IsWhiteSpace(s[|s| - 1])
      && Unsigned(s) == NatToString(if i < 0 then -i else i)
      && (s[0] == '-' <==> i < 0)
  {
    var s := IntToString(i);
    var digits := NatToString(if i < 0 then -i else i);
    assert IsDigit(digits[0]) && IsDigit(digits[|digits| - 1]);
    if i < 0 {
      assert s[1..] == digits;
    }
  }

  /** parseInt(String(i)) == i. */
  lemma ParseIntOfIntToString(i: int)
    ensures ParseInt(IntToString(i)) == Some(i)
  {
    var s := IntToString(i);
    IntToStringShape(i);
    var digits := NatToString(if i < 0 then -i else i);
    assert TrimStart(s) == s;
    LeadingDigitsOfDigits(digits);
    DigitsValueOfNatToString(if i < 0 then -i else i);
  }

  /** +String(i) == i. */
  lemma ToNumberOfIntToString(i: int)
    ensures ToNumber(IntToString(i)) == Some(i)
  {
    var s := IntToString(i);
    var n := if i < 0 then -i else i;
    IntToStringShape(i);
    TrimStartOfTrimmed(s);
    TrimEndOfTrimmed(s);
    DigitsValueOfNatToString(n);
    assert Unsigned(s) == NatToString(n);
  }

  lemma TrimStartOfTrimmed(s: string)
    requires s != [] && !IsWhiteSpace(s[0])
    ensures TrimStart(s) == s
  {
  }

  lemma TrimEndOfTrimmed(s: string)
    requires s != [] && !IsWhiteSpace(s[|s| - 1])
    ensures TrimEnd(s) == s
  {
  }

  /** parseInt reads a numeric prefix and ignores what follows it: parseInt("12abc") is 12. */
  lemma ParseIntOfPrefix(digits: string, rest: string)
    requires digits != [] && AllDigits(digits)
    requires rest == [] || !IsDigit(rest[0])
    ensures ParseInt(digits + rest) == Some(DigitsValue(digits))
  {
    var s := digits + rest;
    assert !IsWhiteSpace(s[0]);
    assert TrimStart(s) == s;
    assert Unsigned(s) == s;
    LeadingDigitsPrefix(digits, rest);
  }

  lemma {:induction false} LeadingDigitsPrefix(digits: string, rest: string)
    requires AllDigits(digits)
    requires rest == [] || !IsDigit(rest[0])
    ensures LeadingDigits(digits + rest) == digits
  {
    if digits != [] {
      assert (digits + rest)[1..] == digits[1..] + rest;
      LeadingDigitsPrefix(digits[1..], rest);
    } else {
      assert digits + rest == rest;
    }
  }
}
