/**
 * The PHP string conversions the paginators rely on: rendering an integer by
 * string concatenation; reading a number back with an `(int)` cast or
 * `intval`; and the loose `==` between two strings, which compares numeric
 * strings by value.  Numbers are read as PHP's `is_numeric_string` reads
 * them: leading whitespace, an optional sign, digits with an optional
 * fraction, an optional exponent, and (for a whole numeric string) trailing
 * whitespace.
 */
module PhpStrings {

  const PHP_INT_MAX: int := 0x7FFF_FFFF_FFFF_FFFF
  const PHP_INT_MIN: int := -0x8000_0000_0000_0000

  predicate IsDigit(c: char) {
    '0' <= c <= '9'
  }

  /** PHP's whitespace for numeric strings: space, \t, \n, \r, \v, \f. */
  predicate IsNumericSpace(c: char) {
    c == ' ' || c == '\t' || c == '\n' || c == '\r' || c == '\U{0B}' || c == '\U{0C}'
  }

  function DigitChar(d: nat): (c: char)
    requires d < 10
    ensures IsDigit(c) && c as int - '0' as int == d
  {
    ('0' as int + d) as char
  }

  /** The decimal digits of n, most significant first, without leading zeros. */
  function NatToString(n: nat): (s: string)
    ensures |s| > 0 && forall i :: 0 <= i < |s| ==> IsDigit(s[i])
    ensures n >= 10 ==> s[0] != '0'
    decreases n
  {
    if n < 10 then [DigitChar(n)] else NatToString(n / 10) + [DigitChar(n % 10)]
  }

  /** What PHP's string concatenation prints for an integer. */
  function IntToString(i: int): string {
    if i < 0 then "-" + NatToString(-i) else NatToString(i)
  }

  /** The value of a decimal digit, 0 for any other character. */
  function DigitValue(c: char): (v: nat)
    ensures v < 10
    ensures IsDigit(c) ==> v == c as int - '0' as int
  {
    if IsDigit(c) then c as int - '0' as int else 0
  }

  /** The value of the n digits of s that start at position p. */
  function DigitsAt(s: string, p: nat, n: nat): nat
    requires p + n <= |s|
  {
    if n == 0 then 0 else 10 * DigitsAt(s, p, n - 1) + DigitValue(s[p + n - 1])
  }

  /** The number of decimal digits in s from position p on. */
  function DigitRun(s: string, p: nat): (n: nat)
    requires p <= |s|
    ensures p + n <= |s|
    decreases |s| - p
  {
    if p < |s| && IsDigit(s[p]) then 1 + DigitRun(s, p + 1) else 0
  }

  /** The number of whitespace characters in s from position p on. */
  function SpaceRun(s: string, p: nat): (n: nat)
    requires p <= |s|
    ensures p + n <= |s|
    decreases |s| - p
  {
    if p < |s| && IsNumericSpace(s[p]) then 1 + SpaceRun(s, p + 1) else 0
  }

  function Clamp(i: int): (r: int)
    ensures PHP_INT_MIN <= r <= PHP_INT_MAX
    ensures PHP_INT_MIN <= i <= PHP_INT_MAX ==> r == i
  {
    if i > PHP_INT_MAX then PHP_INT_MAX else if i < PHP_INT_MIN then PHP_INT_MIN else i
  }

  function Pow10(k: nat): (p: nat)
    ensures p >= 1
  {
    if k == 0 then 1 else 10 * Pow10(k - 1)
  }

  /** A decimal number as written: plus or minus `digits` times 10^(exp - scale). */
  datatype Decimal = Decimal(neg: bool, digits: nat, scale: nat, exp: int)

  /** The numeric prefix of a string, and the position where it ends. */
  datatype NumericPrefix = NoNumber | Number(value: Decimal, end: nat)

  /** An exponent at position m: `e` or `E`, an optional sign, at least one digit. */
  function ExponentAt(s: string, m: nat): (r: (int, nat))
    requires m <= |s|
    ensures m <= r.1 <= |s|
    ensures r.1 == m ==> r.0 == 0
  {
    if m < |s| && (s[m] == 'e' || s[m] == 'E') then
      var signed := m + 1 < |s| && (s[m + 1] == '-' || s[m + 1] == '+');
      var k := if signed then m + 2 else m + 1;
      var n := DigitRun(s, k);
      if n == 0 then (0, m)
      else if signed && s[m + 1] == '-' then (-(DigitsAt(s, k, n) as int), k + n)
      else (DigitsAt(s, k, n), k + n)
    else (0, m)
  }

  /**
   * The longest numeric prefix of s: whitespace, a sign, digits with an
   * optional `.` fraction (at least one digit in all), then an exponent.
   */
  function ReadNumber(s: string): (r: NumericPrefix)
    ensures r.Number? ==> r.end <= |s|
  {
    var p0 := SpaceRun(s, 0);
    var signed := p0 < |s| && (s[p0] == '-' || s[p0] == '+');
    var p := if signed then p0 + 1 else p0;
    ReadDigits(s, p, signed && s[p0] == '-')
  }

  /** The number whose integer digits start at position p. */
  function ReadDigits(s: string, p: nat, neg: bool): (r: NumericPrefix)
    requires p <= |s|
    ensures r.Number? ==> r.end <= |s|
  {
    var na := DigitRun(s, p);
    var q := p + na;
    var dot := q < |s| && s[q] == '.';
    var nb := if dot then DigitRun(s, q + 1) else 0;
    if na + nb == 0 then NoNumber
    else
      var m := if dot then q + 1 + nb else q;
      var frac := if dot then DigitsAt(s, q + 1, nb) else 0;
      var ex := ExponentAt(s, m);
      Number(Decimal(neg, DigitsAt(s, p, na) * Pow10(nb) + frac, nb, ex.0), ex.1)
  }

  /** A numeric string: a number followed by nothing but whitespace. */
  predicate IsNumeric(s: string) {
    var r := ReadNumber(s);
    r.Number? && forall i :: r.end <= i < |s| ==> IsNumericSpace(s[i])
  }

  /** The number truncated toward zero, as a cast of a float to `int` does. */
  function Truncate(x: Decimal): int {
    var k := x.exp - x.scale;
    var mag := if k >= 0 then x.digits * Pow10(k) else x.digits / Pow10(-k);
    if x.neg then -mag else mag
  }

  /** The number times 10^-m, for a power m at or below its own. */
  function Scaled(x: Decimal, m: int): int
    requires m <= x.exp - x.scale
  {
    var mag := x.digits * Pow10(x.exp - x.scale - m);
    if x.neg then -mag else mag
  }

  /** Two decimals denote the same number. */
  predicate SameNumber(x: Decimal, y: Decimal) {
    var m := if x.exp - x.scale <= y.exp - y.scale then x.exp - x.scale else y.exp - y.scale;
    Scaled(x, m) == Scaled(y, m)
  }

  /**
   * PHP's loose `==` between two strings: by value when both are numeric
   * strings, character by character otherwise.
   */
  predicate LooseStringEq(a: string, b: string) {
    if IsNumeric(a) && IsNumeric(b) then SameNumber(ReadNumber(a).value, ReadNumber(b).value)
    else a == b
  }

  /**
   * PHP's `intval` / `(int)` cast on a string: the numeric prefix truncated
   * toward zero and saturated at the 64-bit bounds, 0 when there is none.
   */
  function IntVal(s: string): (r: int)
    ensures PHP_INT_MIN <= r <= PHP_INT_MAX
    ensures ReadNumber(s).NoNumber? ==> r == 0
  {
    match ReadNumber(s)
    case NoNumber => 0
    case Number(x, _) => Clamp(Truncate(x))
  }

  /** Appending a character leaves the value of earlier digits alone. */
  lemma {:induction false} DigitsAtAppend(s: string, c: char, p: nat, n: nat)
    requires p + n <= |s|
    ensures DigitsAt(s + [c], p, n) == DigitsAt(s, p, n)
  {
    if n > 0 {
      DigitsAtAppend(s, c, p, n - 1);
      assert (s + [c])[p + n - 1] == s[p + n - 1];
    }
  }

  /** A prefix in front shifts the positions of the digits. */
  lemma {:induction false} DigitsAtShift(x: string, d: string, n: nat)
    requires n <= |d|
    ensures DigitsAt(x + d, |x|, n) == DigitsAt(d, 0, n)
  {
    if n > 0 {
      DigitsAtShift(x, d, n - 1);
      assert (x + d)[|x| + n - 1] == d[n - 1];
    }
  }

  /** The digits of a natural number read back as that number. */
  lemma {:induction false} DigitsOfNatToString(n: nat)
    ensures DigitsAt(NatToString(n), 0, |NatToString(n)|) == n
    decreases n
  {
    if n >= 10 {
      var t := NatToString(n / 10);
      var c := DigitChar(n % 10);
      DigitsOfNatToString(n / 10);
      DigitsAtAppend(t, c, 0, |t|);
      assert (t + [c])[|t|] == c;
    }
  }

  /** Every character from p to the end is a digit: the run reaches the end. */
  lemma {:induction false} DigitRunToEnd(s: string, p: nat)
    requires p <= |s| && forall i :: p <= i < |s| ==> IsDigit(s[i])
    ensures DigitRun(s, p) == |s| - p
    decreases |s| - p
  {
    if p < |s| {
      DigitRunToEnd(s, p + 1);
    }
  }

  /** Optional `-`, then digits only: read whole, with no fraction and no exponent. */
  lemma ReadPlainInteger(s: string, p: nat)
    requires p <= 1 && p < |s| && (p == 1 ==> s[0] == '-') && (p == 0 ==> IsDigit(s[0]))
    requires forall i :: p <= i < |s| ==> IsDigit(s[i])
    ensures ReadNumber(s) == Number(Decimal(p == 1, DigitsAt(s, p, |s| - p), 0, 0), |s|)
  {
    assert SpaceRun(s, 0) == 0;
    DigitRunToEnd(s, p);
  }

  /** An integer's text reads back as that integer with no fraction and no exponent. */
  lemma ReadIntText(i: int)
    ensures var n: nat := if i < 0 then -i else i;
      ReadNumber(IntToString(i)) == Number(Decimal(i < 0, n, 0, 0), |IntToString(i)|)
  {
    var n: nat := if i < 0 then -i else i;
    var d := NatToString(n);
    var s := IntToString(i);
    var p := if i < 0 then 1 else 0;
    var x := if i < 0 then "-" else "";
    assert s == x + d;
    assert forall k :: p <= k < |s| ==> s[k] == d[k - p];
    ReadPlainInteger(s, p);
    DigitsAtShift(x, d, |d|);
    DigitsOfNatToString(n);
  }

  /** Reading back what concatenation printed gives the same integer. */
  lemma {:induction false} IntValOfIntToString(i: int)
    requires PHP_INT_MIN <= i <= PHP_INT_MAX
    ensures IntVal(IntToString(i)) == i
  {
    var n: nat := if i < 0 then -i else i;
    ReadIntText(i);
    assert Truncate(Decimal(i < 0, n, 0, 0)) == i;
  }

  /** Printed integers are told apart by their text: equal text means equal value. */
  lemma IntToStringInjective(i: int, j: int)
    requires PHP_INT_MIN <= i <= PHP_INT_MAX && PHP_INT_MIN <= j <= PHP_INT_MAX
    requires IntToString(i) == IntToString(j)
    ensures i == j
  {
    IntValOfIntToString(i);
    IntValOfIntToString(j);
  }

  /** A printed integer is a numeric string whose value, at power 0, is the integer. */
  lemma IntTextValue(i: int)
    ensures IsNumeric(IntToString(i))
    ensures var x := ReadNumber(IntToString(i)).value; x.exp - x.scale == 0 && Scaled(x, 0) == i
  {
    ReadIntText(i);
  }

  /** Every string is loosely equal to itself. */
  lemma LooseStringEqReflexive(a: string)
    ensures LooseStringEq(a, a)
  {
  }

  /** Loose equality does not depend on the order of its operands. */
  lemma LooseStringEqSymmetric(a: string, b: string)
    ensures LooseStringEq(a, b) == LooseStringEq(b, a)
  {
  }

  /** On printed integers loose equality is equality of the integers. */
  lemma LooseEqOfIntStrings(i: int, j: int)
    ensures LooseStringEq(IntToString(i), IntToString(j)) <==> i == j
  {
    IntTextValue(i);
    IntTextValue(j);
  }

  // A few spellings, read one at a time.

  lemma ReadMinusOne()
    ensures ReadNumber("-1") == Number(Decimal(true, 1, 0, 0), 2)
  {
  }

  lemma ReadMinusZeroOne()
    ensures ReadNumber("-01") == Number(Decimal(true, 1, 0, 0), 3)
  {
  }

  lemma ReadMinusOnePointZero()
    ensures ReadNumber("-1.0") == Number(Decimal(true, 10, 1, 0), 4)
  {
  }

  lemma ReadSpaceMinusOne()
    ensures ReadNumber(" -1") == Number(Decimal(true, 1, 0, 0), 3)
  {
  }

  lemma ReadMinusOneX()
    ensures ReadNumber("-1x") == Number(Decimal(true, 1, 0, 0), 2)
  {
  }

  lemma ReadOneEtwo()
    ensures ReadNumber("1e2") == Number(Decimal(false, 1, 0, 2), 3)
  {
    assert SpaceRun("1e2", 0) == 0;
    assert DigitRun("1e2", 0) == 1;
    assert ExponentAt("1e2", 1) == (2, 3);
  }

  lemma ReadTwoPointNine()
    ensures ReadNumber("2.9") == Number(Decimal(false, 29, 1, 0), 3)
  {
    assert SpaceRun("2.9", 0) == 0;
    assert DigitRun("2.9", 0) == 1;
    assert DigitRun("2.9", 2) == 1;
  }

  lemma ReadTwelveAbc()
    ensures ReadNumber("12abc") == Number(Decimal(false, 12, 0, 0), 2)
  {
    assert SpaceRun("12abc", 0) == 0;
    assert DigitRun("12abc", 1) == 1;
    assert DigitRun("12abc", 0) == 2;
  }

  lemma ReadAbc()
    ensures ReadNumber("abc").NoNumber?
  {
  }

  /** Numeric strings compare by value: a leading zero does not matter. */
  lemma LooseLeadingZero()
    ensures LooseStringEq("-01", "-1")
  {
    ReadMinusOne();
    ReadMinusZeroOne();
  }

  /** A zero fraction does not matter either. */
  lemma LooseZeroFraction()
    ensures LooseStringEq("-1.0", "-1")
  {
    ReadMinusOne();
    ReadMinusOnePointZero();
    assert Scaled(Decimal(true, 10, 1, 0), -1) == Scaled(Decimal(true, 1, 0, 0), -1);
  }

  /** Nor does leading whitespace. */
  lemma LooseLeadingSpace()
    ensures LooseStringEq(" -1", "-1")
  {
    ReadMinusOne();
    ReadSpaceMinusOne();
  }

  /** Trailing garbage makes a string non-numeric, and the comparison textual. */
  lemma NotLooseTrailingGarbage()
    ensures !LooseStringEq("-1x", "-1")
  {
    NotNumericTrailingGarbage();
  }

  /** `intval` applies the exponent. */
  lemma IntValExponent()
    ensures IntVal("1e2") == 100
  {
    ReadOneEtwo();
    assert Pow10(2) == 100;
  }

  /** `intval` truncates a fraction toward zero. */
  lemma IntValTruncates()
    ensures IntVal("2.9") == 2
  {
    ReadTwoPointNine();
    assert Truncate(Decimal(false, 29, 1, 0)) == 29 / 10 by {
      assert Pow10(1) == 10;
    }
  }

  /** `intval` stops at the first character that cannot continue the number. */
  lemma IntValStopsAtGarbage()
    ensures IntVal("12abc") == 12
  {
    ReadTwelveAbc();
  }

  /** `intval` of a string with no number at all is 0. */
  lemma IntValNoNumber()
    ensures IntVal("abc") == 0
  {
    ReadAbc();
  }

  lemma NotNumericTrailingGarbage()
    ensures !IsNumeric("-1x")
  {
    ReadMinusOneX();
    assert !IsNumericSpace("-1x"[2]);
  }

  lemma NotNumericDesc()
    ensures !IsNumeric("Desc")
  {
  }
}
