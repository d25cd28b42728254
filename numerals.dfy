/** Decimal digit strings: StringUtils.isNumeric and Integer.parseInt over Unicode's decimal digits,
    and the zero-padded counter formats (`DecimalFormat("0000")`) the name templates use. */
module Numerals {
  import opened Common

  predicate IsDigit(ch: char) { '0' <= ch <= '9' }

  /** A string of the digits '0'..'9', such as DecimalFormat writes. */
  predicate IsNumeric(s: string)
  {
    forall i :: 0 <= i < |s| ==> IsDigit(s[i])
  }

  function DigitValue(ch: char): (r: nat)
    requires IsDigit(ch)
  {
    ch as int - '0' as int
  }

  function DigitChar(d: nat): (ch: char)
    requires d < 10
    ensures IsDigit(ch) && DigitValue(ch) == d
  {
    ('0' as int + d) as char
  }

  /** The number a digit string denotes. */
  function Value(s: string): (r: nat)
    requires IsNumeric(s)
  {
    if s == [] then 0 else 10 * Value(s[..|s| - 1]) + DigitValue(s[|s| - 1])
  }

  /** The shortest decimal digits of n ("0" for zero). */
  function Digits(n: nat): (r: string)
    ensures |r| >= 1 && IsNumeric(r)
    ensures Value(r) == n
  {
    if n < 10 then [DigitChar(n)]
    else
      var r := Digits(n / 10) + [DigitChar(n % 10)];
      assert r[..|r| - 1] == Digits(n / 10);
      r
  }

  function Zeros(k: nat): (r: string)
    ensures |r| == k && IsNumeric(r)
  {
    seq(k, _ => '0')
  }

  /** A pattern of one or more '0', such as "00000": a counter format this model evaluates itself. */
  predicate IsZeroPattern(pattern: string)
  {
    |pattern| > 0 && forall i :: 0 <= i < |pattern| ==> pattern[i] == '0'
  }

  /** `new DecimalFormat(pattern).format(n)` for a pattern of `width` zeros: a minus sign for a
      negative n, then the digits of |n| left-padded with zeros to at least `width`. */
  function ZeroPadded(n: int, width: nat): (r: string)
  {
    (if n < 0 then "-" else "") + PaddedDigits(if n < 0 then -n else n, width)
  }

  /** The digits of m, preceded by as many zeros as bring them to the given width. */
  function PaddedDigits(m: nat, width: nat): (r: string)
  {
    var d := Digits(m);
    (if |d| < width then Zeros(width - |d|) else "") + d
  }

  /** Leading zeros do not change the value of a digit string. */
  lemma {:induction false} ValueAfterZeros(k: nat, s: string)
    requires IsNumeric(s)
    ensures IsNumeric(Zeros(k) + s) && Value(Zeros(k) + s) == Value(s)
    decreases |s|
  {
    var z := Zeros(k) + s;
    if s == [] {
      assert z == Zeros(k);
      AllZerosValue(Zeros(k));
    } else {
      var init := s[..|s| - 1];
      ValueAfterZeros(k, init);
      assert z[..|z| - 1] == Zeros(k) + init;
    }
  }

  /** A digit string denotes zero exactly when it is made of zeros only. */
  lemma {:induction false} AllZerosValue(s: string)
    requires IsNumeric(s)
    ensures Value(s) == 0 <==> forall i :: 0 <= i < |s| ==> s[i] == '0'
    decreases |s|
  {
    if s != [] {
      var init := s[..|s| - 1];
      AllZerosValue(init);
      assert forall i :: 0 <= i < |init| ==> init[i] == s[i];
    }
  }

  /** Zero padding keeps the value of the digits and reaches the width. */
  lemma PaddedDigitsValue(m: nat, width: nat)
    ensures var b := PaddedDigits(m, width);
      |b| >= width && |b| >= 1 && IsNumeric(b) && Value(b) == m
  {
    var d := Digits(m);
    var padding := if |d| < width then Zeros(width - |d|) else "";
    assert padding == Zeros(|padding|);
    ValueAfterZeros(|padding|, d);
  }

  /** The digits of a zero-padded counter read back as the counter's absolute value. */
  lemma ZeroPaddedValue(n: int, width: nat)
    ensures var p := ZeroPadded(n, width);
      |p| >= width && |p| >= 1 &&
      (n >= 0 ==> IsNumeric(p) && Value(p) == n) &&
      (n < 0 ==> p[0] == '-' && IsNumeric(p[1..]) && Value(p[1..]) == -n)
  {
    var magnitude: nat := if n < 0 then -n else n;
    var body := PaddedDigits(magnitude, width);
    PaddedDigitsValue(magnitude, width);
    if n < 0 {
      assert ZeroPadded(n, width)[1..] == body;
    } else {
      assert ZeroPadded(n, width) == body;
    }
  }

  /** Distinct counters give distinct names under the same zero pattern. */
  lemma ZeroPaddedInjective(a: int, b: int, width: nat)
    requires ZeroPadded(a, width) == ZeroPadded(b, width)
    ensures a == b
  {
    ZeroPaddedValue(a, width);
    ZeroPaddedValue(b, width);
    var p := ZeroPadded(a, width);
    assert (p[0] == '-') == (a < 0);
    assert (p[0] == '-') == (b < 0);
  }

  function Pow10(k: nat): (r: nat)
    ensures r >= 1
  {
    if k == 0 then 1 else 10 * Pow10(k - 1)
  }

  /** A number below 10^width has at most width digits. */
  lemma {:induction false} DigitsLength(n: nat, width: nat)
    requires width >= 1 && n < Pow10(width)
    ensures |Digits(n)| <= width
    decreases width
  {
    if n >= 10 {
      assert Pow10(1) == 10;
      assert width >= 2;
      assert n / 10 < Pow10(width - 1);
      DigitsLength(n / 10, width - 1);
    }
  }

  /** A counter from 0 to 10^width - 1 renders at exactly the pattern's width. */
  lemma ZeroPaddedLength(n: int, width: nat)
    requires width >= 1 && 0 <= n < Pow10(width)
    ensures |ZeroPadded(n, width)| == width
  {
    DigitsLength(n, width);
  }

  /** `Character.isDigit` and `Character.digit(ch, 10)` on one UTF-16 unit: Unicode's decimal digits
      (category Nd, such as '٠' or '０' besides '0'..'9') and their values. Which characters belong to
      the category is Unicode data, so the class is a parameter of the model. */
  datatype DigitClass = DigitClass(isDigit: char -> bool, value: char -> nat)

  /** What every Unicode version guarantees: '0'..'9' are digits with their usual values, and no
      digit is worth ten or more. */
  predicate IsDigitClass(d: DigitClass)
  {
    (forall ch :: IsDigit(ch) ==> d.isDigit(ch) && d.value(ch) == DigitValue(ch)) &&
    (forall ch :: d.isDigit(ch) ==> d.value(ch) < 10)
  }

  /** StringUtils.isNumeric (commons-lang 2): every character is a digit; true of "". */
  predicate IsNumericIn(d: DigitClass, s: string)
  {
    forall i :: 0 <= i < |s| ==> d.isDigit(s[i])
  }

  /** The number a string of digits of the class denotes. */
  function ValueIn(d: DigitClass, s: string): (r: nat)
  {
    if s == [] then 0 else 10 * ValueIn(d, s[..|s| - 1]) + d.value(s[|s| - 1])
  }

  /** The digits '0'..'9' mean the same in every digit class. */
  lemma {:induction false} AsciiValueIn(d: DigitClass, s: string)
    requires IsDigitClass(d) && IsNumeric(s)
    ensures IsNumericIn(d, s) && ValueIn(d, s) == Value(s)
    decreases |s|
  {
    if s != [] {
      AsciiValueIn(d, s[..|s| - 1]);
    }
  }

  /** A string of digits denotes zero exactly when each of its digits is worth zero. */
  lemma {:induction false} ZeroValueIn(d: DigitClass, s: string)
    ensures ValueIn(d, s) == 0 <==> forall i :: 0 <= i < |s| ==> d.value(s[i]) == 0
    decreases |s|
  {
    if s != [] {
      var init := s[..|s| - 1];
      ZeroValueIn(d, init);
      assert forall i :: 0 <= i < |init| ==> init[i] == s[i];
    }
  }

  /** Integer.parseInt of a string of digits: its value, or NumberFormatException when it is empty or
      exceeds Integer.MAX_VALUE. */
  function ParseInt(d: DigitClass, s: string): (r: Result<int>)
    requires IsNumericIn(d, s)
    ensures r.Ok? <==> s != "" && ValueIn(d, s) <= 0x7FFF_FFFF
    ensures r.Ok? ==> r.value == ValueIn(d, s)
  {
    if s == "" || ValueIn(d, s) > 0x7FFF_FFFF then Err(NumberFormat) else Ok(ValueIn(d, s))
  }
}
