/**
  Fixed-width integers and decimal text as Go's `strconv` and integer
  conversions treat them. Dafny integers are unbounded, so every truncation
  the program relies on is written out here.
 */
module Numeric {

  type byte = x: int | 0 <= x < 0x100

  const MaxUint32: nat := 0xFFFF_FFFF
  const Two32: nat := 0x1_0000_0000
  const Two31: nat := 0x8000_0000

  /** Go's conversion `uint32(x)`: keep the low 32 bits. */
  function ToUint32(x: int): (r: nat)
    ensures r <= MaxUint32
    ensures (x - r) % Two32 == 0
    ensures 0 <= x <= MaxUint32 ==> r == x
  {
    x % Two32
  }

  /** Go's conversion `int32(x)`: keep the low 32 bits, read as two's complement. */
  function ToInt32(x: int): (r: int)
    ensures -(Two31 as int) <= r < Two31
    ensures (x - r) % Two32 == 0
    ensures -(Two31 as int) <= x < Two31 ==> r == x
  {
    var w := x % Two32;
    if w >= Two31 then w - Two32 else w
  }

  /** Congruence modulo 2^32 survives scaling both sides by the same factor. */
  lemma CongruentScale(a: int, b: int, k: int)
    requires (a - b) % Two32 == 0
    ensures (a * k - b * k) % Two32 == 0
  {
    var q := (a - b) / Two32;
    assert a - b == Two32 * q;
    assert a * k - b * k == Two32 * (q * k) by {
      assert a * k - b * k == (a - b) * k;
    }
  }

  /** Congruence modulo 2^32 is transitive. */
  lemma CongruentTrans(a: int, b: int, c: int)
    requires (a - b) % Two32 == 0 && (b - c) % Two32 == 0
    ensures (a - c) % Two32 == 0
  {
    var p, q := (a - b) / Two32, (b - c) / Two32;
    assert a - b == Two32 * p && b - c == Two32 * q;
    assert a - c == Two32 * (p + q);
  }

  predicate IsDigit(c: char) {
    '0' <= c <= '9'
  }

  function DigitValue(c: char): (d: nat)
    requires IsDigit(c)
    ensures d < 10
  {
    (c as int) - ('0' as int)
  }

  function DigitChar(d: nat): (c: char)
    requires d < 10
    ensures IsDigit(c) && DigitValue(c) == d
  {
    (('0' as int) + d) as char
  }

  predicate AllDigits(s: string) {
    forall i :: 0 <= i < |s| ==> IsDigit(s[i])
  }

  function Pow10(k: nat): (p: nat)
    ensures p >= 1
  {
    if k == 0 then 1 else 10 * Pow10(k - 1)
  }

  /** Reference reading of a decimal numeral, from its last digit backwards. */
  function DecimalValue(s: string): nat
    requires AllDigits(s)
  {
    if |s| == 0 then 0 else DecimalValue(s[..|s| - 1]) * 10 + DigitValue(s[|s| - 1])
  }

  /**
    `strconv.ParseUint(s, 10, bits)` with its error discarded, `max` being
    2^bits - 1: the empty string and a non-digit yield 0 (syntax error), and
    the first digit that takes the value past `max` yields `max` (range
    error), whatever follows it.
   */
  function ParseUint(s: string, max: nat): (n: nat)
    ensures n <= max
  {
    if |s| == 0 then 0 else ScanDecimal(s, 0, max)
  }

  /** `strconv.ParseUint(s, 10, 32)` with its error discarded, as every caller in the controller does. */
  function ParseUint32(s: string): (n: nat)
    ensures n <= MaxUint32
  {
    ParseUint(s, MaxUint32)
  }

  /** The digit loop of `ParseUint`, with `acc` the value of the digits read so far. */
  function ScanDecimal(s: string, acc: nat, max: nat): (n: nat)
    requires acc <= max
    ensures n <= max
    decreases |s|
  {
    if |s| == 0 then acc
    else if !IsDigit(s[0]) then 0
    else if acc * 10 + DigitValue(s[0]) > max then max
    else ScanDecimal(s[1..], acc * 10 + DigitValue(s[0]), max)
  }

  /**
    `strconv.ParseInt(s, 10, 32)` with its error discarded: an optional sign,
    then the digits read by `ParseUint(…, 10, 32)`; a syntax error there
    yields 0, and values outside the int32 range (a 32-bit range error,
    which stops the scan, included) saturate at its bounds.
   */
  function ParseInt32(s: string): (n: int)
    ensures -(Two31 as int) <= n < Two31
  {
    if |s| == 0 then 0
    else
      var neg := s[0] == '-';
      var digits := if s[0] == '-' || s[0] == '+' then s[1..] else s;
      var un: int := ParseUint32(digits);
      if !neg && un >= Two31 then Two31 - 1
      else if neg && un > Two31 then -(Two31 as int)
      else if neg then -un
      else un
  }

  /** Reference saturation of an integer to the int32 range. */
  function Saturate32(v: int): (r: int)
    ensures -(Two31 as int) <= r < Two31
    ensures -(Two31 as int) <= v < Two31 ==> r == v
    ensures v >= Two31 ==> r == Two31 - 1
    ensures v < -(Two31 as int) ==> r == -(Two31 as int)
  {
    if v >= Two31 then Two31 - 1 else if v < -(Two31 as int) then -(Two31 as int) else v
  }

  predicate IsSign(sign: string) {
    sign == "" || sign == "+" || sign == "-"
  }

  function SignedValue(sign: string, digits: string): int
    requires AllDigits(digits)
  {
    if sign == "-" then -(DecimalValue(digits) as int) else DecimalValue(digits)
  }

  /** `strconv.Itoa` on a natural number: its shortest decimal numeral. */
  function FormatDecimal(n: nat): (s: string)
    ensures |s| >= 1 && AllDigits(s)
    ensures DecimalValue(s) == n
  {
    if n < 10 then [DigitChar(n)]
    else
      var s := FormatDecimal(n / 10) + [DigitChar(n % 10)];
      assert s[..|s| - 1] == FormatDecimal(n / 10);
      s
  }

  /** `strconv.Itoa` (and JavaScript's number-to-string) on any integer. */
  function FormatInt(x: int): string {
    if x < 0 then "-" + FormatDecimal(-x) else FormatDecimal(x)
  }

  /** Prepending a digit scales the rest's value by its own power of ten. */
  lemma {:induction false} DecimalValueCons(c: char, t: string)
    requires IsDigit(c) && AllDigits(t)
    ensures AllDigits([c] + t)
    ensures DecimalValue([c] + t) == DigitValue(c) * Pow10(|t|) + DecimalValue(t)
    decreases |t|
  {
    var s := [c] + t;
    assert AllDigits(s) by {
      forall i | 0 <= i < |s| ensures IsDigit(s[i]) {
        if i > 0 { assert s[i] == t[i - 1]; }
      }
    }
    if |t| == 0 {
      assert s[..0] == [];
    } else {
      var t' := t[..|t| - 1];
      assert s[..|s| - 1] == [c] + t';
      assert s[|s| - 1] == t[|t| - 1];
      assert AllDigits(t') by {
        forall i | 0 <= i < |t'| ensures IsDigit(t'[i]) { assert t'[i] == t[i]; }
      }
      DecimalValueCons(c, t');
      calc {
        DecimalValue(s);
        DecimalValue([c] + t') * 10 + DigitValue(t[|t| - 1]);
        (DigitValue(c) * Pow10(|t'|) + DecimalValue(t')) * 10 + DigitValue(t[|t| - 1]);
        { assert Pow10(|t|) == 10 * Pow10(|t'|); }
        DigitValue(c) * Pow10(|t|) + DecimalValue(t);
      }
    }
  }

  lemma {:induction false} DecimalValueBound(s: string)
    requires AllDigits(s)
    ensures DecimalValue(s) < Pow10(|s|)
    decreases |s|
  {
    if |s| > 0 {
      var t := s[..|s| - 1];
      assert AllDigits(t) by {
        forall i | 0 <= i < |t| ensures IsDigit(t[i]) { assert t[i] == s[i]; }
      }
      DecimalValueBound(t);
    }
  }

  /**
    The digit loop computes the capped value of the whole numeral: reading
    `s` after `acc` gives `acc * 10^|s| + value(s)`, or `max` once that
    exceeds `max`.
   */
  lemma {:induction false} ScanDecimalDigits(s: string, acc: nat, max: nat)
    requires acc <= max && AllDigits(s)
    ensures var v := acc * Pow10(|s|) + DecimalValue(s);
            ScanDecimal(s, acc, max) == if v <= max then v else max
    decreases |s|
  {
    if |s| > 0 {
      var c, t := s[0], s[1..];
      assert s == [c] + t;
      assert AllDigits(t) by {
        forall i | 0 <= i < |t| ensures IsDigit(t[i]) { assert t[i] == s[i + 1]; }
      }
      DecimalValueCons(c, t);
      var acc' := acc * 10 + DigitValue(c);
      ShiftDigit(acc, DigitValue(c), Pow10(|t|), DecimalValue(t));
      if acc' <= max {
        ScanDecimalDigits(t, acc', max);
      }
    }
  }

  /** Arithmetic step shared by the digit-loop lemmas: moving one digit into the accumulator. */
  lemma ShiftDigit(acc: nat, d: nat, p: nat, v: nat)
    requires p >= 1
    ensures acc * (10 * p) + (d * p + v) == (acc * 10 + d) * p + v
    ensures (acc * 10 + d) * p + v >= acc * 10 + d
  {
    assert acc * (10 * p) == (acc * 10) * p;
    assert (acc * 10 + d) * p == (acc * 10) * p + d * p;
  }

  /** On a numeral, `ParseUint` is its value capped at `max`. */
  lemma ParseUintNumeral(s: string, max: nat)
    requires |s| > 0 && AllDigits(s)
    ensures ParseUint(s, max) == if DecimalValue(s) <= max then DecimalValue(s) else max
  {
    ScanDecimalDigits(s, 0, max);
  }

  /**
    A non-digit reached before the value overflows is a syntax error and
    yields 0, whatever digits precede it.
   */
  lemma ParseUintSyntaxError(s: string, k: nat, max: nat)
    requires k < |s| && AllDigits(s[..k]) && !IsDigit(s[k])
    requires DecimalValue(s[..k]) <= max
    ensures ParseUint(s, max) == 0
  {
    ScanPrefix(s, k, 0, max);
    assert s[k..][0] == s[k];
  }

  /**
    The first digit that takes the value past `max` is a range error and
    yields `max`, whatever follows it, a non-digit included.
   */
  lemma ParseUintOverflow(s: string, k: nat, max: nat)
    requires k < |s| && AllDigits(s[..k + 1])
    requires DecimalValue(s[..k]) <= max < DecimalValue(s[..k + 1])
    ensures ParseUint(s, max) == max
  {
    assert s[..k + 1][..k] == s[..k];
    assert AllDigits(s[..k]) by {
      forall i | 0 <= i < k ensures IsDigit(s[..k][i]) { assert s[..k][i] == s[..k + 1][i]; }
    }
    assert IsDigit(s[k]) by { assert s[..k + 1][k] == s[k]; }
    ScanPrefix(s, k, 0, max);
    assert s[k..][0] == s[k];
  }

  /** Reading a digit prefix that stays in range continues with its value. */
  lemma {:induction false} ScanPrefix(s: string, k: nat, acc: nat, max: nat)
    requires k <= |s| && AllDigits(s[..k]) && acc <= max
    requires acc * Pow10(k) + DecimalValue(s[..k]) <= max
    ensures ScanDecimal(s, acc, max) == ScanDecimal(s[k..], acc * Pow10(k) + DecimalValue(s[..k]), max)
    decreases k
  {
    if k > 0 {
      var c, t := s[0], s[1..k];
      assert s[..k] == [c] + t;
      assert IsDigit(c);
      assert AllDigits(t) by {
        forall i | 0 <= i < |t| ensures IsDigit(t[i]) { assert t[i] == s[..k][i + 1]; }
      }
      DecimalValueCons(c, t);
      var acc' := acc * 10 + DigitValue(c);
      ShiftDigit(acc, DigitValue(c), Pow10(k - 1), DecimalValue(t));
      assert s[1..][..k - 1] == t;
      assert s[1..][k - 1..] == s[k..];
      ScanPrefix(s[1..], k - 1, acc', max);
    } else {
      assert s[k..] == s;
    }
  }

  /** Partner of `FormatDecimal`: parsing what `Itoa` printed gives the number back. */
  lemma ParseFormatDecimal(n: nat)
    requires n <= MaxUint32
    ensures ParseUint32(FormatDecimal(n)) == n
  {
    ParseUintNumeral(FormatDecimal(n), MaxUint32);
  }

  /**
    On an optionally signed numeral, `ParseInt32` is its value saturated to
    the int32 range, however many digits it has.
   */
  lemma ParseInt32Numeral(sign: string, digits: string)
    requires IsSign(sign) && |digits| > 0 && AllDigits(digits)
    ensures ParseInt32(sign + digits) == Saturate32(SignedValue(sign, digits))
  {
    var s := sign + digits;
    ParseUintNumeral(digits, MaxUint32);
    if sign == "" {
      assert s == digits && IsDigit(s[0]);
    } else {
      assert s[0] == sign[0] && s[1..] == digits;
    }
  }

  /**
    A non-digit met before the digits exceed 2^32-1 is a syntax error and
    yields 0, even when the digits already exceed the int32 range.
   */
  lemma ParseInt32SyntaxError(sign: string, s: string, k: nat)
    requires IsSign(sign) && k < |s| && AllDigits(s[..k]) && !IsDigit(s[k])
    requires sign == "" ==> s[0] != '-' && s[0] != '+'
    requires DecimalValue(s[..k]) <= MaxUint32
    ensures ParseInt32(sign + s) == 0
  {
    var t := sign + s;
    ParseUintSyntaxError(s, k, MaxUint32);
    if sign == "" {
      assert t == s;
    } else {
      assert t[0] == sign[0] && t[1..] == s;
    }
  }

  /** Partner of `FormatInt` on the int32 range: `ParseInt` reads back what `Itoa` printed. */
  lemma ParseFormatInt(x: int)
    requires -(Two31 as int) <= x < Two31
    ensures ParseInt32(FormatInt(x)) == x
  {
    if x < 0 {
      ParseInt32Numeral("-", FormatDecimal(-x));
    } else {
      ParseInt32Numeral("", FormatDecimal(x));
      assert "" + FormatDecimal(x) == FormatDecimal(x);
    }
  }

  /**
    A digit that takes the value past 2^32-1 is a range error: the result
    saturates at the int32 bound of the sign, whatever follows the digit.
   */
  lemma ParseInt32Overflow(sign: string, s: string, k: nat)
    requires IsSign(sign) && k < |s| && AllDigits(s[..k + 1])
    requires sign == "" ==> s[0] != '-' && s[0] != '+'
    requires DecimalValue(s[..k]) <= MaxUint32 < DecimalValue(s[..k + 1])
    ensures ParseInt32(sign + s) == if sign == "-" then -(Two31 as int) else Two31 - 1
  {
    var t := sign + s;
    ParseUintOverflow(s, k, MaxUint32);
    if sign == "" {
      assert t == s;
    } else {
      assert t[0] == sign[0] && t[1..] == s;
    }
  }

  /** Digits past 2^32-1 followed by a letter saturate: the range error stops the scan before the letter. */
  lemma ParseInt32OverflowBeforeJunk()
    ensures ParseInt32("5000000000x") == Two31 - 1
  {
    var s := "5000000000x";
    assert s[..9] == "500000000" && s[..10] == "5000000000";
    FiveBillionValue();
    ParseInt32Overflow("", s, 9);
    assert "" + s == s;
  }

  /** The same with a minus sign and a trailing blank: the bound is -2^31. */
  lemma ParseInt32NegativeOverflowBeforeJunk()
    ensures ParseInt32("-12345678901 ") == -(Two31 as int)
  {
    var t := "-12345678901 ";
    var u := t[1..];
    assert u[..11] == "12345678901";
    assert u[..10] == u[..11][..10] == "12345678901"[..10] == "1234567890";
    TwelveBillionValue();
    ParseUintOverflow(u, 10, MaxUint32);
  }

  /** Values of the numerals in `ParseInt32OverflowBeforeJunk`. */
  lemma FiveBillionValue()
    ensures DecimalValue("500000000") == 500000000
    ensures DecimalValue("5000000000") == 5000000000
  {
    assert DecimalValue("5") == 5;
    assert "50"[..1] == "5";
    assert DecimalValue("50") == 50;
    assert "500"[..2] == "50";
    assert DecimalValue("500") == 500;
    assert "5000"[..3] == "500";
    assert DecimalValue("5000") == 5000;
    assert "50000"[..4] == "5000";
    assert DecimalValue("50000") == 50000;
    assert "500000"[..5] == "50000";
    assert DecimalValue("500000") == 500000;
    assert "5000000"[..6] == "500000";
    assert DecimalValue("5000000") == 5000000;
    assert "50000000"[..7] == "5000000";
    assert DecimalValue("50000000") == 50000000;
    assert "500000000"[..8] == "50000000";
    assert DecimalValue("500000000") == 500000000;
    assert "5000000000"[..9] == "500000000";
    assert DecimalValue("5000000000") == 5000000000;
  }

  /** Values of the numerals in `ParseInt32NegativeOverflowBeforeJunk`. */
  lemma TwelveBillionValue()
    ensures DecimalValue("1234567890") == 1234567890
    ensures DecimalValue("12345678901") == 12345678901
  {
    assert DecimalValue("1") == 1;
    assert "12"[..1] == "1";
    assert DecimalValue("12") == 12;
    assert "123"[..2] == "12";
    assert DecimalValue("123") == 123;
    assert "1234"[..3] == "123";
    assert DecimalValue("1234") == 1234;
    assert "12345"[..4] == "1234";
    assert DecimalValue("12345") == 12345;
    assert "123456"[..5] == "12345";
    assert DecimalValue("123456") == 123456;
    assert "1234567"[..6] == "123456";
    assert DecimalValue("1234567") == 1234567;
    assert "12345678"[..7] == "1234567";
    assert DecimalValue("12345678") == 12345678;
    assert "123456789"[..8] == "12345678";
    assert DecimalValue("123456789") == 123456789;
    assert "1234567890"[..9] == "123456789";
    assert DecimalValue("1234567890") == 1234567890;
    assert "12345678901"[..10] == "1234567890";
    assert DecimalValue("12345678901") == 12345678901;
  }
}
