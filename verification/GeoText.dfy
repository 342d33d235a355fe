/** Coordinates as text: to_string and string2geocoord, with the numerals of str(float) and float(str). */
module GeoText {
  import opened Common
  import opened GeoCoord
  import opened Strings

  // ---------------------------------------------------------------- numerals

  function DigitValue(c: char): int { c as int - '0' as int }

  predicate IsDigits(s: string) { forall i :: 0 <= i < |s| ==> '0' <= s[i] <= '9' }

  function Digits(n: nat): string {
    if n < 10 then [Digit(n)] else Digits(n / 10) + [Digit(n % 10)]
  }

  function Number(s: string): int {
    if s == "" then 0 else Number(s[..|s| - 1]) * 10 + DigitValue(s[|s| - 1])
  }

  lemma {:induction false} NumberOfDigits(n: nat)
    ensures Digits(n) != "" && IsDigits(Digits(n)) && Number(Digits(n)) == n
  {
    if n >= 10 {
      NumberOfDigits(n / 10);
      assert Digits(n)[..|Digits(n)| - 1] == Digits(n / 10);
    } else {
      assert Number("") == 0 && Digits(n)[..0] == "";
    }
  }

  /** x * 10^k. */
  function Times10(x: real, k: nat): real
    decreases k
  {
    if k == 0 then x else Times10(10.0 * x, k - 1)
  }

  /** x / 10^k. */
  function Over10(x: real, k: nat): real
    decreases k
  {
    if k == 0 then x else Over10(x / 10.0, k - 1)
  }

  /** At most k digits behind the point. */
  predicate Exact(x: real, k: nat) { IsWhole(Times10(x, k)) }

  /** The digits behind the point, without final zeros. */
  function Fraction(f: real, k: nat): string
    requires 0.0 <= f < 1.0
    decreases k
  {
    if f == 0.0 || k == 0 then "" else [Digit((10.0 * f).Floor)] + Fraction(10.0 * f - (10.0 * f).Floor as real, k - 1)
  }

  function FractionValue(s: string): real {
    if s == "" then 0.0 else (DigitValue(s[0]) as real + FractionValue(s[1..])) / 10.0
  }

  lemma {:induction false} ExactLess(x: real, n: int, k: nat)
    requires Exact(x, k)
    ensures Exact(x - n as real, k)
    decreases k
  {
    if k == 0 {
      assert x - n as real == (x.Floor - n) as real;
    } else {
      ExactLess(10.0 * x, 10 * n, k - 1);
    }
  }

  lemma {:induction false} FractionRoundTrip(f: real, k: nat)
    requires 0.0 <= f < 1.0 && Exact(f, k)
    ensures IsDigits(Fraction(f, k)) && FractionValue(Fraction(f, k)) == f
    decreases k
  {
    if k > 0 && f > 0.0 {
      var digit := (10.0 * f).Floor;
      var rest := 10.0 * f - digit as real;
      ExactLess(10.0 * f, digit, k - 1);
      FractionRoundTrip(rest, k - 1);
      assert Fraction(f, k)[1..] == Fraction(rest, k - 1);
    }
  }

  /** A numeral without exponent, as str(float) writes it from 0.0001 on, and 0.0. */
  function Plain(x: real, k: nat): string
    requires x >= 0.0
  {
    var f := Fraction(x - x.Floor as real, k);
    Digits(x.Floor) + ("." + if f == "" then "0" else f)
  }

  /** How often a number below 1 is multiplied by ten until it is at least 1, and what it is then. */
  function Exponent(x: real, k: nat): nat
    decreases k
  {
    if x >= 1.0 || k == 0 then 0 else 1 + Exponent(10.0 * x, k - 1)
  }

  function Mantissa(x: real, k: nat): (m: real)
    ensures x >= 0.0 ==> m >= 0.0
    decreases k
  {
    if x >= 1.0 || k == 0 then x else Mantissa(10.0 * x, k - 1)
  }

  /** The two or more digits of an exponent. */
  function ExponentDigits(e: nat): string { if e < 10 then "0" + Digits(e) else Digits(e) }

  /** str of a number below 0.0001: one digit, the fraction if there is one, and the exponent. */
  function Scientific(x: real, k: nat): string
    requires x > 0.0
  {
    var m := Mantissa(x, k);
    var f := Fraction(m - m.Floor as real, k);
    Digits(m.Floor) + (if f == "" then "" else "." + f) + "e-" + ExponentDigits(Exponent(x, k))
  }

  const SMALLEST_PLAIN := 0.0001

  /** str(float), for a number with at most k digits behind the point. */
  function Str(x: real, k: nat): string {
    if x < 0.0 then "-" + (if -x < SMALLEST_PLAIN then Scientific(-x, k) else Plain(-x, k))
    else if x == 0.0 || x >= SMALLEST_PLAIN then Plain(x, k)
    else Scientific(x, k)
  }

  /** float of digits with at most one point in them. */
  function ParsePlain(s: string): Option<real> {
    ParseParts(Before(s, '.'), Behind(s, '.'))
  }

  function ParseParts(whole: string, f: string): Option<real> {
    if whole != "" && IsDigits(whole) && IsDigits(f) then Some(Number(whole) as real + FractionValue(f)) else None
  }

  function Scale(m: real, e: int): real { if e >= 0 then Times10(m, e) else Over10(m, -e) }

  function ParseExponent(s: string): Option<int> {
    var t := if "-" <= s then s[1..] else s;
    if t == "" || !IsDigits(t) then None else Some(if "-" <= s then -Number(t) else Number(t))
  }

  /** float(str), for numerals of str(float): an optional minus, digits and point, an optional exponent. */
  function ParseFloat(s: string): Option<real> {
    var t := if "-" <= s then s[1..] else s;
    var m := ParsePlain(Before(t, 'e'));
    var e := if Free(t, 'e') then Some(0) else ParseExponent(Behind(t, 'e'));
    if m.None? || e.None? then None
    else if "-" <= s then Some(-Scale(m.value, e.value)) else Some(Scale(m.value, e.value))
  }

  lemma {:induction false} DigitsHaveNo(s: string, c: char)
    requires IsDigits(s) && (c == '.' || c == 'e' || c == '-' || c == ' ')
    ensures forall i :: 0 <= i < |s| ==> s[i] != c
  {}

  lemma {:induction false} ParsesParts(s: string, a: string, f: string)
    requires Before(s, '.') == a && Behind(s, '.') == f && a != "" && IsDigits(a) && IsDigits(f)
    ensures ParsePlain(s) == Some(Number(a) as real + FractionValue(f))
  {}

  lemma DigitsThenPoint(a: string, f: string)
    requires a != "" && IsDigits(a) && IsDigits(f)
    ensures ParsePlain(a + (['.'] + f)) == Some(Number(a) as real + FractionValue(f))
  {
    DigitsHaveNo(a, '.');
    Partition(a, '.', f);
    ParsesParts(a + (['.'] + f), a, f);
  }

  lemma DigitsAlone(a: string)
    requires a != "" && IsDigits(a)
    ensures ParsePlain(a) == Some(Number(a) as real)
  {
    DigitsHaveNo(a, '.');
    Partition(a, '.', "");
  }

  lemma FractionPart(x: real, k: nat)
    requires Exact(x, k) && x >= 0.0
    ensures IsDigits(Fraction(x - x.Floor as real, k))
    ensures x.Floor as real + FractionValue(Fraction(x - x.Floor as real, k)) == x
  {
    ExactLess(x, x.Floor, k);
    FractionRoundTrip(x - x.Floor as real, k);
  }

  lemma ZeroFraction()
    ensures FractionValue("0") == 0.0 && IsDigits("0") && FractionValue("") == 0.0
  {
    assert "0"[1..] == "";
  }

  lemma PlainRoundTrip(x: real, k: nat)
    requires Exact(x, k) && x >= 0.0
    ensures ParsePlain(Plain(x, k)) == Some(x)
  {
    var f := Fraction(x - x.Floor as real, k);
    FractionPart(x, k);
    PlainParts(x.Floor, f);
  }

  lemma PlainParts(n: nat, f: string)
    requires IsDigits(f)
    ensures ParsePlain(Digits(n) + ("." + if f == "" then "0" else f)) == Some(n as real + FractionValue(f))
  {
    NumberOfDigits(n);
    ZeroFraction();
    DigitsThenPoint(Digits(n), if f == "" then "0" else f);
  }

  // ---------------------------------------------------------------- reading numerals back

  lemma PlainChars(x: real, k: nat)
    requires Exact(x, k) && x >= 0.0
    ensures Plain(x, k) != "" && forall i :: 0 <= i < |Plain(x, k)| ==> '0' <= Plain(x, k)[i] <= '9' || Plain(x, k)[i] == '.'
  {
    FractionPart(x, k);
    NumberOfDigits(x.Floor);
    ZeroFraction();
  }

  lemma NoDashNoExponent(s: string)
    requires s != "" && s[0] != '-' && Free(s, 'e')
    ensures ParseFloat(s) == ParsePlain(s)
  {
    Partition(s, 'e', "");
  }

  lemma FloatRoundTrip(x: real, k: nat)
    requires Exact(x, k) && x >= 0.0
    ensures ParseFloat(Plain(x, k)) == Some(x)
  {
    PlainChars(x, k);
    PlainRoundTrip(x, k);
    assert Free(Plain(x, k), 'e');
    NoDashNoExponent(Plain(x, k));
  }

  function IntText(n: int): string { if n < 0 then "-" + Digits(-n) else Digits(n) }

  lemma DigitsRoundTrip(n: nat)
    ensures ParseFloat(Digits(n)) == Some(n as real)
  {
    NumberOfDigits(n);
    DigitsHaveNo(Digits(n), 'e');
    DigitsAlone(Digits(n));
    NoDashNoExponent(Digits(n));
  }

  // ---------------------------------------------------------------- small seconds

  lemma {:induction false} Times10Ten(x: real, k: nat)
    ensures Times10(10.0 * x, k) == 10.0 * Times10(x, k)
    decreases k
  {
    if k > 0 {
      Times10Ten(10.0 * x, k - 1);
    }
  }

  lemma ExactTen(x: real, k: nat)
    requires Exact(x, k)
    ensures Exact(10.0 * x, k)
  {
    Times10Ten(x, k);
    WholeTen(Times10(x, k));
  }

  lemma WholeTen(x: real)
    requires IsWhole(x)
    ensures IsWhole(10.0 * x)
  {
    assert 10.0 * x == (10 * x.Floor) as real;
  }

  lemma {:induction false} MantissaFacts(x: real, j: nat, k: nat)
    requires Exact(x, k) && x > 0.0
    ensures Exact(Mantissa(x, j), k) && Mantissa(x, j) >= x
    decreases j
  {
    if x < 1.0 && j > 0 {
      ExactTen(x, k);
      MantissaFacts(10.0 * x, j - 1, k);
    }
  }

  lemma {:induction false} Times10Grows(x: real, k: nat)
    requires x > 0.0
    ensures Times10(x, k) >= x && (k > 0 ==> Times10(x, k) > x)
    decreases k
  {
    if k > 0 {
      Times10Grows(10.0 * x, k - 1);
    }
  }

  lemma ExponentReads(e: nat)
    ensures IsDigits(ExponentDigits(e)) && ParseExponent(ExponentDigits(e)) == Some(e)
  {
    var s := ExponentDigits(e);
    NumberOfDigits(e);
    assert s[0] != '-';
    if e < 10 {
      assert "0"[..0] == "" && Number("") == 0 && Number("0") == 0;
      assert s == ['0', Digit(e)] && s[..1] == "0";
    }
  }

  /** The numeral in front of the exponent. */
  function MantissaText(m: real, k: nat): string
    requires m >= 0.0
  {
    var f := Fraction(m - m.Floor as real, k);
    Digits(m.Floor) + if f == "" then "" else "." + f
  }

  predicate NumeralChars(s: string) { forall i :: 0 <= i < |s| ==> '0' <= s[i] <= '9' || s[i] == '.' }

  lemma MantissaReads(m: real, k: nat)
    requires Exact(m, k) && m >= 0.0
    ensures ParsePlain(MantissaText(m, k)) == Some(m) && MantissaText(m, k) != "" && NumeralChars(MantissaText(m, k))
  {
    FractionPart(m, k);
    MantissaParts(m.Floor, Fraction(m - m.Floor as real, k));
  }

  lemma {:induction false} MantissaParts(n: nat, f: string)
    requires IsDigits(f)
    ensures var s := Digits(n) + if f == "" then "" else "." + f;
            ParsePlain(s) == Some(n as real + FractionValue(f)) && NumeralChars(s) && s != ""
  {
    NumberOfDigits(n);
    PointOrNot(Digits(n), f);
  }

  lemma {:induction false} PointOrNot(d: string, f: string)
    requires d != "" && IsDigits(d) && IsDigits(f)
    ensures var s := d + if f == "" then "" else "." + f;
            ParsePlain(s) == Some(Number(d) as real + FractionValue(f)) && NumeralChars(s)
  {
    if f == "" {
      assert d + "" == d;
      DigitsAlone(d);
      ZeroFraction();
    } else {
      DigitsThenPoint(d, f);
    }
    NumeralsJoin(d, f);
  }

  lemma NumeralsJoin(d: string, f: string)
    requires IsDigits(d) && IsDigits(f)
    ensures NumeralChars(d + if f == "" then "" else "." + f)
  {}

  lemma ScientificParts(x: real, k: nat)
    requires x > 0.0
    ensures Scientific(x, k) == MantissaText(Mantissa(x, k), k) + ("e-" + ExponentDigits(Exponent(x, k)))
  {}

  /** The minus sign of an exponent lost, a small number reads as a larger one. */
  lemma LostExponentSign(x: real, k: nat)
    requires Exact(x, k) && 0.0 < x < 1.0
    ensures var m, e := Mantissa(x, k), Exponent(x, k);
            var y := ParseFloat(MantissaText(m, k) + ("e" + ExponentDigits(e)));
            y.Some? && y.value > x
  {
    var m, e := Mantissa(x, k), Exponent(x, k);
    MantissaFacts(x, k, k);
    MantissaReads(m, k);
    ExponentReads(e);
    Times10Grows(m, e);
    ReadsWithExponent(MantissaText(m, k), ExponentDigits(e), m, e);
    assert k > 0;
  }

  lemma ReadsWithExponent(t: string, d: string, m: real, e: nat)
    requires t != "" && Free(t, 'e') && t[0] != '-' && ParsePlain(t) == Some(m)
    requires ParseExponent(d) == Some(e)
    ensures ParseFloat(t + ("e" + d)) == Some(Times10(m, e))
  {
    Partition(t, 'e', d);
    assert (t + ("e" + d))[|t|] == 'e';
  }

  // ---------------------------------------------------------------- whole numerals

  lemma {:induction false} Over10Ten(x: real, k: nat)
    ensures Over10(x / 10.0, k) == Over10(x, k) / 10.0
    decreases k
  {
    if k > 0 {
      Over10Ten(x / 10.0, k - 1);
    }
  }

  /** Scaling the mantissa back gives the number. */
  lemma {:induction false} MantissaBack(x: real, k: nat)
    ensures Over10(Mantissa(x, k), Exponent(x, k)) == x
    decreases k
  {
    if x < 1.0 && k > 0 {
      MantissaBack(10.0 * x, k - 1);
      Over10Ten(Mantissa(10.0 * x, k - 1), Exponent(10.0 * x, k - 1));
    }
  }

  lemma NegativeExponent(d: string, e: nat)
    requires IsDigits(d) && ParseExponent(d) == Some(e) && d != "" && d[0] != '-'
    ensures ParseExponent("-" + d).Some? && ParseExponent("-" + d).value + e == 0
  {
    assert ("-" + d)[1..] == d;
  }

  lemma SmallExponent(t: string, d: string, m: real, e: nat)
    requires t != "" && Free(t, 'e') && t[0] != '-' && ParsePlain(t) == Some(m)
    requires IsDigits(d) && d != "" && d[0] != '-' && ParseExponent(d) == Some(e)
    ensures ParseFloat(t + ("e" + ("-" + d))) == Some(Over10(m, e))
  {
    var minus := "-" + d;
    NegativeExponent(d, e);
    ReadsScaled(t, minus, m, ParseExponent(minus).value);
    ScaleDown(m, e, ParseExponent(minus).value);
  }

  lemma ScaleDown(m: real, e: nat, x: int)
    requires x + e == 0
    ensures Scale(m, x) == Over10(m, e)
  {}

  lemma ReadsScaled(t: string, exponent: string, m: real, e: int)
    requires t != "" && Free(t, 'e') && t[0] != '-' && ParsePlain(t) == Some(m) && ParseExponent(exponent) == Some(e)
    ensures ParseFloat(t + ("e" + exponent)) == Some(Scale(m, e))
  {
    var s := t + ("e" + exponent);
    Partition(t, 'e', exponent);
    assert s[|t|] == 'e' && s[0] == t[0];
  }

  /** A numeral with its exponent reads back. */
  lemma ScientificRoundTrip(x: real, k: nat)
    requires Exact(x, k) && x > 0.0
    ensures ParseFloat(Scientific(x, k)) == Some(x)
    ensures Scientific(x, k) != "" && Scientific(x, k)[0] != '-'
  {
    MantissaFacts(x, k, k);
    MantissaReads(Mantissa(x, k), k);
    MantissaBack(x, k);
    ScientificParts(x, k);
    NumeralReads(MantissaText(Mantissa(x, k), k), Mantissa(x, k), Exponent(x, k));
  }

  /** A mantissa with a negative exponent. */
  lemma NumeralReads(t: string, m: real, e: nat)
    requires NumeralChars(t) && t != "" && ParsePlain(t) == Some(m)
    ensures var s := t + ("e-" + ExponentDigits(e));
            ParseFloat(s) == Some(Over10(m, e)) && s != "" && s[0] != '-'
  {
    ExponentReads(e);
    ExponentHasDigits(e);
    NumeralJoined(t, m, ExponentDigits(e), e);
  }

  lemma NumeralJoined(t: string, m: real, d: string, e: nat)
    requires NumeralChars(t) && t != "" && ParsePlain(t) == Some(m)
    requires IsDigits(d) && d != "" && d[0] != '-' && ParseExponent(d) == Some(e)
    ensures var s := t + ("e-" + d); ParseFloat(s) == Some(Over10(m, e)) && s != "" && s[0] != '-'
  {
    SmallExponent(t, d, m, e);
    assert "e-" + d == "e" + ("-" + d);
  }

  lemma ExponentHasDigits(e: nat)
    ensures ExponentDigits(e) != "" && ExponentDigits(e)[0] != '-'
  {
    NumberOfDigits(e);
  }

  lemma MinusReads(t: string, x: real)
    requires ParseFloat(t) == Some(x) && t != "" && t[0] != '-'
    ensures ParseFloat("-" + t) == Some(-x)
  {
    assert ("-" + t)[1..] == t;
  }

  /** The numeral of a number that is not negative. */
  function SizeText(size: real, k: nat): string
    requires size >= 0.0
  {
    if size == 0.0 || size >= SMALLEST_PLAIN then Plain(size, k) else Scientific(size, k)
  }

  lemma SizeRoundTrip(size: real, k: nat)
    requires Exact(size, k) && size >= 0.0
    ensures var t := SizeText(size, k); ParseFloat(t) == Some(size) && t != "" && t[0] != '-'
  {
    if size == 0.0 || size >= SMALLEST_PLAIN {
      FloatRoundTrip(size, k);
      PlainChars(size, k);
    } else {
      ScientificRoundTrip(size, k);
    }
  }

  lemma StrOfSize(x: real, k: nat)
    ensures Str(x, k) == if x < 0.0 then "-" + SizeText(-x, k) else SizeText(x, k)
  {}

  /** Every number that str prints is read back, negative and small ones too. */
  lemma StrRoundTrip(x: real, k: nat)
    requires Exact(Abs(x), k)
    ensures ParseFloat(Str(x, k)) == Some(x)
  {
    StrOfSize(x, k);
    SizeRoundTrip(Abs(x), k);
    if x < 0.0 {
      MinusReads(SizeText(-x, k), -x);
    }
  }

  lemma SizeHasNo(size: real, k: nat, c: char)
    requires Exact(size, k) && size >= 0.0 && c != '.' && c != 'e' && c != '-' && !('0' <= c <= '9')
    ensures Free(SizeText(size, k), c)
  {
    if size == 0.0 || size >= SMALLEST_PLAIN {
      PlainChars(size, k);
    } else {
      MantissaFacts(size, k, k);
      MantissaReads(Mantissa(size, k), k);
      ExponentReads(Exponent(size, k));
      ScientificParts(size, k);
      FreeParts(MantissaText(Mantissa(size, k), k), ExponentDigits(Exponent(size, k)), c);
    }
  }

  lemma FreeParts(t: string, d: string, c: char)
    requires NumeralChars(t) && IsDigits(d) && c != '.' && c != 'e' && c != '-' && !('0' <= c <= '9')
    ensures Free(t + ("e-" + d), c)
  {
    assert forall i :: 0 <= i < |d| ==> ("e-" + d)[i + 2] == d[i];
    assert Free("e-" + d, c);
  }

  /** No other characters than digits, point, sign and e are in it. */
  lemma StrHasNo(x: real, k: nat, c: char)
    requires Exact(Abs(x), k) && c != '.' && c != 'e' && c != '-' && !('0' <= c <= '9')
    ensures Free(Str(x, k), c)
  {
    StrOfSize(x, k);
    SizeHasNo(Abs(x), k, c);
  }
}
