/**
 Naive date-times and their ISO 8601 text, as datetime.isoformat() prints them: the
 microseconds are left out when they are zero. The map index compares that text, and the
 COPY buffer carries it, so its order and its injectivity matter.
 */
module Timestamps {
  import opened Strings

  datatype RawDateTime = DateTime(
    year: nat, month: nat, day: nat, hour: nat, minute: nat, second: nat, micro: nat)
  {
    predicate Valid() {
      && 1 <= year <= 9999 && 1 <= month <= 12 && 1 <= day <= 31
      && hour < 24 && minute < 60 && second < 60 && micro < 1_000_000
    }

    /** Microseconds since midnight. */
    function ClockRank(): nat {
      ((hour * 60 + minute) * 60 + second) * 1_000_000 + micro
    }

    /** A number that grows with time: the fields as digits of one mixed-radix numeral. */
    function Rank(): nat {
      ((year * 13 + month) * 32 + day) * 86_400_000_000 + ClockRank()
    }
  }

  type DateTime = d: RawDateTime | d.Valid() witness DateTime(1970, 1, 1, 0, 0, 0, 0)

  function Pow10(width: nat): nat {
    if width == 0 then 1 else 10 * Pow10(width - 1)
  }

  /** The last `width` decimal digits of n, padded with zeros. */
  function Digits(width: nat, n: nat): (text: string)
    ensures |text| == width
    ensures forall i :: 0 <= i < |text| ==> '0' <= text[i] <= '9'
  {
    if width == 0 then "" else Digits(width - 1, n / 10) + [Digit(n % 10)]
  }

  function Fraction(micro: nat): string {
    if micro == 0 then "" else "." + Digits(6, micro)
  }

  /** Text comparison `<`: by the first differing character, a proper prefix being smaller. */
  predicate TextLess(a: string, b: string) {
    if b == "" then false
    else if a == "" then true
    else if a[0] != b[0] then a[0] < b[0]
    else TextLess(a[1..], b[1..])
  }

  lemma {:induction false} TextLessSkips(prefix: string, x: string, y: string)
    ensures TextLess(prefix + x, prefix + y) <==> TextLess(x, y)
  {
    if prefix == "" {
      assert prefix + x == x && prefix + y == y;
    } else {
      TextLessSkips(prefix[1..], x, y);
      assert (prefix + x)[1..] == prefix[1..] + x && (prefix + y)[1..] == prefix[1..] + y;
    }
  }

  lemma {:induction false} TextLessIrreflexive(a: string)
    ensures !TextLess(a, a)
  {
    if a != "" {
      TextLessIrreflexive(a[1..]);
    }
  }

  /** Fixed-width numerals compare as numbers, and equal ones leave the rest to decide. */
  lemma {:induction false} FieldOrder(width: nat, a: nat, b: nat, x: string, y: string)
    requires a < Pow10(width) && b < Pow10(width)
    ensures TextLess(Digits(width, a) + x, Digits(width, b) + y) <==> a < b || (a == b && TextLess(x, y))
    decreases width
  {
    if width == 0 {
      assert Digits(0, a) + x == x && Digits(0, b) + y == y;
    } else {
      var lastA, lastB := [Digit(a % 10)], [Digit(b % 10)];
      assert Digits(width, a) + x == Digits(width - 1, a / 10) + (lastA + x);
      assert Digits(width, b) + y == Digits(width - 1, b / 10) + (lastB + y);
      FieldOrder(width - 1, a / 10, b / 10, lastA + x, lastB + y);
      CharOrder(Digit(a % 10), Digit(b % 10), x, y);
      LastDigitOrder(a, b);
    }
  }

  lemma CharOrder(c: char, d: char, x: string, y: string)
    ensures TextLess([c] + x, [d] + y) <==> c < d || (c == d && TextLess(x, y))
  {
    assert ([c] + x)[1..] == x && ([d] + y)[1..] == y;
  }

  lemma LastDigitOrder(a: nat, b: nat)
    ensures a < b <==> a / 10 < b / 10 || (a / 10 == b / 10 && a % 10 < b % 10)
    ensures a == b <==> a / 10 == b / 10 && a % 10 == b % 10
  {}

  lemma FractionOrder(a: nat, b: nat)
    requires a < 1_000_000 && b < 1_000_000
    ensures TextLess(Fraction(a), Fraction(b)) <==> a < b
  {
    if a != 0 && b != 0 {
      assert Pow10(6) == 1_000_000;
      TextLessSkips(".", Digits(6, a), Digits(6, b));
      FieldOrder(6, a, b, "", "");
      assert Digits(6, a) + "" == Digits(6, a) && Digits(6, b) + "" == Digits(6, b);
    }
  }

  /** A two-digit field with its separator in front of it. */
  lemma SeparatedField(sep: string, a: nat, b: nat, x: string, y: string)
    requires a < 100 && b < 100
    ensures TextLess(sep + (Digits(2, a) + x), sep + (Digits(2, b) + y))
       <==> a < b || (a == b && TextLess(x, y))
  {
    assert Pow10(2) == 100;
    TextLessSkips(sep, Digits(2, a) + x, Digits(2, b) + y);
    FieldOrder(2, a, b, x, y);
  }

  // The text and the rank of a time, from each field downwards.
  function FromSecond(d: DateTime): string { ":" + (Digits(2, d.second) + Fraction(d.micro)) }
  function FromMinute(d: DateTime): string { ":" + (Digits(2, d.minute) + FromSecond(d)) }
  function FromHour(d: DateTime): string { "T" + (Digits(2, d.hour) + FromMinute(d)) }
  function FromDay(d: DateTime): string { "-" + (Digits(2, d.day) + FromHour(d)) }
  function FromMonth(d: DateTime): string { "-" + (Digits(2, d.month) + FromDay(d)) }

  /** What isoformat() prints: YYYY-MM-DDTHH:MM:SS, then .ffffff unless it is zero. */
  function IsoFormat(d: DateTime): string {
    Digits(4, d.year) + FromMonth(d)
  }

  lemma ClockShape(d: DateTime)
    ensures var t := FromHour(d);
            && |t| == (if d.micro == 0 then 9 else 16) && t[0] == 'T' && t[3] == ':' && t[6] == ':'
            && (d.micro != 0 ==> t[9] == '.')
  {
    assert |FromSecond(d)| == 3 + |Fraction(d.micro)|;
  }

  /** The places of the separators, and the length, with microseconds and without. */
  lemma IsoShape(d: DateTime)
    ensures var t := IsoFormat(d);
            && |t| == (if d.micro == 0 then 19 else 26)
            && t[4] == '-' && t[7] == '-' && t[10] == 'T' && t[13] == ':' && t[16] == ':'
            && (d.micro != 0 ==> t[19] == '.')
  {
    ClockShape(d);
    var t, clock := IsoFormat(d), FromHour(d);
    assert t[10..] == clock;
    assert t[10] == clock[0] && t[13] == clock[3] && t[16] == clock[6];
  }

  lemma ClockOrder(a: DateTime, b: DateTime)
    ensures TextLess(FromHour(a), FromHour(b)) <==> a.ClockRank() < b.ClockRank()
  {
    FractionOrder(a.micro, b.micro);
    SeparatedField(":", a.second, b.second, Fraction(a.micro), Fraction(b.micro));
    SeparatedField(":", a.minute, b.minute, FromSecond(a), FromSecond(b));
    SeparatedField("T", a.hour, b.hour, FromMinute(a), FromMinute(b));
  }

  lemma {:induction false} ClockBelowADay(d: DateTime)
    ensures d.ClockRank() < 86_400_000_000
  {}

  lemma RankIsLexicographic(a: DateTime, b: DateTime)
    ensures a.Rank() < b.Rank()
       <==> || a.year < b.year
            || (a.year == b.year && a.month < b.month)
            || (a.year == b.year && a.month == b.month && a.day < b.day)
            || (a.year == b.year && a.month == b.month && a.day == b.day && a.ClockRank() < b.ClockRank())
  {
    ClockBelowADay(a);
    ClockBelowADay(b);
  }

  /** Comparing the printed texts is comparing the times, zero microseconds included. */
  lemma TextOrderIsTimeOrder(a: DateTime, b: DateTime)
    ensures TextLess(IsoFormat(a), IsoFormat(b)) <==> a.Rank() < b.Rank()
  {
    ClockOrder(a, b);
    SeparatedField("-", a.day, b.day, FromHour(a), FromHour(b));
    SeparatedField("-", a.month, b.month, FromDay(a), FromDay(b));
    assert Pow10(4) == 10_000;
    FieldOrder(4, a.year, b.year, FromMonth(a), FromMonth(b));
    RankIsLexicographic(a, b);
  }

  lemma {:induction false} ClockInjective(a: DateTime, b: DateTime)
    requires a.ClockRank() == b.ClockRank()
    ensures a.hour == b.hour && a.minute == b.minute && a.second == b.second && a.micro == b.micro
  {}

  lemma RankInjective(a: DateTime, b: DateTime)
    requires a.Rank() == b.Rank()
    ensures a == b
  {
    RankIsLexicographic(a, b);
    RankIsLexicographic(b, a);
    ClockInjective(a, b);
  }

  /** Different times print differently, so a timestamp key survives being sent as text. */
  lemma IsoFormatInjective(a: DateTime, b: DateTime)
    requires IsoFormat(a) == IsoFormat(b)
    ensures a == b
  {
    TextOrderIsTimeOrder(a, b);
    TextOrderIsTimeOrder(b, a);
    TextLessIrreflexive(IsoFormat(a));
    RankInjective(a, b);
  }
}
