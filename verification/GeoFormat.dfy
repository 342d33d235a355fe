/** Whole coordinates as text: to_string, string2geocoord, and when reading undoes printing. */
module GeoFormat {
  import opened Common
  import opened Strings
  import opened GeoCoord
  import opened GeoText

  const KEYS: set<string> := {"H", "M", "m", "d", "D", "S"}

  // ---------------------------------------------------------------- printing

  /** int(x): towards zero. */
  function Truncated(x: real): int { if x < 0.0 then -(-x).Floor else x.Floor }

  function ElementText(axis: Axis, c: Coord, element: string, k: nat): string {
    if element == "H" then Hemisphere(axis, c)
    else if element == "M" then Str(Abs(c.decimalMinute), k)
    else if element == "m" then IntText(Truncated(Abs(c.minute)))
    else if element == "d" then IntText(Truncated(c.degree))
    else if element == "D" then Str(c.decimalDegree, k)
    else if element == "S" then Str(Abs(c.second), k)
    else element
  }

  function Joined(axis: Axis, c: Coord, elements: seq<string>, k: nat): string {
    if elements == [] then "" else ElementText(axis, c, elements[0], k) + Joined(axis, c, elements[1..], k)
  }

  /** s.replace("-", ""). */
  function RemoveDash(s: string): string {
    if s == "" then "" else (if s[0] == '-' then "" else [s[0]]) + RemoveDash(s[1..])
  }

  /** to_string; k bounds the digits behind the point. */
  function ToString(axis: Axis, c: Coord, format: string, k: nat): string {
    var elements := SplitOn(format, '%');
    var text := Joined(axis, c, elements, k);
    if "H" in elements then RemoveDash(text) else text
  }

  // ---------------------------------------------------------------- reading

  function Formatters(elements: seq<string>): seq<string> {
    if elements == [] then []
    else (if elements[0] in KEYS then [elements[0]] else []) + Formatters(elements[1..])
  }

  function Separators(elements: seq<string>): seq<string> {
    if elements == [] then ["%"]
    else (if elements[0] in KEYS then [] else [elements[0]]) + Separators(elements[1..])
  }

  /** One setter of the coordinate; None where float or the hemisphere check raises. */
  function SetField(axis: Axis, c: Coord, form: string, text: string): Option<Coord> {
    if form == "H" then WithHemisphere(axis, c, text)
    else
      var value := ParseFloat(text);
      if value.None? then None
      else if form == "d" || form == "D" then Some(c.(degree := value.value))
      else if form == "M" || form == "m" then Some(c.(minute := value.value))
      else Some(c.(second := value.value))
  }

  /** The text before the first separator and the text after it; a separator may not be empty. */
  function Cut(text: string, separator: string): (string, string)
    requires separator != ""
  {
    var at := Find(text, separator);
    if at.None? then (text, "") else (text[..at.value], text[at.value + |separator|..])
  }

  function Consumed(axis: Axis, c: Coord, text: string, forms: seq<string>, separators: seq<string>): Option<Coord>
    decreases |forms|
  {
    if forms == [] || separators == [] then Some(c)
    else if separators[0] == "" then None
    else
      var parts := Cut(text, separators[0]);
      var c' := SetField(axis, c, forms[0], parts.0);
      if c'.None? then None else Consumed(axis, c'.value, parts.1, forms[1..], separators[1..])
  }

  function FirstDigit(s: string): (i: nat)
    ensures i <= |s|
  {
    if s == "" || '0' <= s[0] <= '9' then 0 else 1 + FirstDigit(s[1..])
  }

  /** The first letter that is not an h. */
  function FirstLetter(s: string): (i: nat)
    ensures i <= |s|
  {
    if s == "" || ('a' <= s[0] <= 'z' && s[0] != 'h') || ('A' <= s[0] <= 'Z' && s[0] != 'H') then 0
    else 1 + FirstLetter(s[1..])
  }

  /** A hemisphere in front is moved to the back, in the text and in the format. */
  function Rotated(text: string, format: string): Option<(string, string)> {
    if format == "" then None
    else if format[0] != 'H' then Some((text, format))
    else
      var start, formatStart := FirstDigit(text), FirstLetter(format);
      if start == |text| || formatStart == |format| then None
      else Some((text[start..] + " " + [text[0]], format[formatStart..] + "% %" + [format[0]]))
  }

  const ZERO := Coord(0.0, 0.0, 0.0, 0.0, 0.0)

  /** string2geocoord. */
  function Parsed(text: string, axis: Axis, format: string): Option<Coord> {
    var rotated := Rotated(text, format);
    if rotated.None? then None
    else
      var elements := SplitOn(rotated.value.1, '%');
      var c := Consumed(axis, ZERO, rotated.value.0, Formatters(elements), Separators(elements));
      if c.None? then None else Some(Updated(c.value))
  }

  lemma {:induction false} TimesZero(x: real)
    ensures x * 0.0 == 0.0
  {}

  lemma ZeroSplits()
    ensures Split(0.0) == ZERO
  {
    var degree := (0.0).Floor as real;
    var decimalMinute := (0.0 - degree) * 60.0;
    var minute := decimalMinute.Floor as real;
    assert Sign(0.0) == 0.0 && Abs(0.0) == 0.0;
    TimesZero(degree);
    TimesZero(minute);
    TimesZero((decimalMinute - minute) * 60.0);
    assert degree == 0.0;
  }

  lemma ZeroIsConsistent()
    ensures Split(0.0) == ZERO && Range180(0.0) == 0.0
  {
    ZeroSplits();
    RangesInvert(0.0);
  }

  method SetFieldOf(coord: Coordinate, form: string, text: string) returns (ok: bool)
    modifies coord
    ensures ok <==> SetField(coord.axis, old(coord.State()), form, text).Some?
    ensures ok ==> coord.State() == SetField(coord.axis, old(coord.State()), form, text).value
  {
    if form == "H" {
      ok := coord.SetHemisphere(text);
      return ok;
    }
    var value := ParseFloat(text);
    if value.None? {
      return false;
    }
    if form == "d" || form == "D" {
      coord.degree := value.value;
    } else if form == "M" || form == "m" {
      coord.minute := value.value;
    } else {
      coord.second := value.value;
    }
    return true;
  }

  /** One round of the consuming loop. */
  lemma ConsumedNext(axis: Axis, c: Coord, text: string, forms: seq<string>, separators: seq<string>, n: nat)
    requires n < |forms| && n < |separators|
    ensures separators[n] == "" ==> Consumed(axis, c, text, forms[n..], separators[n..]).None?
    ensures separators[n] != "" ==>
      var parts := Cut(text, separators[n]);
      var c' := SetField(axis, c, forms[n], parts.0);
      Consumed(axis, c, text, forms[n..], separators[n..])
      == if c'.None? then None else Consumed(axis, c'.value, parts.1, forms[n + 1..], separators[n + 1..])
  {
    assert forms[n..][1..] == forms[n + 1..] && separators[n..][1..] == separators[n + 1..];
  }

  lemma ConsumedAll(axis: Axis, c: Coord, text: string, forms: seq<string>, separators: seq<string>, n: nat)
    requires n <= |forms| && n <= |separators| && (n == |forms| || n == |separators|)
    ensures Consumed(axis, c, text, forms[n..], separators[n..]) == Some(c)
  {}

  lemma ConsumedFirst(axis: Axis, c: Coord, text: string, forms: seq<string>, separators: seq<string>)
    ensures Consumed(axis, c, text, forms[0..], separators[0..]) == Consumed(axis, c, text, forms, separators)
  {
    assert forms[0..] == forms && separators[0..] == separators;
  }

  /** The loop that sets one field after another; false where float or a setter raises. */
  method ReadFields(coord: Coordinate, coordStr: string, forms: seq<string>, separators: seq<string>) returns (ok: bool)
    modifies coord
    ensures ok <==> Consumed(coord.axis, old(coord.State()), coordStr, forms, separators).Some?
    ensures ok ==> coord.State() == Consumed(coord.axis, old(coord.State()), coordStr, forms, separators).value
  {
    ghost var goal := Consumed(coord.axis, coord.State(), coordStr, forms, separators);
    ConsumedFirst(coord.axis, coord.State(), coordStr, forms, separators);
    var text := coordStr;
    var n := 0;
    while n < |forms| && n < |separators|
      invariant 0 <= n <= |forms| && n <= |separators|
      invariant Consumed(coord.axis, coord.State(), text, forms[n..], separators[n..]) == goal
      decreases |forms| - n
    {
      ConsumedNext(coord.axis, coord.State(), text, forms, separators, n);
      if separators[n] == "" {
        return false;
      }
      var parts := Cut(text, separators[n]);
      var fieldOk := SetFieldOf(coord, forms[n], parts.0);
      if !fieldOk {
        return false;
      }
      text := parts.1;
      n := n + 1;
    }
    ConsumedAll(coord.axis, coord.State(), text, forms, separators, n);
    return true;
  }

  method String2GeoCoord(coordStr: string, axis: Axis, formatStr: string) returns (coord: Coordinate?)
    ensures coord == null <==> Parsed(coordStr, axis, formatStr).None?
    ensures coord != null ==> fresh(coord) && coord.axis == axis && coord.State() == Parsed(coordStr, axis, formatStr).value
  {
    var newCoord := new Coordinate(axis, 0.0, 0.0, 0.0);
    ZeroIsConsistent();
    var rotated := Rotated(coordStr, formatStr);
    if rotated.None? {
      return null;
    }
    var elements := SplitOn(rotated.value.1, '%');
    var ok := ReadFields(newCoord, rotated.value.0, Formatters(elements), Separators(elements));
    if !ok {
      return null;
    }
    newCoord.Update();
    return newCoord;
  }

  // ---------------------------------------------------------------- reading what was printed

  /** The elements of a format, with the percent signs between them. */
  function FormatOf(elements: seq<string>): string {
    if elements == [] then "" else if |elements| == 1 then elements[0] else elements[0] + ['%'] + FormatOf(elements[1..])
  }

  /** The formats d% %m% %S% %H and H% %d% %m% %S. */
  const DMSH: seq<string> := ["d", " "] + (["m", " "] + (["S", " "] + ["H"]))
  const HDMS: seq<string> := ["H", " "] + (["d", " "] + (["m", " "] + ["S"]))

  predicate NoPercent(elements: seq<string>) { forall i :: 0 <= i < |elements| ==> Free(elements[i], '%') }

  lemma {:induction false} SplitFormat(elements: seq<string>)
    requires elements != [] && NoPercent(elements)
    ensures SplitOn(FormatOf(elements), '%') == elements
  {
    var a := elements[0];
    if |elements| == 1 {
      IndexOfAbsent(a, '%');
    } else {
      var s, b := FormatOf(elements), FormatOf(elements[1..]);
      SplitFormat(elements[1..]);
      IndexAfter(a, '%', b);
      assert s[..|a|] == a && s[|a| + 1..] == b;
      assert elements == [a] + elements[1..];
    }
  }

  lemma {:induction false} RemoveDashConcat(a: string, b: string)
    ensures RemoveDash(a + b) == RemoveDash(a) + RemoveDash(b)
  {
    if a == "" {
      assert a + b == b;
    } else {
      assert (a + b)[1..] == a[1..] + b;
      RemoveDashConcat(a[1..], b);
    }
  }

  lemma {:induction false} RemoveNoDash(s: string)
    requires Free(s, '-')
    ensures RemoveDash(s) == s
  {
    if s != "" {
      RemoveNoDash(s[1..]);
      assert s == [s[0]] + s[1..];
    }
  }

  /** The seconds as they stand in the text. */
  function SecondText(x: real, k: nat): string { RemoveDash(Str(Abs(x), k)) }

  /** Without a space, and read as the seconds or, if they are too small for a plain numeral, as more. */
  lemma SecondReads(x: real, k: nat)
    requires Exact(Abs(x), k) && Abs(x) < 60.0
    ensures var t, y := SecondText(x, k), ParseFloat(SecondText(x, k));
            && t != "" && Free(t, ' ') && Free(t, '-') && '0' <= t[0] <= '9' && y.Some? && y.value >= 0.0
            && (y.value == Abs(x) <==> x == 0.0 || Abs(x) >= SMALLEST_PLAIN)
  {
    var s := Abs(x);
    if s == 0.0 || s >= SMALLEST_PLAIN {
      PlainChars(s, k);
      FirstIsDigit(s, k);
      RemoveNoDash(Plain(s, k));
      FloatRoundTrip(s, k);
    } else {
      SmallSecond(s, k);
      LostExponentSign(s, k);
    }
  }

  lemma FirstIsDigit(x: real, k: nat)
    requires x >= 0.0
    ensures '0' <= Plain(x, k)[0] <= '9'
  {
    NumberOfDigits(x.Floor);
  }

  lemma DashInExponent(m: string, d: string)
    requires Free(m, '-') && Free(d, '-')
    ensures RemoveDash(m + ("e-" + d)) == m + ("e" + d)
  {
    RemoveDashConcat(m, "e-" + d);
    RemoveDashConcat("e-", d);
    RemoveNoDash(m);
    RemoveNoDash(d);
    assert "e-"[1..] == "-" && "-"[1..] == "" && RemoveDash("-") == "" && RemoveDash("e-") == "e";
  }

  lemma SmallSecond(x: real, k: nat)
    requires Exact(x, k) && 0.0 < x < 1.0
    ensures var t := MantissaText(Mantissa(x, k), k) + ("e" + ExponentDigits(Exponent(x, k)));
            RemoveDash(Scientific(x, k)) == t && Free(t, ' ') && Free(t, '-') && '0' <= t[0] <= '9'
  {
    var m, d := MantissaText(Mantissa(x, k), k), ExponentDigits(Exponent(x, k));
    MantissaFacts(x, k, k);
    MantissaReads(Mantissa(x, k), k);
    MantissaFirst(Mantissa(x, k), k);
    ExponentReads(Exponent(x, k));
    ScientificParts(x, k);
    NumeralsAreFree(m, d);
    DashInExponent(m, d);
  }

  lemma NumeralsAreFree(m: string, d: string)
    requires NumeralChars(m) && IsDigits(d)
    ensures Free(m, '-') && Free(d, '-') && Free(m + ("e" + d), ' ') && Free(m + ("e" + d), '-')
  {}

  lemma MantissaFirst(m: real, k: nat)
    requires m >= 0.0
    ensures MantissaText(m, k) != "" && '0' <= MantissaText(m, k)[0] <= '9'
  {
    NumberOfDigits(m.Floor);
  }

  lemma {:induction false} FindSpace(head: string, rest: string)
    requires Free(head, ' ')
    ensures Find(head + (" " + rest), " ") == Some(|head|)
    ensures Cut(head + (" " + rest), " ") == (head, rest)
  {
    var s := head + (" " + rest);
    if head == "" {
      assert s == " " + rest && " " <= s;
    } else {
      assert s[0] == head[0] && s[1..] == head[1..] + (" " + rest);
      FindSpace(head[1..], rest);
    }
    assert s[..|head|] == head && s[|head| + 1..] == rest;
  }

  lemma {:induction false} FindNone(s: string)
    requires Free(s, '%')
    ensures Find(s, "%").None? && Cut(s, "%") == (s, "")
  {
    if s != "" {
      assert s[0] != '%';
      FindNone(s[1..]);
    }
  }

  /** Reading one number and the space behind it. */
  lemma ReadsField(axis: Axis, c: Coord, form: string, text: string, rest: string, forms: seq<string>, separators: seq<string>)
    requires form != "H" && Free(text, ' ') && ParseFloat(text).Some?
    ensures SetField(axis, c, form, text).Some?
    ensures Consumed(axis, c, text + (" " + rest), [form] + forms, [" "] + separators)
            == Consumed(axis, SetField(axis, c, form, text).value, rest, forms, separators)
  {
    FindSpace(text, rest);
    assert ([form] + forms)[1..] == forms && ([" "] + separators)[1..] == separators;
  }

  lemma ReadsHemisphere(axis: Axis, c: Coord, letter: string)
    requires letter == Negative(axis) || letter == Positive(axis)
    ensures Consumed(axis, c, letter, ["H"], ["%"]) == WithHemisphere(axis, c, letter)
  {
    FindNone(letter);
    assert ["H"][1..] == [] && ["%"][1..] == [];
  }

  /** The four parts of the text. */
  function PartsText(d: string, m: string, s: string, h: string): string { d + (" " + (m + (" " + (s + (" " + h))))) }

  lemma ReadsSecond(axis: Axis, c: Coord, s: string, h: string)
    requires Free(s, ' ') && (h == Negative(axis) || h == Positive(axis)) && ParseFloat(s).Some?
    ensures Consumed(axis, c, s + (" " + h), ["S"] + ["H"], [" "] + ["%"])
            == WithHemisphere(axis, c.(second := ParseFloat(s).value), h)
  {
    ReadsField(axis, c, "S", s, h, ["H"], ["%"]);
    ReadsHemisphere(axis, c.(second := ParseFloat(s).value), h);
  }

  lemma ReadsParts(axis: Axis, d: string, m: string, s: string, h: string)
    requires Free(d, ' ') && Free(m, ' ') && Free(s, ' ') && (h == Negative(axis) || h == Positive(axis))
    requires ParseFloat(d).Some? && ParseFloat(m).Some? && ParseFloat(s).Some?
    ensures var c := Coord(ParseFloat(d).value, ParseFloat(m).value, ParseFloat(s).value, 0.0, 0.0);
            Consumed(axis, ZERO, PartsText(d, m, s, h), ["d"] + (["m"] + (["S"] + ["H"])), [" "] + ([" "] + ([" "] + ["%"])))
            == WithHemisphere(axis, c, h)
  {
    ReadsField(axis, ZERO, "d", d, m + (" " + (s + (" " + h))), ["m"] + (["S"] + ["H"]), [" "] + ([" "] + ["%"]));
    ReadsMinute(axis, ZERO.(degree := ParseFloat(d).value), m, s, h);
  }

  lemma ReadsMinute(axis: Axis, c: Coord, m: string, s: string, h: string)
    requires Free(m, ' ') && Free(s, ' ') && (h == Negative(axis) || h == Positive(axis))
    requires ParseFloat(m).Some? && ParseFloat(s).Some?
    ensures Consumed(axis, c, m + (" " + (s + (" " + h))), ["m"] + (["S"] + ["H"]), [" "] + ([" "] + ["%"]))
            == WithHemisphere(axis, c.(minute := ParseFloat(m).value, second := ParseFloat(s).value), h)
  {
    ReadsField(axis, c, "m", m, s + (" " + h), ["S"] + ["H"], [" "] + ["%"]);
    ReadsSecond(axis, c.(minute := ParseFloat(m).value), s, h);
  }

  lemma PairFacts(e: string, rest: seq<string>)
    requires e in KEYS
    ensures var elements := [e, " "] + rest;
            && Formatters(elements) == [e] + Formatters(rest) && Separators(elements) == [" "] + Separators(rest)
            && (NoPercent(rest) ==> NoPercent(elements))
  {
    var elements := [e, " "] + rest;
    assert elements[1..] == [" "] + rest && elements[1..][1..] == rest;
    assert forall i :: 2 <= i < |elements| ==> elements[i] == rest[i - 2];
    assert Formatters(elements[1..]) == [] + Formatters(rest) == Formatters(rest);
    assert [] + Separators(elements[1..]) == Separators(elements[1..]);
  }

  lemma LastFacts(e: string)
    requires e in KEYS
    ensures Formatters([e]) == [e] && Separators([e]) == ["%"] && NoPercent([e])
  {
    assert [e][1..] == [] && [e] + [] == [e];
  }

  lemma FormatFacts()
    ensures SplitOn(FormatOf(DMSH), '%') == DMSH && SplitOn(FormatOf(HDMS), '%') == HDMS
    ensures Formatters(DMSH) == ["d"] + (["m"] + (["S"] + ["H"]))
    ensures Separators(DMSH) == [" "] + ([" "] + ([" "] + ["%"]))
  {
    LastFacts("H");
    PairFacts("S", ["H"]);
    PairFacts("m", ["S", " "] + ["H"]);
    PairFacts("d", ["m", " "] + (["S", " "] + ["H"]));
    SplitFormat(DMSH);
    LastFacts("S");
    PairFacts("m", ["S"]);
    PairFacts("d", ["m", " "] + ["S"]);
    PairFacts("H", ["d", " "] + (["m", " "] + ["S"]));
    SplitFormat(HDMS);
  }

  // ---------------------------------------------------------------- what is printed

  function Clean(axis: Axis, c: Coord, elements: seq<string>, k: nat): string { RemoveDash(Joined(axis, c, elements, k)) }

  lemma PrintsPair(axis: Axis, c: Coord, e: string, rest: seq<string>, k: nat)
    ensures Clean(axis, c, [e, " "] + rest, k)
            == RemoveDash(ElementText(axis, c, e, k)) + (" " + Clean(axis, c, rest, k))
  {
    var elements := [e, " "] + rest;
    assert elements[1..] == [" "] + rest && elements[1..][1..] == rest;
    assert elements[1..][0] == " " && ElementText(axis, c, " ", k) == " ";
    assert Joined(axis, c, elements[1..], k) == " " + Joined(axis, c, rest, k);
    assert Joined(axis, c, elements, k) == ElementText(axis, c, e, k) + (" " + Joined(axis, c, rest, k));
    RemoveDashConcat(ElementText(axis, c, e, k), " " + Joined(axis, c, rest, k));
    RemoveDashConcat(" ", Joined(axis, c, rest, k));
    RemoveNoDash(" ");
  }

  lemma PrintsLast(axis: Axis, c: Coord, e: string, k: nat)
    ensures Clean(axis, c, [e], k) == RemoveDash(ElementText(axis, c, e, k))
  {
    assert [e][1..] == [] && ElementText(axis, c, e, k) + "" == ElementText(axis, c, e, k);
    assert Joined(axis, c, [e][1..], k) == "";
    assert Joined(axis, c, [e], k) == ElementText(axis, c, e, k);
  }

  lemma HemispherePrints(axis: Axis, c: Coord, k: nat)
    ensures RemoveDash(ElementText(axis, c, "H", k)) == Hemisphere(axis, c)
  {
    RemoveNoDash(Hemisphere(axis, c));
  }

  function WholeText(x: real): string { Digits(Abs(x).Floor) }

  lemma IntPrints(n: int)
    ensures RemoveDash(IntText(n)) == Digits(if n < 0 then -n else n)
  {
    var d := Digits(if n < 0 then -n else n);
    NumberOfDigits(if n < 0 then -n else n);
    DigitsHaveNo(d, '-');
    RemoveNoDash(d);
    if n < 0 {
      assert IntText(n)[1..] == d && "" + RemoveDash(d) == RemoveDash(d);
    }
  }

  lemma WholesPrint(axis: Axis, c: Coord, k: nat)
    ensures RemoveDash(ElementText(axis, c, "d", k)) == WholeText(c.degree)
    ensures RemoveDash(ElementText(axis, c, "m", k)) == WholeText(c.minute)
  {
    IntPrints(Truncated(c.degree));
    IntPrints(Truncated(Abs(c.minute)));
    assert Abs(Abs(c.minute)) == Abs(c.minute);
  }

  lemma WholeReads(x: real)
    requires IsWhole(x)
    ensures ParseFloat(WholeText(x)) == Some(Abs(x)) && Free(WholeText(x), ' ')
    ensures WholeText(x) != "" && '0' <= WholeText(x)[0] <= '9'
  {
    WholeOfNegated(x);
    NumberOfDigits(Abs(x).Floor);
    DigitsRoundTrip(Abs(x).Floor);
    DigitsHaveNo(WholeText(x), ' ');
  }

  lemma PrintsDMSH(axis: Axis, c: Coord, k: nat)
    ensures ToString(axis, c, FormatOf(DMSH), k)
            == PartsText(WholeText(c.degree), WholeText(c.minute), SecondText(c.second, k), Hemisphere(axis, c))
  {
    FormatFacts();
    PrintsPair(axis, c, "d", ["m", " "] + (["S", " "] + ["H"]), k);
    PrintsPair(axis, c, "m", ["S", " "] + ["H"], k);
    SecondThenHemisphere(axis, c, k);
    WholesPrint(axis, c, k);
    assert DMSH[6] == "H";
  }

  lemma SecondThenHemisphere(axis: Axis, c: Coord, k: nat)
    ensures Clean(axis, c, ["S", " "] + ["H"], k) == SecondText(c.second, k) + (" " + Hemisphere(axis, c))
  {
    PrintsPair(axis, c, "S", ["H"], k);
    PrintsLast(axis, c, "H", k);
    HemispherePrints(axis, c, k);
  }

  lemma PrintsHDMS(axis: Axis, c: Coord, k: nat)
    ensures ToString(axis, c, FormatOf(HDMS), k)
            == Hemisphere(axis, c) + (" " + (WholeText(c.degree) + (" " + (WholeText(c.minute) + (" " + SecondText(c.second, k))))))
  {
    FormatFacts();
    PrintsPair(axis, c, "H", ["d", " "] + (["m", " "] + ["S"]), k);
    PrintsPair(axis, c, "d", ["m", " "] + ["S"], k);
    MinuteThenSecond(axis, c, k);
    WholesPrint(axis, c, k);
    HemispherePrints(axis, c, k);
    assert HDMS[0] == "H";
  }

  lemma MinuteThenSecond(axis: Axis, c: Coord, k: nat)
    ensures Clean(axis, c, ["m", " "] + ["S"], k) == WholeText(c.minute) + (" " + SecondText(c.second, k))
  {
    PrintsPair(axis, c, "m", ["S"], k);
    PrintsLast(axis, c, "S", k);
    WholesPrint(axis, c, k);
  }

  // ---------------------------------------------------------------- the round trip

  lemma SizeWithSecond(c: Coord, y: real)
    requires Consistent(c) && y >= 0.0
    ensures Size(Coord(Abs(c.degree), Abs(c.minute), y, 0.0, 0.0)) == Abs(c.decimalDegree) <==> y == Abs(c.second)
  {
    SizeOfConsistent(c);
  }

  lemma SplitAgain(d: real)
    ensures Updated(Split(d)) == Split(d)
  {
    SplitIsSexagesimal(d);
  }

  lemma SameSide(size: real, d: real, sign: real)
    requires sign == if d < 0.0 then -1.0 else 1.0
    ensures Split(size * sign) == Split(d) <==> size == Abs(d)
  {
    assert Split(size * sign).decimalDegree == size * sign;
  }

  lemma ScaledBack(c: Coord, y: real, sign: real)
    requires Consistent(c) && y >= 0.0 && sign == if c.decimalDegree < 0.0 then -1.0 else 1.0
    ensures var back := Updated(Scaled(Coord(Abs(c.degree), Abs(c.minute), y, 0.0, 0.0), sign));
            back == c <==> y == Abs(c.second)
  {
    var parts := Coord(Abs(c.degree), Abs(c.minute), y, 0.0, 0.0);
    ScaledBy(parts, sign);
    SplitAgain(Size(parts) * sign);
    SameSide(Size(parts), c.decimalDegree, sign);
    SizeWithSecond(c, y);
  }

  lemma ParsedDMSH(text: string, axis: Axis)
    ensures var c := Consumed(axis, ZERO, text, ["d"] + (["m"] + (["S"] + ["H"])), [" "] + ([" "] + ([" "] + ["%"])));
            Parsed(text, axis, FormatOf(DMSH)) == if c.None? then None else Some(Updated(c.value))
  {
    FormatFacts();
    assert FormatOf(DMSH)[0] == 'd';
  }

  lemma PartsParsed(axis: Axis, d: string, m: string, s: string, h: string)
    requires Free(d, ' ') && Free(m, ' ') && Free(s, ' ') && (h == Negative(axis) || h == Positive(axis))
    requires ParseFloat(d).Some? && ParseFloat(m).Some? && ParseFloat(s).Some?
    ensures var c := Coord(ParseFloat(d).value, ParseFloat(m).value, ParseFloat(s).value, 0.0, 0.0);
            var c' := WithHemisphere(axis, c, h);
            Parsed(PartsText(d, m, s, h), axis, FormatOf(DMSH)) == if c'.None? then None else Some(Updated(c'.value))
  {
    ParsedDMSH(PartsText(d, m, s, h), axis);
    ReadsParts(axis, d, m, s, h);
  }

  lemma PartsReadBack(axis: Axis, c: Coord, k: nat)
    requires Consistent(c) && Exact(Abs(c.second), k)
    ensures var text := PartsText(WholeText(c.degree), WholeText(c.minute), SecondText(c.second, k), Hemisphere(axis, c));
            var p := Parsed(text, axis, FormatOf(DMSH));
            p.Some? && (p.value == c <==> c.second == 0.0 || Abs(c.second) >= SMALLEST_PLAIN)
  {
    var s := SecondText(c.second, k);
    SplitIsSexagesimal(c.decimalDegree);
    WholeReads(c.degree);
    WholeReads(c.minute);
    SecondReads(c.second, k);
    PartsParsed(axis, WholeText(c.degree), WholeText(c.minute), s, Hemisphere(axis, c));
    ScaledBack(c, ParseFloat(s).value, if c.decimalDegree < 0.0 then -1.0 else 1.0);
  }

  /** Reading what was printed as d% %m% %S% %H gives the coordinate back iff the seconds need no exponent. */
  lemma RoundTripIff(axis: Axis, c: Coord, k: nat)
    requires Consistent(c) && Exact(Abs(c.second), k)
    ensures var p := Parsed(ToString(axis, c, FormatOf(DMSH), k), axis, FormatOf(DMSH));
            p.Some? && (p.value == c <==> c.second == 0.0 || Abs(c.second) >= SMALLEST_PLAIN)
  {
    PrintsDMSH(axis, c, k);
    PartsReadBack(axis, c, k);
  }

  /** The failing side is inhabited: 0.00005 seconds do not come back. */
  lemma ExponentExample(axis: Axis)
    ensures var c := Split(1.0 / 72000000.0);
            && c.second == 0.00005 && Exact(Abs(c.second), 5)
            && Parsed(ToString(axis, c, FormatOf(DMSH), 5), axis, FormatOf(DMSH)).Some?
            && Parsed(ToString(axis, c, FormatOf(DMSH), 5), axis, FormatOf(DMSH)).value != c
  {
    var c := Split(1.0 / 72000000.0);
    TinySecond();
    FiveDigits();
    RoundTripIff(axis, c, 5);
  }

  lemma TinySecond()
    ensures Split(1.0 / 72000000.0).second == 0.00005
  {
    var size := 1.0 / 72000000.0;
    assert size.Floor == 0 && (size * 60.0).Floor == 0;
  }

  lemma FiveDigits()
    ensures Exact(0.00005, 5)
  {
    assert Times10(0.00005, 5) == Times10(0.0005, 4) == Times10(0.005, 3);
    assert Times10(0.005, 3) == Times10(0.05, 2) == Times10(0.5, 1) == Times10(5.0, 0) == 5.0;
  }

  lemma RotatesFormat()
    ensures var f := FormatOf(HDMS);
            f != "" && f[0] == 'H' && FirstLetter(f) < |f| && f[FirstLetter(f)..] + "% %" + [f[0]] == FormatOf(DMSH)
  {
    var tail := ["d", " "] + (["m", " "] + ["S"]);
    var f, t := FormatOf(HDMS), FormatOf(tail);
    FormatCons("H", tail);
    assert f == "H" + ['%'] + (" " + ['%'] + t);
    assert t[0] == 'd';
    assert f[1..][0] == '%' && f[1..][1..][0] == ' ' && f[1..][1..][1..][0] == '%' && f[1..][1..][1..][1..] == t;
    assert FirstLetter(t) == 0 && FirstLetter(f[1..][1..][1..]) == 1 && FirstLetter(f[1..][1..]) == 2;
    assert FirstLetter(f[1..]) == 3 && f[4..] == t;
    FormatGrows();
  }

  lemma FormatCons(e: string, rest: seq<string>)
    requires rest != []
    ensures FormatOf([e, " "] + rest) == e + ['%'] + (" " + ['%'] + FormatOf(rest))
  {
    var elements := [e, " "] + rest;
    assert elements[1..] == [" "] + rest && elements[1..][1..] == rest;
  }

  lemma FormatGrows()
    ensures FormatOf(["d", " "] + (["m", " "] + ["S"])) + "% %" + "H" == FormatOf(DMSH)
  {
    FormatCons("d", ["m", " "] + ["S"]);
    FormatCons("m", ["S"]);
    FormatCons("d", ["m", " "] + (["S", " "] + ["H"]));
    FormatCons("m", ["S", " "] + ["H"]);
    FormatCons("S", ["H"]);
  }

  lemma RotatesText(h: string, d: string, m: string, s: string)
    requires |h| == 1 && !('0' <= h[0] <= '9') && d != "" && '0' <= d[0] <= '9'
    ensures var text := h + (" " + (d + (" " + (m + (" " + s)))));
            && FirstDigit(text) < |text| && text[FirstDigit(text)..] + " " + [text[0]] == PartsText(d, m, s, h)
  {
    var rest := d + (" " + (m + (" " + s)));
    var text := h + (" " + rest);
    assert text[1..][0] == ' ' && text[1..][1..] == rest && rest[0] == d[0];
    assert FirstDigit(text[1..]) == 1 && text[2..] == rest && [text[0]] == h;
  }

  /** The same with the hemisphere in front, which is read by moving it to the back. */
  lemma RotatedRoundTripIff(axis: Axis, c: Coord, k: nat)
    requires Consistent(c) && Exact(Abs(c.second), k)
    ensures var p := Parsed(ToString(axis, c, FormatOf(HDMS), k), axis, FormatOf(HDMS));
            p.Some? && (p.value == c <==> c.second == 0.0 || Abs(c.second) >= SMALLEST_PLAIN)
  {
    PrintsHDMS(axis, c, k);
    SplitIsSexagesimal(c.decimalDegree);
    WholeReads(c.degree);
    RotatesFormat();
    RotatesText(Hemisphere(axis, c), WholeText(c.degree), WholeText(c.minute), SecondText(c.second, k));
    SameParsed(ToString(axis, c, FormatOf(HDMS), k), axis, FormatOf(HDMS));
    PartsReadBack(axis, c, k);
  }

  lemma {:induction false} SameParsed(text: string, axis: Axis, format: string)
    requires Rotated(text, format).Some? && Rotated(text, format).value.1 != "" && Rotated(text, format).value.1[0] != 'H'
    ensures Parsed(text, axis, format) == Parsed(Rotated(text, format).value.0, axis, Rotated(text, format).value.1)
  {}
}
