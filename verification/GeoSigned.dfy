/** The formats without a hemisphere: decimal degrees, and degrees with decimal minutes. */
module GeoSigned {
  import opened Common
  import opened GeoCoord
  import opened GeoFormat
  import opened GeoText
  import opened Strings

  lemma OneElement()
    ensures SplitOn("D", '%') == ["D"] && Formatters(["D"]) == ["D"] && Separators(["D"]) == ["%"]
  {
    assert IndexOf("D"[1..], '%') == 0;
    assert ["D"][1..] == [];
    assert Formatters(["D"][1..]) == [] && Separators(["D"][1..]) == ["%"];
    assert "D" in KEYS;
  }

  /** Decimal degrees have no hemisphere, keep their signs, and so are always read back. */
  lemma DegreesRoundTrip(axis: Axis, c: Coord, k: nat)
    requires Consistent(c) && Exact(Abs(c.decimalDegree), k)
    ensures Parsed(ToString(axis, c, "D", k), axis, "D") == Some(c)
  {
    var text := Str(c.decimalDegree, k);
    OneElement();
    StrRoundTrip(c.decimalDegree, k);
    StrHasNo(c.decimalDegree, k, '%');
    FindNone(text);
    assert Joined(axis, c, ["D"][1..], k) == "";
    assert ToString(axis, c, "D", k) == text + "" == text;
    DegreesRead(text, axis, c.decimalDegree);
  }

  lemma DegreesRead(text: string, axis: Axis, d: real)
    requires ParseFloat(text) == Some(d) && Find(text, "%").None?
    ensures Parsed(text, axis, "D") == Some(Split(d))
  {
    OneElement();
    assert ["D"][1..] == [];
    assert Consumed(axis, ZERO, text, ["D"], ["%"]) == Some(ZERO.(degree := d));
    assert DecimalDegree(d, 0.0, 0.0) == d;
  }

  // ---------------------------------------------------------------- degrees and decimal minutes

  /** The format d% %M. */
  const DM: seq<string> := ["d", " "] + ["M"]

  lemma DMElements()
    ensures SplitOn(FormatOf(DM), '%') == ["d", " ", "M"] && FormatOf(DM) != "" && FormatOf(DM)[0] == 'd'
  {
    assert DM == ["d", " ", "M"];
    SplitFormat(DM);
  }

  lemma DMForms()
    ensures Formatters(["d", " ", "M"]) == ["d", "M"] && Separators(["d", " ", "M"]) == [" ", "%"]
  {
    var e := ["d", " ", "M"];
    assert e[1..] == [" ", "M"] && [" ", "M"][1..] == ["M"] && ["M"][1..] == [];
    assert "d" in KEYS && "M" in KEYS && " " !in KEYS;
    assert Formatters(["M"]) == ["M"] && Separators(["M"]) == ["%"];
    assert Formatters([" ", "M"]) == ["M"] && Separators([" ", "M"]) == [" ", "%"];
  }

  lemma JoinedDM(axis: Axis, c: Coord, k: nat)
    requires c.decimalMinute >= 0.0
    ensures Joined(axis, c, ["d", " ", "M"], k) == IntText(Truncated(c.degree)) + (" " + Str(c.decimalMinute, k))
  {
    var e, minute := ["d", " ", "M"], Str(c.decimalMinute, k);
    assert e[1..] == [" ", "M"] && [" ", "M"][1..] == ["M"] && ["M"][1..] == [];
    assert ElementText(axis, c, "M", k) == minute && ElementText(axis, c, " ", k) == " ";
    assert Joined(axis, c, ["M"], k) == minute + Joined(axis, c, [], k) == minute;
    assert Joined(axis, c, [" ", "M"], k) == " " + minute;
  }

  lemma PrintsDM(axis: Axis, c: Coord, k: nat)
    requires c.decimalMinute >= 0.0
    ensures ToString(axis, c, FormatOf(DM), k) == IntText(Truncated(c.degree)) + (" " + Str(c.decimalMinute, k))
  {
    DMElements();
    JoinedDM(axis, c, k);
    assert "H" !in ["d", " ", "M"];
  }

  /** The sign of the whole degrees is printed, and read. */
  lemma IntReads(n: int)
    ensures ParseFloat(IntText(n)) == Some(n as real) && Free(IntText(n), ' ')
  {
    if n < 0 {
      SizeReads(-n);
      MinusReads(Digits(-n), (-n) as real);
    } else {
      SizeReads(n);
    }
  }

  lemma SizeReads(n: nat)
    ensures ParseFloat(Digits(n)) == Some(n as real) && Digits(n) != "" && Digits(n)[0] != '-' && Free(Digits(n), ' ')
  {
    NumberOfDigits(n);
    DigitsRoundTrip(n);
    DigitsHaveNo(Digits(n), ' ');
    DigitsHaveNo(Digits(n), '-');
  }

  lemma TruncatedWhole(x: real)
    requires IsWhole(x)
    ensures Truncated(x) as real == x
  {
    WholeOfNegated(x);
  }

  lemma ConsumesMinutes(axis: Axis, c: Coord, m: string)
    requires ParseFloat(m).Some? && Free(m, '%')
    ensures Consumed(axis, c, m, ["M"], ["%"]) == Some(c.(minute := ParseFloat(m).value))
  {
    FindNone(m);
    assert ["M"][1..] == [];
  }

  lemma ConsumesDM(axis: Axis, d: string, m: string)
    requires Free(d, ' ') && ParseFloat(d).Some? && ParseFloat(m).Some? && Free(m, '%')
    ensures Consumed(axis, ZERO, d + (" " + m), ["d", "M"], [" ", "%"])
            == Some(ZERO.(degree := ParseFloat(d).value, minute := ParseFloat(m).value))
  {
    ReadsField(axis, ZERO, "d", d, m, ["M"], ["%"]);
    ConsumesMinutes(axis, ZERO.(degree := ParseFloat(d).value), m);
    assert ["d"] + ["M"] == ["d", "M"] && [" "] + ["%"] == [" ", "%"];
  }

  lemma ReadsDM(axis: Axis, d: string, m: string)
    requires Free(d, ' ') && ParseFloat(d).Some? && ParseFloat(m).Some? && Free(m, '%')
    ensures Parsed(d + (" " + m), axis, FormatOf(DM))
            == Some(Split(DecimalDegree(ParseFloat(d).value, ParseFloat(m).value, 0.0)))
  {
    DMElements();
    DMForms();
    ConsumesDM(axis, d, m);
  }

  /** The minutes are printed without a sign: they add up with the degrees only where the degrees have none. */
  lemma DMAddsUp(c: Coord)
    requires Consistent(c)
    ensures Split(DecimalDegree(c.degree, c.decimalMinute, 0.0)) == c <==> c.decimalDegree >= 0.0 || c.decimalMinute == 0.0
  {
    SplitIsSexagesimal(c.decimalDegree);
    assert Split(DecimalDegree(c.degree, c.decimalMinute, 0.0)).decimalDegree == c.degree + c.decimalMinute / 60.0;
  }

  /**
   Reading what was printed as d% %M gives the coordinate back iff it is not negative or has
   no minutes: the minutes of a negative one are printed without its sign.
   */
  lemma DMRoundTripIff(axis: Axis, c: Coord, k: nat)
    requires Consistent(c) && Exact(c.decimalMinute, k)
    ensures var p := Parsed(ToString(axis, c, FormatOf(DM), k), axis, FormatOf(DM));
            p.Some? && (p.value == c <==> c.decimalDegree >= 0.0 || c.decimalMinute == 0.0)
  {
    SplitIsSexagesimal(c.decimalDegree);
    PrintsDM(axis, c, k);
    IntReads(Truncated(c.degree));
    TruncatedWhole(c.degree);
    StrRoundTrip(c.decimalMinute, k);
    StrHasNo(c.decimalMinute, k, '%');
    ReadsDM(axis, IntText(Truncated(c.degree)), Str(c.decimalMinute, k));
    DMAddsUp(c);
  }

  lemma MinusOneAndAHalf()
    ensures var c := Split(-1.5); c.degree == -1.0 && c.decimalMinute == 30.0 && Consistent(c)
    ensures Exact(30.0, 0)
  {
    assert 1.5.Floor == 1;
  }

  /** A coordinate of -1.5 degrees is printed as -1 30.0 and read as -0.5. */
  lemma NegativeExample(axis: Axis)
    ensures var p := Parsed(ToString(axis, Split(-1.5), FormatOf(DM), 0), axis, FormatOf(DM));
            p.Some? && p.value.decimalDegree == -0.5
  {
    var c := Split(-1.5);
    MinusOneAndAHalf();
    PrintsDM(axis, c, 0);
    assert IsWhole(-1.0);
    IntReads(Truncated(c.degree));
    TruncatedWhole(c.degree);
    StrRoundTrip(c.decimalMinute, 0);
    StrHasNo(c.decimalMinute, 0, '%');
    ReadsDM(axis, IntText(Truncated(c.degree)), Str(c.decimalMinute, 0));
  }
}
