/** Degrees, minutes and seconds of a coordinate, over the reals. */
module GeoCoord {
  import opened Common

  datatype Axis = Latitude | Longitude

  /** The fields of a coordinate object. */
  datatype Coord = Coord(degree: real, minute: real, second: real, decimalDegree: real, decimalMinute: real)

  function Abs(x: real): real { if x < 0.0 then -x else x }

  function Sign(x: real): real { if x < 0.0 then -1.0 else if x > 0.0 then 1.0 else 0.0 }

  predicate IsWhole(x: real) { x.Floor as real == x }

  function DecimalDegree(degree: real, minute: real, second: real): real {
    degree + minute / 60.0 + second / 3600.0
  }

  /** _calc_degreeminutes: the minutes with their fraction keep no sign. */
  function Split(d: real): Coord {
    var size := Abs(d);
    var degree := size.Floor as real;
    var decimalMinute := (size - degree) * 60.0;
    var minute := decimalMinute.Floor as real;
    var second := (decimalMinute - minute) * 60.0;
    Coord(degree * Sign(d), minute * Sign(d), second * Sign(d), d, decimalMinute)
  }

  function Updated(c: Coord): Coord { Split(DecimalDegree(c.degree, c.minute, c.second)) }

  predicate Consistent(c: Coord) { c == Split(c.decimalDegree) }

  /** Whole degrees and minutes, minutes and seconds below 60, all parts of the sign of d, summing up to d. */
  predicate IsSexagesimal(degree: real, minute: real, second: real, d: real) {
    && DecimalDegree(degree, minute, second) == d && IsWhole(degree) && IsWhole(minute)
    && Abs(minute) < 60.0 && Abs(second) < 60.0
    && (d >= 0.0 ==> degree >= 0.0 && minute >= 0.0 && second >= 0.0)
    && (d <= 0.0 ==> degree <= 0.0 && minute <= 0.0 && second <= 0.0)
  }

  lemma SplitSize(size: real)
    requires size >= 0.0
    ensures var c := Split(size);
            && DecimalDegree(c.degree, c.minute, c.second) == size && IsWhole(c.degree) && IsWhole(c.minute)
            && 0.0 <= c.degree <= size && 0.0 <= c.minute < 60.0 && 0.0 <= c.second < 60.0
            && 0.0 <= c.decimalMinute < 60.0 && c.degree + c.decimalMinute / 60.0 == size
  {
    var degree := size.Floor as real;
    var decimalMinute := (size - degree) * 60.0;
    assert 0.0 <= decimalMinute < 60.0;
    var minute := decimalMinute.Floor as real;
    assert 0.0 <= decimalMinute - minute < 1.0;
    assert minute >= 0.0;
    if size == 0.0 {
      assert degree == 0.0;
    }
  }

  lemma SplitNegated(d: real)
    requires d < 0.0
    ensures var c, p := Split(d), Split(-d);
            c.degree == -p.degree && c.minute == -p.minute && c.second == -p.second && c.decimalMinute == p.decimalMinute
  {}

  lemma WholeOfNegated(x: real)
    requires IsWhole(x)
    ensures IsWhole(-x)
  {
    FloorInt(-x, -x.Floor);
  }

  lemma SplitIsSexagesimal(d: real)
    ensures IsSexagesimal(Split(d).degree, Split(d).minute, Split(d).second, d)
    ensures 0.0 <= Split(d).decimalMinute < 60.0
    ensures Abs(Split(d).degree) + Split(d).decimalMinute / 60.0 == Abs(d)
  {
    SplitSize(Abs(d));
    if d < 0.0 {
      SplitNegated(d);
      WholeOfNegated(Split(-d).degree);
      WholeOfNegated(Split(-d).minute);
    }
  }

  lemma FloorIs(x: real, n: real)
    requires IsWhole(n) && n <= x < n + 1.0
    ensures x.Floor as real == n
  {
    FloorInt(x, n.Floor);
  }

  lemma FloorInt(x: real, n: int)
    requires n as real <= x < (n + 1) as real
    ensures x.Floor == n
  {}

  /** There is only one way to split a coordinate. */
  lemma SexagesimalIsUnique(degree: real, minute: real, second: real, d: real)
    requires IsSexagesimal(degree, minute, second, d)
    ensures degree == Split(d).degree && minute == Split(d).minute && second == Split(d).second
  {
    if d < 0.0 {
      WholeOfNegated(degree);
      WholeOfNegated(minute);
      FloorIs(-d, -degree);
      FloorIs((-d + degree) * 60.0, -minute);
    } else {
      FloorIs(d, degree);
      FloorIs((d - degree) * 60.0, minute);
    }
  }

  /** Cleaning up twice is cleaning up once, and it never moves the coordinate. */
  lemma UpdateIsIdempotent(c: Coord)
    ensures Updated(Updated(c)) == Updated(c) && Consistent(Updated(c))
    ensures Updated(c).decimalDegree == DecimalDegree(c.degree, c.minute, c.second)
    ensures Consistent(c) ==> Updated(c) == c
  {
    SplitIsSexagesimal(DecimalDegree(c.degree, c.minute, c.second));
    SplitIsSexagesimal(c.decimalDegree);
  }

  // ---------------------------------------------------------------- ranges of longitudes

  /** The remainder of a float by a positive modulus. */
  function Mod(x: real, m: real): real
    requires m > 0.0
  {
    x - m * (x / m).Floor as real
  }

  function Range180(d: real): real { Mod(d + 180.0, 360.0) - 180.0 }

  function Range360(d: real): real { Mod(d + 360.0, 360.0) }

  predicate Congruent(a: real, b: real) { IsWhole((a - b) / 360.0) }

  lemma CongruentInRange(a: real, b: real, low: real)
    requires Congruent(a, b) && low <= a < low + 360.0 && low <= b < low + 360.0
    ensures a == b
  {
    var turns := (a - b) / 360.0;
    assert -1.0 < turns < 1.0;
  }

  lemma CongruentTrans(a: real, b: real, c: real)
    requires Congruent(a, b) && Congruent(c, b)
    ensures Congruent(a, c)
  {
    assert (a - c) / 360.0 == (((a - b) / 360.0).Floor - ((c - b) / 360.0).Floor) as real;
  }

  lemma RangesAreCongruent(d: real)
    ensures -180.0 <= Range180(d) < 180.0 && Congruent(Range180(d), d)
    ensures 0.0 <= Range360(d) < 360.0 && Congruent(Range360(d), d)
  {
    Remainder(d + 180.0);
    Remainder(d + 360.0);
    WholeTurns(Range180(d), d, -((d + 180.0) / 360.0).Floor);
    WholeTurns(Range360(d), d, 1 - ((d + 360.0) / 360.0).Floor);
  }

  lemma Remainder(x: real)
    ensures 0.0 <= Mod(x, 360.0) < 360.0 && Mod(x, 360.0) == x - 360.0 * (x / 360.0).Floor as real
  {
    var turns := (x / 360.0).Floor;
    assert turns as real <= x / 360.0 < turns as real + 1.0;
  }

  lemma WholeTurns(a: real, b: real, turns: int)
    requires a - b == 360.0 * turns as real
    ensures Congruent(a, b)
  {
    assert (a - b) / 360.0 == turns as real;
  }

  /** Each range names the one representative; so in range nothing moves and each range undoes the other. */
  lemma RangesInvert(d: real)
    ensures -180.0 <= d < 180.0 ==> Range180(d) == d
    ensures 0.0 <= d < 360.0 ==> Range360(d) == d
    ensures Range180(Range360(d)) == Range180(d) && Range360(Range180(d)) == Range360(d)
  {
    RangesAreCongruent(d);
    RangesAreCongruent(Range180(d));
    RangesAreCongruent(Range360(d));
    Reflexive(d);
    if -180.0 <= d < 180.0 {
      CongruentInRange(Range180(d), d, -180.0);
    }
    if 0.0 <= d < 360.0 {
      CongruentInRange(Range360(d), d, 0.0);
    }
    Chain(Range180(Range360(d)), Range360(d), d, Range180(d));
    CongruentInRange(Range180(Range360(d)), Range180(d), -180.0);
    Chain(Range360(Range180(d)), Range180(d), d, Range360(d));
    CongruentInRange(Range360(Range180(d)), Range360(d), 0.0);
  }

  lemma Reflexive(d: real)
    ensures Congruent(d, d)
  {
    assert (d - d) / 360.0 == 0.0;
  }

  lemma Symmetric(a: real, b: real)
    requires Congruent(a, b)
    ensures Congruent(b, a)
  {
    WholeOfNegated((a - b) / 360.0);
    assert (b - a) / 360.0 == -((a - b) / 360.0);
  }

  lemma Chain(a: real, b: real, c: real, e: real)
    requires Congruent(a, b) && Congruent(b, c) && Congruent(e, c)
    ensures Congruent(a, e)
  {
    Symmetric(b, c);
    CongruentTrans(a, b, e) by {
      CongruentTrans(e, c, b);
    }
  }

  // ---------------------------------------------------------------- hemispheres

  /** The letters of the negative and the other half. */
  function Negative(axis: Axis): string { if axis.Latitude? then "S" else "W" }

  function Positive(axis: Axis): string { if axis.Latitude? then "N" else "E" }

  function Hemisphere(axis: Axis, c: Coord): string {
    if c.decimalDegree < 0.0 then Negative(axis) else Positive(axis)
  }

  function Scaled(c: Coord, sign: real): Coord {
    Updated(c.(degree := Abs(c.degree) * sign, minute := Abs(c.minute) * sign, second := Abs(c.second) * sign))
  }

  /** set_hemisphere; None if the letter is not of the axis, which raises. */
  function WithHemisphere(axis: Axis, c: Coord, letter: string): Option<Coord> {
    if letter == Negative(axis) then Some(Scaled(c, -1.0))
    else if letter == Positive(axis) then Some(Scaled(c, 1.0))
    else None
  }

  /** How far from zero the parts lie, whatever their signs. */
  function Size(c: Coord): real { DecimalDegree(Abs(c.degree), Abs(c.minute), Abs(c.second)) }

  lemma ScaledBy(c: Coord, sign: real)
    requires sign == 1.0 || sign == -1.0
    ensures Scaled(c, sign) == Split(Size(c) * sign) && Size(c) >= 0.0
  {
    var d, m, s := Abs(c.degree), Abs(c.minute), Abs(c.second);
    assert Size(c) >= 0.0;
    if sign == 1.0 {
      assert d * sign == d && m * sign == m && s * sign == s;
      assert Size(c) * sign == Size(c);
    } else {
      assert d * sign == -d && m * sign == -m && s * sign == -s;
      assert Size(c) * sign == -Size(c);
    }
    assert DecimalDegree(d * sign, m * sign, s * sign) == Size(c) * sign;
  }

  lemma SizeOfConsistent(c: Coord)
    requires Consistent(c)
    ensures Size(c) == Abs(c.decimalDegree)
  {
    SplitIsSexagesimal(c.decimalDegree);
    if c.decimalDegree < 0.0 {
      assert DecimalDegree(-c.degree, -c.minute, -c.second) == -c.decimalDegree;
    }
  }

  /**
   Setting a hemisphere, also on parts that were set one by one: the coordinate lies on that
   side, as far from zero as the sizes of its parts say, and its fields are consistent. A
   consistent coordinate keeps its distance, and is not changed by its own hemisphere.
   */
  lemma HemisphereIsSet(axis: Axis, c: Coord, letter: string)
    ensures var c' := WithHemisphere(axis, c, letter);
            && (c'.Some? <==> letter in {Negative(axis), Positive(axis)})
            && (c'.Some? ==>
                  && Consistent(c'.value) && Abs(c'.value.decimalDegree) == Size(c)
                  && (Size(c) != 0.0 ==> Hemisphere(axis, c'.value) == letter))
            && (c'.Some? && Consistent(c) ==>
                  && Abs(c'.value.decimalDegree) == Abs(c.decimalDegree)
                  && (letter == Hemisphere(axis, c) ==> c'.value == c))
  {
    ScaledBy(c, -1.0);
    ScaledBy(c, 1.0);
    if Consistent(c) {
      SizeOfConsistent(c);
    }
  }

  /** N and E put a coordinate on the positive side, S and W on the negative one; the other axis's letters are refused. */
  lemma LettersOfTheAxes(c: Coord)
    ensures var n, s := WithHemisphere(Latitude, c, "N"), WithHemisphere(Latitude, c, "S");
            n.Some? && n.value.decimalDegree == Size(c) && s.Some? && s.value.decimalDegree == -Size(c)
    ensures var e, w := WithHemisphere(Longitude, c, "E"), WithHemisphere(Longitude, c, "W");
            e.Some? && e.value.decimalDegree == Size(c) && w.Some? && w.value.decimalDegree == -Size(c)
    ensures WithHemisphere(Latitude, c, "E").None? && WithHemisphere(Latitude, c, "W").None?
    ensures WithHemisphere(Longitude, c, "N").None? && WithHemisphere(Longitude, c, "S").None?
    ensures Hemisphere(Latitude, c) == (if c.decimalDegree < 0.0 then "S" else "N")
    ensures Hemisphere(Longitude, c) == (if c.decimalDegree < 0.0 then "W" else "E")
  {
    ScaledBy(c, 1.0);
    ScaledBy(c, -1.0);
  }

  // ---------------------------------------------------------------- the object

  class Coordinate {
    const axis: Axis
    var degree: real
    var minute: real
    var second: real
    var decimalDegree: real
    var decimalMinute: real

    function State(): Coord
      reads this
    {
      Coord(degree, minute, second, decimalDegree, decimalMinute)
    }

    constructor (axis: Axis, degree: real, minute: real, second: real)
      ensures this.axis == axis && Consistent(State())
      ensures var d := DecimalDegree(degree, minute, second);
              State() == Split(if axis.Longitude? then Range180(d) else d)
    {
      this.axis := axis;
      this.degree := degree;
      this.minute := minute;
      this.second := second;
      decimalDegree := 0.0;
      decimalMinute := 0.0;
      new;
      Update();
      if axis == Longitude {
        var d := Range180(decimalDegree);
        SplitIsSexagesimal(d);
        SetParts(d);
        Update();
      }
    }

    method SetParts(d: real)
      modifies this
      ensures State() == Split(d).(decimalDegree := old(decimalDegree))
    {
      var size := Abs(d);
      degree := size.Floor as real;
      decimalMinute := (size - degree) * 60.0;
      minute := decimalMinute.Floor as real;
      second := (decimalMinute - minute) * 60.0;
      degree := degree * Sign(d);
      minute := minute * Sign(d);
      second := second * Sign(d);
    }

    method Update()
      modifies this
      ensures State() == Updated(old(State())) && Consistent(State())
    {
      UpdateIsIdempotent(State());
      decimalDegree := DecimalDegree(degree, minute, second);
      SetParts(decimalDegree);
    }

    method SetHemisphere(letter: string) returns (ok: bool)
      modifies this
      ensures ok <==> WithHemisphere(axis, old(State()), letter).Some?
      ensures State() == if ok then WithHemisphere(axis, old(State()), letter).value else old(State())
    {
      if letter == Negative(axis) {
        degree, minute, second := Abs(degree) * -1.0, Abs(minute) * -1.0, Abs(second) * -1.0;
        Update();
        return true;
      } else if letter == Positive(axis) {
        degree, minute, second := Abs(degree), Abs(minute), Abs(second);
        Update();
        return true;
      }
      return false;
    }
  }
}
