/** Packets per country: by callsign, and by the grouped two-character prefixes of the fast query. */
module Countries {
  import opened Common
  import opened Strings

  datatype Country = Country(code: string, name: string)

  const PACIFIC_PREFIXES: map<string, Country> := map[
    "9M" := Country("MY", "Malaysia"), "9W" := Country("MY", "Malaysia"), "VK" := Country("AU", "Australia"),
    "ZL" := Country("NZ", "New Zealand"), "JA" := Country("JP", "Japan"), "JH" := Country("JP", "Japan"),
    "JR" := Country("JP", "Japan"), "HL" := Country("KR", "South Korea"), "BV" := Country("TW", "Taiwan")]

  const AMERICAN_PREFIXES: map<string, Country> := map[
    "W" := Country("US", "United States"), "K" := Country("US", "United States"),
    "N" := Country("US", "United States"), "AA" := Country("US", "United States"),
    "AB" := Country("US", "United States"), "AC" := Country("US", "United States"),
    "AD" := Country("US", "United States"), "AE" := Country("US", "United States"),
    "AF" := Country("US", "United States"), "AG" := Country("US", "United States"),
    "AH" := Country("US", "United States"), "AI" := Country("US", "United States"),
    "AJ" := Country("US", "United States"), "AK" := Country("US", "United States"),
    "AL" := Country("US", "United States")]

  const WESTERN_PREFIXES: map<string, Country> := map[
    "VE" := Country("CA", "Canada"), "VA" := Country("CA", "Canada"), "G" := Country("GB", "United Kingdom"),
    "M" := Country("GB", "United Kingdom"), "2E" := Country("GB", "United Kingdom"),
    "F" := Country("FR", "France"), "DL" := Country("DE", "Germany"), "DO" := Country("DE", "Germany"),
    "PA" := Country("NL", "Netherlands"), "PD" := Country("NL", "Netherlands"), "I" := Country("IT", "Italy"),
    "EA" := Country("ES", "Spain"), "OH" := Country("FI", "Finland")]

  const EASTERN_PREFIXES: map<string, Country> := map[
    "SM" := Country("SE", "Sweden"), "LA" := Country("NO", "Norway"), "OZ" := Country("DK", "Denmark"),
    "SP" := Country("PL", "Poland"), "OK" := Country("CZ", "Czech Republic"), "HA" := Country("HU", "Hungary"),
    "YO" := Country("RO", "Romania"), "LZ" := Country("BG", "Bulgaria"), "UR" := Country("UA", "Ukraine"),
    "UT" := Country("UA", "Ukraine"), "UA" := Country("RU", "Russia"), "RV" := Country("RU", "Russia"),
    "RU" := Country("RU", "Russia")]

  const CALLSIGN_PREFIXES: map<string, Country> :=
    PACIFIC_PREFIXES + AMERICAN_PREFIXES + WESTERN_PREFIXES + EASTERN_PREFIXES

  predicate PrefixLike(k: string) { (|k| == 1 && 'A' <= k[0] <= 'Z') || (|k| == 2 && k[1] != '-') }

  lemma {:induction false} PacificPrefixes(k: string)
    requires k in PACIFIC_PREFIXES
    ensures PrefixLike(k)
  {}

  lemma {:induction false} AmericanPrefixes(k: string)
    requires k in AMERICAN_PREFIXES
    ensures PrefixLike(k)
  {}

  lemma {:induction false} WesternPrefixes(k: string)
    requires k in WESTERN_PREFIXES
    ensures PrefixLike(k)
  {}

  lemma {:induction false} EasternPrefixes(k: string)
    requires k in EASTERN_PREFIXES
    ensures PrefixLike(k)
  {}

  type Table = map<string, Country>

  /** One letter, or two characters. */
  ghost predicate ShortKeys(table: Table) { forall k :: k in table ==> PrefixLike(k) }

  lemma PrefixesAreShort()
    ensures ShortKeys(CALLSIGN_PREFIXES)
  {
    forall k | k in CALLSIGN_PREFIXES ensures PrefixLike(k) {
      if k in EASTERN_PREFIXES {
        EasternPrefixes(k);
      } else if k in WESTERN_PREFIXES {
        WesternPrefixes(k);
      } else if k in AMERICAN_PREFIXES {
        AmericanPrefixes(k);
      } else {
        PacificPrefixes(k);
      }
    }
  }

  // ---------------------------------------------------------------- by callsign

  predicate HasDigit(s: string) { exists i :: 0 <= i < |s| && '0' <= s[i] <= '9' }

  function LongestPrefix(table: Table, base: string, length: nat): Option<Country>
    requires length <= |base|
    decreases length
  {
    if length == 0 then None
    else if base[..length] in table then Some(table[base[..length]])
    else LongestPrefix(table, base, length - 1)
  }

  /** The longest listed prefix of at most so many characters decides. */
  lemma {:induction false} LongestDecides(table: Table, base: string, length: nat, n: nat)
    requires n <= length <= |base| && forall m :: n < m <= length ==> base[..m] !in table
    ensures n == 0 ==> LongestPrefix(table, base, length).None?
    ensures n > 0 && base[..n] in table ==> LongestPrefix(table, base, length) == Some(table[base[..n]])
    decreases length
  {
    if n < length {
      LongestDecides(table, base, length - 1, n);
    }
  }

  function CountryOf(table: Table, callsign: string): Option<Country> {
    var base := BaseCall(callsign);
    if HasDigit(base) then LongestPrefix(table, base, Min(3, |base|)) else None
  }

  lemma DigitIsIn(s: string)
    ensures HasDigit(s) <==> exists c :: c in s && '0' <= c <= '9'
  {
    if HasDigit(s) {
      var i :| 0 <= i < |s| && '0' <= s[i] <= '9';
      assert s[i] in s;
    }
  }

  /** A callsign with a digit belongs to the country of the longest of its first one, two or three characters listed. */
  lemma CountryIsOfLongest(table: Table, callsign: string, n: nat)
    requires var base := BaseCall(callsign);
             n <= 3 && n <= |base| && forall m :: n < m <= 3 && m <= |base| ==> base[..m] !in table
    ensures var base := BaseCall(callsign);
            && (n == 0 || !(exists c :: c in base && '0' <= c <= '9') ==> CountryOf(table, callsign).None?)
            && (n > 0 && base[..n] in table && (exists c :: c in base && '0' <= c <= '9') ==>
                  CountryOf(table, callsign) == Some(table[base[..n]]))
  {
    DigitIsIn(BaseCall(callsign));
    LongestDecides(table, BaseCall(callsign), Min(3, |BaseCall(callsign)|), n);
  }

  method GetCountryFromCallsign(table: Table, callsign: string) returns (country: Option<Country>)
    ensures country == CountryOf(table, callsign)
  {
    if callsign == "" {
      return None;
    }
    var base := BaseCall(callsign);
    if !HasDigit(base) {
      return None;
    }
    for length := Min(3, |base|) downto 0
      invariant LongestPrefix(table, base, length) == CountryOf(table, callsign)
    {
      if base[..length + 1] in table {
        return Some(table[base[..length + 1]]);
      }
    }
    return None;
  }

  // ---------------------------------------------------------------- by prefix

  /** substring(from_call, 1, 2). */
  function Prefix(callsign: string): string { callsign[..Min(2, |callsign|)] }

  /** The lookup of the grouped query: two characters, then one. */
  function CountryOfPrefix(table: Table, prefix: string): Option<Country> {
    if |prefix| >= 2 && prefix[..2] in table then Some(table[prefix[..2]])
    else if |prefix| >= 1 && prefix[..1] in table then Some(table[prefix[..1]])
    else None
  }

  /** No prefix of the table has three characters, so two are enough. */
  lemma TwoAreEnough(table: Table, base: string)
    requires ShortKeys(table) && base != ""
    ensures LongestPrefix(table, base, Min(3, |base|)) == CountryOfPrefix(table, Prefix(base))
  {
    var p := Prefix(base);
    if |base| >= 3 {
      assert base[..3] !in table;
    }
    if |base| >= 2 {
      assert p[..2] == base[..2] && p[..1] == base[..1];
      assert LongestPrefix(table, base, 2) == CountryOfPrefix(table, p);
    } else {
      assert p[..1] == base[..1];
    }
  }

  /** What the lookup by callsign finds, said by the prefix of the capital callsign. */
  lemma ByPrefix(table: Table, callsign: string)
    requires ShortKeys(table)
    ensures CountryOf(table, callsign)
            == if exists c :: c in BaseCall(callsign) && '0' <= c <= '9' then CountryOfPrefix(table, Prefix(Upper(callsign)))
               else None
  {
    var base, upper := BaseCall(callsign), Upper(callsign);
    BeforeIsPrefix(callsign, '-');
    DigitIsIn(base);
    if HasDigit(base) {
      TwoAreEnough(table, base);
      assert base == upper[..|base|];
      if |base| >= 2 || |callsign| == |base| {
        assert Prefix(base) == Prefix(upper);
      } else {
        OneDigit(table, base, upper);
      }
    }
  }

  lemma OneDigit(table: Table, base: string, upper: string)
    requires ShortKeys(table)
    requires |base| == 1 && HasDigit(base) && |upper| >= 2 && upper[0] == base[0] && upper[1] == '-'
    ensures CountryOfPrefix(table, Prefix(base)) == None == CountryOfPrefix(table, Prefix(upper))
  {
    assert base !in table && upper[..2] !in table;
    assert base[..1] == base && Prefix(upper) == upper[..2] && Prefix(upper)[..1] == base;
  }

  /** For a callsign in capitals the two lookups agree iff it has a digit or its prefix is unknown. */
  lemma LookupsAgreeIff(table: Table, callsign: string)
    requires ShortKeys(table) && Upper(callsign) == callsign
    ensures CountryOf(table, callsign) == CountryOfPrefix(table, Prefix(callsign))
            <==> (exists c :: c in BaseCall(callsign) && '0' <= c <= '9') || CountryOfPrefix(table, Prefix(callsign)).None?
  {
    ByPrefix(table, callsign);
  }

  // ---------------------------------------------------------------- grouped counts

  /** A row of the grouped query. */
  datatype Row = Row(prefix: string, count: nat)

  function PrefixCount(calls: seq<string>, prefix: string): nat {
    if calls == [] then 0 else (if Prefix(calls[0]) == prefix then 1 else 0) + PrefixCount(calls[1..], prefix)
  }

  /** GROUP BY prefix: one row for each prefix that occurs, with its number, in any order. */
  ghost predicate IsGrouping(rows: seq<Row>, calls: seq<string>) {
    && (forall i, j :: 0 <= i < j < |rows| ==> rows[i].prefix != rows[j].prefix)
    && (forall i :: 0 <= i < |rows| ==> rows[i].count == PrefixCount(calls, rows[i].prefix))
    && (forall i :: 0 <= i < |calls| ==> HasRow(rows, Prefix(calls[i])))
  }

  predicate HasRow(rows: seq<Row>, prefix: string) { exists i :: 0 <= i < |rows| && rows[i].prefix == prefix }

  /** The rows' counts of one country, or of no country. */
  function Tally(table: Table, rows: seq<Row>, country: Option<Country>): nat {
    if rows == [] then 0
    else (if CountryOfPrefix(table, rows[0].prefix) == country then rows[0].count else 0) + Tally(table, rows[1..], country)
  }

  function GroupedCount(table: Table, calls: seq<string>, country: Option<Country>): nat {
    if calls == [] then 0
    else (if CountryOfPrefix(table, Prefix(calls[0])) == country then 1 else 0) + GroupedCount(table, calls[1..], country)
  }

  function Count(table: Table, calls: seq<string>, country: Option<Country>): nat {
    if calls == [] then 0
    else (if CountryOf(table, calls[0]) == country then 1 else 0) + Count(table, calls[1..], country)
  }

  function Without(calls: seq<string>, prefix: string): seq<string> {
    if calls == [] then []
    else (if Prefix(calls[0]) == prefix then [] else [calls[0]]) + Without(calls[1..], prefix)
  }

  lemma {:induction false} WithoutCounts(table: Table, calls: seq<string>, prefix: string, country: Option<Country>)
    ensures GroupedCount(table, calls, country)
            == GroupedCount(table, Without(calls, prefix), country)
               + if CountryOfPrefix(table, prefix) == country then PrefixCount(calls, prefix) else 0
  {
    if calls != [] {
      WithoutCounts(table, calls[1..], prefix, country);
      if Prefix(calls[0]) != prefix {
        assert Without(calls, prefix)[1..] == Without(calls[1..], prefix);
      } else {
        assert Without(calls, prefix) == Without(calls[1..], prefix);
      }
    }
  }

  lemma {:induction false} WithoutOthers(calls: seq<string>, prefix: string, other: string)
    requires other != prefix
    ensures PrefixCount(Without(calls, prefix), other) == PrefixCount(calls, other)
    ensures forall i :: 0 <= i < |Without(calls, prefix)| ==>
      Without(calls, prefix)[i] in calls && Prefix(Without(calls, prefix)[i]) != prefix
  {
    if calls != [] {
      WithoutOthers(calls[1..], prefix, other);
      if Prefix(calls[0]) != prefix {
        assert Without(calls, prefix)[1..] == Without(calls[1..], prefix);
      } else {
        assert Without(calls, prefix) == Without(calls[1..], prefix);
      }
    }
  }

  lemma {:induction false} WithoutMembers(calls: seq<string>, prefix: string)
    ensures forall i :: 0 <= i < |Without(calls, prefix)| ==>
      Without(calls, prefix)[i] in calls && Prefix(Without(calls, prefix)[i]) != prefix
  {
    if calls != [] {
      WithoutMembers(calls[1..], prefix);
    }
  }

  lemma GroupingRest(rows: seq<Row>, calls: seq<string>)
    requires IsGrouping(rows, calls) && rows != []
    ensures IsGrouping(rows[1..], Without(calls, rows[0].prefix))
  {
    var p := rows[0].prefix;
    var rest := Without(calls, p);
    forall i | 0 <= i < |rows| - 1 ensures rows[1..][i].count == PrefixCount(rest, rows[1..][i].prefix) {
      WithoutOthers(calls, p, rows[i + 1].prefix);
    }
    WithoutMembers(calls, p);
    forall i | 0 <= i < |rest| ensures HasRow(rows[1..], Prefix(rest[i])) {
      var k :| 0 <= k < |calls| && calls[k] == rest[i];
      assert HasRow(rows, Prefix(calls[k]));
      var j :| 0 <= j < |rows| && rows[j].prefix == Prefix(calls[k]);
      assert rows[1..][j - 1] == rows[j];
    }
  }

  /** Adding up the rows of a grouping counts the calls. */
  lemma {:induction false} TallyIsGroupedCount(table: Table, rows: seq<Row>, calls: seq<string>, country: Option<Country>)
    requires IsGrouping(rows, calls)
    ensures Tally(table, rows, country) == GroupedCount(table, calls, country)
    decreases rows
  {
    if rows == [] {
      assert calls != [] ==> HasRow(rows, Prefix(calls[0]));
    } else {
      GroupingRest(rows, calls);
      TallyIsGroupedCount(table, rows[1..], Without(calls, rows[0].prefix), country);
      WithoutCounts(table, calls, rows[0].prefix, country);
    }
  }

  predicate AllCapital(calls: seq<string>) { forall i :: 0 <= i < |calls| ==> Upper(calls[i]) == calls[i] }

  /** A callsign that the grouped query puts into a country although it has no digit. */
  predicate Misplaced(table: Table, callsign: string) {
    !HasDigit(BaseCall(callsign)) && CountryOfPrefix(table, Prefix(callsign)).Some?
  }

  function MisplacedCount(table: Table, calls: seq<string>, country: Option<Country>): nat {
    if calls == [] then 0
    else (if Misplaced(table, calls[0]) && CountryOfPrefix(table, Prefix(calls[0])) == country then 1 else 0)
         + MisplacedCount(table, calls[1..], country)
  }

  /** A country's grouped count is its count by callsign plus the digitless callsigns put there. */
  lemma {:induction false} GroupedExceeds(table: Table, calls: seq<string>, country: Country)
    requires ShortKeys(table) && AllCapital(calls)
    ensures GroupedCount(table, calls, Some(country))
            == Count(table, calls, Some(country)) + MisplacedCount(table, calls, Some(country))
  {
    if calls != [] {
      GroupedExceeds(table, calls[1..], country);
      DigitIsIn(BaseCall(calls[0]));
      ByPrefix(table, calls[0]);
    }
  }

  lemma {:induction false} MisplacedSomewhere(table: Table, calls: seq<string>, i: nat)
    requires i < |calls| && Misplaced(table, calls[i])
    ensures MisplacedCount(table, calls, CountryOfPrefix(table, Prefix(calls[i]))) > 0
  {
    if i > 0 {
      MisplacedSomewhere(table, calls[1..], i - 1);
    }
  }

  lemma {:induction false} NoneMisplaced(table: Table, calls: seq<string>, country: Option<Country>)
    requires forall i :: 0 <= i < |calls| ==> !Misplaced(table, calls[i])
    ensures MisplacedCount(table, calls, country) == 0
  {
    if calls != [] {
      assert !Misplaced(table, calls[0]);
      NoneMisplaced(table, calls[1..], country);
    }
  }

  /** The grouped query counts every country exactly iff it misplaces no callsign. */
  lemma GroupedCountsExactIff(table: Table, rows: seq<Row>, calls: seq<string>)
    requires ShortKeys(table) && AllCapital(calls) && IsGrouping(rows, calls)
    ensures (forall country: Country :: Tally(table, rows, Some(country)) == Count(table, calls, Some(country)))
            <==> forall i :: 0 <= i < |calls| ==> !Misplaced(table, calls[i])
  {
    forall country: Country
      ensures Tally(table, rows, Some(country))
              == Count(table, calls, Some(country)) + MisplacedCount(table, calls, Some(country))
    {
      TallyIsGroupedCount(table, rows, calls, Some(country));
      GroupedExceeds(table, calls, country);
    }
    if forall i :: 0 <= i < |calls| ==> !Misplaced(table, calls[i]) {
      forall country: Country ensures MisplacedCount(table, calls, Some(country)) == 0 {
        NoneMisplaced(table, calls, Some(country));
      }
    } else {
      var i :| 0 <= i < |calls| && Misplaced(table, calls[i]);
      MisplacedSomewhere(table, calls, i);
      var country := CountryOfPrefix(table, Prefix(calls[i])).value;
      assert Tally(table, rows, Some(country)) != Count(table, calls, Some(country));
    }
  }

  /** The table of the program, and a callsign that its two queries count differently. */
  lemma WinlinkExample()
    ensures ShortKeys(CALLSIGN_PREFIXES) && Misplaced(CALLSIGN_PREFIXES, "WINLINK")
  {
    PrefixesAreShort();
    var call := "WINLINK";
    assert "WI"[..1] == "W" && Prefix(call) == "WI";
    assert "W" in AMERICAN_PREFIXES;
    NoDash(call);
  }

  lemma NoDash(call: string)
    requires call == "WINLINK"
    ensures !HasDigit(BaseCall(call))
  {
    Partition(call, '-', "");
  }

  // ---------------------------------------------------------------- the answer

  datatype Entry = Entry(country: Country, count: nat)

  predicate Distinct(entries: seq<Entry>) {
    forall i, j :: 0 <= i < j < |entries| ==> entries[i].country != entries[j].country
  }

  predicate Listed(entries: seq<Entry>, country: Country) { exists i :: 0 <= i < |entries| && entries[i].country == country }

  /** country_counts[key] = country_counts.get(key, 0) + n, in a dictionary in insertion order. */
  function Bump(entries: seq<Entry>, country: Country, n: nat): seq<Entry> {
    if entries == [] then [Entry(country, n)]
    else if entries[0].country == country then [Entry(country, entries[0].count + n)] + entries[1..]
    else [entries[0]] + Bump(entries[1..], country, n)
  }

  function Sum(entries: seq<Entry>): nat { if entries == [] then 0 else entries[0].count + Sum(entries[1..]) }

  function Total(rows: seq<Row>): nat { if rows == [] then 0 else rows[0].count + Total(rows[1..]) }

  /** list.sort by count, reversed: stable, largest first. */
  function InsertByCount(e: Entry, sorted: seq<Entry>): seq<Entry> {
    if sorted == [] then [e]
    else if sorted[0].count > e.count then [sorted[0]] + InsertByCount(e, sorted[1..])
    else [e] + sorted
  }

  function SortByCount(entries: seq<Entry>): seq<Entry> {
    if entries == [] then [] else InsertByCount(entries[0], SortByCount(entries[1..]))
  }

  predicate Descending(entries: seq<Entry>) { forall i, j :: 0 <= i < j < |entries| ==> entries[i].count >= entries[j].count }

  function CountIn(entries: seq<Entry>, country: Country): nat {
    if entries == [] then 0
    else if entries[0].country == country then entries[0].count else CountIn(entries[1..], country)
  }

  lemma {:induction false} BumpFacts(entries: seq<Entry>, country: Country, n: nat, other: Country)
    ensures CountIn(Bump(entries, country, n), other) == CountIn(entries, other) + if other == country then n else 0
    ensures Sum(Bump(entries, country, n)) == Sum(entries) + n
    ensures Listed(Bump(entries, country, n), other) ==> Listed(entries, other) || other == country
  {
    var bumped := Bump(entries, country, n);
    if entries == [] {
      assert bumped[1..] == [];
    } else {
      assert bumped[1..] == if entries[0].country == country then entries[1..] else Bump(entries[1..], country, n);
      ListedCons(entries, other);
      ListedCons(bumped, other);
      if entries[0].country != country {
        BumpFacts(entries[1..], country, n, other);
      }
    }
  }

  lemma ListedCons(entries: seq<Entry>, country: Country)
    requires entries != []
    ensures Listed(entries, country) <==> entries[0].country == country || Listed(entries[1..], country)
  {
    assert forall i :: 0 < i < |entries| ==> entries[i] == entries[1..][i - 1];
  }

  lemma {:induction false} BumpKeepsDistinct(entries: seq<Entry>, country: Country, n: nat)
    requires Distinct(entries)
    ensures Distinct(Bump(entries, country, n))
  {
    if entries != [] && entries[0].country != country {
      var rest := Bump(entries[1..], country, n);
      BumpKeepsDistinct(entries[1..], country, n);
      BumpFacts(entries[1..], country, n, entries[0].country);
      assert !Listed(entries[1..], entries[0].country);
      assert !Listed(rest, entries[0].country);
    }
  }

  lemma {:induction false} CountOfMember(entries: seq<Entry>, i: nat)
    requires Distinct(entries) && i < |entries|
    ensures CountIn(entries, entries[i].country) == entries[i].count
  {
    if i > 0 {
      CountOfMember(entries[1..], i - 1);
    }
  }

  lemma {:induction false} CountOfOther(entries: seq<Entry>, country: Country)
    requires !Listed(entries, country)
    ensures CountIn(entries, country) == 0
  {
    if entries != [] {
      ListedCons(entries, country);
      CountOfOther(entries[1..], country);
    }
  }

  lemma {:induction false} TallyAppend(table: Table, rows: seq<Row>, row: Row, country: Option<Country>)
    ensures Tally(table, rows + [row], country)
            == Tally(table, rows, country) + if CountryOfPrefix(table, row.prefix) == country then row.count else 0
    ensures Total(rows + [row]) == Total(rows) + row.count
  {
    if rows == [] {
      assert rows + [row] == [row] && [row][1..] == [];
    } else {
      assert (rows + [row])[1..] == rows[1..] + [row];
      TallyAppend(table, rows[1..], row, country);
    }
  }

  predicate Bounded(entries: seq<Entry>, n: nat) { forall i :: 0 <= i < |entries| ==> entries[i].count <= n }

  /** Where the new entry goes: behind the larger ones. */
  lemma {:induction false} InsertDescends(e: Entry, sorted: seq<Entry>)
    requires Descending(sorted)
    ensures Descending(InsertByCount(e, sorted)) && Sum(InsertByCount(e, sorted)) == e.count + Sum(sorted)
    ensures |InsertByCount(e, sorted)| == |sorted| + 1
    ensures forall n: nat :: e.count <= n && Bounded(sorted, n) ==> Bounded(InsertByCount(e, sorted), n)
  {
    if sorted != [] && sorted[0].count > e.count {
      var rest := InsertByCount(e, sorted[1..]);
      InsertDescends(e, sorted[1..]);
      assert Bounded(sorted[1..], sorted[0].count);
      assert Bounded(rest, sorted[0].count);
      assert InsertByCount(e, sorted)[1..] == rest;
      assert forall n: nat :: Bounded(sorted, n) ==> Bounded(sorted[1..], n);
    } else {
      assert ([e] + sorted)[1..] == sorted;
    }
  }

  lemma {:induction false} InsertMembers(e: Entry, sorted: seq<Entry>)
    ensures forall x :: x in InsertByCount(e, sorted) <==> x == e || x in sorted
  {
    if sorted != [] {
      assert sorted == [sorted[0]] + sorted[1..];
      InsertMembers(e, sorted[1..]);
    }
  }

  lemma {:induction false} InsertKeepsDistinct(e: Entry, sorted: seq<Entry>)
    requires Distinct(sorted) && !Listed(sorted, e.country)
    ensures Distinct(InsertByCount(e, sorted))
  {
    if sorted != [] && sorted[0].count > e.count {
      var rest := InsertByCount(e, sorted[1..]);
      ListedCons(sorted, e.country);
      InsertKeepsDistinct(e, sorted[1..]);
      InsertMembers(e, sorted[1..]);
      forall i | 0 <= i < |rest| ensures rest[i].country != sorted[0].country {
        assert rest[i] in rest;
      }
    }
  }

  /** Sorting keeps the entries and their sum. */
  lemma {:induction false} SortFacts(entries: seq<Entry>)
    ensures Descending(SortByCount(entries)) && Sum(SortByCount(entries)) == Sum(entries)
    ensures |SortByCount(entries)| == |entries|
    ensures forall x :: x in SortByCount(entries) <==> x in entries
    ensures Distinct(entries) ==> Distinct(SortByCount(entries))
  {
    if entries != [] {
      var rest := SortByCount(entries[1..]);
      SortFacts(entries[1..]);
      InsertDescends(entries[0], rest);
      InsertMembers(entries[0], rest);
      assert entries == [entries[0]] + entries[1..];
      if Distinct(entries) {
        assert Distinct(entries[1..]);
        NotListedAfterSort(entries);
        InsertKeepsDistinct(entries[0], rest);
      }
    }
  }

  lemma NotListedAfterSort(entries: seq<Entry>)
    requires entries != [] && Distinct(entries)
    requires forall x :: x in SortByCount(entries[1..]) <==> x in entries[1..]
    ensures !Listed(SortByCount(entries[1..]), entries[0].country)
  {
    var rest := SortByCount(entries[1..]);
    forall i | 0 <= i < |rest| ensures rest[i].country != entries[0].country {
      assert rest[i] in rest;
      var k :| 0 <= k < |entries| - 1 && entries[1..][k] == rest[i];
      assert entries[k + 1] == rest[i];
    }
  }

  /** The dictionary of the loop after some rows. */
  ghost predicate Tallied(table: Table, rows: seq<Row>, entries: seq<Entry>) {
    && Distinct(entries) && forall country: Country :: CountIn(entries, country) == Tally(table, rows, Some(country))
  }

  /** The largest counts, each exact, and no country left out that has more. */
  ghost predicate IsTopList(table: Table, rows: seq<Row>, answer: seq<Entry>, limit: nat) {
    && Distinct(answer) && Descending(answer) && |answer| <= limit
    && (forall i :: 0 <= i < |answer| ==> answer[i].count == Tally(table, rows, Some(answer[i].country)))
    && forall country: Country :: !Listed(answer, country) && Tally(table, rows, Some(country)) > 0 ==>
         |answer| == limit && forall i :: 0 <= i < |answer| ==> answer[i].count >= Tally(table, rows, Some(country))
  }

  lemma TopOfSorted(table: Table, rows: seq<Row>, entries: seq<Entry>, limit: nat)
    requires Tallied(table, rows, entries)
    ensures |SortByCount(entries)| == |entries|
    ensures IsTopList(table, rows, SortByCount(entries)[..Min(limit, |entries|)], limit)
  {
    SortFacts(entries);
    var sorted := SortByCount(entries);
    var answer := sorted[..Min(limit, |entries|)];
    assert forall i :: 0 <= i < |answer| ==> answer[i] == sorted[i];
    forall i | 0 <= i < |sorted| ensures sorted[i].count == Tally(table, rows, Some(sorted[i].country)) {
      assert sorted[i] in sorted;
      var k :| 0 <= k < |entries| && entries[k] == sorted[i];
      CountOfMember(entries, k);
    }
    forall country: Country | !Listed(answer, country) && Tally(table, rows, Some(country)) > 0
      ensures |answer| == limit && forall i :: 0 <= i < |answer| ==> answer[i].count >= Tally(table, rows, Some(country))
    {
      PlaceInSorted(table, rows, entries, country);
      assert forall i :: 0 <= i < |answer| ==> sorted[i].country != country;
      var k :| 0 <= k < |sorted| && sorted[k].country == country;
    }
  }

  lemma PlaceInSorted(table: Table, rows: seq<Row>, entries: seq<Entry>, country: Country)
    requires Tallied(table, rows, entries) && Tally(table, rows, Some(country)) > 0
    requires forall x :: x in SortByCount(entries) <==> x in entries
    ensures Listed(SortByCount(entries), country)
  {
    assert CountIn(entries, country) > 0;
    if !Listed(entries, country) {
      CountOfOther(entries, country);
    }
    var k :| 0 <= k < |entries| && entries[k].country == country;
    assert entries[k] in SortByCount(entries);
  }

  lemma TalliedNext(table: Table, rows: seq<Row>, row: Row, entries: seq<Entry>)
    requires Tallied(table, rows, entries)
    ensures var country := CountryOfPrefix(table, row.prefix);
            Tallied(table, rows + [row], if country.Some? then Bump(entries, country.value, row.count) else entries)
  {
    var country := CountryOfPrefix(table, row.prefix);
    var entries' := if country.Some? then Bump(entries, country.value, row.count) else entries;
    if country.Some? {
      BumpKeepsDistinct(entries, country.value, row.count);
    }
    forall c: Country ensures CountIn(entries', c) == Tally(table, rows + [row], Some(c)) {
      TallyAppend(table, rows, row, Some(c));
      if country.Some? {
        BumpFacts(entries, country.value, row.count, c);
      }
    }
  }

  lemma {:induction false} SumOfParts(a: seq<Entry>, b: seq<Entry>)
    ensures Sum(a + b) == Sum(a) + Sum(b)
  {
    if a == [] {
      assert a + b == b;
    } else {
      assert (a + b)[1..] == a[1..] + b;
      SumOfParts(a[1..], b);
    }
  }

  /**
   The grouped query's answer: the countries with most packets, and the packets of no country;
   `cut` are the countries beyond the limit. Answered, cut and unknown packets are all packets.
   */
  method CountryBreakdown(table: Table, rows: seq<Row>, limit: nat)
    returns (answer: seq<Entry>, unknown: nat, ghost cut: seq<Entry>)
    ensures IsTopList(table, rows, answer, limit)
    ensures unknown == Tally(table, rows, None)
    ensures IsTopList(table, rows, answer + cut, |answer + cut|) && (cut != [] ==> |answer| == limit)
    ensures Sum(answer) + Sum(cut) + unknown == Total(rows)
  {
    var entries: seq<Entry> := [];
    unknown := 0;
    for n := 0 to |rows|
      invariant Tallied(table, rows[..n], entries) && unknown == Tally(table, rows[..n], None)
      invariant Sum(entries) + unknown == Total(rows[..n])
    {
      var row := rows[n];
      assert rows[..n + 1] == rows[..n] + [row];
      TalliedNext(table, rows[..n], row, entries);
      TallyAppend(table, rows[..n], row, None);
      var country := Lookup(table, row.prefix);
      if country.Some? {
        BumpFacts(entries, country.value, row.count, country.value);
        entries := Bump(entries, country.value, row.count);
      } else {
        unknown := unknown + row.count;
      }
    }
    assert rows[..|rows|] == rows;
    SortFacts(entries);
    TopOfSorted(table, rows, entries, limit);
    var sorted := SortByCount(entries);
    answer, cut := sorted[..Min(limit, |entries|)], sorted[Min(limit, |entries|)..];
    TopOfSorted(table, rows, entries, |entries|);
    SumOfParts(answer, cut);
    assert answer + cut == sorted == sorted[..|entries|];
  }

  /** The loop's lookup: an empty prefix is of no country. */
  method Lookup(table: Table, prefix: string) returns (country: Option<Country>)
    ensures country == CountryOfPrefix(table, prefix)
  {
    country := None;
    if prefix == "" {
      return;
    }
    if |prefix| >= 2 && prefix[..2] in table {
      country := Some(table[prefix[..2]]);
    }
    if country.None? && |prefix| >= 1 && prefix[..1] in table {
      country := Some(table[prefix[..1]]);
    }
  }

  lemma {:induction false} WithoutSize(calls: seq<string>, prefix: string)
    ensures |Without(calls, prefix)| + PrefixCount(calls, prefix) == |calls|
  {
    if calls != [] {
      WithoutSize(calls[1..], prefix);
    }
  }

  /** The rows of a grouping count every packet once. */
  lemma {:induction false} TotalIsAll(rows: seq<Row>, calls: seq<string>)
    requires IsGrouping(rows, calls)
    ensures Total(rows) == |calls|
    decreases rows
  {
    if rows == [] {
      assert calls != [] ==> HasRow(rows, Prefix(calls[0]));
    } else {
      GroupingRest(rows, calls);
      TotalIsAll(rows[1..], Without(calls, rows[0].prefix));
      WithoutSize(calls, rows[0].prefix);
    }
  }
}
