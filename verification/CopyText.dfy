/**
 The row encoder of the COPY route and the text format it writes, read back by a decoder
 that follows the "Text Format" section of PostgreSQL's COPY page: newline-terminated
 lines, tab-separated fields, \N for NULL, backslash escapes, and \. as end of data.
 */
module CopyText {
  import opened Common
  import opened Timestamps

  /** A value of the packet dictionary: None, a datetime, or anything else under str(). */
  datatype Value = Null | Stamp(at: DateTime) | Text(text: string)

  type PacketDict = map<string, Value>

  /** What one column holds once it is in the database. */
  type Record = seq<Option<string>>

  const COPY_COLUMNS: seq<string> := [
    "from_call", "to_call", "path", "timestamp", "received_at", "raw", "packet_type", "latitude",
    "longitude", "location", "altitude", "course", "speed", "symbol", "symbol_table", "comment"]

  function Column(packet: PacketDict, name: string): Value {
    if name in packet then packet[name] else Null
  }

  function StoredText(value: Value): Option<string> {
    match value
    case Null => None
    case Stamp(at) => Some(IsoFormat(at))
    case Text(text) => Some(text)
  }

  /** The columns of a packet as the INSERT route hands them over. */
  function RecordOf(packet: PacketDict, columns: seq<string>): Record {
    seq(|columns|, i requires 0 <= i < |columns| => StoredText(Column(packet, columns[i])))
  }

  // ---------------------------------------------------------------- writing

  /** str.replace with a one-character pattern. */
  function ReplaceAll(s: string, pattern: char, with: string): string {
    if s == "" then "" else (if s[0] == pattern then with else [s[0]]) + ReplaceAll(s[1..], pattern, with)
  }

  function EscapeChar(c: char): string {
    match c
    case '\\' => "\\\\"
    case '\t' => "\\t"
    case '\n' => "\\n"
    case '\r' => "\\r"
    case _ => [c]
  }

  /** The one-pass escape that the chained replacements have to equal. */
  function Escape(s: string): string {
    if s == "" then "" else EscapeChar(s[0]) + Escape(s[1..])
  }

  function FieldText(value: Value): string {
    match value
    case Null => "\\N"
    case Stamp(at) => IsoFormat(at)
    case Text(text) => Escape(text)
  }

  function Join(fields: seq<string>): string {
    if fields == [] then ""
    else if |fields| == 1 then fields[0]
    else fields[0] + "\t" + Join(fields[1..])
  }

  function FieldsOf(packet: PacketDict, columns: seq<string>): seq<string> {
    seq(|columns|, i requires 0 <= i < |columns| => FieldText(Column(packet, columns[i])))
  }

  function Encode(packets: seq<PacketDict>, columns: seq<string>): string {
    if packets == [] then "" else Join(FieldsOf(packets[0], columns)) + "\n" + Encode(packets[1..], columns)
  }

  lemma {:induction false} ReplaceAppend(a: string, b: string, pattern: char, with: string)
    ensures ReplaceAll(a + b, pattern, with) == ReplaceAll(a, pattern, with) + ReplaceAll(b, pattern, with)
  {
    if a == "" {
      assert a + b == b;
    } else {
      ReplaceAppend(a[1..], b, pattern, with);
      assert (a + b)[1..] == a[1..] + b;
      var head := if a[0] == pattern then with else [a[0]];
      Reassociate(head, ReplaceAll(a[1..], pattern, with), ReplaceAll(b, pattern, with));
    }
  }

  function ChainedReplace(s: string): string {
    ReplaceAll(ReplaceAll(ReplaceAll(ReplaceAll(s, '\\', "\\\\"), '\t', "\\t"), '\n', "\\n"), '\r', "\\r")
  }

  /** The four whole-string replacements, backslash first, escape each character once. */
  lemma {:induction false} ChainIsOnePass(s: string)
    ensures ChainedReplace(s) == Escape(s)
  {
    if s != "" {
      var head, tail := [s[0]], s[1..];
      assert s == head + tail;
      ReplaceAppend(head, tail, '\\', "\\\\");
      var h1, t1 := ReplaceAll(head, '\\', "\\\\"), ReplaceAll(tail, '\\', "\\\\");
      ReplaceAppend(h1, t1, '\t', "\\t");
      var h2, t2 := ReplaceAll(h1, '\t', "\\t"), ReplaceAll(t1, '\t', "\\t");
      ReplaceAppend(h2, t2, '\n', "\\n");
      var h3, t3 := ReplaceAll(h2, '\n', "\\n"), ReplaceAll(t2, '\n', "\\n");
      ReplaceAppend(h3, t3, '\r', "\\r");
      ChainedChar(s[0]);
      ChainIsOnePass(tail);
    }
  }

  lemma ChainedChar(c: char)
    ensures ChainedReplace([c]) == EscapeChar(c)
  {
    TwoChars('\\', '\\');
    TwoChars('\\', 't');
    TwoChars('\\', 'n');
    OneChar(c);
  }

  lemma OneChar(c: char)
    ensures forall p: char, with: string :: ReplaceAll([c], p, with) == if c == p then with else [c]
  {
    assert [c][1..] == "";
    assert forall p: char, with: string :: ReplaceAll("", p, with) == "";
    assert forall with: string :: with + "" == with;
  }

  lemma TwoChars(c: char, d: char)
    ensures forall p: char, with: string :: p != c && p != d ==> ReplaceAll([c, d], p, with) == [c, d]
  {
    assert [c, d][1..] == [d];
    OneChar(d);
  }

  /** The four replacements of the encoder, in the order it makes them. */
  method EscapeText(text: string) returns (escaped: string)
    ensures escaped == Escape(text)
  {
    escaped := ReplaceAll(text, '\\', "\\\\");
    escaped := ReplaceAll(escaped, '\t', "\\t");
    escaped := ReplaceAll(escaped, '\n', "\\n");
    escaped := ReplaceAll(escaped, '\r', "\\r");
    ChainIsOnePass(text);
  }

  method EncodeRow(packet: PacketDict, columns: seq<string>) returns (row: seq<string>)
    ensures row == FieldsOf(packet, columns)
  {
    row := [];
    for c := 0 to |columns|
      invariant |row| == c && forall k :: 0 <= k < c ==> row[k] == FieldsOf(packet, columns)[k]
    {
      match Column(packet, columns[c]) {
        case Null => row := row + ["\\N"];
        case Stamp(at) => row := row + [IsoFormat(at)];
        case Text(text) =>
          var escaped := EscapeText(text);
          row := row + [escaped];
      }
    }
  }

  /** The buffer of one COPY: a line per packet, a field per column. */
  method EncodeBatch(packets: seq<PacketDict>, columns: seq<string>) returns (buffer: string)
    ensures buffer == Encode(packets, columns)
  {
    buffer := "";
    for n := 0 to |packets|
      invariant buffer + Encode(packets[n..], columns) == Encode(packets, columns)
    {
      var row := EncodeRow(packets[n], columns);
      assert packets[n..][1..] == packets[n + 1..];
      var line := Join(row) + "\n";
      assert buffer + (line + Encode(packets[n + 1..], columns)) == (buffer + line) + Encode(packets[n + 1..], columns);
      buffer := buffer + line;
    }
    assert packets[|packets|..] == [];
  }

  // ---------------------------------------------------------------- reading

  datatype CopyError = WrongColumnCount | LiteralCarriageReturn | CorruptEndMarker
  datatype Outcome = Rows(rows: seq<Record>) | Rejected(error: CopyError)

  /** Index of the first `stop` that no backslash precedes, or the length of s. */
  function FindUnescaped(s: string, stop: char): (n: nat)
    ensures n <= |s|
  {
    if s == "" then 0
    else if s[0] == '\\' then (if |s| == 1 then 1 else 2 + FindUnescaped(s[2..], stop))
    else if s[0] == stop then 0
    else 1 + FindUnescaped(s[1..], stop)
  }

  function SplitFields(line: string): seq<string>
    decreases |line|
  {
    var n := FindUnescaped(line, '\t');
    if n == |line| then [line] else [line[..n]] + SplitFields(line[n + 1..])
  }

  /** Raw text that no line may contain: a bare carriage return, or \. inside a line. */
  function LineError(line: string): Option<CopyError> {
    if line == "" then None
    else if line[0] == '\r' then Some(LiteralCarriageReturn)
    else if line[0] != '\\' || |line| == 1 then LineError(line[1..])
    else if line[1] == '.' then Some(CorruptEndMarker)
    else LineError(line[2..])
  }

  function DigitValue(c: char, base: nat): Option<nat> {
    if '0' <= c <= '9' && c as nat - '0' as nat < base then Some(c as nat - '0' as nat)
    else if base == 16 && 'a' <= c <= 'f' then Some(c as nat - 'a' as nat + 10)
    else if base == 16 && 'A' <= c <= 'F' then Some(c as nat - 'A' as nat + 10)
    else None
  }

  /** Value and length of the longest run of at most `limit` digits. */
  function DigitRun(s: string, base: nat, limit: nat, acc: nat): (run: (nat, nat))
    ensures run.1 <= |s| && run.1 <= limit
    decreases limit
  {
    if limit == 0 || s == "" || DigitValue(s[0], base).None? then (acc, 0)
    else
      var rest := DigitRun(s[1..], base, limit - 1, acc * base + DigitValue(s[0], base).value);
      (rest.0, rest.1 + 1)
  }

  /** Removing the backslash escapes of a field that is not the null marker. */
  function Unescape(s: string): string
    decreases |s|
  {
    if s == "" then ""
    else if s[0] != '\\' then [s[0]] + Unescape(s[1..])
    else if |s| == 1 then ""
    else
      match s[1]
      case 'b' => "\U{8}" + Unescape(s[2..])
      case 'f' => "\U{c}" + Unescape(s[2..])
      case 'n' => "\n" + Unescape(s[2..])
      case 'r' => "\r" + Unescape(s[2..])
      case 't' => "\t" + Unescape(s[2..])
      case 'v' => "\U{b}" + Unescape(s[2..])
      case 'x' =>
        var run := DigitRun(s[2..], 16, 2, 0);
        (if run.1 == 0 then "x" else [(run.0 % 256) as char]) + Unescape(s[2 + run.1..])
      case c =>
        var run := DigitRun(s[1..], 8, 3, 0);
        if run.1 == 0 then [c] + Unescape(s[2..]) else [(run.0 % 256) as char] + Unescape(s[1 + run.1..])
  }

  function ReadField(raw: string): Option<string> {
    if raw == "\\N" then None else Some(Unescape(raw))
  }

  function ReadFields(raws: seq<string>): Record {
    seq(|raws|, i requires 0 <= i < |raws| => ReadField(raws[i]))
  }

  /** COPY ... FROM STDIN in text format: all rows, or one error and no row. */
  function Decode(buffer: string, columns: nat): Outcome
    decreases |buffer|
  {
    if buffer == "" then Rows([])
    else
      var n := FindUnescaped(buffer, '\n');
      var line := buffer[..n];
      if line == "\\." then Rows([])
      else if LineError(line).Some? then Rejected(LineError(line).value)
      else
        var record := ReadFields(SplitFields(line));
        if |record| != columns then Rejected(WrongColumnCount)
        else
          match Decode(if n < |buffer| then buffer[n + 1..] else "", columns)
          case Rejected(e) => Rejected(e)
          case Rows(rest) => Rows([record] + rest)
  }

  // ---------------------------------------------------------------- round trip

  predicate Special(c: char) {
    c == '\\' || c == '\t' || c == '\n' || c == '\r'
  }

  /** Field text as the encoder writes it: plain characters and complete escapes only. */
  predicate Clean(s: string) {
    if s == "" then true
    else if s[0] == '\\' then |s| >= 2 && s[1] in "\\tnrN" && Clean(s[2..])
    else !Special(s[0]) && Clean(s[1..])
  }

  lemma {:induction false} CleanIsSkipped(s: string, rest: string, stop: char)
    requires Clean(s) && (stop == '\t' || stop == '\n')
    ensures FindUnescaped(s + rest, stop) == |s| + FindUnescaped(rest, stop)
    ensures LineError(s + rest) == LineError(rest)
    decreases |s|
  {
    if s == "" {
      assert s + rest == rest;
    } else {
      var k := if s[0] == '\\' then 2 else 1;
      assert (s + rest)[k..] == s[k..] + rest;
      CleanIsSkipped(s[k..], rest, stop);
    }
  }

  lemma {:induction false} PlainText(s: string)
    requires forall i :: 0 <= i < |s| ==> !Special(s[i])
    ensures Clean(s) && Unescape(s) == s
  {
    if s != "" {
      PlainText(s[1..]);
    }
  }

  /** Reading an escaped text gives the text back; it is clean, and never the null marker. */
  /** An escaped character in front of clean text reads back as that character. */
  lemma {:induction false} UnescapeSpecial(c: char, tail: string)
    requires Special(c) && Clean(tail)
    ensures var s := EscapeChar(c) + tail;
            Clean(s) && Unescape(s) == [c] + Unescape(tail) && s != "\\N"
  {
    var s := EscapeChar(c) + tail;
    assert s[0] == '\\' && s[1] == EscapeChar(c)[1] && s[2..] == tail;
    assert DigitRun(s[1..], 8, 3, 0).1 == 0;
  }

  lemma {:induction false} UnescapePlain(c: char, tail: string)
    requires !Special(c) && Clean(tail)
    ensures var s := EscapeChar(c) + tail;
            Clean(s) && Unescape(s) == [c] + Unescape(tail) && s != "\\N"
  {
    assert ([c] + tail)[1..] == tail;
  }

  lemma {:induction false} UnescapeEscape(text: string)
    ensures Clean(Escape(text)) && Unescape(Escape(text)) == text && Escape(text) != "\\N"
  {
    if text != "" {
      UnescapeEscape(text[1..]);
      if Special(text[0]) {
        UnescapeSpecial(text[0], Escape(text[1..]));
      } else {
        UnescapePlain(text[0], Escape(text[1..]));
      }
      assert text == [text[0]] + text[1..];
    }
  }

  lemma IsoCharsArePlain(d: DateTime)
    ensures forall i :: 0 <= i < |IsoFormat(d)| ==> !Special(IsoFormat(d)[i])
  {
    assert forall i :: 0 <= i < |FromHour(d)| ==> !Special(FromHour(d)[i]);
    assert forall i :: 0 <= i < |FromMonth(d)| ==> !Special(FromMonth(d)[i]);
  }

  lemma FieldRoundTrip(value: Value)
    ensures Clean(FieldText(value)) && ReadField(FieldText(value)) == StoredText(value)
  {
    match value {
      case Null =>
        assert "\\N"[2..] == "";
      case Stamp(at) =>
        IsoCharsArePlain(at);
        PlainText(IsoFormat(at));
        assert IsoFormat(at)[0] != '\\';
      case Text(text) =>
        UnescapeEscape(text);
    }
  }

  lemma {:induction false} SplitJoin(fields: seq<string>)
    requires fields != [] && forall f :: f in fields ==> Clean(f)
    ensures SplitFields(Join(fields)) == fields
    decreases |fields|
  {
    var f := fields[0];
    if |fields| == 1 {
      assert f + "" == f;
      CleanIsSkipped(f, "", '\t');
    } else {
      var tail := Join(fields[1..]);
      SplitJoin(fields[1..]);
      assert Join(fields) == f + ("\t" + tail);
      CleanIsSkipped(f, "\t" + tail, '\t');
      assert Join(fields)[..|f|] == f && Join(fields)[|f| + 1..] == tail;
    }
  }

  lemma {:induction false} LineScan(fields: seq<string>, rest: string)
    requires fields != [] && forall f :: f in fields ==> Clean(f)
    ensures FindUnescaped(Join(fields) + ("\n" + rest), '\n') == |Join(fields)|
    ensures LineError(Join(fields)) == None
    decreases |fields|
  {
    var f := fields[0];
    if |fields| == 1 {
      LastScan(f, rest);
    } else {
      var tail := Join(fields[1..]);
      LineScan(fields[1..], rest);
      assert Join(fields) == f + ("\t" + tail);
      FieldScan(f, tail, rest);
    }
  }

  lemma LastScan(f: string, rest: string)
    requires Clean(f)
    ensures FindUnescaped(f + ("\n" + rest), '\n') == |f| && LineError(f) == None
  {
    assert f + "" == f;
    CleanIsSkipped(f, "", '\n');
    CleanIsSkipped(f, "\n" + rest, '\n');
  }

  lemma FieldScan(f: string, tail: string, rest: string)
    requires Clean(f) && FindUnescaped(tail + ("\n" + rest), '\n') == |tail| && LineError(tail) == None
    ensures var line := f + ("\t" + tail);
            FindUnescaped(line + ("\n" + rest), '\n') == |line| && LineError(line) == None
  {
    TabIsSkipped(tail);
    CleanIsSkipped(f, "\t" + tail, '\n');
    TabIsSkipped(tail + ("\n" + rest));
    assert f + ("\t" + tail) + ("\n" + rest) == f + ("\t" + (tail + ("\n" + rest)));
    CleanIsSkipped(f, "\t" + (tail + ("\n" + rest)), '\n');
  }

  lemma TabIsSkipped(s: string)
    ensures FindUnescaped("\t" + s, '\n') == 1 + FindUnescaped(s, '\n')
    ensures LineError("\t" + s) == LineError(s)
  {
    assert ("\t" + s)[1..] == s;
  }

  function RecordsOf(packets: seq<PacketDict>, columns: seq<string>): seq<Record> {
    seq(|packets|, i requires 0 <= i < |packets| => RecordOf(packets[i], columns))
  }

  lemma RowRoundTrip(packet: PacketDict, columns: seq<string>)
    ensures forall f :: f in FieldsOf(packet, columns) ==> Clean(f)
    ensures ReadFields(FieldsOf(packet, columns)) == RecordOf(packet, columns)
  {
    var fields := FieldsOf(packet, columns);
    forall i | 0 <= i < |fields|
      ensures Clean(fields[i]) && ReadField(fields[i]) == RecordOf(packet, columns)[i]
    {
      FieldRoundTrip(Column(packet, columns[i]));
    }
  }

  /** The decoder takes one written line off the front of a buffer, and nothing else. */
  lemma DecodeLine(fields: seq<string>, rest: string, rows: seq<Record>)
    requires fields != [] && forall f :: f in fields ==> Clean(f)
    requires Decode(rest, |fields|) == Rows(rows)
    ensures Decode(Join(fields) + ("\n" + rest), |fields|) == Rows([ReadFields(fields)] + rows)
  {
    var line, buffer := Join(fields), Join(fields) + ("\n" + rest);
    SplitJoin(fields);
    LineScan(fields, rest);
    assert buffer[..|line|] == line && buffer[|line| + 1..] == rest;
    assert LineError("\\.").Some?;
  }

  /** Whatever the packets hold, COPY reads back exactly the columns that were written. */
  lemma {:induction false} CopyRoundTrip(packets: seq<PacketDict>, columns: seq<string>)
    requires columns != []
    ensures Decode(Encode(packets, columns), |columns|) == Rows(RecordsOf(packets, columns))
  {
    if packets != [] {
      var fields, rest := FieldsOf(packets[0], columns), Encode(packets[1..], columns);
      CopyRoundTrip(packets[1..], columns);
      RowRoundTrip(packets[0], columns);
      DecodeLine(fields, rest, RecordsOf(packets[1..], columns));
      assert Encode(packets, columns) == Join(fields) + ("\n" + rest);
      assert RecordsOf(packets, columns) == [RecordOf(packets[0], columns)] + RecordsOf(packets[1..], columns);
    }
  }
}
