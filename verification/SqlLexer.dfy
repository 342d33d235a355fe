/**
 What PostgreSQL reads, by the lexical structure of its documentation (section 4.1), with
 standard_conforming_strings on: the database that the SQL validator guards. Nothing here
 is taken from the validator.
 */
module SqlLexer {
  import opened Common
  import opened Strings

  predicate SqlBlank(c: char) { c == ' ' || '\t' <= c <= '\r' }

  predicate At(s: string, i: nat, a: char, b: char) { i + 1 < |s| && s[i] == a && s[i + 1] == b }

  // ---------------------------------------------------------------- comments

  /** A line comment ends in front of the line break. */
  function LineEnd(s: string, i: nat): (end: nat)
    requires i <= |s|
    ensures i <= end <= |s| && (end < |s| ==> s[end] == '\n' || s[end] == '\r')
    decreases |s| - i
  {
    if i == |s| || s[i] == '\n' || s[i] == '\r' then i else LineEnd(s, i + 1)
  }

  /** Block comments nest: the end of one of which `depth` openings are read, if it has one. */
  function BlockEnd(s: string, i: nat, depth: nat): (end: Option<nat>)
    requires i <= |s|
    ensures end.Some? ==> i <= end.value <= |s|
    decreases |s| - i
  {
    if depth == 0 then Some(i)
    else if i + 1 >= |s| then None
    else if At(s, i, '/', '*') then BlockEnd(s, i + 2, depth + 1)
    else if At(s, i, '*', '/') then BlockEnd(s, i + 2, depth - 1)
    else BlockEnd(s, i + 1, depth)
  }

  /** What is left of a text when its blanks and comments are skipped. */
  datatype Rest = Nothing | OpenComment | Text(text: string)

  function Skip(s: string): Rest
    decreases |s|
  {
    if s == "" then Nothing
    else if SqlBlank(s[0]) then Skip(s[1..])
    else if At(s, 0, '-', '-') then Skip(s[LineEnd(s, 2)..])
    else if At(s, 0, '/', '*') then
      var end := BlockEnd(s, 2, 1);
      if end.None? then OpenComment else Skip(s[end.value..])
    else Text(s)
  }

  // ---------------------------------------------------------------- tokens

  predicate IdentStart(c: char) { 'A' <= c <= 'Z' || 'a' <= c <= 'z' || c == '_' || c >= '\U{80}' }

  predicate TagPart(c: char) { IdentStart(c) || '0' <= c <= '9' }

  predicate IdentPart(c: char) { TagPart(c) || c == '$' }

  function IdentEnd(s: string, i: nat): (end: nat)
    requires i <= |s|
    ensures i <= end <= |s| && forall k :: i <= k < end ==> IdentPart(s[k])
    decreases |s| - i
  {
    if i < |s| && IdentPart(s[i]) then IdentEnd(s, i + 1) else i
  }

  /** The end of a quoted text in which the quote is doubled and, if it escapes, a backslash hides what follows it. */
  function QuoteEnd(s: string, i: nat, quote: char, escapes: bool): (end: nat)
    requires i <= |s|
    ensures i <= end <= |s|
    decreases |s| - i
  {
    if i == |s| then i
    else if escapes && s[i] == '\\' then (if i + 1 == |s| then |s| else QuoteEnd(s, i + 2, quote, escapes))
    else if s[i] != quote then QuoteEnd(s, i + 1, quote, escapes)
    else if At(s, i, quote, quote) then QuoteEnd(s, i + 2, quote, escapes)
    else i + 1
  }

  function TagEnd(s: string, i: nat): (end: nat)
    requires i <= |s|
    ensures i <= end <= |s|
    decreases |s| - i
  {
    if i < |s| && TagPart(s[i]) then TagEnd(s, i + 1) else i
  }

  /** The delimiter of a dollar quote at i, such as $$ or $body$; "" if there is none. */
  function Delimiter(s: string, i: nat): (d: string)
    requires i < |s|
    ensures i + |d| <= |s|
  {
    if s[i] != '$' || (i + 1 < |s| && '0' <= s[i + 1] <= '9') then ""
    else
      var end := TagEnd(s, i + 1);
      if end < |s| && s[end] == '$' then s[i..end + 1] else ""
  }

  datatype Kind = Comment | Quoted | Escaped | DollarQuoted | Identifier | Single

  /** The kind of the token that starts at i; blanks are tokens of their own. */
  function KindAt(s: string, i: nat): Kind
    requires i < |s|
  {
    if At(s, i, '-', '-') || At(s, i, '/', '*') then Comment
    else if s[i] == '\'' || s[i] == '"' then Quoted
    else if At(s, i, 'E', '\'') || At(s, i, 'e', '\'') then Escaped
    else if Delimiter(s, i) != "" then DollarQuoted
    else if IdentStart(s[i]) then Identifier
    else Single
  }

  /** Where the token that starts at i ends; one that is not closed goes to the end of the text. */
  function TokenEnd(s: string, i: nat): (end: nat)
    requires i < |s|
    ensures i < end <= |s|
  {
    match KindAt(s, i)
    case Comment =>
      if s[i] == '-' then LineEnd(s, i + 2)
      else (match BlockEnd(s, i + 2, 1) case None => |s| case Some(end) => end)
    case Quoted => QuoteEnd(s, i + 1, s[i], false)
    case Escaped => QuoteEnd(s, i + 2, '\'', true)
    case DollarQuoted =>
      var body := i + |Delimiter(s, i)|;
      (match Find(s[body..], Delimiter(s, i)) case None => |s| case Some(n) => body + n + |Delimiter(s, i)|)
    case Identifier => IdentEnd(s, i + 1)
    case Single => i + 1
  }

  /** Reading token by token from `from` on, one starts at i. */
  predicate Starts(s: string, from: nat, i: nat)
    decreases |s| - from
  {
    from == i || (from < |s| && from < i && Starts(s, TokenEnd(s, from), i))
  }

  /** A semicolon that the database reads as one. */
  predicate SqlSeparator(s: string, i: int) { 0 <= i < |s| && s[i] == ';' && Starts(s, 0, i) }

  predicate SqlMultiple(s: string) {
    exists i, j :: 0 <= i < j < |s| && SqlSeparator(s, i) && !IsBlank(s[j])
  }
}
