/** validate_query: which queries it accepts, and what is known of the query it returns. */
module SqlValidator {
  import opened Common
  import opened SqlComments
  import opened SqlLexer
  import opened SqlScanner
  import opened Strings

  const MAX_QUERY_LENGTH: nat := 2000
  const DEFAULT_LIMIT := " LIMIT 1000"
  const FORBIDDEN_KEYWORDS: set<string> := {
    "DROP", "DELETE", "TRUNCATE", "ALTER", "INSERT", "UPDATE", "CREATE", "GRANT", "REVOKE", "EXEC", "EXECUTE",
    "MERGE", "CALL", "COPY", "LOAD", "REPLACE"}

  /** A head, at least so many blanks, and one of the tails. */
  datatype Pattern = Pattern(head: string, blanks: nat, tails: set<string>)

  const DANGEROUS_PATTERNS: set<Pattern> := {
    Pattern("INTO", 1, {"OUTFILE", "DUMPFILE"}), Pattern("LOAD_FILE", 0, {"("}), Pattern("PG_SLEEP", 0, {"("}),
    Pattern("PG_READ_FILE", 0, {"("}), Pattern("DBLINK", 0, {"("}), Pattern("COPY", 1, {""})}

  predicate WordAt(s: string, i: int) {
    0 <= i < |s| && ('A' <= s[i] <= 'Z' || 'a' <= s[i] <= 'z' || '0' <= s[i] <= '9' || s[i] == '_')
  }

  predicate WholeWordAt(s: string, w: string, i: int) {
    && 0 <= i <= |s| - |w| && s[i..i + |w|] == w
    && WordAt(s, i - 1) != WordAt(s, i) && WordAt(s, i + |w| - 1) != WordAt(s, i + |w|)
  }

  /** re.search of the word between word boundaries. */
  predicate HasWord(s: string, w: string) { exists i | 0 <= i <= |s| :: WholeWordAt(s, w, i) }

  predicate MatchesAt(s: string, p: Pattern, i: nat, blanks: nat, tail: string) {
    var end := i + |p.head| + blanks + |tail|;
    && end <= |s| && p.blanks <= blanks && s[i..i + |p.head|] == p.head
    && AllBlank(s[i + |p.head|..i + |p.head| + blanks]) && s[i + |p.head| + blanks..end] == tail
  }

  predicate HasPattern(s: string, p: Pattern) {
    exists i, b, t | 0 <= i <= |s| && 0 <= b <= |s| && t in p.tails :: MatchesAt(s, p, i, b, t)
  }

  // ---------------------------------------------------------------- what is accepted

  datatype Objection =
    | EmptyQuery
    | TooLong
    | ForbiddenOperation(keyword: string)
    | NotSelect
    | ManyStatements
    | DangerousPattern(pattern: Pattern)
  {
    function Rank(): nat {
      match this
      case EmptyQuery => 0
      case TooLong => 1
      case ForbiddenOperation(_) => 2
      case NotSelect => 3
      case ManyStatements => 4
      case DangerousPattern(_) => 5
    }
  }

  /** The order in which the checks are made. */
  lemma ObjectionOrder(k: string, p: Pattern)
    ensures EmptyQuery.Rank() < TooLong.Rank() < ForbiddenOperation(k).Rank() < NotSelect.Rank()
            < ManyStatements.Rank() < DangerousPattern(p).Rank()
  {}

  datatype Outcome = Accepted(query: string) | Rejected(why: Objection)

  predicate StartsSelect(s: string) { "SELECT" <= Upper(StripComments(s)) }

  predicate Holds(why: Objection, sql: string) {
    var n := Normalize(sql);
    match why
    case EmptyQuery => Strip(sql) == ""
    case TooLong => |n| > MAX_QUERY_LENGTH
    case ForbiddenOperation(k) => k in FORBIDDEN_KEYWORDS && HasWord(Upper(n), k)
    case NotSelect => !StartsSelect(sql)
    case ManyStatements => MultipleStatements(n)
    case DangerousPattern(p) => p in DANGEROUS_PATTERNS && HasPattern(Upper(n), p)
  }

  ghost predicate Acceptable(sql: string) { forall why: Objection :: !Holds(why, sql) }

  ghost predicate IsFirst(why: Objection, sql: string) {
    Holds(why, sql) && forall other: Objection :: Holds(other, sql) ==> why.Rank() <= other.Rank()
  }

  /** s.rstrip(';'). */
  function TrimSemicolons(s: string): (p: string)
    ensures p <= s && forall i :: |p| <= i < |s| ==> s[i] == ';'
    ensures p == "" || p[|p| - 1] != ';'
  {
    if s != "" && s[|s| - 1] == ';' then TrimSemicolons(s[..|s| - 1]) else s
  }

  predicate HasLimit(s: string) { Contains(Upper(s), "LIMIT") }

  function Returned(sql: string): string {
    var n := Normalize(sql);
    if HasLimit(n) then n else TrimSemicolons(n) + DEFAULT_LIMIT
  }

  method FindKeyword(upper: string) returns (found: Option<string>)
    ensures found.Some? ==> found.value in FORBIDDEN_KEYWORDS && HasWord(upper, found.value)
    ensures found.None? ==> forall k :: k in FORBIDDEN_KEYWORDS ==> !HasWord(upper, k)
  {
    var rest := FORBIDDEN_KEYWORDS;
    while rest != {}
      invariant rest <= FORBIDDEN_KEYWORDS
      invariant forall k :: k in FORBIDDEN_KEYWORDS - rest ==> !HasWord(upper, k)
      decreases |rest|
    {
      var k :| k in rest;
      if HasWord(upper, k) {
        return Some(k);
      }
      rest := rest - {k};
    }
    return None;
  }

  method FindPattern(upper: string) returns (found: Option<Pattern>)
    ensures found.Some? ==> found.value in DANGEROUS_PATTERNS && HasPattern(upper, found.value)
    ensures found.None? ==> forall p :: p in DANGEROUS_PATTERNS ==> !HasPattern(upper, p)
  {
    var rest := DANGEROUS_PATTERNS;
    while rest != {}
      invariant rest <= DANGEROUS_PATTERNS
      invariant forall p :: p in DANGEROUS_PATTERNS - rest ==> !HasPattern(upper, p)
      decreases |rest|
    {
      var p :| p in rest;
      if HasPattern(upper, p) {
        return Some(p);
      }
      rest := rest - {p};
    }
    return None;
  }

  ghost predicate ClearBelow(sql: string, rank: nat) {
    forall why: Objection :: Holds(why, sql) ==> rank <= why.Rank()
  }

  /** The check of a rank succeeds. */
  ghost predicate Passes(sql: string, rank: nat) {
    var n := Normalize(sql);
    match rank
    case 0 => Strip(sql) != ""
    case 1 => |n| <= MAX_QUERY_LENGTH
    case 2 => forall k :: k in FORBIDDEN_KEYWORDS ==> !HasWord(Upper(n), k)
    case 3 => StartsSelect(sql)
    case 4 => !MultipleStatements(n)
    case _ => forall p :: p in DANGEROUS_PATTERNS ==> !HasPattern(Upper(n), p)
  }

  lemma {:induction false} PassedMeansNone(sql: string, rank: nat, why: Objection)
    requires Passes(sql, rank) && why.Rank() == rank
    ensures !Holds(why, sql)
  {}

  lemma Clear(sql: string, rank: nat)
    requires rank <= 5 && ClearBelow(sql, rank) && Passes(sql, rank)
    ensures ClearBelow(sql, rank + 1)
  {
    forall why: Objection | Holds(why, sql) ensures rank + 1 <= why.Rank() {
      if why.Rank() == rank {
        PassedMeansNone(sql, rank, why);
      }
    }
  }

  lemma AllClear(sql: string)
    requires ClearBelow(sql, 6)
    ensures Acceptable(sql)
  {
    forall why: Objection ensures !Holds(why, sql) {
      assert why.Rank() <= 5;
    }
  }

  lemma First(sql: string, why: Objection)
    requires ClearBelow(sql, why.Rank()) && Holds(why, sql)
    ensures IsFirst(why, sql)
  {}

  /** Accepts exactly the queries with nothing against them; else gives the first objection. */
  method ValidateQuery(sql: string) returns (outcome: Outcome)
    ensures outcome.Accepted? <==> Acceptable(sql)
    ensures outcome.Accepted? ==> outcome.query == Returned(sql) && WellBehaved(outcome.query)
    ensures outcome.Accepted? ==> forall p :: p in DANGEROUS_PATTERNS ==> (HasPattern(Upper(outcome.query), p) <==> Appears(p, sql))
    ensures outcome.Rejected? ==> IsFirst(outcome.why, sql)
  {
    var objection := FirstObjection(sql);
    if objection.Some? {
      assert Holds(objection.value, sql);
      return Rejected(objection.value);
    }
    ReturnedIsWellBehaved(sql);
    var normalized := Normalize(sql);
    if !HasLimit(normalized) {
      normalized := TrimSemicolons(normalized) + DEFAULT_LIMIT;
    }
    return Accepted(normalized);
  }

  method FirstObjection(sql: string) returns (why: Option<Objection>)
    ensures why.None? ==> Acceptable(sql)
    ensures why.Some? ==> IsFirst(why.value, sql)
  {
    if Strip(sql) == "" {
      First(sql, EmptyQuery);
      return Some(EmptyQuery);
    }
    Clear(sql, 0);
    var normalized := Normalize(sql);
    if |normalized| > MAX_QUERY_LENGTH {
      First(sql, TooLong);
      return Some(TooLong);
    }
    Clear(sql, 1);
    var keyword := FindKeyword(Upper(normalized));
    if keyword.Some? {
      First(sql, ForbiddenOperation(keyword.value));
      return Some(ForbiddenOperation(keyword.value));
    }
    Clear(sql, 2);
    var stripped := StripSqlComments(Strip(sql));
    StripTwice(sql);
    if !("SELECT" <= Upper(stripped)) {
      First(sql, NotSelect);
      return Some(NotSelect);
    }
    Clear(sql, 3);
    var many := ContainsMultipleStatements(normalized);
    if many {
      First(sql, ManyStatements);
      return Some(ManyStatements);
    }
    Clear(sql, 4);
    var pattern := FindPattern(Upper(normalized));
    if pattern.Some? {
      First(sql, DangerousPattern(pattern.value));
      return Some(DangerousPattern(pattern.value));
    }
    Clear(sql, 5);
    AllClear(sql);
    return None;
  }

  // ---------------------------------------------------------------- what is known of the result

  ghost predicate OneStatement(q: string) { forall i :: Separator(q, i) ==> i == |q| - 1 }

  ghost predicate OneSqlStatement(q: string) { forall i :: SqlSeparator(q, i) ==> i == |q| - 1 }

  /**
   No semicolon outside the scanner's quotes but as the last character, and so for the
   database if there is no trap; no forbidden word, a LIMIT, and a bounded length.
   */
  ghost predicate WellBehaved(q: string) {
    && OneStatement(q) && (NoTraps(q) ==> OneSqlStatement(q))
    && HasLimit(q) && |q| <= MAX_QUERY_LENGTH + |DEFAULT_LIMIT|
    && forall k :: k in FORBIDDEN_KEYWORDS ==> !HasWord(Upper(q), k)
  }

  predicate EndsInCopy(p: string) { |p| >= 4 && Upper(p)[|p| - 4..] == "COPY" }

  /** The one dangerous pattern that the default limit can complete. */
  predicate Appears(p: Pattern, sql: string) {
    var n := Normalize(sql);
    p.head == "COPY" && !HasLimit(n) && EndsInCopy(TrimSemicolons(n))
  }

  lemma {:induction false} ModeOfPrefix(s: string, t: string, i: nat)
    requires i <= |s|
    ensures ModeAt(s + t, i) == ModeAt(s, i)
  {
    if i > 0 {
      ModeOfPrefix(s, t, i - 1);
    }
  }

  /** A trimmed text with nothing after its unquoted semicolons has none but at its end. */
  lemma SemicolonsAtTheEnd(n: string)
    requires Trimmed(n) && !MultipleStatements(n)
    ensures OneStatement(n)
  {
    forall i | Separator(n, i) ensures i == |n| - 1 {
      assert !IsBlank(n[|n| - 1]);
    }
  }

  lemma LimitedIsOneStatement(n: string, p: string)
    requires OneStatement(n) && p <= n && (|p| == |n| > 0 ==> p[|p| - 1] != ';')
    ensures forall i :: !Separator(p + DEFAULT_LIMIT, i)
  {
    assert n == p + n[|p|..];
    forall i ensures !Separator(p + DEFAULT_LIMIT, i) {
      if 0 <= i < |p| {
        ModeOfPrefix(p, DEFAULT_LIMIT, i);
        ModeOfPrefix(p, n[|p|..], i);
        assert Separator(n, i) ==> i == |p| - 1;
      } else if |p| <= i < |p| + |DEFAULT_LIMIT| {
        assert (p + DEFAULT_LIMIT)[i] == DEFAULT_LIMIT[i - |p|];
        assert DEFAULT_LIMIT[i - |p|] != ';';
      }
    }
  }

  lemma UpperConcat(a: string, b: string)
    ensures Upper(a + b) == Upper(a) + Upper(b)
  {}

  /** Each keyword is of capitals and does not start like a part of LIMIT. */
  predicate KeywordLike(k: string) {
    && |k| >= 4 && (forall i :: 0 <= i < |k| ==> 'A' <= k[i] <= 'Z')
    && !(k[0] == 'L' && k[1] == 'I') && !(k[0] == 'I' && k[1] == 'M') && !(k[0] == 'M' && k[1] == 'I')
    && !(k[0] == 'I' && k[1] == 'T')
  }

  lemma KeywordsAreLike(k: string)
    requires k in FORBIDDEN_KEYWORDS
    ensures KeywordLike(k)
  {}

  lemma NotInLimit(k: string, j: nat)
    requires KeywordLike(k)
    ensures !(j + |k| <= |DEFAULT_LIMIT| && DEFAULT_LIMIT[j..j + |k|] == k)
  {
    if j + |k| <= |DEFAULT_LIMIT| {
      var t := DEFAULT_LIMIT[j..j + |k|];
      assert t[0] == DEFAULT_LIMIT[j] && t[1] == DEFAULT_LIMIT[j + 1];
    }
  }

  /** Blanks and semicolons, as at the end of a query. */
  predicate NoWordIn(tail: string) { forall i :: 0 <= i < |tail| ==> tail[i] == ';' || IsBlank(tail[i]) }

  lemma SameWords(u: string, tail: string, i: int)
    requires NoWordIn(tail) && i <= |u|
    ensures WordAt(u + DEFAULT_LIMIT, i) == WordAt(u + tail, i)
  {
    assert (u + DEFAULT_LIMIT)[|u|] == ' ';
    assert tail != "" ==> (u + tail)[|u|] == tail[0];
  }

  lemma KeywordInFront(u: string, tail: string, k: string, i: nat)
    requires NoWordIn(tail)
    requires KeywordLike(k) && i + |k| <= |u| && WholeWordAt(u + DEFAULT_LIMIT, k, i)
    ensures HasWord(u + tail, k)
  {
    assert (u + DEFAULT_LIMIT)[i..i + |k|] == u[i..i + |k|] == (u + tail)[i..i + |k|];
    SameWords(u, tail, i);
    SameWords(u, tail, i - 1);
    SameWords(u, tail, i + |k| - 1);
    SameWords(u, tail, i + |k|);
    assert WholeWordAt(u + tail, k, i);
  }

  lemma KeywordInLimit(u: string, k: string, i: nat)
    requires KeywordLike(k) && i + |k| > |u|
    ensures !WholeWordAt(u + DEFAULT_LIMIT, k, i)
  {
    var s := u + DEFAULT_LIMIT;
    if i + |k| <= |s| {
      var word := s[i..i + |k|];
      if i <= |u| {
        assert word[|u| - i] == s[|u|] == ' ';
      } else {
        assert word == DEFAULT_LIMIT[i - |u|..i - |u| + |k|];
        NotInLimit(k, i - |u|);
      }
    }
  }

  /** Putting the limit in the place of final blanks and semicolons makes no keyword a whole word. */
  lemma NoNewKeyword(u: string, tail: string, k: string)
    requires NoWordIn(tail) && KeywordLike(k) && HasWord(u + DEFAULT_LIMIT, k)
    ensures HasWord(u + tail, k)
  {
    var i: nat :| WholeWordAt(u + DEFAULT_LIMIT, k, i);
    if i + |k| > |u| {
      KeywordInLimit(u, k, i);
    }
    KeywordInFront(u, tail, k, i);
  }

  lemma ContainsTail(p: string)
    ensures HasLimit(p + DEFAULT_LIMIT)
  {
    var u := Upper(p + DEFAULT_LIMIT);
    UpperConcat(p, DEFAULT_LIMIT);
    assert Upper(DEFAULT_LIMIT) == DEFAULT_LIMIT;
    assert u[|p| + 1..] == DEFAULT_LIMIT[1..] == "LIMIT 1000";
    assert "LIMIT" <= u[|p| + 1..];
  }

  lemma UpperNoWord(s: string)
    requires NoWordIn(s)
    ensures Upper(s) == s
  {}

  lemma UpperLimited(p: string)
    ensures Upper(p + DEFAULT_LIMIT) == Upper(p) + DEFAULT_LIMIT
  {
    UpperConcat(p, DEFAULT_LIMIT);
    assert Upper(DEFAULT_LIMIT) == DEFAULT_LIMIT;
  }

  /** n without some final blanks and semicolons, both in capitals. */
  lemma UpperTrimmed(n: string, p: string)
    requires p <= n && NoWordIn(n[|p|..])
    ensures Upper(n) == Upper(p) + n[|p|..]
  {
    assert n == p + n[|p|..];
    UpperConcat(p, n[|p|..]);
    UpperNoWord(n[|p|..]);
  }

  lemma LimitedHasNoKeyword(n: string, p: string, k: string)
    requires p <= n && NoWordIn(n[|p|..])
    requires k in FORBIDDEN_KEYWORDS && !HasWord(Upper(n), k)
    ensures !HasWord(Upper(p + DEFAULT_LIMIT), k)
  {
    KeywordsAreLike(k);
    UpperLimited(p);
    UpperTrimmed(n, p);
    if HasWord(Upper(p) + DEFAULT_LIMIT, k) {
      NoNewKeyword(Upper(p), n[|p|..], k);
    }
  }

  // ---------------------------------------------------------------- dangerous patterns

  /** No pattern but COPY ends in the middle of the default limit. */
  predicate PatternLike(p: Pattern) {
    if p.head == "COPY" then p.blanks == 1 && p.tails == {""}
    else forall t :: t in p.tails ==> t != "" && (t[|t| - 1] == '(' || t[|t| - 1] == 'E')
  }

  lemma PatternsAreLike(p: Pattern)
    requires p in DANGEROUS_PATTERNS
    ensures PatternLike(p)
  {}

  lemma LimitChars(u: string, i: nat)
    requires |u| <= i < |u + DEFAULT_LIMIT|
    ensures var c := (u + DEFAULT_LIMIT)[i]; c != '(' && c != 'E' && c != 'Y'
  {
    assert (u + DEFAULT_LIMIT)[i] == DEFAULT_LIMIT[i - |u|];
  }

  /** A match in u is one in a longer text. */
  lemma MatchInFront(u: string, tail: string, limit: string, p: Pattern, i: nat, b: nat, t: string)
    requires MatchesAt(u + limit, p, i, b, t) && i + |p.head| + b + |t| <= |u| && t in p.tails
    ensures HasPattern(u + tail, p)
  {
    var h, e := i + |p.head|, i + |p.head| + b + |t|;
    assert (u + tail)[..e] == (u + limit)[..e];
    SamePart(u + tail, u + limit, e, i, h);
    SamePart(u + tail, u + limit, e, h, h + b);
    SamePart(u + tail, u + limit, e, h + b, e);
    assert MatchesAt(u + tail, p, i, b, t);
  }

  lemma SamePart(s: string, s': string, e: nat, i: nat, j: nat)
    requires i <= j <= e <= |s| && e <= |s'| && s[..e] == s'[..e]
    ensures s[i..j] == s'[i..j]
  {
    assert s[i..j] == s[..e][i..j] && s'[i..j] == s'[..e][i..j];
  }

  /** With the shortest blank, the match of COPY ends right behind it. */
  lemma CopyMatch(s: string, p: Pattern, i: nat, b: nat)
    requires PatternLike(p) && p.head == "COPY" && MatchesAt(s, p, i, b, "")
    ensures MatchesAt(s, p, i, 1, "") && s[i + 3] == 'Y'
  {
    assert s[i..i + 4][3] == 'Y';
    assert s[i + 4..i + 4 + b][0] == s[i + 4];
    assert s[i + 4..i + 5] == [s[i + 4]];
  }

  lemma PatternAtTheEnd(u: string, tail: string, p: Pattern)
    requires PatternLike(p) && HasPattern(u + DEFAULT_LIMIT, p) && !HasPattern(u + tail, p)
    ensures p.head == "COPY" && |u| >= 4 && u[|u| - 4..] == "COPY"
  {
    var s := u + DEFAULT_LIMIT;
    var i, b, t :| 0 <= i <= |s| && 0 <= b <= |s| && t in p.tails && MatchesAt(s, p, i, b, t);
    if p.head == "COPY" {
      CopyMatch(s, p, i, b);
      CopyAtTheEnd(u, tail, p, i);
    } else {
      LastOfMatch(u, p, i, b, t);
      MatchInFront(u, tail, DEFAULT_LIMIT, p, i, b, t);
    }
  }

  lemma LastOfMatch(u: string, p: Pattern, i: nat, b: nat, t: string)
    requires MatchesAt(u + DEFAULT_LIMIT, p, i, b, t) && t != "" && (t[|t| - 1] == '(' || t[|t| - 1] == 'E')
    ensures i + |p.head| + b + |t| <= |u|
  {
    var s, e := u + DEFAULT_LIMIT, i + |p.head| + b + |t|;
    assert s[i + |p.head| + b..e][|t| - 1] == s[e - 1];
    if e > |u| {
      LimitChars(u, e - 1);
    }
  }

  lemma CopyAtTheEnd(u: string, tail: string, p: Pattern, i: nat)
    requires PatternLike(p) && p.head == "COPY" && !HasPattern(u + tail, p)
    requires MatchesAt(u + DEFAULT_LIMIT, p, i, 1, "") && (u + DEFAULT_LIMIT)[i + 3] == 'Y'
    ensures i + 4 == |u| && u[i..] == "COPY"
  {
    var s := u + DEFAULT_LIMIT;
    if i + 5 <= |u| {
      MatchInFront(u, tail, DEFAULT_LIMIT, p, i, 1, "");
    }
    if i + 3 >= |u| {
      LimitChars(u, i + 3);
    }
    assert s[i..i + 4] == u[i..];
  }

  lemma CopyIsCompleted(u: string, p: Pattern)
    requires PatternLike(p) && p.head == "COPY" && |u| >= 4 && u[|u| - 4..] == "COPY"
    ensures HasPattern(u + DEFAULT_LIMIT, p)
  {
    var s, i := u + DEFAULT_LIMIT, |u| - 4;
    assert s[i..i + 4] == u[i..];
    assert s[i + 4..i + 5] == " ";
    assert s[i + 5..i + 5] == "";
    assert MatchesAt(s, p, i, 1, "");
  }

  /** What the default limit does to the dangerous patterns: it completes a final COPY, and nothing else. */
  lemma LimitedPatternIff(n: string, p: string, pattern: Pattern)
    requires p <= n && NoWordIn(n[|p|..])
    requires pattern in DANGEROUS_PATTERNS && !HasPattern(Upper(n), pattern)
    ensures HasPattern(Upper(p + DEFAULT_LIMIT), pattern) <==> pattern.head == "COPY" && EndsInCopy(p)
  {
    PatternsAreLike(pattern);
    UpperLimited(p);
    UpperTrimmed(n, p);
    if HasPattern(Upper(p) + DEFAULT_LIMIT, pattern) {
      PatternAtTheEnd(Upper(p), n[|p|..], pattern);
    }
    if pattern.head == "COPY" && EndsInCopy(p) {
      CopyIsCompleted(Upper(p), pattern);
    }
  }

  // ---------------------------------------------------------------- the query returned

  lemma SemicolonsHoldNoWord(n: string)
    ensures NoWordIn(n[|TrimSemicolons(n)|..])
  {
    var p := TrimSemicolons(n);
    assert forall i :: 0 <= i < |n| - |p| ==> n[|p|..][i] == n[|p| + i];
  }

  lemma NoKeyword(sql: string, k: string)
    requires Acceptable(sql) && k in FORBIDDEN_KEYWORDS
    ensures !HasWord(Upper(Normalize(sql)), k)
  {
    assert !Holds(ForbiddenOperation(k), sql);
  }

  lemma NoPattern(sql: string, p: Pattern)
    requires Acceptable(sql) && p in DANGEROUS_PATTERNS
    ensures !HasPattern(Upper(Normalize(sql)), p)
  {
    assert !Holds(DangerousPattern(p), sql);
  }

  lemma {:induction false} Unobjected(sql: string, why: Objection)
    requires Acceptable(sql)
    ensures !Holds(why, sql)
  {}

  lemma {:induction false} NoOther(sql: string)
    requires Acceptable(sql)
    ensures Strip(sql) != "" && |Normalize(sql)| <= MAX_QUERY_LENGTH && StartsSelect(sql) && !MultipleStatements(Normalize(sql))
  {
    Unobjected(sql, EmptyQuery);
    Unobjected(sql, TooLong);
    Unobjected(sql, NotSelect);
    Unobjected(sql, ManyStatements);
  }

  lemma AcceptedIsOneStatement(sql: string)
    requires Acceptable(sql)
    ensures OneStatement(Normalize(sql))
  {
    NoOther(sql);
    NormalizeKeepsText(sql);
    SemicolonsAtTheEnd(Normalize(sql));
  }

  lemma OneForBoth(q: string)
    requires OneStatement(q)
    ensures NoTraps(q) ==> OneSqlStatement(q)
  {
    if NoTraps(q) {
      forall i: int ensures Separator(q, i) <==> SqlSeparator(q, i) {
        SeparatorsAgree(q, i);
      }
    }
  }

  lemma ReturnedIsWellBehaved(sql: string)
    requires Acceptable(sql)
    ensures WellBehaved(Returned(sql))
    ensures !HasLimit(Normalize(sql)) ==> forall i :: !Separator(Returned(sql), i)
    ensures forall p :: p in DANGEROUS_PATTERNS ==> (HasPattern(Upper(Returned(sql)), p) <==> Appears(p, sql))
  {
    var n, p := Normalize(sql), TrimSemicolons(Normalize(sql));
    NoOther(sql);
    AcceptedIsOneStatement(sql);
    if HasLimit(n) {
      forall k | k in FORBIDDEN_KEYWORDS ensures !HasWord(Upper(n), k) {
        NoKeyword(sql, k);
      }
      forall d | d in DANGEROUS_PATTERNS ensures !HasPattern(Upper(n), d) {
        NoPattern(sql, d);
      }
    } else {
      SemicolonsHoldNoWord(n);
      LimitedIsOneStatement(n, p);
      ContainsTail(p);
      forall k | k in FORBIDDEN_KEYWORDS ensures !HasWord(Upper(p + DEFAULT_LIMIT), k) {
        NoKeyword(sql, k);
        LimitedHasNoKeyword(n, p, k);
      }
      forall d | d in DANGEROUS_PATTERNS ensures HasPattern(Upper(p + DEFAULT_LIMIT), d) <==> Appears(d, sql) {
        NoPattern(sql, d);
        LimitedPatternIff(n, p, d);
      }
    }
    OneForBoth(Returned(sql));
  }
}
