/** Queries at which the validator and the database differ, or the validator and itself. */
module SqlExamples {
  import opened Common
  import opened SqlComments
  import opened SqlLexer
  import opened SqlRevalidation
  import opened SqlScanner
  import opened SqlValidator
  import opened Strings

  // ---------------------------------------------------------------- few letters, few objections

  predicate IsFew(c: char) {
    c == 'S' || c == 'E' || c == 'L' || c == 'C' || c == 'T' || c == 'X' || c == 'O' || c == 'P' || c == 'Y'
  }

  const COPY_PATTERN := Pattern("COPY", 1, {""})

  predicate FewLetters(u: string) { forall i :: 0 <= i < |u| && 'A' <= u[i] <= 'Z' ==> IsFew(u[i]) }

  predicate OtherAt(w: string, i: int) { 0 <= i < |w| && 'A' <= w[i] <= 'Z' && !IsFew(w[i]) }

  ghost predicate OtherLetter(w: string) { exists i :: OtherAt(w, i) }

  /** Only EXEC and COPY are made of the few letters. */
  lemma KeywordHasOther(k: string)
    requires k in FORBIDDEN_KEYWORDS && k != "EXEC" && k != "COPY"
    ensures OtherLetter(k)
  {
    assert OtherAt(k, 0) || OtherAt(k, 1) || OtherAt(k, 2) || OtherAt(k, 4);
  }

  lemma HeadHasOther(p: Pattern)
    requires p in DANGEROUS_PATTERNS && p != COPY_PATTERN
    ensures OtherLetter(p.head)
  {
    assert OtherAt(p.head, 0) || OtherAt(p.head, 1) || OtherAt(p.head, 2);
  }

  lemma NoWordOfOthers(u: string, w: string, c: char)
    requires Free(u, c) && c in w
    ensures !HasWord(u, w)
  {
    var j :| 0 <= j < |w| && w[j] == c;
    forall i: int | 0 <= i <= |u| ensures !WholeWordAt(u, w, i) {
      if i + |w| <= |u| {
        assert u[i..i + |w|][j] == u[i + j];
      }
    }
  }

  lemma NoPatternOfOthers(u: string, p: Pattern, c: char)
    requires Free(u, c) && c in p.head
    ensures !HasPattern(u, p)
  {
    var j :| 0 <= j < |p.head| && p.head[j] == c;
    forall i: nat, b: nat, t ensures !MatchesAt(u, p, i, b, t) {
      if i + |p.head| <= |u| {
        assert u[i..i + |p.head|][j] == u[i + j];
      }
    }
  }

  lemma FewMeansNoKeyword(u: string, k: string)
    requires FewLetters(u) && k in FORBIDDEN_KEYWORDS && k != "EXEC" && k != "COPY"
    ensures !HasWord(u, k)
  {
    KeywordHasOther(k);
    var i :| OtherAt(k, i);
    NoWordOfOthers(u, k, k[i]);
  }

  lemma FewMeansNoPattern(u: string, p: Pattern)
    requires FewLetters(u) && p in DANGEROUS_PATTERNS && p != COPY_PATTERN
    ensures !HasPattern(u, p)
  {
    HeadHasOther(p);
    var i :| OtherAt(p.head, i);
    NoPatternOfOthers(u, p, p.head[i]);
  }

  lemma {:induction false} FewAreAccepted(sql: string, u: string)
    requires u == Upper(Normalize(sql)) && FewLetters(u) && |u| <= MAX_QUERY_LENGTH
    requires !HasWord(u, "EXEC") && !HasWord(u, "COPY") && !HasPattern(u, COPY_PATTERN)
    requires Strip(sql) != "" && StartsSelect(sql) && !MultipleStatements(Normalize(sql))
    ensures Acceptable(sql)
  {
    forall why: Objection ensures !Holds(why, sql) {
      match why {
        case ForbiddenOperation(k) =>
          if k in FORBIDDEN_KEYWORDS && k != "EXEC" && k != "COPY" {
            FewMeansNoKeyword(u, k);
          }
        case DangerousPattern(p) =>
          if p in DANGEROUS_PATTERNS && p != COPY_PATTERN {
            FewMeansNoPattern(u, p);
          }
        case _ =>
      }
    }
  }

  /** Printable, no small letter, and of the capitals only the few. */
  predicate Okay(c: char) { ' ' <= c <= '`' && ('A' <= c <= 'Z' ==> IsFew(c)) }

  predicate OkayText(s: string) { forall i :: 0 <= i < |s| ==> Okay(s[i]) }

  predicate Spaced(s: string) { forall i :: 0 <= i < |s| - 1 ==> s[i] != ' ' || s[i + 1] != ' ' }

  lemma OkayIsPlain(s: string)
    requires OkayText(s) && Spaced(s) && s != "" && s[0] != ' ' && s[|s| - 1] != ' '
    ensures SingleSpaced(s) && Trimmed(s) && Upper(s) == s && FewLetters(s) && Free(s, 'M')
  {
    assert forall i :: 0 <= i < |s| && IsBlank(s[i]) ==> s[i] == ' ';
  }

  lemma AlreadyNormal(s: string)
    requires SingleSpaced(s) && Trimmed(s)
    ensures Normalize(s) == s && Strip(s) == s
  {
    StripTrimmed(s);
    NormalizeIsSqueeze(s);
    SqueezeSqueezed(s);
  }

  lemma StartsHere(s: string)
    requires Strip(s) == s && |s| >= 6 && s[..6] == "SELECT"
    ensures StartsSelect(s)
  {
    assert s[0] == "SELECT"[0];
    NoHead(s);
    assert Upper(s)[..6] == Upper(s[..6]) == "SELECT";
  }

  /** A normal text that starts with SELECT, of few letters without X and O, in capitals. */
  lemma FewCapitalsAreAccepted(s: string)
    requires SingleSpaced(s) && Trimmed(s) && 6 <= |s| <= MAX_QUERY_LENGTH && s[..6] == "SELECT" && Upper(s) == s
    requires FewLetters(s) && Free(s, 'X') && Free(s, 'O') && !MultipleStatements(s)
    ensures Acceptable(s) && Normalize(s) == s
  {
    AlreadyNormal(s);
    StartsHere(s);
    assert "EXEC"[1] == 'X' && "COPY"[1] == 'O';
    NoWordOfOthers(s, "EXEC", 'X');
    NoWordOfOthers(s, "COPY", 'O');
    NoPatternOfOthers(s, COPY_PATTERN, 'O');
    FewAreAccepted(s, s);
  }

  lemma NoLimitHere(s: string)
    requires Free(Upper(s), 'M')
    ensures !HasLimit(s)
  {
    var u := Upper(s);
    assert "LIMIT"[2] == 'M';
    assert forall i :: 0 <= i && i + 2 < |u| ==> u[i..][2] == u[i + 2];
  }

  // ---------------------------------------------------------------- a backslash that hides nothing

  /** An accepted query, returned with the default limit, in which the database sees a second statement at i. */
  ghost predicate HidesSecond(s: string) {
    && Acceptable(s) && Returned(s) == s + DEFAULT_LIMIT
    && OneStatement(Returned(s)) && SqlMultiple(Returned(s)) && !OneSqlStatement(Returned(s))
  }

  lemma SecondStatement(s: string, i: nat)
    requires OkayText(s) && Spaced(s) && Free(s, 'X') && Free(s, 'O')
    requires 6 <= |s| <= MAX_QUERY_LENGTH && s[..6] == "SELECT" && s[|s| - 1] != ' ' && s[|s| - 1] != ';'
    requires !MultipleStatements(s) && SqlSeparator(s + DEFAULT_LIMIT, i) && i + 2 < |s| && s[i + 2] == 'S'
    ensures HidesSecond(s)
  {
    assert s[0] == "SELECT"[0];
    OkayIsPlain(s);
    FewCapitalsAreAccepted(s);
    NoLimitHere(s);
    ReturnedIsWellBehaved(s);
    assert (s + DEFAULT_LIMIT)[i + 2] == 'S';
  }

  const QUOTE_EXAMPLE := "SELECT '\\'; SELECT 2 --'"

  lemma TokenStep(s: string, a: nat, b: nat, i: nat)
    requires a < |s| && TokenEnd(s, a) == b <= i && Starts(s, b, i)
    ensures Starts(s, a, i)
  {}

  lemma {:induction false} IdentifierUntil(s: string, i: nat, end: nat)
    requires i <= end < |s| && (forall k :: i <= k < end ==> IdentPart(s[k])) && !IdentPart(s[end])
    ensures IdentEnd(s, i) == end
    decreases end - i
  {
    if i < end {
      IdentifierUntil(s, i + 1, end);
    }
  }

  /** The first word of a text, and the blank behind it. */
  lemma SelectToken(r: string, i: nat)
    requires |r| > 7 && r[..7] == "SELECT " && 7 <= i && Starts(r, 7, i)
    ensures Starts(r, 0, i)
  {
    assert forall k :: 0 <= k < 7 ==> r[k] == "SELECT "[k];
    IdentifierUntil(r, 1, 6);
    assert TokenEnd(r, 0) == 6 && TokenEnd(r, 6) == 7;
    TokenStep(r, 6, 7, i);
    TokenStep(r, 0, 6, i);
  }

  lemma QuoteTokens(r: string)
    requires |r| > 11 && r[..11] == QUOTE_EXAMPLE[..11]
    ensures SqlSeparator(r, 10)
  {
    assert forall k :: 0 <= k < 11 ==> r[k] == QUOTE_EXAMPLE[k];
    assert r[7] == '\'' && r[8] == '\\' && r[9] == '\'' && r[10] == ';';
    assert QuoteEnd(r, 9, '\'', false) == 10;
    assert QuoteEnd(r, 8, '\'', false) == 10;
    assert TokenEnd(r, 7) == 10;
    TokenStep(r, 7, 10, 10);
    assert r[..7] == "SELECT ";
    SelectToken(r, 10);
  }

  /** The scanner is inside the quotes at the semicolon, because of the backslash. */
  lemma QuoteScanned(s: string)
    requires s == QUOTE_EXAMPLE
    ensures !MultipleStatements(s)
  {
    QuietRun(s, 0, 7);
    assert ModeAt(s, 8) == InSingle && ModeAt(s, 9) == SkipInSingle && ModeAt(s, 10) == InSingle;
    assert forall i :: 0 <= i < |s| && s[i] == ';' ==> i == 10;
  }

  lemma QuoteText(s: string)
    requires s == QUOTE_EXAMPLE
    ensures OkayText(s) && Spaced(s) && Free(s, 'X') && Free(s, 'O')
  {}

  /** Accepted and returned as one statement, because a backslash seems to hide a quote; the database reads a second one. */
  lemma QuoteExample()
    ensures HidesSecond(QUOTE_EXAMPLE)
  {
    var s := QUOTE_EXAMPLE;
    QuoteText(s);
    QuoteScanned(s);
    assert (s + DEFAULT_LIMIT)[..11] == s[..11];
    QuoteTokens(s + DEFAULT_LIMIT);
    SecondStatement(s, 10);
  }

  // ---------------------------------------------------------------- a quote in a comment

  const COMMENT_EXAMPLE := "SELECT 1 /*'*/; SELECT 2 /*'*/"

  /** A number, a blank, a comment of a quote, and a semicolon. */
  predicate CommentChars(r: string) {
    && |r| > 15 && r[7] == '1' && r[8] == ' ' && r[9] == '/' && r[10] == '*' && r[11] == '\'' && r[12] == '*' && r[13] == '/'
    && r[14] == ';'
  }

  lemma CommentTokens(r: string)
    requires CommentChars(r)
    ensures Starts(r, 7, 14)
  {
    assert BlockEnd(r, 12, 1) == Some(14);
    assert TokenEnd(r, 9) == 14 && TokenEnd(r, 8) == 9 && TokenEnd(r, 7) == 8;
    TokenStep(r, 9, 14, 14);
    TokenStep(r, 8, 9, 14);
    TokenStep(r, 7, 8, 14);
  }

  lemma CommentFront(s: string)
    requires s == COMMENT_EXAMPLE
    ensures CommentChars(s) && s[..7] == "SELECT "
  {
    assert s[7] == '1' && s[8] == ' ' && s[9] == '/' && s[10] == '*' && s[11] == '\'';
  }

  lemma SameFront(s: string, limit: string)
    requires CommentChars(s)
    ensures CommentChars(s + limit) && (s + limit)[..7] == s[..7]
  {}

  lemma CommentScanned(s: string)
    requires s == COMMENT_EXAMPLE
    ensures !MultipleStatements(s)
  {
    QuietRun(s, 0, 11);
    assert ModeAt(s, 12) == InSingle && ModeAt(s, 13) == InSingle && ModeAt(s, 14) == InSingle;
    assert forall i :: 0 <= i < |s| && s[i] == ';' ==> i == 14;
  }

  lemma CommentText(s: string)
    requires s == COMMENT_EXAMPLE
    ensures OkayText(s) && Spaced(s) && Free(s, 'X') && Free(s, 'O')
  {}

  /** Accepted and returned as one statement, because the quotes in two comments seem to enclose the semicolon. */
  lemma CommentExample()
    ensures HidesSecond(COMMENT_EXAMPLE)
  {
    var s := COMMENT_EXAMPLE;
    CommentText(s);
    CommentScanned(s);
    CommentFront(s);
    SameFront(s, DEFAULT_LIMIT);
    CommentTokens(s + DEFAULT_LIMIT);
    SelectToken(s + DEFAULT_LIMIT, 14);
    SecondStatement(s, 14);
  }

  // ---------------------------------------------------------------- a final COPY

  const COPY_EXAMPLE := "SELECT XCOPY"

  lemma CopyText(s: string)
    requires s == COPY_EXAMPLE
    ensures OkayText(s) && Spaced(s) && Free(s, ';')
  {}

  /** It is not a word of its own, and no blank is behind it. */
  lemma CopyIsHidden(s: string)
    requires s == COPY_EXAMPLE
    ensures !HasWord(s, "EXEC") && !HasWord(s, "COPY") && !HasPattern(s, COPY_PATTERN)
  {
    forall i: int ensures !WholeWordAt(s, "EXEC", i) && !WholeWordAt(s, "COPY", i) {
      if 0 <= i <= 8 {
        assert s[i..i + 4] == [s[i], s[i + 1], s[i + 2], s[i + 3]];
      }
    }
    forall i: nat, b: nat ensures !MatchesAt(s, COPY_PATTERN, i, b, "") {
      if i + 4 < 12 {
        assert s[i..i + 4] == [s[i], s[i + 1], s[i + 2], s[i + 3]];
      }
    }
  }

  lemma CopyAtItsEnd(s: string)
    requires s == COPY_EXAMPLE
    ensures EndsInCopy(s) && Trunk(s) == TrimSemicolons(s) == s
  {
    assert Upper(s)[8..] == "COPY";
  }

  lemma OneSelect(s: string)
    requires OkayText(s) && Spaced(s) && Free(s, ';') && 6 <= |s| <= MAX_QUERY_LENGTH && s[..6] == "SELECT" && s[|s| - 1] != ' '
    requires !HasWord(s, "EXEC") && !HasWord(s, "COPY") && !HasPattern(s, COPY_PATTERN)
    ensures Acceptable(s) && Normalize(s) == s && !HasLimit(s)
  {
    assert s[0] == "SELECT"[0];
    OkayIsPlain(s);
    AlreadyNormal(s);
    StartsHere(s);
    FewAreAccepted(s, s);
    NoLimitHere(s);
  }

  lemma CopyIsAccepted(s: string)
    requires s == COPY_EXAMPLE
    ensures Acceptable(s) && Normalize(s) == s && !HasLimit(s)
  {
    CopyText(s);
    CopyIsHidden(s);
    assert s[..6] == "SELECT";
    OneSelect(s);
  }

  /** Accepted, but the query returned has a dangerous pattern, which the default limit completes, and is rejected. */
  lemma CopyExample()
    ensures Acceptable(COPY_EXAMPLE) && HasPattern(Upper(Returned(COPY_EXAMPLE)), COPY_PATTERN)
    ensures !Acceptable(Returned(COPY_EXAMPLE))
  {
    var s := COPY_EXAMPLE;
    CopyIsAccepted(s);
    CopyAtItsEnd(s);
    ReturnedIsWellBehaved(s);
    RevalidatesIff(s);
  }

  // ---------------------------------------------------------------- a line comment

  const LINE_EXAMPLE := "--\nSELECT"

  lemma NewlineAt(s: string)
    requires s == LINE_EXAMPLE
    ensures Find(s, "\n") == Some(2)
  {
    FindIsFirst(s, "\n");
    assert s[0..][0] == '-' && s[1..][0] == '-' && s[2..][0] == '\n';
    assert "\n" <= s[2..];
  }

  lemma LineHead(s: string)
    requires s == LINE_EXAMPLE
    ensures Strip(s) == s && "--" <= s && HeadComment(s) == 3 && s[3..] == "SELECT"
  {
    assert s[0] == '-' && s[1] == '-' && s[|s| - 1] == 'T';
    StripTrimmed(s);
    TwoChars(s, '-', '-');
    NewlineAt(s);
  }

  /** A word of its own. */
  lemma WordAlone(t: string)
    requires t != "" && (forall i :: 0 <= i < |t| ==> !IsBlank(t[i])) && t[0] != '-' && t[0] != '/'
    ensures StripComments(t) == t && Squeeze(t) == t
  {
    NoHead(t);
    StripTrimmed(t);
    SqueezeSqueezed(t);
  }

  lemma SelectAlone(t: string)
    requires t == "SELECT"
    ensures t[0] == 'S' && Upper(t) == t && forall i :: 0 <= i < |t| ==> !IsBlank(t[i])
  {}

  lemma LineText(s: string)
    requires s == LINE_EXAMPLE
    ensures Strip(s) == s != "" && StripComments(s) == "SELECT" && StartsSelect(s) && LedByLineComment(s)
  {
    LineHead(s);
    SelectAlone(s[3..]);
    WordAlone(s[3..]);
    StripCommentsStep(s);
  }

  lemma SqueezeNewline(a: string, t: string)
    requires SingleSpaced(a) && a != "" && !IsBlank(a[0]) && !IsBlank(a[|a| - 1])
    requires t != "" && !IsBlank(t[0]) && Squeeze(t) == t
    ensures Normalize(a + ("\n" + t)) == a + (" " + t)
  {
    assert ("\n" + t)[1] == t[0];
    SqueezeAppend(a, "\n" + t);
    assert ("\n" + t)[1..] == t;
    NormalizeIsSqueeze(a + ("\n" + t));
  }

  lemma LineParts(s: string)
    requires s == LINE_EXAMPLE
    ensures s == "--" + ("\n" + "SELECT")
  {}

  lemma LineNormal(s: string, t: string)
    requires s == "--" + ("\n" + t) && t == "SELECT"
    ensures Normalize(s) == "--" + (" " + t)
  {
    SelectAlone(t);
    WordAlone(t);
    SqueezeNewline("--", t);
  }

  lemma LineIsHarmless(n: string)
    requires n == "--" + (" " + "SELECT")
    ensures Upper(n) == n && FewLetters(n) && Free(n, 'X') && Free(n, 'O') && Free(n, ';') && |n| == 9
  {}

  /** Acceptance by the normal form, where that has no semicolon. */
  lemma HarmlessIsAccepted(s: string, n: string)
    requires n == Normalize(s) && Upper(n) == n && FewLetters(n) && |n| <= MAX_QUERY_LENGTH
    requires Free(n, 'X') && Free(n, 'O') && Free(n, ';') && Strip(s) != "" && StartsSelect(s)
    ensures Acceptable(s)
  {
    assert "EXEC"[1] == 'X' && "COPY"[1] == 'O';
    NoWordOfOthers(n, "EXEC", 'X');
    NoWordOfOthers(n, "COPY", 'O');
    NoPatternOfOthers(n, COPY_PATTERN, 'O');
    FewAreAccepted(s, n);
  }

  lemma LineIsAccepted(s: string)
    requires s == LINE_EXAMPLE
    ensures Acceptable(s)
  {
    LineText(s);
    LineParts(s);
    LineNormal(s, "SELECT");
    LineIsHarmless(Normalize(s));
    HarmlessIsAccepted(s, Normalize(s));
  }

  lemma CommentTakesAll(q: string)
    requires "--" <= q && Normalize(q) == q
    ensures StripComments(q) == ""
  {
    NormalizeKeepsText(q);
    SingleSpacedLine(q);
    StripStep(q);
  }

  lemma LimitBehind(n: string)
    requires n != "" && !IsBlank(n[|n| - 1]) && n[|n| - 1] != ';'
    ensures Trunk(n) == TrimSemicolons(n) == n
  {}

  lemma DashesInFront(n: string, limit: string)
    requires "--" <= n
    ensures "--" <= n + limit
  {
    TwoChars(n, '-', '-');
    TwoChars(n + limit, '-', '-');
  }

  lemma LineLast(n: string)
    requires n == "--" + (" " + "SELECT")
    ensures Free(n, 'M') && "--" <= n && n[|n| - 1] == 'T'
  {}

  /** Accepted as a SELECT; the query returned is all comment, and is rejected. */
  lemma LineCommentExample()
    ensures Acceptable(LINE_EXAMPLE) && StripComments(LINE_EXAMPLE) == "SELECT"
    ensures StripComments(Returned(LINE_EXAMPLE)) == "" && !Acceptable(Returned(LINE_EXAMPLE))
  {
    var s, n := LINE_EXAMPLE, Normalize(LINE_EXAMPLE);
    LineIsAccepted(s);
    LineText(s);
    LineParts(s);
    LineNormal(s, "SELECT");
    LineIsHarmless(n);
    LineLast(n);
    NoLimitHere(n);
    LimitBehind(n);
    DashesInFront(n, DEFAULT_LIMIT);
    NormalizeReturned(s);
    CommentTakesAll(Returned(s));
    RevalidatesIff(s);
  }
}
