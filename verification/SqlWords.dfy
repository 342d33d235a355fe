/** What the regular expressions of the SQL validator find, said without positions. */
module SqlWords {
  import opened SqlComments
  import opened SqlScanner
  import opened SqlValidator
  import opened Strings

  predicate WordChar(c: char) { 'A' <= c <= 'Z' || 'a' <= c <= 'z' || '0' <= c <= '9' || c == '_' }

  predicate IsWordText(w: string) { w != "" && forall i :: 0 <= i < |w| ==> WordChar(w[i]) }

  /** The word characters at the head of a text. */
  function HeadWord(s: string): (w: string)
    ensures w <= s && (|w| < |s| ==> !WordChar(s[|w|])) && forall i :: 0 <= i < |w| ==> WordChar(w[i])
  {
    if s == "" || !WordChar(s[0]) then "" else [s[0]] + HeadWord(s[1..])
  }

  /** The words of a text: its longest runs of word characters. */
  function WordsIn(s: string): seq<string>
    decreases |s|
  {
    if s == "" then []
    else if !WordChar(s[0]) then WordsIn(s[1..])
    else [HeadWord(s)] + WordsIn(s[|HeadWord(s)|..])
  }

  lemma WholeWordLater(s: string, w: string, n: nat, i: int)
    requires IsWordText(w) && 0 < n <= |s| && i >= n && (!WordChar(s[n - 1]) || i > n)
    ensures WholeWordAt(s, w, i) <==> WholeWordAt(s[n..], w, i - n)
  {
    if i + |w| <= |s| {
      assert s[i..i + |w|] == s[n..][i - n..i - n + |w|];
    }
  }

  /** A text that starts with no word character has its words behind that one. */
  lemma WordBehind(s: string, w: string)
    requires IsWordText(w) && s != "" && !WordChar(s[0])
    ensures HasWord(s, w) <==> HasWord(s[1..], w)
  {
    if HasWord(s, w) {
      WordIsBehind(s, w);
    }
    if HasWord(s[1..], w) {
      var i :| 0 <= i <= |s[1..]| && WholeWordAt(s[1..], w, i);
      WholeWordLater(s, w, 1, i + 1);
    }
  }

  lemma WordIsBehind(s: string, w: string)
    requires IsWordText(w) && s != "" && !WordChar(s[0]) && HasWord(s, w)
    ensures HasWord(s[1..], w)
  {
    var i :| 0 <= i <= |s| && WholeWordAt(s, w, i);
    NotHere(s, w, 0);
    WholeWordLater(s, w, 1, i);
  }

  lemma NotHere(s: string, w: string, i: int)
    requires IsWordText(w) && 0 <= i < |s| && !WordChar(s[i])
    ensures !WholeWordAt(s, w, i)
  {
    if i + |w| <= |s| {
      assert s[i..i + |w|][0] == s[i];
    }
  }

  /** At the head the word can only be the whole run. */
  lemma WordAtHead(s: string, w: string, n: nat)
    requires IsWordText(w) && n == |HeadWord(s)| > 0
    ensures WholeWordAt(s, w, 0) <==> w == HeadWord(s)
    ensures forall i :: 0 < i < n ==> !WholeWordAt(s, w, i)
  {
    assert HeadWord(s) == s[..n];
    assert s[0..n] == s[..n];
    if WholeWordAt(s, w, 0) {
      assert s[0..|w|] == s[..|w|];
      assert forall i :: 0 <= i < |w| ==> s[i] == w[i];
    }
  }

  lemma {:induction false} WordPast(s: string, w: string, n: nat)
    requires IsWordText(w) && n == |HeadWord(s)| > 0
    ensures HasWord(s, w) <==> w == HeadWord(s) || HasWord(s[n..], w)
  {
    WordAtHead(s, w, n);
    forall i | n < i ensures WholeWordAt(s, w, i) <==> WholeWordAt(s[n..], w, i - n) {
      WholeWordLater(s, w, n, i);
    }
    NotAtTheCut(s, w, n);
    if HasWord(s, w) {
      var i :| 0 <= i <= |s| && WholeWordAt(s, w, i);
      assert i > n ==> WholeWordAt(s[n..], w, i - n);
    }
    if HasWord(s[n..], w) {
      var i :| 0 <= i <= |s[n..]| && WholeWordAt(s[n..], w, i);
      assert WholeWordAt(s, w, i + n);
    }
  }

  lemma NotAtTheCut(s: string, w: string, n: nat)
    requires IsWordText(w) && n == |HeadWord(s)| > 0
    ensures !WholeWordAt(s, w, n) && !WholeWordAt(s[n..], w, 0)
  {
    if n < |s| {
      NotHere(s, w, n);
      NotHere(s[n..], w, 0);
    }
  }

  /** The search between word boundaries finds exactly the words of the text. */
  lemma {:induction false} HasWordIff(s: string, w: string)
    requires IsWordText(w)
    ensures HasWord(s, w) <==> w in WordsIn(s)
    decreases |s|
  {
    if s != "" {
      if !WordChar(s[0]) {
        WordBehind(s, w);
        HasWordIff(s[1..], w);
      } else {
        var n := |HeadWord(s)|;
        WordPast(s, w, n);
        HasWordIff(s[n..], w);
      }
    }
  }

  lemma KeywordsAreWords(k: string)
    requires k in FORBIDDEN_KEYWORDS
    ensures IsWordText(k)
  {
    KeywordsAreLike(k);
  }

  /** A query is stopped for a forbidden operation iff one of the keywords is among its words, in capitals. */
  lemma ForbiddenIff(sql: string, k: string)
    ensures Holds(ForbiddenOperation(k), sql) <==> k in FORBIDDEN_KEYWORDS && k in WordsIn(Upper(Normalize(sql)))
  {
    if k in FORBIDDEN_KEYWORDS {
      KeywordsAreWords(k);
      HasWordIff(Upper(Normalize(sql)), k);
    }
  }

  // ---------------------------------------------------------------- patterns

  /** The text is something, the head, at least so many blanks, a tail, and something. */
  ghost predicate Matched(s: string, p: Pattern, front: string, blanks: string, tail: string, back: string) {
    && s == front + p.head + blanks + tail + back && AllBlank(blanks) && |blanks| >= p.blanks && tail in p.tails
  }

  lemma PatternFound(s: string, p: Pattern, front: string, blanks: string, tail: string, back: string)
    requires Matched(s, p, front, blanks, tail, back)
    ensures HasPattern(s, p)
  {
    var i, b := |front|, |blanks|;
    assert s[i..i + |p.head|] == p.head;
    assert s[i + |p.head|..i + |p.head| + b] == blanks;
    assert s[i + |p.head| + b..i + |p.head| + b + |tail|] == tail;
    assert MatchesAt(s, p, i, b, tail);
  }

  lemma PatternMatched(s: string, p: Pattern)
    requires HasPattern(s, p)
    ensures exists front, blanks, tail, back :: Matched(s, p, front, blanks, tail, back)
  {
    var i, b, t :| 0 <= i <= |s| && 0 <= b <= |s| && t in p.tails && MatchesAt(s, p, i, b, t);
    var h := i + |p.head|;
    var front, blanks, back := s[..i], s[h..h + b], s[h + b + |t|..];
    assert s == front + p.head + blanks + t + back;
    assert Matched(s, p, front, blanks, t, back);
  }

  /** The search finds a pattern exactly in texts of that form. */
  lemma HasPatternIff(s: string, p: Pattern)
    ensures HasPattern(s, p) <==> exists front, blanks, tail, back :: Matched(s, p, front, blanks, tail, back)
  {
    if HasPattern(s, p) {
      PatternMatched(s, p);
    }
    if exists front, blanks, tail, back :: Matched(s, p, front, blanks, tail, back) {
      var front, blanks, tail, back :| Matched(s, p, front, blanks, tail, back);
      PatternFound(s, p, front, blanks, tail, back);
    }
  }

  // ---------------------------------------------------------------- what is accepted

  /** The text behind blanks and comments starts with the word, in any case. */
  lemma StartsSelectIff(sql: string)
    ensures StartsSelect(sql) <==>
      var t := StripComments(sql); |t| >= 6 && SameLetters("SELECT", t[..6])
  {
    assert Upper("SELECT") == "SELECT";
    UpperPrefixIff("SELECT", StripComments(sql));
  }

  /** The word stands somewhere in the text, in any case. */
  predicate LimitAt(s: string, i: int) { 0 <= i <= |s| - 5 && SameLetters("LIMIT", s[i..i + 5]) }

  lemma LimitHere(s: string, i: nat)
    requires i <= |s|
    ensures "LIMIT" <= Upper(s)[i..] <==> LimitAt(s, i)
  {
    assert Upper("LIMIT") == "LIMIT";
    assert Upper(s)[i..] == Upper(s[i..]);
    UpperPrefixIff("LIMIT", s[i..]);
    if i <= |s| - 5 {
      assert s[i..][..5] == s[i..i + 5];
    }
  }

  lemma HasLimitIff(s: string)
    ensures HasLimit(s) <==> exists i :: LimitAt(s, i)
  {
    forall i: nat | i <= |s| ensures "LIMIT" <= Upper(s)[i..] <==> LimitAt(s, i) {
      LimitHere(s, i);
    }
    if HasLimit(s) {
      var i :| 0 <= i <= |Upper(s)| && "LIMIT" <= Upper(s)[i..];
      assert LimitAt(s, i);
    }
    if i: nat :| LimitAt(s, i) {
      assert "LIMIT" <= Upper(s)[i..];
    }
  }

  ghost predicate SomethingThere(sql: string) { exists i :: 0 <= i < |sql| && !IsBlank(sql[i]) }

  ghost predicate NoKeywordAmong(words: seq<string>) { forall k :: k in FORBIDDEN_KEYWORDS ==> k !in words }

  ghost predicate NothingMatched(s: string) {
    forall p, front, blanks, tail, back :: p in DANGEROUS_PATTERNS ==> !Matched(s, p, front, blanks, tail, back)
  }

  /**
   A query is accepted exactly if it is not blank; its normal form has at most 2000 characters,
   no forbidden word among its words, no text behind a semicolon outside quotes, and no part
   that a dangerous pattern matches; and it starts with SELECT behind blanks and comments.
   */
  lemma AcceptableIff(sql: string)
    ensures var n, t := Normalize(sql), StripComments(sql);
            Acceptable(sql) <==>
              && SomethingThere(sql) && |n| <= 2000 && NoKeywordAmong(WordsIn(Upper(n)))
              && |t| >= 6 && SameLetters("SELECT", t[..6])
              && !MultipleStatements(n) && NothingMatched(Upper(n))
  {
    var n := Normalize(sql);
    StartsSelectIff(sql);
    StripTrimmed(sql);
    ForbiddenWords(sql);
    DangerousParts(sql);
    if Acceptable(sql) {
      NoOther(sql);
    } else {
      var why: Objection :| Holds(why, sql);
      SomeObjection(sql, why);
    }
  }

  ghost predicate SomeKeyword(sql: string) { exists k :: Holds(ForbiddenOperation(k), sql) }

  ghost predicate SomePattern(sql: string) { exists p :: Holds(DangerousPattern(p), sql) }

  lemma ForbiddenWords(sql: string)
    ensures SomeKeyword(sql) <==> !NoKeywordAmong(WordsIn(Upper(Normalize(sql))))
    ensures Acceptable(sql) ==> !SomeKeyword(sql)
  {
    forall k ensures Holds(ForbiddenOperation(k), sql)
                     <==> k in FORBIDDEN_KEYWORDS && k in WordsIn(Upper(Normalize(sql)))
    {
      ForbiddenIff(sql, k);
    }
  }

  lemma DangerousParts(sql: string)
    ensures SomePattern(sql) <==> !NothingMatched(Upper(Normalize(sql)))
    ensures Acceptable(sql) ==> !SomePattern(sql)
  {
    var u := Upper(Normalize(sql));
    forall p ensures Holds(DangerousPattern(p), sql)
                     <==> p in DANGEROUS_PATTERNS && exists front, blanks, tail, back :: Matched(u, p, front, blanks, tail, back)
    {
      HasPatternIff(u, p);
    }
  }

  lemma {:induction false} SomeObjection(sql: string, why: Objection)
    requires Holds(why, sql)
    ensures Strip(sql) == "" || |Normalize(sql)| > 2000 || SomeKeyword(sql) || !StartsSelect(sql)
            || MultipleStatements(Normalize(sql)) || SomePattern(sql)
  {}
}
