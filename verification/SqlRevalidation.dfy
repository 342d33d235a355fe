/**
 The query that validate_query returns against the query it checked: comments are looked at
 in the text with its newlines, but the text returned has none.
 */
module SqlRevalidation {
  import opened Common
  import opened SqlComments
  import opened SqlValidator
  import opened Strings

  // ---------------------------------------------------------------- normalizing twice

  lemma {:induction false} SqueezeSqueezed(s: string)
    requires SingleSpaced(s) && (s == "" || !IsBlank(s[|s| - 1]))
    ensures Squeeze(s) == s
  {
    if s != "" {
      assert forall i :: 0 <= i < |s| - 1 ==> s[1..][i] == s[i + 1];
      SqueezeSqueezed(s[1..]);
      assert s == [s[0]] + s[1..];
      assert !IsBlank(s[|s| - 1]);
    }
  }

  lemma NormalizeTwice(s: string)
    ensures Normalize(Normalize(s)) == Normalize(s)
  {
    NormalizeKeepsText(s);
    NormalizeIsSqueeze(Normalize(s));
    SqueezeSqueezed(Normalize(s));
  }

  lemma {:induction false} SqueezeBlankTail(s: string, blanks: string)
    requires AllBlank(blanks)
    ensures Squeeze(s + blanks) == Squeeze(s)
  {
    if s == "" {
      assert s + blanks == blanks;
    } else {
      assert (s + blanks)[1..] == s[1..] + blanks;
      SqueezeBlankTail(s[1..], blanks);
      assert forall i :: 0 <= i < |s| ==> (s + blanks)[i] == s[i];
      assert AllBlank(s + blanks) <==> AllBlank(s);
    }
  }

  lemma SqueezeRStrip(t: string)
    ensures Squeeze(RStrip(t)) == Squeeze(t)
  {
    var x := RStrip(t);
    assert t == x + t[|x|..];
    SqueezeBlankTail(x, t[|x|..]);
  }

  lemma SqueezeStripped(s: string)
    ensures Normalize(s) == Squeeze(Strip(s))
  {
    NormalizeIsSqueeze(s);
    SqueezeRStrip(LStrip(s));
  }

  // ---------------------------------------------------------------- comments and blanks

  /** Squeezing keeps the first closing of a comment, and what comes after it. */
  predicate ClosesAlike(s: string) {
    var end, end' := Find(s, "*/"), Find(Squeeze(s), "*/");
    if end.None? then end'.None?
    else end'.Some? && Squeeze(s)[end'.value + 2..] == Squeeze(s[end.value + 2..])
  }

  lemma {:induction false} FindSqueezed(s: string)
    ensures ClosesAlike(s)
  {
    if "*/" <= s {
      StarSlash(s);
    } else if AllBlank(s) {
      NoStar(s);
      SqueezeEnds(s);
    } else {
      FindSqueezed(s[1..]);
      FindSqueezedStep(s);
      ClosesLater(s);
    }
  }

  lemma OneLater(s: string, k: nat)
    requires k < |s|
    ensures s[k + 1..] == s[1..][k..]
  {}

  lemma {:induction false} FindLater(s: string)
    requires s != "" && !("*/" <= s)
    ensures var at := Find(s[1..], "*/"); Find(s, "*/") == if at.None? then None else Some(at.value + 1)
  {}

  /** A character or a blank more in front of both texts, or of the first only. */
  lemma ClosesLater(s: string)
    requires s != "" && !("*/" <= s) && ClosesAlike(s[1..])
    requires Squeeze(s) == Squeeze(s[1..]) || (Squeeze(s) != "" && Squeeze(s)[1..] == Squeeze(s[1..]) && !("*/" <= Squeeze(s)))
    ensures ClosesAlike(s)
  {
    var end := Find(s[1..], "*/");
    FindLater(s);
    if end.Some? {
      OneLater(s, end.value + 2);
    }
    if Squeeze(s) != Squeeze(s[1..]) {
      RestLater(Squeeze(s));
    }
  }

  lemma {:induction false} RestLater(z: string)
    requires z != "" && !("*/" <= z)
    ensures var at, at' := Find(z[1..], "*/"), Find(z, "*/");
            && (at'.Some? <==> at.Some?)
            && (at.Some? ==> z[at'.value + 2..] == z[1..][at.value + 2..])
  {
    FindLater(z);
    var at := Find(z[1..], "*/");
    if at.Some? {
      OneLater(z, at.value + 2);
    }
  }

  /** Past the first character, or past the first blank of several. */
  lemma {:induction false} FindSqueezedStep(s: string)
    requires !("*/" <= s) && !AllBlank(s)
    ensures Squeeze(s) == Squeeze(s[1..]) || (Squeeze(s) != "" && Squeeze(s)[1..] == Squeeze(s[1..]) && !("*/" <= Squeeze(s)))
  {
    if !IsBlank(s[0]) {
      NotStarSlash(s);
      assert Squeeze(s)[1..] == Squeeze(s[1..]);
    } else if !IsBlank(s[1]) {
      assert Squeeze(s)[1..] == Squeeze(s[1..]);
      assert Squeeze(s)[0] == ' ';
    }
  }

  lemma StarSlash(s: string)
    requires "*/" <= s
    ensures Find(Squeeze(s), "*/") == Some(0) && Squeeze(s)[2..] == Squeeze(s[2..])
  {
    assert s[0] == '*' && s[1..][0] == '/' && s[1..][1..] == s[2..];
    assert Squeeze(s) == "*" + ("/" + Squeeze(s[2..]));
  }

  lemma NotStarSlash(s: string)
    requires s != "" && !IsBlank(s[0]) && !("*/" <= s)
    ensures !("*/" <= Squeeze(s))
  {
    SqueezeEnds(s[1..]);
    TwoChars(s, '*', '/');
    TwoChars(Squeeze(s), '*', '/');
    assert |Squeeze(s)| >= 2 ==> Squeeze(s)[1] == Squeeze(s[1..])[0];
  }

  /** A line comment is among what the stripper cuts off. */
  predicate LedByLineComment(s: string)
    decreases |s|
  {
    var r := Strip(s);
    "--" <= r || (HeadComment(r) > 0 && LedByLineComment(r[HeadComment(r)..]))
  }

  lemma HeadSurvives(r: string)
    requires Trimmed(r) && |r| >= 2
    ensures var n := Squeeze(r);
            && |n| >= 2 && n[0] == r[0] && (IsBlank(r[1]) ==> n[1] == ' ') && (!IsBlank(r[1]) ==> n[1] == r[1])
  {
    SqueezeEnds(r);
    SqueezeEnds(r[1..]);
    assert r[1..][|r| - 2] == r[|r| - 1];
    assert !AllBlank(r[1..]);
  }

  /** Normalizing neither makes nor removes a comment at the head of a trimmed text. */
  lemma HeadKindSurvives(r: string)
    requires Trimmed(r)
    ensures "--" <= r <==> "--" <= Squeeze(r)
    ensures "/*" <= r <==> "/*" <= Squeeze(r)
  {
    if |r| >= 2 {
      HeadSurvives(r);
    } else if |r| == 1 {
      assert r[1..] == "" && Squeeze(r) == r;
    }
    TwoChars(r, '-', '-');
    TwoChars(r, '/', '*');
    TwoChars(Squeeze(r), '-', '-');
    TwoChars(Squeeze(r), '/', '*');
  }

  lemma StripAfterSpace(x: string)
    requires Trimmed(x) && x != ""
    ensures Strip(" " + x) == x
  {
    assert (" " + x)[1..] == x;
    StripTrimmed(x);
  }

  lemma {:induction false} StripSqueezed(t: string)
    ensures Strip(Squeeze(t)) == Normalize(t)
  {
    NormalizeIsSqueeze(t);
    LStripEmpty(t);
    if AllBlank(t) {
      SqueezeEnds(t);
    } else if IsBlank(t[0]) {
      SqueezeGap(t);
      SqueezeEnds(LStrip(t));
      StripAfterSpace(Normalize(t));
    } else {
      StripTrimmed(Normalize(t));
    }
  }

  lemma {:induction false} NoNewlineInside(s: string)
    requires Free(s, '\n')
    ensures Find(s, "\n").None?
  {
    if s != "" {
      assert s[0] != '\n';
      NoNewlineInside(s[1..]);
    }
  }

  lemma SingleSpacedLine(n: string)
    requires SingleSpaced(n)
    ensures Find(n, "\n").None?
  {
    assert forall i :: 0 <= i < |n| ==> n[i] != '\n';
    NoNewlineInside(n);
  }

  /** The text behind the block comment at the head, if it is closed, is the same but for blanks. */
  lemma RestOfBlock(r: string)
    requires Trimmed(r) && "/*" <= r
    ensures var n := Squeeze(r);
            && "/*" <= n && (Find(n, "*/").Some? <==> Find(r, "*/").Some?)
            && (if Find(r, "*/").Some? then n[HeadComment(n)..] == Squeeze(r[HeadComment(r)..])
                else HeadComment(n) == |n| && r[HeadComment(r)..] == "")
  {
    HeadKindSurvives(r);
    HeadIsBlock(r);
    HeadIsBlock(Squeeze(r));
    FindSqueezed(r);
  }

  /** A block comment at the head: stripping goes on with the same rest. */
  lemma {:induction false} BlockSurvives(s: string)
    requires "/*" <= Strip(s)
    ensures StripComments(Normalize(s)) == StripComments(Normalize(Strip(s)[HeadComment(Strip(s))..]))
  {
    var r, n := Strip(s), Normalize(s);
    StripTrimmed(s);
    SqueezeStripped(s);
    NormalizeKeepsText(s);
    RestOfBlock(r);
    StripStep(n);
    var rest := r[HeadComment(r)..];
    if Find(r, "*/").Some? {
      StripSqueezed(rest);
    } else {
      NormalizeIsSqueeze("");
      StripNothing(Normalize(rest));
    }
  }

  /** A line comment at the head: in the normal form it takes the whole text. */
  lemma LineSwallows(s: string)
    requires "--" <= Strip(s)
    ensures StripComments(Normalize(s)) == ""
  {
    var n := Normalize(s);
    StripTrimmed(s);
    SqueezeStripped(s);
    NormalizeKeepsText(s);
    HeadKindSurvives(Strip(s));
    SingleSpacedLine(n);
    StripStep(n);
  }

  lemma NoHeadSurvives(r: string)
    requires Trimmed(r) && HeadComment(r) == 0
    ensures HeadComment(Squeeze(r)) == 0
  {
    HeadKindSurvives(r);
  }

  lemma {:induction false} NoCommentSurvives(s: string)
    requires HeadComment(Strip(s)) == 0
    ensures StripComments(Normalize(s)) == Normalize(s) == Normalize(StripComments(s))
  {
    var r := Strip(s);
    StripTrimmed(s);
    StripTrimmed(r);
    SqueezeStripped(s);
    SqueezeStripped(r);
    NoHeadSurvives(r);
    NormalizeIsSqueeze(s);
    StripStep(Normalize(s));
  }

  lemma {:induction false} StripNormalized(s: string)
    ensures StripComments(Normalize(s)) == if LedByLineComment(s) then "" else Normalize(StripComments(s))
    decreases |s|
  {
    var r := Strip(s);
    if "--" <= r {
      LineSwallows(s);
    } else if HeadComment(r) == 0 {
      NoCommentSurvives(s);
    } else {
      BlockSurvives(s);
      StripNormalized(r[HeadComment(r)..]);
    }
  }

  // ---------------------------------------------------------------- still a SELECT?

  lemma {:induction false} SqueezeKeepsPrefix(s: string, w: string)
    requires forall i :: 0 <= i < |w| ==> !IsBlank(w[i])
    ensures s != "" && !IsBlank(s[0]) ==> (w <= Upper(s) <==> w <= Upper(Squeeze(s)))
    decreases |w|
  {
    if w != "" && s != "" && !IsBlank(s[0]) {
      SqueezeKeepsPrefix(s[1..], w[1..]);
      PrefixStep(s, w);
      if w[1..] != "" && (s[1..] == "" || IsBlank(s[1..][0])) {
        NoWordHere(s[1..], w[1..]);
      }
    }
  }

  /** The first characters of both texts are the same. */
  lemma PrefixStep(s: string, w: string)
    requires w != "" && s != "" && !IsBlank(s[0])
    ensures w <= Upper(s) <==> w[0] == UpperChar(s[0]) && w[1..] <= Upper(s[1..])
    ensures w <= Upper(Squeeze(s)) <==> w[0] == UpperChar(s[0]) && w[1..] <= Upper(Squeeze(s[1..]))
  {
    var t := Squeeze(s);
    assert t[1..] == Squeeze(s[1..]) && t[0] == s[0];
    assert Upper(s)[1..] == Upper(s[1..]) && Upper(t)[1..] == Upper(t[1..]);
    PrefixCons(w, Upper(s));
    PrefixCons(w, Upper(t));
  }

  lemma {:induction false} NoWordHere(s: string, w: string)
    requires w != "" && !IsBlank(w[0]) && (s == "" || IsBlank(s[0]))
    ensures !(w <= Upper(s)) && !(w <= Upper(Squeeze(s)))
  {
    SqueezeEnds(s);
    assert s != "" ==> Upper(s)[0] == s[0];
    assert Squeeze(s) != "" ==> Upper(Squeeze(s))[0] == ' ';
  }

  lemma PrefixCons(w: string, s: string)
    requires w != "" && s != ""
    ensures w <= s <==> w[0] == s[0] && w[1..] <= s[1..]
  {
    if w[0] == s[0] && w[1..] <= s[1..] {
      assert w == [w[0]] + w[1..] && s == [s[0]] + s[1..];
    }
  }

  lemma PrefixSurvives(c: string, w: string)
    requires Trimmed(c) && w != "" && forall i :: 0 <= i < |w| ==> !IsBlank(w[i])
    ensures w <= Upper(Normalize(c)) <==> w <= Upper(c)
  {
    SqueezeStripped(c);
    StripTrimmed(c);
    if c == "" {
      assert Squeeze(c) == c;
    } else {
      SqueezeKeepsPrefix(c, w);
    }
  }

  lemma NormalFormStartsWithIff(sql: string, w: string)
    requires w != "" && forall i :: 0 <= i < |w| ==> !IsBlank(w[i])
    ensures w <= Upper(StripComments(Normalize(sql))) <==> w <= Upper(StripComments(sql)) && !LedByLineComment(sql)
  {
    StripNormalized(sql);
    if LedByLineComment(sql) {
      assert |Upper("")| == 0;
    } else {
      StripCommentsResult(sql);
      PrefixSurvives(StripComments(sql), w);
    }
  }

  /** The normal form of a query starts with SELECT exactly if the query does and no line comment leads it. */
  lemma NormalFormStartsSelectIff(sql: string)
    ensures StartsSelect(Normalize(sql)) <==> StartsSelect(sql) && !LedByLineComment(sql)
  {
    NormalFormStartsWithIff(sql, "SELECT");
  }

  // ---------------------------------------------------------------- the default limit

  /** StartsSelect without the blanks at the right end ever being cut. */
  predicate StartsWith(s: string, w: string)
    decreases |s|
  {
    var t := LStrip(s);
    if HeadComment(t) == 0 then w <= Upper(t) else StartsWith(t[HeadComment(t)..], w)
  }

  predicate IsWord(w: string) { w != "" && forall i :: 0 <= i < |w| ==> !IsBlank(w[i]) && w[i] != ';' }

  lemma {:induction false} RStripTail(s: string, blanks: string)
    requires AllBlank(blanks)
    ensures RStrip(s + blanks) == RStrip(s)
    decreases |blanks|
  {
    if blanks == "" {
      assert s + blanks == s;
    } else {
      assert (s + blanks)[..|s + blanks| - 1] == s + blanks[..|blanks| - 1];
      RStripTail(s, blanks[..|blanks| - 1]);
    }
  }

  lemma {:induction false} StripTail(s: string, blanks: string)
    requires AllBlank(blanks)
    ensures Strip(s + blanks) == Strip(s)
  {
    if s == "" {
      assert s + blanks == blanks;
      LStripEmpty(blanks);
    } else if IsBlank(s[0]) {
      assert (s + blanks)[1..] == s[1..] + blanks;
      StripTail(s[1..], blanks);
    } else {
      RStripTail(s, blanks);
    }
  }

  /** Characters appended after the text end no block comment unless they hold a slash. */
  lemma FindBeforeTail(t: string, a: string)
    requires Free(a, '/')
    ensures Find(t + a, "*/") == Find(t, "*/")
  {
    var whole := t + a;
    FindInPrefix(whole, "*/", |t|);
    assert whole[..|t|] == t;
    FindIsFirst(whole, "*/");
    assert forall j :: |t| <= j < |whole| ==> whole[j] == a[j - |t|];
    if Find(whole, "*/").Some? {
      var i := Find(whole, "*/").value;
      TwoChars(whole[i..], '*', '/');
      assert whole[i + 1] == '/';
    }
  }

  lemma HeadOfTail(t: string, a: string)
    requires Free(t + a, '\n') && Free(a, '/') && Free(a, '-') && Free(a, '*') && t != ""
    ensures HeadComment(t) == 0 <==> HeadComment(t + a) == 0
    ensures HeadComment(t + a) == HeadComment(t) || (HeadComment(t) == |t| && HeadComment(t + a) == |t + a|)
  {
    TwoChars(t, '-', '-');
    TwoChars(t + a, '-', '-');
    TwoChars(t, '/', '*');
    TwoChars(t + a, '/', '*');
    assert forall i :: 0 <= i < |a| ==> (t + a)[|t| + i] == a[i];
    assert forall i :: 0 <= i < |t| ==> (t + a)[i] == t[i];
    NoNewlineInside(t);
    NoNewlineInside(t + a);
    FindBeforeTail(t, a);
    if "/*" <= t {
      HeadIsBlock(t);
      HeadIsBlock(t + a);
    }
  }

  /** A tail that neither continues a word or a comment nor starts with the word itself. */
  predicate Harmless(a: string, w: string) {
    && Free(a, '/') && Free(a, '-') && Free(a, '*') && Free(a, '\n')
    && (a != "" ==> a[0] == ' ' || a[0] == ';')
    && !(w <= Upper(LStrip(a)))
  }

  lemma {:induction false} PrefixBeforeTail(w: string, s: string, a: string)
    requires IsWord(w) && (a != "" ==> IsBlank(a[0]) || a[0] == ';')
    ensures s != "" ==> (w <= Upper(s + a) <==> w <= Upper(s))
  {
    UpperConcat(s, a);
    var u := Upper(s);
    if |w| <= |u| {
      assert (u + Upper(a))[..|w|] == u[..|w|];
    } else if a != "" {
      assert (u + Upper(a))[|u|] == a[0] != w[|u|];
    }
  }

  lemma {:induction false} LStripBlankHead(p: string, a: string)
    requires AllBlank(p)
    ensures LStrip(p + a) == LStrip(a)
  {
    if p == "" {
      assert p + a == a;
    } else {
      assert (p + a)[1..] == p[1..] + a;
      LStripBlankHead(p[1..], a);
    }
  }

  lemma {:induction false} LStripTail(p: string, a: string)
    requires !AllBlank(p)
    ensures LStrip(p + a) == LStrip(p) + a
  {
    if IsBlank(p[0]) {
      assert (p + a)[1..] == p[1..] + a;
      assert forall i :: 0 < i < |p| ==> p[i] == p[1..][i - 1];
      LStripTail(p[1..], a);
    }
  }

  lemma BlankStartsNothing(p: string, w: string)
    requires AllBlank(p) && IsWord(w)
    ensures !StartsWith(p, w)
  {
    LStripEmpty(p);
    assert |Upper("")| == 0;
  }

  lemma {:induction false} StartsWithStep(p: string, w: string)
    ensures var t := LStrip(p);
            StartsWith(p, w) <==> if HeadComment(t) == 0 then w <= Upper(t) else StartsWith(t[HeadComment(t)..], w)
  {}

  lemma TailAfterBlanks(p: string, a: string, w: string)
    requires AllBlank(p) && Harmless(a, w) && IsWord(w)
    ensures !StartsWith(p + a, w) && !StartsWith(p, w)
  {
    LStripBlankHead(p, a);
    BlankStartsNothing(p, w);
    HarmlessHead(a);
    StartsWithStep(p + a, w);
  }

  lemma {:induction false} NoNewlineConcat(t: string, a: string)
    requires Free(t, '\n') && Free(a, '\n')
    ensures Free(t + a, '\n')
  {}

  lemma {:induction false} CutBoth(t: string, a: string, n: nat, m: nat)
    requires n <= |t| && (m == n || (n == |t| && m == |t + a|))
    ensures (t + a)[m..] == t[n..] + a || (t[n..] == "" && (t + a)[m..] == "")
  {}

  /** Either the same comment is cut off both, or the whole text. */
  lemma RestWithTail(t: string, a: string, w: string)
    requires Free(t, '\n') && Harmless(a, w) && t != "" && HeadComment(t) > 0
    ensures var rest, rest' := t[HeadComment(t)..], (t + a)[HeadComment(t + a)..];
            rest' == rest + a || (rest == "" && rest' == "")
  {
    var n, m := HeadComment(t), HeadComment(t + a);
    NoNewlineConcat(t, a);
    HeadOfTail(t, a);
    CutBoth(t, a, n, m);
  }

  lemma CommentOrNot(t: string, a: string, w: string)
    requires Free(t, '\n') && Harmless(a, w) && t != ""
    ensures HeadComment(t) == 0 <==> HeadComment(t + a) == 0
  {
    NoNewlineConcat(t, a);
    HeadOfTail(t, a);
  }

  /** The text after the blanks at the head, with the tail and without it. */
  lemma TextWithTail(p: string, a: string)
    requires !AllBlank(p) && Free(p, '\n')
    ensures LStrip(p + a) == LStrip(p) + a && Free(LStrip(p), '\n') && LStrip(p) != ""
  {
    LStripEmpty(p);
    LStripTail(p, a);
    LStripIsSuffix(p);
    SubNoNewline(p, LStrip(p), |p| - |LStrip(p)|);
  }

  lemma SameStart(p: string, q: string, w: string)
    requires HeadComment(LStrip(p)) == 0 && HeadComment(LStrip(q)) == 0
    requires w <= Upper(LStrip(p)) <==> w <= Upper(LStrip(q))
    ensures StartsWith(p, w) <==> StartsWith(q, w)
  {}

  lemma SameRest(p: string, q: string, w: string)
    requires HeadComment(LStrip(p)) > 0 && HeadComment(LStrip(q)) > 0
    requires StartsWith(LStrip(p)[HeadComment(LStrip(p))..], w) <==> StartsWith(LStrip(q)[HeadComment(LStrip(q))..], w)
    ensures StartsWith(p, w) <==> StartsWith(q, w)
  {
    StartsWithStep(p, w);
    StartsWithStep(q, w);
  }

  lemma StartWithTail(p: string, t: string, a: string, w: string)
    requires LStrip(p) == t != "" && LStrip(p + a) == t + a && Free(t, '\n') && Harmless(a, w) && IsWord(w)
    requires HeadComment(t) == 0
    ensures StartsWith(p + a, w) <==> StartsWith(p, w)
  {
    CommentOrNot(t, a, w);
    PrefixBeforeTail(w, t, a);
    SameStart(p + a, p, w);
  }

  lemma RestAndTail(p: string, t: string, a: string, w: string)
    requires LStrip(p) == t != "" && LStrip(p + a) == t + a && Free(t, '\n') && Harmless(a, w)
    requires HeadComment(t) > 0
    requires StartsWith(t[HeadComment(t)..] + a, w) <==> StartsWith(t[HeadComment(t)..], w)
    ensures StartsWith(p + a, w) <==> StartsWith(p, w)
  {
    CommentOrNot(t, a, w);
    RestWithTail(t, a, w);
    SameRest(p + a, p, w);
  }

  /** A harmless tail does not change what a text starts with after its comments. */
  lemma {:induction false} StartsWithTail(p: string, a: string, w: string)
    requires Free(p, '\n') && Harmless(a, w) && IsWord(w)
    ensures StartsWith(p + a, w) <==> StartsWith(p, w)
    decreases |p|
  {
    if AllBlank(p) {
      TailAfterBlanks(p, a, w);
    } else {
      TextWithTail(p, a);
      var t := LStrip(p);
      if HeadComment(t) == 0 {
        StartWithTail(p, t, a, w);
      } else {
        SubNoNewline(t, t[HeadComment(t)..], HeadComment(t));
        StartsWithTail(t[HeadComment(t)..], a, w);
        RestAndTail(p, t, a, w);
      }
    }
  }

  lemma {:induction false} HarmlessHead(a: string)
    requires Free(a, '/') && Free(a, '-')
    ensures HeadComment(LStrip(a)) == 0
  {
    var t := LStrip(a);
    TwoChars(t, '-', '-');
    TwoChars(t, '/', '*');
    LStripIsSuffix(a);
    if t != "" {
      assert t[0] == a[|a| - |t|];
    }
  }

  lemma SubNoNewline(s: string, t: string, k: nat)
    requires Free(s, '\n') && k <= |s| && t == s[k..]
    ensures Free(t, '\n')
  {
    assert forall i :: 0 <= i < |t| ==> t[i] == s[k + i];
  }

  // ---------------------------------------------------------------- the query returned

  lemma BlanksAreFree(b: string)
    requires AllBlank(b)
    ensures Free(b, '/') && Free(b, '-') && Free(b, '*')
  {}

  lemma FreeParts(t: string, m: nat)
    requires Free(t, '\n') && m <= |t|
    ensures Free(t[..m], '\n') && Free(t[m..], '\n')
  {
    SubNoNewline(t, t[m..], m);
  }

  /** The two comment strippers see the same head. */
  lemma {:induction false} HeadWithoutTail(t: string)
    requires Free(t, '\n') && t != "" && !IsBlank(t[0])
    ensures var r, b := RStrip(t), t[|RStrip(t)|..];
            && t == r + b && AllBlank(b) && r != "" && Free(r, '\n')
            && (HeadComment(r) == 0 <==> HeadComment(t) == 0)
            && (t[HeadComment(t)..] == r[HeadComment(r)..] + b || (t[HeadComment(t)..] == "" && r[HeadComment(r)..] == ""))
  {
    var r, b := RStrip(t), t[|RStrip(t)|..];
    assert t == r + b;
    assert forall i :: 0 <= i < |b| ==> b[i] == t[|r| + i];
    assert r != "" by {
      assert !IsBlank(t[0]);
    }
    FreeParts(t, |r|);
    BlanksAreFree(b);
    HeadOfTail(r, b);
    CutBoth(r, b, HeadComment(r), HeadComment(t));
  }

  lemma StripCommentsTail(s: string, b: string)
    requires AllBlank(b)
    ensures StripComments(s + b) == StripComments(s)
  {
    StripTail(s, b);
  }

  lemma {:induction false} StripCommentsStep(s: string)
    requires !AllBlank(s) && HeadComment(Strip(s)) > 0
    ensures StripComments(s) == StripComments(Strip(s)[HeadComment(Strip(s))..])
  {}

  lemma {:induction false} StartsWithIs(s: string, w: string)
    requires Free(s, '\n') && IsWord(w)
    ensures StartsWith(s, w) <==> w <= Upper(StripComments(s))
    decreases |s|
  {
    LStripEmpty(s);
    if AllBlank(s) {
      BlankStartsNothing(s, w);
      StripNothing(s);
      assert |Upper("")| == 0;
    } else {
      var t := LStrip(s);
      var r, b := RStrip(t), t[|RStrip(t)|..];
      LStripIsSuffix(s);
      SubNoNewline(s, t, |s| - |t|);
      HeadWithoutTail(t);
      if HeadComment(t) == 0 {
        BlankTailPrefix(w, r, b);
      } else {
        var rest := t[HeadComment(t)..];
        FreeParts(t, HeadComment(t));
        StartsWithIs(rest, w);
        StripCommentsTail(r[HeadComment(r)..], b);
        StripCommentsStep(s);
        StartsWithStep(s, w);
      }
    }
  }

  lemma BlankTailPrefix(w: string, r: string, b: string)
    requires IsWord(w) && AllBlank(b) && r != ""
    ensures w <= Upper(r + b) <==> w <= Upper(r)
  {
    PrefixBeforeTail(w, r, b);
  }

  lemma LimitIsHarmless()
    ensures Harmless(DEFAULT_LIMIT, "SELECT")
  {
    assert DEFAULT_LIMIT[1..] == "LIMIT 1000";
    assert LStrip(DEFAULT_LIMIT) == DEFAULT_LIMIT[1..];
    assert Upper("LIMIT 1000")[0] == 'L' != "SELECT"[0];
  }

  lemma SemicolonsAreHarmless(s: string)
    requires forall i :: 0 <= i < |s| ==> s[i] == ';'
    ensures Harmless(s, "SELECT")
  {
    assert LStrip(s) == s;
    assert s != "" ==> Upper(s)[0] == ';' != "SELECT"[0];
  }

  lemma SameUpToTails(p: string, a: string, b: string)
    requires Free(p, '\n') && Harmless(a, "SELECT") && Harmless(b, "SELECT")
    ensures StartsSelect(p + a) <==> StartsSelect(p + b)
  {
    StartsWithTail(p, a, "SELECT");
    StartsWithTail(p, b, "SELECT");
    StartsWithIs(p + a, "SELECT");
    StartsWithIs(p + b, "SELECT");
  }

  /** The default limit in the place of the final semicolons does not change the start. */
  lemma LimitedStartsAlike(n: string)
    requires SingleSpaced(n)
    ensures StartsSelect(TrimSemicolons(n) + DEFAULT_LIMIT) <==> StartsSelect(n)
  {
    var p := TrimSemicolons(n);
    assert Free(n, '\n');
    FreeParts(n, |p|);
    LimitIsHarmless();
    SemicolonsAreHarmless(n[|p|..]);
    assert n == p + n[|p|..];
    SameUpToTails(p, n[|p|..], DEFAULT_LIMIT);
  }

  /** The query returned starts with SELECT after its comments exactly if no line comment leads the one checked. */
  lemma ReturnedStartsSelectIff(sql: string)
    ensures StartsSelect(Returned(sql)) <==> StartsSelect(sql) && !LedByLineComment(sql)
  {
    var n := Normalize(sql);
    NormalFormStartsSelectIff(sql);
    NormalizeKeepsText(sql);
    LimitedStartsAlike(n);
  }

  // ---------------------------------------------------------------- validating twice

  /** The normal form without final semicolons, and without the blank in front of them. */
  function Trunk(n: string): string { RStrip(TrimSemicolons(n)) }

  lemma TrunkFacts(n: string)
    ensures var p := Trunk(n);
            && p <= n && NoWordIn(n[|p|..]) && (|p| == |n| > 0 ==> p[|p| - 1] != ';')
            && (p == "" || !IsBlank(p[|p| - 1]))
  {
    var t, p := TrimSemicolons(n), RStrip(TrimSemicolons(n));
    forall i | |p| <= i < |n| ensures n[i] == ';' || IsBlank(n[i]) {
      assert i < |t| ==> n[i] == t[i];
    }
  }

  lemma {:induction false} NonBlankMembers(s: string, c: char)
    requires !IsBlank(c)
    ensures c in s <==> c in NonBlanks(s)
  {
    if s != "" {
      NonBlankMembers(s[1..], c);
      assert s == [s[0]] + s[1..];
    }
  }

  lemma SuffixMember(t: string, s: string)
    requires t != "" && IsSuffix(t, RStrip(s))
    ensures t[0] in s
  {
    var r := RStrip(s);
    assert r[|r| - |t|] == t[0];
    assert s[|r| - |t|] == t[0];
  }

  lemma StartsWithS(t: string)
    requires "SELECT" <= Upper(t)
    ensures t != "" && (t[0] == 'S' || t[0] == 's')
  {
    assert Upper(t)[0] == "SELECT"[0];
  }

  /** A query that starts with SELECT after its comments has a letter. */
  lemma TrunkIsSome(sql: string)
    requires StartsSelect(sql)
    ensures Trunk(Normalize(sql)) != ""
  {
    var n, t := Normalize(sql), StripComments(sql);
    StripCommentsResult(sql);
    StartsWithS(t);
    SuffixMember(t, sql);
    NonBlankMembers(sql, t[0]);
    NormalizeKeepsText(sql);
    NonBlankMembers(n, t[0]);
    TrunkFacts(n);
    assert n[0..] == n;
  }

  lemma {:induction false} SqueezeAppend(a: string, b: string)
    requires SingleSpaced(a) && (a == "" || !IsBlank(a[|a| - 1])) && !AllBlank(b)
    ensures Squeeze(a + b) == a + Squeeze(b)
  {
    if a == "" {
      assert a + b == b;
    } else {
      assert (a + b)[1..] == a[1..] + b;
      assert forall i :: 0 <= i < |a| - 1 ==> a[1..][i] == a[i + 1];
      SqueezeAppend(a[1..], b);
      NotAllBlank(a, b);
      assert a == [a[0]] + a[1..];
      assert [a[0]] + (a[1..] + Squeeze(b)) == a + Squeeze(b);
    }
  }

  lemma NotAllBlank(a: string, b: string)
    requires !AllBlank(b)
    ensures !AllBlank(a + b)
  {
    var i :| 0 <= i < |b| && !IsBlank(b[i]);
    assert (a + b)[|a| + i] == b[i];
  }

  lemma SqueezeLimit()
    ensures Squeeze(DEFAULT_LIMIT) == DEFAULT_LIMIT && Squeeze(" " + DEFAULT_LIMIT) == DEFAULT_LIMIT
    ensures !AllBlank(DEFAULT_LIMIT) && !AllBlank(" " + DEFAULT_LIMIT)
  {
    assert DEFAULT_LIMIT[1] == 'L' && DEFAULT_LIMIT[|DEFAULT_LIMIT| - 1] == '0';
    SqueezeSqueezed(DEFAULT_LIMIT);
    NotAllBlank(" ", DEFAULT_LIMIT);
    assert (" " + DEFAULT_LIMIT)[1..] == DEFAULT_LIMIT;
    assert (" " + DEFAULT_LIMIT)[1] == ' ';
  }

  lemma OneBlankAtTheEnd(t: string)
    requires SingleSpaced(t)
    ensures t == RStrip(t) || t == RStrip(t) + " "
  {
    if t != "" && IsBlank(t[|t| - 1]) {
      var u := t[..|t| - 1];
      assert u != "" ==> !IsBlank(u[|u| - 1]);
      assert RStrip(t) == RStrip(u) == u;
      assert t == u + " ";
    }
  }

  /** In a normal form at most one blank is in front of the final semicolons. */
  lemma OneBlank(n: string)
    requires SingleSpaced(n)
    ensures TrimSemicolons(n) == Trunk(n) || TrimSemicolons(n) == Trunk(n) + " "
  {
    var t := TrimSemicolons(n);
    assert forall i :: 0 <= i < |t| ==> t[i] == n[i];
    OneBlankAtTheEnd(t);
  }

  lemma TrunkIsSpaced(n: string)
    requires SingleSpaced(n)
    ensures SingleSpaced(Trunk(n))
  {
    TrunkFacts(n);
    assert forall i :: 0 <= i < |Trunk(n)| ==> Trunk(n)[i] == n[i];
  }

  lemma SqueezeLimited(p: string, gap: string, limit: string)
    requires SingleSpaced(p) && (p == "" || !IsBlank(p[|p| - 1]))
    requires Squeeze(gap + limit) == limit && !AllBlank(gap + limit)
    ensures Squeeze(p + gap + limit) == p + limit
  {
    SqueezeAppend(p, gap + limit);
    Reassociate(p, gap, limit);
  }

  lemma FirstIsNoBlank(n: string)
    requires Trimmed(n) && Trunk(n) != ""
    ensures LStrip(TrimSemicolons(n) + DEFAULT_LIMIT) == TrimSemicolons(n) + DEFAULT_LIMIT
  {
    var t := TrimSemicolons(n);
    assert t != "" && t[0] == n[0];
    assert (t + DEFAULT_LIMIT)[0] == n[0];
  }

  /** With the default limit the normal form is the trunk and the limit. */
  lemma NormalizeLimited(n: string)
    requires SingleSpaced(n) && Trimmed(n) && Trunk(n) != ""
    ensures Normalize(TrimSemicolons(n) + DEFAULT_LIMIT) == Trunk(n) + DEFAULT_LIMIT
  {
    TrunkFacts(n);
    TrunkIsSpaced(n);
    OneBlank(n);
    SqueezeLimit();
    SqueezeLimited(Trunk(n), " ", DEFAULT_LIMIT);
    SqueezeAppend(Trunk(n), DEFAULT_LIMIT);
    FirstIsNoBlank(n);
    NormalizeIsSqueeze(TrimSemicolons(n) + DEFAULT_LIMIT);
  }

  /** What a second validation checks. */
  lemma NormalizeReturned(sql: string)
    requires Acceptable(sql)
    ensures var n := Normalize(sql);
            Normalize(Returned(sql)) == if HasLimit(n) then n else Trunk(n) + DEFAULT_LIMIT
  {
    NormalizeTwice(sql);
    NormalizeKeepsText(sql);
    NoOther(sql);
    TrunkIsSome(sql);
    if !HasLimit(Normalize(sql)) {
      NormalizeLimited(Normalize(sql));
    }
  }

  /** The default limit was added and makes the text too long, or completes a final COPY. */
  predicate Overdone(sql: string) {
    var n := Normalize(sql);
    !HasLimit(n) && (|Trunk(n)| + |DEFAULT_LIMIT| > MAX_QUERY_LENGTH || EndsInCopy(Trunk(n)))
  }

  lemma LimitedObjections(n: string, why: Objection, q: string)
    requires Normalize(q) == Trunk(n) + DEFAULT_LIMIT && OneStatement(n) && Trimmed(n)
    requires why.ForbiddenOperation? ==> !(why.keyword in FORBIDDEN_KEYWORDS && HasWord(Upper(n), why.keyword))
    requires why.DangerousPattern? ==> !(why.pattern in DANGEROUS_PATTERNS && HasPattern(Upper(n), why.pattern))
    ensures why.ForbiddenOperation? || why.ManyStatements? ==> !Holds(why, q)
    ensures why.TooLong? ==> (Holds(why, q) <==> |Trunk(n)| + |DEFAULT_LIMIT| > MAX_QUERY_LENGTH)
    ensures why.DangerousPattern? ==>
      (Holds(why, q) <==> why.pattern in DANGEROUS_PATTERNS && why.pattern.head == "COPY" && EndsInCopy(Trunk(n)))
  {
    var p := Trunk(n);
    TrunkFacts(n);
    match why {
      case ForbiddenOperation(k) =>
        if k in FORBIDDEN_KEYWORDS {
          LimitedHasNoKeyword(n, p, k);
        }
      case ManyStatements => LimitedIsOneStatement(n, p);
      case DangerousPattern(d) =>
        if d in DANGEROUS_PATTERNS {
          LimitedPatternIff(n, p, d);
        }
      case _ =>
    }
  }

  lemma NotEmptyAgain(sql: string)
    requires Acceptable(sql)
    ensures Strip(Returned(sql)) != ""
  {
    EmptyAlike(Returned(sql));
    NormalizeReturned(sql);
    NoOther(sql);
    EmptyAlike(sql);
    if HasLimit(Normalize(sql)) {
      NormalizeTwice(sql);
    } else {
      SqueezeLimit();
      NotAllBlank(Trunk(Normalize(sql)), DEFAULT_LIMIT);
      StripTrimmed(Normalize(Returned(sql)));
    }
  }

  lemma ObjectionsWithoutLimit(sql: string, why: Objection)
    requires Acceptable(sql) && !HasLimit(Normalize(sql)) && !why.NotSelect? && Holds(why, Returned(sql))
    ensures Overdone(sql)
  {
    NormalizeReturned(sql);
    AcceptedIsOneStatement(sql);
    NormalizeKeepsText(sql);
    NotEmptyAgain(sql);
    assert !Holds(why, sql);
    LimitedObjections(Normalize(sql), why, Returned(sql));
  }

  lemma OverdoneIsRejected(sql: string)
    requires Acceptable(sql) && Overdone(sql)
    ensures !Acceptable(Returned(sql))
  {
    var n := Normalize(sql);
    NormalizeReturned(sql);
    AcceptedIsOneStatement(sql);
    NormalizeKeepsText(sql);
    if |Trunk(n)| + |DEFAULT_LIMIT| > MAX_QUERY_LENGTH {
      assert Holds(TooLong, Returned(sql));
    } else {
      var copy := Pattern("COPY", 1, {""});
      NoPattern(sql, copy);
      LimitedObjections(n, DangerousPattern(copy), Returned(sql));
    }
  }

  lemma ObjectionsWithLimit(sql: string, why: Objection)
    requires Acceptable(sql) && HasLimit(Normalize(sql)) && !why.NotSelect?
    ensures !Holds(why, Returned(sql))
  {
    assert !Holds(why, sql);
    OtherObjection(sql, why);
  }

  lemma LimitStays(sql: string)
    requires Acceptable(sql)
    ensures HasLimit(Normalize(Returned(sql)))
  {
    NormalizeReturned(sql);
    ContainsTail(Trunk(Normalize(sql)));
  }

  /**
   A query accepted comes back as one that is accepted again iff no line comment leads it and
   the default limit, if it was added, makes it neither too long nor completes a final COPY.
   A second validation changes no more than one blank.
   */
  lemma RevalidatesIff(sql: string)
    requires Acceptable(sql)
    ensures Acceptable(Returned(sql)) <==> !LedByLineComment(sql) && !Overdone(sql)
    ensures var n := Normalize(sql);
            Returned(Returned(sql)) == if HasLimit(n) then n else Trunk(n) + DEFAULT_LIMIT
  {
    NormalizeReturned(sql);
    LimitStays(sql);
    NoOther(sql);
    ReturnedStartsSelectIff(sql);
    if LedByLineComment(sql) {
      assert Holds(NotSelect, Returned(sql));
    } else if Overdone(sql) {
      OverdoneIsRejected(sql);
    } else {
      AcceptedAgain(sql);
    }
  }

  lemma AcceptedAgain(sql: string)
    requires Acceptable(sql) && !Overdone(sql) && StartsSelect(Returned(sql))
    ensures Acceptable(Returned(sql))
  {
    forall why: Objection ensures !Holds(why, Returned(sql)) {
      if !why.NotSelect? {
        if HasLimit(Normalize(sql)) {
          ObjectionsWithLimit(sql, why);
        } else if Holds(why, Returned(sql)) {
          ObjectionsWithoutLimit(sql, why);
        }
      }
    }
  }

  lemma EmptyAlike(sql: string)
    ensures Strip(Normalize(sql)) == "" <==> Strip(sql) == ""
  {
    NormalizeIsSqueeze(sql);
    StripTrimmed(Normalize(sql));
    StripTrimmed(sql);
    LStripEmpty(sql);
    SqueezeEnds(LStrip(sql));
  }

  lemma OtherObjection(sql: string, why: Objection)
    requires !why.NotSelect?
    ensures Holds(why, Normalize(sql)) <==> Holds(why, sql)
  {
    NormalizeTwice(sql);
    EmptyAlike(sql);
  }
}
