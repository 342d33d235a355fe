/**
 What the comment stripper cuts off, piece by piece, against what the database reads: it
 nests block comments, ends a line comment at a carriage return too, and knows fewer blanks.
 */
module SqlPieces {
  import opened Common
  import opened SqlComments
  import opened SqlLexer
  import opened Strings

  /** The database reads the piece as blanks and comments; the last one may be a comment that stays open. */
  predicate Proper(p: string, last: bool) { Skip(p) == Nothing || (last && Skip(p) == OpenComment) }

  ghost predicate AllProper(pieces: seq<string>) {
    forall i :: 0 <= i < |pieces| ==> Proper(pieces[i], i == |pieces| - 1)
  }

  predicate OpensInside(p: string) { exists k :: 2 <= k < |p| && At(p, k, '/', '*') }

  /** A block comment that is not over where the code ends it. */
  predicate BadBlock(p: string, last: bool) { !last && (p == "/*/" || OpensInside(p)) }

  /** A line comment that is over before the code ends it, with something else behind the carriage return. */
  predicate BadLine(p: string, last: bool) {
    |p| >= 2 && LineEnd(p, 2) < |p| && p[LineEnd(p, 2)] == '\r' && !Proper(p[LineEnd(p, 2) + 1..], last)
  }

  predicate AllSqlBlank(p: string) { forall i :: 0 <= i < |p| ==> SqlBlank(p[i]) }

  predicate Misjudged(p: string, last: bool) {
    if At(p, 0, '/', '*') then BadBlock(p, last)
    else if At(p, 0, '-', '-') then BadLine(p, last)
    else !AllSqlBlank(p)
  }

  ghost predicate SomeMisjudged(pieces: seq<string>) {
    exists i :: 0 <= i < |pieces| && Misjudged(pieces[i], i == |pieces| - 1)
  }

  // ---------------------------------------------------------------- the shape of a piece

  predicate NoneBefore(p: string, k: int, a: char, b: char) { forall i :: 0 <= i < k ==> !At(p, i, a, b) }

  /** It ends with the first star and slash after the opening slash, or nowhere. */
  predicate BlockShape(p: string, last: bool) {
    && At(p, 0, '/', '*')
    && ((|p| >= 3 && At(p, |p| - 2, '*', '/') && NoneBefore(p, |p| - 2, '*', '/')) || (last && NoneBefore(p, |p|, '*', '/')))
  }

  /** It ends with the first newline, or nowhere. */
  predicate LineShape(p: string, last: bool) {
    && At(p, 0, '-', '-')
    && ((p[|p| - 1] == '\n' && forall i :: 0 <= i < |p| - 1 ==> p[i] != '\n') || (last && Free(p, '\n')))
  }

  predicate PieceShape(p: string, last: bool) { AllBlank(p) || LineShape(p, last) || BlockShape(p, last) }

  lemma FindTwo(s: string, a: char, b: char)
    ensures var at := Find(s, [a, b]);
            && NoneBefore(s, if at.Some? then at.value else |s|, a, b)
            && (at.Some? ==> At(s, at.value, a, b))
  {
    var at := Find(s, [a, b]);
    FindIsFirst(s, [a, b]);
    forall i | 0 <= i < |s| ensures At(s, i, a, b) <==> [a, b] <= s[i..] {
      TwoChars(s[i..], a, b);
    }
  }

  lemma FindOne(s: string, c: char)
    ensures var at := Find(s, [c]);
            && (forall i :: 0 <= i < (if at.Some? then at.value else |s|) ==> s[i] != c)
            && (at.Some? ==> s[at.value] == c)
  {
    var at := Find(s, [c]);
    FindIsFirst(s, [c]);
    forall i | 0 <= i < |s| ensures s[i] == c <==> [c] <= s[i..] {
      assert s[i..][0] == s[i];
    }
  }

  lemma HeadShape(r: string)
    requires HeadComment(r) > 0
    ensures PieceShape(r[..HeadComment(r)], HeadComment(r) == |r|)
  {
    TwoChars(r, '-', '-');
    TwoChars(r, '/', '*');
    if "--" <= r {
      FindOne(r, '\n');
      assert LineShape(r[..HeadComment(r)], HeadComment(r) == |r|);
    } else {
      HeadIsBlock(r);
      FindTwo(r, '*', '/');
      BlockHeadShape(r);
    }
  }

  lemma BlockHeadShape(r: string)
    requires At(r, 0, '/', '*')
    requires var n := HeadComment(r);
             || (3 <= n && At(r, n - 2, '*', '/') && NoneBefore(r, n - 2, '*', '/'))
             || (n == |r| && NoneBefore(r, |r|, '*', '/'))
    ensures BlockShape(r[..HeadComment(r)], HeadComment(r) == |r|)
  {
    var p := r[..HeadComment(r)];
    assert forall i :: At(p, i, '*', '/') ==> At(r, i, '*', '/');
  }

  ghost predicate AllShaped(pieces: seq<string>) {
    forall i :: 0 <= i < |pieces| ==> PieceShape(pieces[i], i == |pieces| - 1)
  }

  lemma SomethingLeft(r: string, n: nat)
    requires n <= |r| && Trimmed(r)
    ensures Pieces(r[n..]) == [] <==> n == |r|
  {
    StripTrimmed(r[n..]);
    if n < |r| {
      assert !IsBlank(r[n..][|r| - n - 1]);
    }
  }

  lemma BlanksInFront(s: string)
    ensures AllBlank(s[..|s| - |LStrip(s)|])
  {
    LStripIsSuffix(s);
  }

  lemma {:induction false} PiecesShaped(s: string)
    ensures AllShaped(Pieces(s))
    decreases |s|
  {
    var r, n := Strip(s), HeadComment(Strip(s));
    BlanksInFront(s);
    if r == "" || n == 0 {
      PiecesLast(s);
    } else {
      StripTrimmed(s);
      LStripEmpty(s);
      PiecesStep(s);
      PiecesShaped(r[n..]);
      HeadShape(r);
      SomethingLeft(r, n);
      ShapedCons(s[..|s| - |LStrip(s)|], r[..n], Pieces(r[n..]));
    }
  }

  lemma ShapedCons(a: string, b: string, rest: seq<string>)
    requires AllBlank(a) && PieceShape(b, rest == []) && AllShaped(rest)
    ensures AllShaped([a, b] + rest)
  {
    var pieces := [a, b] + rest;
    forall i | 0 <= i < |pieces| ensures PieceShape(pieces[i], i == |pieces| - 1) {
      if i >= 2 {
        assert pieces[i] == rest[i - 2];
      }
    }
  }

  // ---------------------------------------------------------------- one piece

  /** Up to the first closing the depth only grows. */
  lemma {:induction false} BlockOnce(p: string, i: nat, depth: nat)
    requires 2 <= i <= |p| && depth > 0
    requires forall k :: i <= k < |p| - 2 ==> !At(p, k, '*', '/')
    ensures var end := BlockEnd(p, i, depth);
            end.Some? <==> depth == 1 && i <= |p| - 2 && At(p, |p| - 2, '*', '/') && forall k :: i <= k < |p| ==> !At(p, k, '/', '*')
    ensures BlockEnd(p, i, depth).Some? ==> BlockEnd(p, i, depth) == Some(|p|)
    decreases |p| - i
  {
    if i + 1 < |p| {
      if At(p, i, '/', '*') {
        BlockOnce(p, i + 2, depth + 1);
      } else if At(p, i, '*', '/') {
        assert i == |p| - 2;
        if depth > 1 {
          assert BlockEnd(p, i + 2, depth - 1) == None;
        }
      } else {
        BlockOnce(p, i + 1, depth);
      }
    }
  }

  lemma BlockIff(p: string, last: bool)
    requires BlockShape(p, last)
    ensures Proper(p, last) <==> !BadBlock(p, last)
    ensures Skip(p) == Nothing ==> BlockEnd(p, 2, 1) == Some(|p|)
  {
    var end := BlockEnd(p, 2, 1);
    BlockOnce(p, 2, 1);
    assert p[|p|..] == "" && Skip("") == Nothing;
    assert Skip(p) == if end.None? then OpenComment else Nothing;
    if |p| == 3 {
      assert p == [p[0], p[1], p[2]];
    } else {
      assert p != "/*/";
    }
  }

  lemma LineIff(p: string, last: bool)
    requires LineShape(p, last)
    ensures Proper(p, last) <==> !BadLine(p, last)
  {
    var end := LineEnd(p, 2);
    assert Skip(p) == Skip(p[end..]);
    if end < |p| {
      assert p[end..][1..] == p[end + 1..];
      assert Skip(p[end..]) == Skip(p[end + 1..]);
    }
  }

  lemma {:induction false} SkipBlanks(p: string, t: string)
    requires AllSqlBlank(p)
    ensures Skip(p + t) == Skip(t) && Skip(p) == Nothing
  {
    if p == "" {
      assert p + t == t;
    } else {
      assert (p + t)[1..] == p[1..] + t;
      SkipBlanks(p[1..], t);
    }
  }

  lemma {:induction false} BlankIff(p: string)
    requires AllBlank(p)
    ensures AllSqlBlank(p) <==> Skip(p) == Nothing
    ensures Skip(p) != OpenComment
  {
    if p != "" {
      BlankIff(p[1..]);
      assert forall i :: 0 < i < |p| ==> p[i] == p[1..][i - 1];
    }
  }

  lemma PieceIff(p: string, last: bool)
    requires PieceShape(p, last)
    ensures Proper(p, last) <==> !Misjudged(p, last)
  {
    if AllBlank(p) {
      assert !At(p, 0, '/', '*') && !At(p, 0, '-', '-');
      BlankIff(p);
    } else if LineShape(p, last) {
      LineIff(p, last);
    } else {
      BlockIff(p, last);
    }
  }

  /**
   Only blanks and comments of the database are cut off, exactly when no piece is misjudged:
   no block comment but the last is slash, star, slash or has another one opening inside, no
   line comment has text behind a carriage return, and no blank is one only for Python.
   */
  lemma RemovesCommentsIff(s: string)
    ensures AllProper(Pieces(s)) <==> !SomeMisjudged(Pieces(s))
  {
    var pieces := Pieces(s);
    PiecesShaped(s);
    forall i | 0 <= i < |pieces|
      ensures Proper(pieces[i], i == |pieces| - 1) <==> !Misjudged(pieces[i], i == |pieces| - 1)
    {
      PieceIff(pieces[i], i == |pieces| - 1);
    }
  }

  // ---------------------------------------------------------------- the database agrees

  lemma {:induction false} LineEndAppend(p: string, t: string, i: nat)
    requires i <= |p| && LineEnd(p, i) < |p|
    ensures LineEnd(p + t, i) == LineEnd(p, i)
    decreases |p| - i
  {
    if LineEnd(p, i) > i {
      LineEndAppend(p, t, i + 1);
    }
  }

  lemma {:induction false} BlockEndAppend(p: string, t: string, i: nat, depth: nat)
    requires i <= |p| && BlockEnd(p, i, depth).Some?
    ensures BlockEnd(p + t, i, depth) == BlockEnd(p, i, depth)
    decreases |p| - i
  {
    if depth > 0 {
      assert forall a, b :: At(p + t, i, a, b) <==> At(p, i, a, b);
      if At(p, i, '/', '*') {
        BlockEndAppend(p, t, i + 2, depth + 1);
      } else if At(p, i, '*', '/') {
        BlockEndAppend(p, t, i + 2, depth - 1);
      } else {
        BlockEndAppend(p, t, i + 1, depth);
      }
    }
  }

  predicate EndsLine(p: string) { p == "" || p[|p| - 1] == '\n' }

  lemma DropEndsLine(p: string, k: nat)
    requires EndsLine(p) && k <= |p|
    ensures EndsLine(p[k..])
  {}

  lemma SameHead(p: string, t: string, a: char, b: char)
    requires |p| >= 2 || (p != "" && p[0] != a)
    ensures At(p + t, 0, a, b) <==> At(p, 0, a, b)
  {}

  lemma DropAppend(p: string, t: string, k: nat)
    requires k <= |p|
    ensures (p + t)[k..] == p[k..] + t
  {}

  /** Text that is skipped to the end of a line is skipped in front of any other text. */
  lemma {:induction false} SkipLines(p: string, t: string)
    requires EndsLine(p) && Skip(p) == Nothing
    ensures Skip(p + t) == Skip(t)
    decreases |p|
  {
    if p == "" {
      assert p + t == t;
    } else if SqlBlank(p[0]) {
      DropEndsLine(p, 1);
      DropAppend(p, t, 1);
      SkipLines(p[1..], t);
    } else {
      SameHead(p, t, '-', '-');
      SameHead(p, t, '/', '*');
      SkipOneComment(p, t);
      var end := if At(p, 0, '-', '-') then LineEnd(p, 2) else BlockEnd(p, 2, 1).value;
      DropEndsLine(p, end);
      SkipLines(p[end..], t);
    }
  }

  lemma EndsInLine(p: string, i: nat)
    requires i < |p| && EndsLine(p)
    ensures LineEnd(p, i) < |p|
    decreases |p| - i
  {
    if i < |p| - 1 && p[i] != '\n' && p[i] != '\r' {
      EndsInLine(p, i + 1);
    }
  }

  lemma SkipOneComment(p: string, t: string)
    requires p != "" && EndsLine(p) && !SqlBlank(p[0]) && Skip(p) == Nothing
    requires At(p + t, 0, '-', '-') <==> At(p, 0, '-', '-')
    requires At(p + t, 0, '/', '*') <==> At(p, 0, '/', '*')
    ensures At(p, 0, '-', '-') || (At(p, 0, '/', '*') && BlockEnd(p, 2, 1).Some?)
    ensures var end := if At(p, 0, '-', '-') then LineEnd(p, 2) else BlockEnd(p, 2, 1).value;
            0 < end <= |p| && Skip(p[end..]) == Nothing && Skip(p + t) == Skip(p[end..] + t)
  {
    if At(p, 0, '-', '-') {
      EndsInLine(p, 2);
      LineEndAppend(p, t, 2);
      DropAppend(p, t, LineEnd(p, 2));
    } else {
      BlockEndAppend(p, t, 2, 1);
      DropAppend(p, t, BlockEnd(p, 2, 1).value);
    }
  }

  lemma SkipBlock(p: string, t: string)
    requires At(p, 0, '/', '*') && BlockEnd(p, 2, 1) == Some(|p|)
    ensures Skip(p + t) == Skip(t)
  {
    BlockEndAppend(p, t, 2, 1);
    DropAppend(p, t, |p|);
    assert p[|p|..] + t == t;
  }

  lemma SkipPiece(p: string, t: string)
    requires PieceShape(p, false) && Proper(p, false)
    ensures Skip(p + t) == Skip(t)
  {
    if AllBlank(p) {
      BlankIff(p);
      SkipBlanks(p, t);
    } else if LineShape(p, false) {
      SkipLines(p, t);
    } else {
      BlockIff(p, false);
      SkipBlock(p, t);
    }
  }

  lemma ProperCons(a: string, b: string, rest: seq<string>)
    requires AllProper([a, b] + rest)
    ensures Proper(a, false) && Proper(b, rest == []) && AllProper(rest)
  {
    var pieces := [a, b] + rest;
    assert pieces[0] == a && pieces[1] == b;
    forall i | 0 <= i < |rest| ensures Proper(rest[i], i == |rest| - 1) {
      assert pieces[i + 2] == rest[i];
    }
  }

  /** What the database finds behind blanks and comments is what the stripper returns. */
  ghost predicate Agrees(s: string) {
    if StripComments(s) == "" then !Skip(RStrip(s)).Text? else Skip(RStrip(s)) == Text(StripComments(s))
  }

  lemma NothingToSkip(r: string)
    requires r != "" && Trimmed(r) && HeadComment(r) == 0
    ensures Skip(r) == Text(r)
  {
    TwoChars(r, '-', '-');
    TwoChars(r, '/', '*');
  }

  lemma AgreesAtTheEnd(s: string)
    requires (Strip(s) == "" || HeadComment(Strip(s)) == 0) && AllProper(Pieces(s))
    ensures Agrees(s)
  {
    var r, blanks := Strip(s), s[..|s| - |LStrip(s)|];
    StripTrimmed(s);
    PiecesLast(s);
    if r == "" {
      RStripBlank(s);
    } else {
      StripCuts(s);
      BlanksInFront(s);
      assert Pieces(s)[0] == blanks;
      BlankIff(blanks);
      SkipBlanks(blanks, r);
      NothingToSkip(r);
    }
  }

  lemma SkipHead(r: string, n: nat)
    requires HeadComment(r) == n > 0 && Proper(r[..n], n == |r|)
    ensures n < |r| ==> Skip(r) == Skip(r[n..])
    ensures n == |r| ==> !Skip(r).Text?
  {
    assert r == r[..n] + r[n..];
    if n == |r| {
      assert r[..n] == r;
    } else {
      HeadShape(r);
      SkipPiece(r[..n], r[n..]);
    }
  }

  lemma SkipFront(s: string)
    requires !AllBlank(s) && Proper(s[..|s| - |LStrip(s)|], false)
    ensures Skip(RStrip(s)) == Skip(Strip(s))
  {
    var blanks := s[..|s| - |LStrip(s)|];
    StripCuts(s);
    BlanksInFront(s);
    BlankIff(blanks);
    SkipBlanks(blanks, Strip(s));
  }

  lemma AgreesPast(s: string, r: string, n: nat)
    requires r == Strip(s) && !AllBlank(s) && Trimmed(r) && HeadComment(r) == n > 0
    requires Proper(s[..|s| - |LStrip(s)|], false) && Proper(r[..n], n == |r|)
    requires StripComments(s) == StripComments(r[n..]) && Agrees(r[n..])
    ensures Agrees(s)
  {
    SkipFront(s);
    SkipHead(r, n);
    RestOfTrimmed(r, n);
    if n == |r| {
      StripNothing(r[n..]);
    }
  }

  /** If all pieces are proper, the database starts to read where the result of the stripper starts. */
  lemma {:induction false} ProperMeansAgreement(s: string)
    requires AllProper(Pieces(s))
    ensures Agrees(s)
    decreases |s|
  {
    var r, n := Strip(s), HeadComment(Strip(s));
    if r == "" || n == 0 {
      AgreesAtTheEnd(s);
    } else {
      StripTrimmed(s);
      LStripEmpty(s);
      PiecesStep(s);
      ProperCons(s[..|s| - |LStrip(s)|], r[..n], Pieces(r[n..]));
      ProperMeansAgreement(r[n..]);
      SomethingLeft(r, n);
      AgreesPast(s, r, n);
    }
  }

  // ---------------------------------------------------------------- enough for it

  ghost predicate ClosedBetween(s: string, i: int, j: int) { exists k: nat :: i + 2 <= k <= j - 2 && At(s, k, '*', '/') }

  /** No blank of Python's only, no carriage return, and every block comment is closed, by a new star, before the next opens. */
  ghost predicate Tame(s: string) {
    && (forall i :: 0 <= i < |s| && IsBlank(s[i]) ==> SqlBlank(s[i]) && s[i] != '\r')
    && (forall i: nat :: At(s, i, '/', '*') ==> !At(s, i + 1, '*', '/'))
    && (forall i: nat, j: nat :: i < j && At(s, i, '/', '*') && At(s, j, '/', '*') ==> ClosedBetween(s, i, j))
  }

  lemma TamePart(s: string, k: nat, t: string)
    requires Tame(s) && k + |t| <= |s| && t == s[k..k + |t|]
    ensures Tame(t)
  {
    forall i: nat, a, b | At(t, i, a, b) ensures At(s, k + i, a, b) {}
    assert forall j: nat :: At(t, j, '*', '/') ==> At(s, k + j, '*', '/');
    forall i: nat, j: nat | i < j && At(t, i, '/', '*') && At(t, j, '/', '*') ensures ClosedBetween(t, i, j) {
      assert At(s, k + i, '/', '*') && At(s, k + j, '/', '*');
      var m: nat :| k + i + 2 <= m <= k + j - 2 && At(s, m, '*', '/');
      assert At(t, m - k, '*', '/');
    }
  }

  lemma TamePieceIsFit(p: string, last: bool)
    requires Tame(p) && PieceShape(p, last)
    ensures !Misjudged(p, last)
  {
    if At(p, 0, '/', '*') {
      TameBlockIsFit(p, last);
    } else if At(p, 0, '-', '-') {
      assert LineEnd(p, 2) < |p| ==> p[LineEnd(p, 2)] != '\r';
    } else {
      assert AllBlank(p);
    }
  }

  lemma TameBlockIsFit(p: string, last: bool)
    requires Tame(p) && BlockShape(p, last)
    ensures !BadBlock(p, last)
  {
    if !last {
      forall k | 2 <= k < |p| ensures !At(p, k, '/', '*') {
        if At(p, k, '/', '*') {
          var m: nat :| 2 <= m <= k - 2 && At(p, m, '*', '/');
          assert false;
        }
      }
      assert !At(p, 1, '*', '/');
    }
  }

  ghost predicate AllTame(pieces: seq<string>) { forall i :: 0 <= i < |pieces| ==> Tame(pieces[i]) }

  lemma TameFront(s: string)
    requires Tame(s)
    ensures Tame(s[..|s| - |LStrip(s)|]) && Tame(Strip(s))
  {
    var k := |s| - |LStrip(s)|;
    LStripIsSuffix(s);
    TamePart(s, 0, s[..k]);
    assert Strip(s) == s[k..k + |Strip(s)|];
    TamePart(s, k, Strip(s));
  }

  lemma TameCut(r: string, n: nat)
    requires Tame(r) && n <= |r|
    ensures Tame(r[..n]) && Tame(r[n..])
  {
    TamePart(r, 0, r[..n]);
    TamePart(r, n, r[n..]);
  }

  lemma TameCons(a: string, b: string, rest: seq<string>)
    requires Tame(a) && Tame(b) && AllTame(rest)
    ensures AllTame([a, b] + rest)
  {}

  lemma {:induction false} TamePieces(s: string)
    requires Tame(s)
    ensures AllTame(Pieces(s))
    decreases |s|
  {
    var r, n := Strip(s), HeadComment(Strip(s));
    TameFront(s);
    if r == "" || n == 0 {
      PiecesLast(s);
    } else {
      PiecesStep(s);
      TameCut(r, n);
      TamePieces(r[n..]);
      TameCons(s[..|s| - |LStrip(s)|], r[..n], Pieces(r[n..]));
    }
  }

  lemma TameIsProper(s: string)
    requires Tame(s)
    ensures AllProper(Pieces(s)) && Agrees(s)
  {
    var pieces := Pieces(s);
    TamePieces(s);
    PiecesShaped(s);
    forall i | 0 <= i < |pieces| ensures !Misjudged(pieces[i], i == |pieces| - 1) {
      TamePieceIsFit(pieces[i], i == |pieces| - 1);
    }
    RemovesCommentsIff(s);
    ProperMeansAgreement(s);
  }

  // ---------------------------------------------------------------- where it fails

  lemma FindsFirst(s: string, k: nat, a: char, b: char)
    requires At(s, k, a, b) && NoneBefore(s, k, a, b)
    ensures Find(s, [a, b]) == Some(k)
  {
    FindTwo(s, a, b);
  }

  const SELECT_ONE := " SELECT 1"

  /** A text of a block comment, as the code sees it, and a SELECT. */
  lemma SelectBehind(c: string)
    requires ClosedAtEnd(c) && BadBlock(c, false)
    ensures StripComments(c + SELECT_ONE) == SELECT_ONE[1..] && SomeMisjudged(Pieces(c + SELECT_ONE))
  {
    var s := c + SELECT_ONE;
    CommentInFront(c, SELECT_ONE);
    assert s[|c|..] == SELECT_ONE && s[..|c|] == c;
    PiecesStep(s);
    SelectIsLeft();
    MisjudgedSecond(s[..|s| - |LStrip(s)|], c, Pieces(SELECT_ONE));
  }

  predicate ClosedAtEnd(c: string) {
    At(c, 0, '/', '*') && |c| >= 3 && At(c, |c| - 2, '*', '/') && NoneBefore(c, |c| - 2, '*', '/')
  }

  lemma CommentInFront(c: string, t: string)
    requires ClosedAtEnd(c) && t != "" && !IsBlank(t[|t| - 1])
    ensures Strip(c + t) == c + t && HeadComment(c + t) == |c|
  {
    var s := c + t;
    assert s[0] == '/' && s[|s| - 1] == t[|t| - 1];
    StripTrimmed(s);
    TwoChars(s, '/', '*');
    FirstClosing(c, t);
    HeadIsBlock(s);
  }

  lemma FirstClosing(c: string, t: string)
    requires ClosedAtEnd(c)
    ensures Find(c + t, "*/") == Some(|c| - 2)
  {
    var s := c + t;
    forall i | 0 <= i < |c| - 2 ensures !At(s, i, '*', '/') {
      assert !At(c, i, '*', '/');
    }
    FindsFirst(s, |c| - 2, '*', '/');
  }

  lemma MisjudgedSecond(a: string, b: string, rest: seq<string>)
    requires At(b, 0, '/', '*') && BadBlock(b, false) && rest != []
    ensures SomeMisjudged([a, b] + rest)
  {
    var pieces := [a, b] + rest;
    assert pieces[1] == b && Misjudged(pieces[1], 1 == |pieces| - 1);
  }

  lemma SelectIsLeft()
    ensures StripComments(SELECT_ONE) == SELECT_ONE[1..] && Pieces(SELECT_ONE) != []
  {
    assert SELECT_ONE[0] == ' ' && SELECT_ONE[1..][0] == 'S';
    assert LStrip(SELECT_ONE) == SELECT_ONE[1..];
    StripOfTrimmedRight(SELECT_ONE);
    NoHead(SELECT_ONE[1..]);
  }

  lemma {:induction false} StaysOpen(s: string, i: nat, depth: nat)
    requires i <= |s| && depth > 0 && forall k :: i <= k < |s| ==> !At(s, k, '*', '/')
    ensures BlockEnd(s, i, depth) == None
    decreases |s| - i
  {
    if i + 1 < |s| {
      if At(s, i, '/', '*') {
        StaysOpen(s, i + 2, depth + 1);
      } else {
        StaysOpen(s, i + 1, depth);
      }
    }
  }

  lemma EarlyCloseStaysOpen(s: string)
    requires s == "/*/" + SELECT_ONE
    ensures Skip(s) == OpenComment
  {
    assert forall k :: 2 <= k < |s| ==> s[k] != '*';
    StaysOpen(s, 2, 1);
  }

  /** The star that opens the comment closes it for the code: all of it is a comment, and the code has a SELECT. */
  lemma EarlyCloseExample()
    ensures var s := "/*/" + SELECT_ONE;
            StripComments(s) == SELECT_ONE[1..] && Skip(s) == OpenComment && SomeMisjudged(Pieces(s))
  {
    SelectBehind("/*/");
    EarlyCloseStaysOpen("/*/" + SELECT_ONE);
  }

  lemma NestedStaysOpen(s: string)
    requires s == "/* /* */" + SELECT_ONE
    ensures Skip(s) == OpenComment
  {
    assert forall k :: 8 <= k < |s| ==> s[k] != '*';
    StaysOpen(s, 8, 1);
    assert BlockEnd(s, 6, 2) == BlockEnd(s, 8, 1);
    assert BlockEnd(s, 5, 2) == BlockEnd(s, 6, 2);
    assert BlockEnd(s, 3, 1) == BlockEnd(s, 5, 2);
    assert BlockEnd(s, 2, 1) == BlockEnd(s, 3, 1);
  }

  /** So does the end of an inner comment. */
  lemma NestedExample()
    ensures var s := "/* /* */" + SELECT_ONE;
            StripComments(s) == SELECT_ONE[1..] && Skip(s) == OpenComment && SomeMisjudged(Pieces(s))
  {
    var c := "/* /* */";
    assert At(c, 3, '/', '*');
    SelectBehind(c);
    NestedStaysOpen(c + SELECT_ONE);
  }
}
