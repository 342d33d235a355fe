/** The comment stripper of the SQL validator: its loop, and what it cuts off the front of a text. */
module SqlComments {
  import opened Common
  import opened Strings

  // ---------------------------------------------------------------- the loop

  /** The length of the comment the code sees at the head of a text; 0 if there is none. */
  function HeadComment(s: string): (n: nat)
    ensures n <= |s| && ("--" <= s || "/*" <= s ==> n > 0)
  {
    if "--" <= s then
      var newline := Find(s, "\n");
      if newline.None? then |s| else newline.value + 1
    else if "/*" <= s then
      var end := Find(s, "*/");
      if end.None? then |s| else end.value + 2
    else 0
  }

  lemma HeadIsBlock(s: string)
    requires "/*" <= s
    ensures HeadComment(s) == if Find(s, "*/").None? then |s| else Find(s, "*/").value + 2
  {
    assert s[0] == '/';
  }

  function StripComments(s: string): string
    decreases |s|
  {
    var r := Strip(s);
    if HeadComment(r) == 0 then r else StripComments(r[HeadComment(r)..])
  }

  lemma StripNothing(s: string)
    requires AllBlank(s)
    ensures StripComments(s) == ""
  {
    StripTrimmed(s);
  }

  lemma StripTwice(s: string)
    ensures StripComments(Strip(s)) == StripComments(s) && Trimmed(Strip(s)) && |Strip(s)| <= |s|
  {
    StripTrimmed(s);
    StripTrimmed(Strip(s));
  }

  /** One round of the loop, on a text without blanks at its ends. */
  lemma StripStep(s: string)
    requires Trimmed(s)
    ensures var n := HeadComment(s);
            && (n == 0 ==> StripComments(s) == s)
            && (n == |s| ==> StripComments(s) == "")
            && (n > 0 ==> StripComments(s) == StripComments(Strip(s[n..])) && |Strip(s[n..])| < |s| && Trimmed(Strip(s[n..])))
  {
    var n := HeadComment(s);
    StripTrimmed(s);
    if n > 0 {
      StripTwice(s[n..]);
    }
    if n == |s| {
      StripNothing(s[n..]);
    }
  }

  method StripSqlComments(sql: string) returns (result: string)
    ensures result == StripComments(sql)
  {
    result := Strip(sql);
    StripTwice(sql);
    while result != ""
      invariant Trimmed(result) && StripComments(result) == StripComments(sql)
      decreases |result|
    {
      StripStep(result);
      ghost var n := HeadComment(result);
      var cut: nat;
      if "--" <= result {
        var newline := Find(result, "\n");
        if newline.None? {
          return "";
        }
        cut := newline.value + 1;
      } else if "/*" <= result {
        HeadIsBlock(result);
        var end := Find(result, "*/");
        if end.None? {
          return "";
        }
        cut := end.value + 2;
      } else {
        return result;
      }
      assert cut == n > 0;
      result := Strip(result[cut..]);
    }
    StripNothing("");
  }

  // ---------------------------------------------------------------- what is cut off

  /** What is cut off the front, piece by piece: blanks, comment, blanks, comment, ... */
  function Pieces(s: string): seq<string>
    decreases |s|
  {
    var r := Strip(s);
    var blanks := s[..|s| - |LStrip(s)|];
    if r == "" then []
    else if HeadComment(r) == 0 then [blanks]
    else [blanks, r[..HeadComment(r)]] + Pieces(r[HeadComment(r)..])
  }

  lemma {:induction false} RStripAfter(a: string, t: string)
    requires t != "" && !IsBlank(t[0])
    ensures RStrip(a + t) == a + RStrip(t)
  {
    if IsBlank(t[|t| - 1]) {
      assert (a + t)[..|a + t| - 1] == a + t[..|t| - 1];
      RStripAfter(a, t[..|t| - 1]);
    }
  }

  /** Stripping cuts the blanks at the head and at the tail, and nothing else. */
  lemma {:induction false} StripCuts(s: string)
    requires !AllBlank(s)
    ensures RStrip(s) == s[..|s| - |LStrip(s)|] + Strip(s)
  {
    LStripEmpty(s);
    LStripIsSuffix(s);
    assert s == s[..|s| - |LStrip(s)|] + LStrip(s);
    RStripAfter(s[..|s| - |LStrip(s)|], LStrip(s));
  }

  lemma {:induction false} RStripKeeps(s: string)
    requires s == "" || !IsBlank(s[|s| - 1])
    ensures RStrip(s) == s
  {}

  lemma RestOfTrimmed(r: string, n: nat)
    requires Trimmed(r) && n <= |r|
    ensures RStrip(r[n..]) == r[n..]
  {
    if n < |r| {
      assert r[n..][|r| - n - 1] == r[|r| - 1];
    }
    RStripKeeps(r[n..]);
  }

  lemma PiecesStep(s: string)
    requires Strip(s) != "" && HeadComment(Strip(s)) > 0
    ensures var r, n := Strip(s), HeadComment(Strip(s));
            && Pieces(s) == [s[..|s| - |LStrip(s)|], r[..n]] + Pieces(r[n..])
            && StripComments(s) == StripComments(r[n..])
  {}

  lemma PiecesLast(s: string)
    requires Strip(s) == "" || HeadComment(Strip(s)) == 0
    ensures Pieces(s) == (if Strip(s) == "" then [] else [s[..|s| - |LStrip(s)|]]) && StripComments(s) == Strip(s)
  {}

  lemma Reassemble(blanks: string, r: string, n: nat, pieces: seq<string>, result: string)
    requires n <= |r| && r[n..] == Flatten(pieces) + result
    ensures blanks + r == Flatten([blanks, r[..n]] + pieces) + result
  {
    assert r == r[..n] + r[n..];
    FlattenTwo(blanks, r[..n], pieces);
  }

  /** Nothing is lost: the pieces and the result are the text, but for blanks at its end. */
  lemma {:induction false} PiecesCover(s: string)
    ensures RStrip(s) == Flatten(Pieces(s)) + StripComments(s)
    decreases |s|
  {
    StripTrimmed(s);
    if AllBlank(s) {
      RStripBlank(s);
      PiecesLast(s);
    } else if HeadComment(Strip(s)) == 0 {
      StripCuts(s);
      PiecesLast(s);
      FlattenOne(s[..|s| - |LStrip(s)|]);
    } else {
      var r, n := Strip(s), HeadComment(Strip(s));
      PiecesCover(r[n..]);
      RestOfTrimmed(r, n);
      StripCuts(s);
      PiecesStep(s);
      Reassemble(s[..|s| - |LStrip(s)|], r, n, Pieces(r[n..]), StripComments(r[n..]));
    }
  }

  lemma RStripBlank(s: string)
    requires AllBlank(s)
    ensures RStrip(s) == ""
  {}

  lemma FlattenOne(a: string)
    ensures Flatten([a]) == a
  {
    assert [a][1..] == [];
    assert a + [] == a;
  }

  lemma FlattenTwo(a: string, b: string, rest: seq<string>)
    ensures Flatten([a, b] + rest) == a + (b + Flatten(rest))
  {
    assert ([a, b] + rest)[1..] == [b] + rest;
    assert ([b] + rest)[1..] == rest;
  }

  /** The result is a suffix of the text without its trailing blanks, starts with no comment, and is stripped already. */
  lemma {:induction false} StripCommentsResult(s: string)
    ensures IsSuffix(StripComments(s), RStrip(s))
    ensures HeadComment(StripComments(s)) == 0 && Trimmed(StripComments(s))
    ensures StripComments(StripComments(s)) == StripComments(s)
    decreases |s|
  {
    var r := Strip(s);
    PiecesCover(s);
    StripTrimmed(s);
    if HeadComment(r) == 0 {
      StripTrimmed(r);
    } else {
      StripCommentsResult(r[HeadComment(r)..]);
    }
  }

  lemma NoHead(s: string)
    requires s != "" && s[0] != '-' && s[0] != '/'
    ensures HeadComment(s) == 0
  {}
}
