/** The scanner of the SQL validator for a second statement, and when it reads a text as the database does. */
module SqlScanner {
  import opened SqlLexer
  import opened Strings

  // ---------------------------------------------------------------- what the scanner reads

  /** What the scanner takes a character for; Skip is the character after a backslash in quotes. */
  datatype Mode = Plain | InSingle | InDouble | SkipInSingle | SkipInDouble

  function Lex(mode: Mode, c: char): Mode {
    match mode
    case Plain => if c == '\'' then InSingle else if c == '"' then InDouble else Plain
    case InSingle => if c == '\\' then SkipInSingle else if c == '\'' then Plain else InSingle
    case InDouble => if c == '\\' then SkipInDouble else if c == '"' then Plain else InDouble
    case SkipInSingle => InSingle
    case SkipInDouble => InDouble
  }

  /** The mode in front of the character at i. */
  function ModeAt(s: string, i: nat): Mode
    requires i <= |s|
  {
    if i == 0 then Plain else Lex(ModeAt(s, i - 1), s[i - 1])
  }

  /** A semicolon that the scanner sees outside quotes. */
  predicate Separator(s: string, i: int) { 0 <= i < |s| && s[i] == ';' && ModeAt(s, i) == Plain }

  /** Some text follows such a semicolon. */
  predicate MultipleStatements(s: string) {
    exists i, j :: 0 <= i < j < |s| && Separator(s, i) && !IsBlank(s[j])
  }

  // ---------------------------------------------------------------- what the database reads

  predicate QuoteOrSemicolon(c: char) { c == '\'' || c == '"' || c == ';' }

  /**
   The token at a is one that the scanner does not know: a comment or a dollar-quoted text
   with a quote or a semicolon inside, or a backslash in a string where it hides nothing.
   */
  ghost predicate Misread(s: string, a: nat)
    requires a < |s|
  {
    match KindAt(s, a)
    case Comment => exists k :: a <= k < TokenEnd(s, a) && QuoteOrSemicolon(s[k])
    case DollarQuoted => exists k :: a <= k < TokenEnd(s, a) && QuoteOrSemicolon(s[k])
    case Quoted => exists k :: a <= k < TokenEnd(s, a) && s[k] == '\\'
    case _ => false
  }

  ghost predicate NoTrapsFrom(s: string, from: nat) {
    forall a: nat :: a < |s| && Starts(s, from, a) ==> !Misread(s, a)
  }

  ghost predicate NoTraps(s: string) { NoTrapsFrom(s, 0) }

  /** From a to b the scanner sees no separator, and it is outside quotes again. */
  ghost predicate Quiet(s: string, a: nat, b: nat)
    requires b <= |s|
  {
    (b < |s| ==> ModeAt(s, b) == Plain) && forall k :: a <= k < b ==> !Separator(s, k)
  }

  lemma {:induction false} QuietRun(s: string, a: nat, b: nat)
    requires a <= b <= |s| && ModeAt(s, a) == Plain
    requires forall k :: a <= k < b ==> !QuoteOrSemicolon(s[k])
    ensures ModeAt(s, b) == Plain && Quiet(s, a, b)
  {
    if a < b {
      QuietRun(s, a, b - 1);
    }
  }

  function Within(quote: char): Mode { if quote == '"' then InDouble else InSingle }

  lemma {:induction false} QuotedRun(s: string, j: nat, quote: char, escapes: bool)
    requires j <= |s| && (quote == '\'' || quote == '"') && ModeAt(s, j) == Within(quote)
    requires !escapes ==> forall k :: j <= k < QuoteEnd(s, j, quote, escapes) ==> s[k] != '\\'
    ensures Quiet(s, j, QuoteEnd(s, j, quote, escapes))
    decreases |s| - j
  {
    if j < |s| {
      if escapes && s[j] == '\\' {
        if j + 1 < |s| {
          QuotedRun(s, j + 2, quote, escapes);
        }
      } else if s[j] != quote {
        QuotedRun(s, j + 1, quote, escapes);
      } else if At(s, j, quote, quote) {
        QuotedRun(s, j + 2, quote, escapes);
      }
    }
  }

  lemma IdentifierRun(s: string, a: nat)
    requires a < |s| && ModeAt(s, a) == Plain && KindAt(s, a) == Identifier
    ensures Quiet(s, a, TokenEnd(s, a))
  {
    var b := IdentEnd(s, a + 1);
    forall k | a <= k < b ensures !QuoteOrSemicolon(s[k]) {
      assert k > a ==> IdentPart(s[k]);
    }
    QuietRun(s, a, b);
  }

  /** The scanner reads a token through as the database does. */
  lemma TokenRun(s: string, a: nat)
    requires a < |s| && ModeAt(s, a) == Plain && !Misread(s, a)
    ensures s[a] != ';' ==> Quiet(s, a, TokenEnd(s, a))
    ensures s[a] == ';' ==> Separator(s, a) && TokenEnd(s, a) == a + 1 && ModeAt(s, a + 1) == Plain
  {
    match KindAt(s, a) {
      case Comment => QuietRun(s, a, TokenEnd(s, a));
      case DollarQuoted => QuietRun(s, a, TokenEnd(s, a));
      case Quoted => QuotedRun(s, a + 1, s[a], false);
      case Escaped =>
        assert ModeAt(s, a + 1) == Plain;
        QuotedRun(s, a + 2, '\'', true);
      case Identifier => IdentifierRun(s, a);
      case Single =>
    }
  }

  lemma {:induction false} SameFrom(s: string, a: nat, i: nat)
    requires a <= i < |s| && s[i] == ';' && ModeAt(s, a) == Plain && NoTrapsFrom(s, a)
    ensures Separator(s, i) <==> Starts(s, a, i)
    decreases |s| - a
  {
    var b := TokenEnd(s, a);
    TokenRun(s, a);
    if i >= b {
      forall x: nat | x < |s| && Starts(s, b, x) ensures !Misread(s, x) {
        assert Starts(s, a, x) by {
          StartsLater(s, b, x);
        }
      }
      SameFrom(s, b, i);
    }
  }

  lemma {:induction false} StartsLater(s: string, a: nat, i: nat)
    requires Starts(s, a, i)
    ensures a <= i
  {}

  /** Where no token is a trap, the two agree on every semicolon. */
  lemma SeparatorsAgree(s: string, i: int)
    requires NoTraps(s)
    ensures Separator(s, i) <==> SqlSeparator(s, i)
  {
    if 0 <= i < |s| && s[i] == ';' {
      SameFrom(s, 0, i);
    }
  }

  lemma SameMultiple(s: string)
    ensures NoTraps(s) ==> (MultipleStatements(s) <==> SqlMultiple(s))
  {
    if NoTraps(s) {
      forall i: int ensures Separator(s, i) <==> SqlSeparator(s, i) {
        SeparatorsAgree(s, i);
      }
    }
  }

  /** Enough for that: no backslash, no dollar sign and no comment opener anywhere. */
  lemma PlainTextHasNoTraps(s: string)
    requires Free(s, '\\') && Free(s, '$') && forall i: nat :: !At(s, i, '-', '-') && !At(s, i, '/', '*')
    ensures NoTraps(s)
  {
    forall a: nat | a < |s| ensures !Misread(s, a) {
      assert !At(s, a, '-', '-') && !At(s, a, '/', '*');
    }
  }

  // ---------------------------------------------------------------- the loop

  /** A second statement is found as the scanner reads the text, and as the database does if there is no trap. */
  method ContainsMultipleStatements(sql: string) returns (found: bool)
    ensures found <==> MultipleStatements(sql)
    ensures NoTraps(sql) ==> (found <==> SqlMultiple(sql))
  {
    SameMultiple(sql);
    var inSingleQuote, inDoubleQuote := false, false;
    var i := 0;
    while i < |sql|
      invariant 0 <= i <= |sql| + 1 && !(inSingleQuote && inDoubleQuote)
      invariant i <= |sql| ==>
        ModeAt(sql, i) == if inSingleQuote then InSingle else if inDoubleQuote then InDouble else Plain
      invariant forall k, j :: 0 <= k < i && k < j < |sql| && Separator(sql, k) ==> IsBlank(sql[j])
      decreases |sql| + 1 - i
    {
      var c := sql[i];
      if c == '\\' && (inSingleQuote || inDoubleQuote) {
        assert ModeAt(sql, i + 1).SkipInSingle? || ModeAt(sql, i + 1).SkipInDouble?;
        i := i + 2;
        continue;
      }
      if c == '\'' && !inDoubleQuote {
        inSingleQuote := !inSingleQuote;
      } else if c == '"' && !inSingleQuote {
        inDoubleQuote := !inDoubleQuote;
      } else if c == ';' && !inSingleQuote && !inDoubleQuote {
        assert Separator(sql, i);
        StripTrimmed(sql[i + 1..]);
        if Strip(sql[i + 1..]) != "" {
          ghost var k :| 0 <= k < |sql[i + 1..]| && !IsBlank(sql[i + 1..][k]);
          assert !IsBlank(sql[i + 1 + k]);
          return true;
        }
        assert forall j :: i < j < |sql| ==> sql[j] == sql[i + 1..][j - i - 1];
      }
      i := i + 1;
    }
    return false;
  }
}
