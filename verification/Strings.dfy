/** The string operations of Python used here: strip, find, split and join, upper. */
module Strings {
  import opened Common

  /** str.isspace. */
  predicate IsBlank(c: char) {
    || '\t' <= c <= '\r' || '\U{1C}' <= c <= ' ' || c == '\U{85}' || c == '\U{A0}' || c == '\U{1680}'
    || '\U{2000}' <= c <= '\U{200A}' || c == '\U{2028}' || c == '\U{2029}' || c == '\U{202F}' || c == '\U{205F}'
    || c == '\U{3000}'
  }

  function LStrip(s: string): (r: string)
    ensures |r| <= |s| && (r == "" || !IsBlank(r[0]))
  {
    if s != "" && IsBlank(s[0]) then LStrip(s[1..]) else s
  }

  lemma {:induction false} LStripIsSuffix(s: string)
    ensures LStrip(s) == s[|s| - |LStrip(s)|..]
    ensures forall i :: 0 <= i < |s| - |LStrip(s)| ==> IsBlank(s[i])
  {
    if s != "" && IsBlank(s[0]) {
      LStripIsSuffix(s[1..]);
      assert forall i :: 0 < i < |s| ==> s[i] == s[1..][i - 1];
    }
  }

  function RStrip(s: string): (r: string)
    ensures r <= s && (r == "" || !IsBlank(r[|r| - 1]))
    ensures forall i :: |r| <= i < |s| ==> IsBlank(s[i])
  {
    if s != "" && IsBlank(s[|s| - 1]) then RStrip(s[..|s| - 1]) else s
  }

  function Strip(s: string): string { RStrip(LStrip(s)) }

  predicate AllBlank(s: string) { forall i :: 0 <= i < |s| ==> IsBlank(s[i]) }

  predicate Free(s: string, c: char) { forall i :: 0 <= i < |s| ==> s[i] != c }

  /** No blank at either end. */
  predicate Trimmed(s: string) { s == "" || (!IsBlank(s[0]) && !IsBlank(s[|s| - 1])) }

  predicate IsSuffix(t: string, s: string) { |t| <= |s| && t == s[|s| - |t|..] }

  lemma {:induction false} LStripEmpty(s: string)
    ensures LStrip(s) == "" <==> AllBlank(s)
  {
    var t := LStrip(s);
    LStripIsSuffix(s);
    if t != "" {
      assert s[|s| - |t|] == t[0];
    }
  }

  lemma StripTrimmed(s: string)
    ensures Trimmed(Strip(s))
    ensures Trimmed(s) ==> Strip(s) == s
    ensures Strip(s) == "" <==> AllBlank(s)
  {
    var t := LStrip(s);
    var r := RStrip(t);
    LStripEmpty(s);
    if t != "" {
      assert !IsBlank(t[0]);
      assert r[0] == t[0];
    }
  }

  /** s.strip() when s has no blank at its end. */
  lemma {:induction false} StripOfTrimmedRight(s: string)
    requires s == "" || !IsBlank(s[|s| - 1])
    ensures Strip(s) == LStrip(s)
  {
    var t := LStrip(s);
    LStripIsSuffix(s);
    if t != "" {
      assert t[|t| - 1] == s[|s| - 1];
    }
  }

  /** str.find: the first position of a pattern. */
  function Find(s: string, pat: string): (at: Option<nat>)
    requires pat != ""
    ensures at.Some? ==> at.value + |pat| <= |s|
  {
    if pat <= s then Some(0)
    else if s == "" then None
    else
      var rest := Find(s[1..], pat);
      if rest.Some? then Some(rest.value + 1) else None
  }

  lemma {:induction false} FindIsFirst(s: string, pat: string)
    requires pat != ""
    ensures var at := Find(s, pat);
            && (at.Some? ==> pat <= s[at.value..])
            && forall i :: 0 <= i <= |s| && (at.None? || i < at.value) ==> !(pat <= s[i..])
  {
    if !(pat <= s) && s != "" {
      FindIsFirst(s[1..], pat);
      assert forall i :: 0 < i <= |s| ==> s[i..] == s[1..][i - 1..];
    }
  }

  lemma {:induction false} FindInPrefix(s: string, pat: string, m: nat)
    requires pat != "" && m <= |s|
    ensures var at := Find(s, pat);
            Find(s[..m], pat) == if at.Some? && at.value + |pat| <= m then at else None
  {
    if m > 0 && s != "" && !(pat <= s) {
      assert s[..m][1..] == s[1..][..m - 1];
      assert !(pat <= s[..m]);
      FindInPrefix(s[1..], pat, m - 1);
    }
  }

  lemma TwoChars(s: string, a: char, b: char)
    ensures [a, b] <= s <==> |s| >= 2 && s[0] == a && s[1] == b
  {
    if |s| >= 2 {
      assert s[..2] == [s[0], s[1]];
    }
  }

  lemma {:induction false} NoStar(s: string)
    requires '*' !in s
    ensures Find(s, "*/").None?
  {
    if s != "" {
      assert s[0] != '*';
      NoStar(s[1..]);
    }
  }

  function IndexOf(s: string, c: char): (i: nat)
    ensures i <= |s| && (i < |s| ==> s[i] == c)
  {
    if s == "" || s[0] == c then 0 else 1 + IndexOf(s[1..], c)
  }

  lemma {:induction false} IndexAfter(s: string, c: char, t: string)
    requires forall i :: 0 <= i < |s| ==> s[i] != c
    ensures IndexOf(s + [c] + t, c) == |s| && IndexOf(s, c) == |s|
  {
    if s != "" {
      IndexAfter(s[1..], c, t);
      assert (s + [c] + t)[1..] == s[1..] + [c] + t;
    }
  }

  lemma {:induction false} IndexOfAbsent(s: string, c: char)
    requires Free(s, c)
    ensures IndexOf(s, c) == |s|
  {
    if s != "" {
      IndexOfAbsent(s[1..], c);
    }
  }

  /** s.split with a one-character separator. */
  function SplitOn(s: string, c: char): seq<string> {
    var i := IndexOf(s, c);
    if i == |s| then [s] else [s[..i]] + SplitOn(s[i + 1..], c)
  }

  /** The text before the first c, or all of it, and the text behind it. */
  function Before(s: string, c: char): string {
    if s == "" || s[0] == c then "" else [s[0]] + Before(s[1..], c)
  }

  function Behind(s: string, c: char): string {
    if s == "" then "" else if s[0] == c then s[1..] else Behind(s[1..], c)
  }

  lemma {:induction false} Partition(s: string, c: char, t: string)
    requires Free(s, c)
    ensures Before(s + ([c] + t), c) == s && Behind(s + ([c] + t), c) == t
    ensures Before(s, c) == s && Behind(s, c) == ""
  {
    if s == "" {
      assert s + ([c] + t) == [c] + t && ([c] + t)[1..] == t;
    } else {
      assert s == [s[0]] + s[1..];
      assert (s + ([c] + t))[1..] == s[1..] + ([c] + t);
      Partition(s[1..], c, t);
    }
  }

  lemma {:induction false} BeforeIsPrefix(s: string, c: char)
    ensures var n := |Before(s, c)|; n <= |s| && Before(s, c) == s[..n] && (n < |s| ==> s[n] == c)
  {
    if s != "" && s[0] != c {
      BeforeIsPrefix(s[1..], c);
    }
  }

  predicate Contains(s: string, pat: string) { exists i :: 0 <= i <= |s| && pat <= s[i..] }

  function Digit(n: nat): char
    requires n < 10
  {
    '0' + n as char
  }

  function UpperChar(c: char): char { if 'a' <= c <= 'z' then c - 32 as char else c }

  function Upper(s: string): (u: string)
    ensures |u| == |s| && forall i :: 0 <= i < |s| ==> u[i] == UpperChar(s[i])
  {
    seq(|s|, i requires 0 <= i < |s| => UpperChar(s[i]))
  }

  /** The same character, or the same letter of the alphabet. */
  predicate SameLetter(c: char, d: char) {
    || c == d
    || ('a' <= c <= 'z' && 'A' <= d <= 'Z' && c as int - 'a' as int == d as int - 'A' as int)
    || ('A' <= c <= 'Z' && 'a' <= d <= 'z' && c as int - 'A' as int == d as int - 'a' as int)
  }

  predicate SameLetters(a: string, b: string) { |a| == |b| && forall i :: 0 <= i < |a| ==> SameLetter(a[i], b[i]) }

  /** Texts are the same in capitals iff they differ in the case of letters only. */
  lemma UpperIff(a: string, b: string)
    ensures Upper(a) == Upper(b) <==> SameLetters(a, b)
  {
    if Upper(a) == Upper(b) {
      forall i | 0 <= i < |a| ensures SameLetter(a[i], b[i]) {
        assert Upper(a)[i] == Upper(b)[i];
      }
    }
  }

  lemma UpperPrefixIff(w: string, s: string)
    requires Upper(w) == w
    ensures w <= Upper(s) <==> |w| <= |s| && SameLetters(w, s[..|w|])
  {
    if |w| <= |s| {
      UpperIff(w, s[..|w|]);
      assert Upper(s[..|w|]) == Upper(s)[..|w|];
    }
  }

  /** A callsign without its SSID, in upper case. */
  function BaseCall(callsign: string): string { Upper(Before(callsign, '-')) }

  /** An SSID and small letters make no difference. */
  lemma BaseCallOfSsid(call: string, ssid: string)
    requires Free(call, '-')
    ensures BaseCall(call + ("-" + ssid)) == BaseCall(call) == Upper(call)
    ensures BaseCall(Upper(call)) == BaseCall(call)
  {
    Partition(call, '-', ssid);
    Partition(Upper(call), '-', ssid);
  }

  // ---------------------------------------------------------------- ' '.join(s.split())

  function FirstWord(s: string): (w: string)
    ensures w <= s
    ensures |w| < |s| ==> IsBlank(s[|w|])
    ensures s != "" && !IsBlank(s[0]) ==> w != ""
  {
    if s == "" || IsBlank(s[0]) then "" else [s[0]] + FirstWord(s[1..])
  }

  /** s.split(). */
  function Words(s: string): seq<string>
    decreases |s|
  {
    var t := LStrip(s);
    if t == "" then [] else [FirstWord(t)] + Words(t[|FirstWord(t)|..])
  }

  function JoinWords(words: seq<string>): string {
    if words == [] then "" else if |words| == 1 then words[0] else words[0] + " " + JoinWords(words[1..])
  }

  function Normalize(s: string): string { Strip(JoinWords(Words(s))) }

  /** The same, character by character: each run of blanks but a final one becomes a space. */
  function Squeeze(s: string): string {
    if s == "" then ""
    else if !IsBlank(s[0]) then [s[0]] + Squeeze(s[1..])
    else if AllBlank(s) then ""
    else if IsBlank(s[1]) then Squeeze(s[1..])
    else " " + Squeeze(s[1..])
  }

  lemma {:induction false} SqueezeWord(s: string)
    ensures Squeeze(s) == FirstWord(s) + Squeeze(s[|FirstWord(s)|..])
  {
    if s == "" || IsBlank(s[0]) {
      assert s[|FirstWord(s)|..] == s;
    } else {
      SqueezeWord(s[1..]);
      assert s[|FirstWord(s)|..] == s[1..][|FirstWord(s[1..])|..];
    }
  }

  lemma {:induction false} SqueezeGap(s: string)
    requires s != "" && IsBlank(s[0])
    ensures Squeeze(s) == if AllBlank(s) then "" else " " + Squeeze(LStrip(s))
    ensures AllBlank(s) <==> LStrip(s) == ""
  {
    LStripEmpty(s);
    if !AllBlank(s) {
      var i :| 0 <= i < |s| && !IsBlank(s[i]);
      assert s[1..][i - 1] == s[i];
      if IsBlank(s[1]) {
        SqueezeGap(s[1..]);
      }
    }
  }

  lemma JoinCons(w: string, words: seq<string>)
    ensures JoinWords([w] + words) == if words == [] then w else w + " " + JoinWords(words)
  {
    assert ([w] + words)[1..] == words;
  }

  lemma {:induction false} SqueezeFirstWord(s: string)
    ensures var rest := s[|FirstWord(s)|..];
            Squeeze(s) == FirstWord(s) + if AllBlank(rest) then "" else " " + Squeeze(LStrip(rest))
    requires s != "" && !IsBlank(s[0])
  {
    var rest := s[|FirstWord(s)|..];
    SqueezeWord(s);
    if rest != "" {
      SqueezeGap(rest);
    }
  }

  /** What follows the first word. */
  function AfterWord(s: string): (rest: string)
    ensures !AllBlank(s) ==> |rest| < |s|
  {
    LStripEmpty(s);
    LStrip(s)[|FirstWord(LStrip(s))|..]
  }

  lemma {:induction false} WordsStep(s: string)
    requires !AllBlank(s)
    ensures Words(s) == [FirstWord(LStrip(s))] + Words(AfterWord(s))
  {
    LStripEmpty(s);
  }

  lemma SqueezeStep(s: string)
    requires !AllBlank(s)
    ensures var tail := if AllBlank(AfterWord(s)) then "" else " " + Squeeze(LStrip(AfterWord(s)));
            Squeeze(LStrip(s)) == FirstWord(LStrip(s)) + tail
  {
    LStripEmpty(s);
    SqueezeFirstWord(LStrip(s));
  }

  lemma {:induction false} NoWords(s: string)
    requires AllBlank(s)
    ensures Words(s) == [] && Squeeze(LStrip(s)) == ""
  {
    LStripEmpty(s);
  }

  lemma Glue(w: string, words: seq<string>, tail: string, blank: bool)
    requires words == [] <==> blank
    requires JoinWords(words) == tail
    ensures JoinWords([w] + words) == w + if blank then "" else " " + tail
  {
    JoinCons(w, words);
    assert w + "" == w && w + " " + tail == w + (" " + tail);
  }

  lemma {:induction false} JoinIsSqueeze(s: string)
    ensures JoinWords(Words(s)) == Squeeze(LStrip(s))
    ensures Words(s) == [] <==> AllBlank(s)
    decreases |s|
  {
    if AllBlank(s) {
      NoWords(s);
    } else {
      var rest := AfterWord(s);
      JoinIsSqueeze(rest);
      WordsStep(s);
      SqueezeStep(s);
      Glue(FirstWord(LStrip(s)), Words(rest), Squeeze(LStrip(rest)), AllBlank(rest));
    }
  }

  lemma {:induction false} SqueezeEnds(s: string)
    ensures s != "" && !IsBlank(s[0]) ==> Squeeze(s) != "" && Squeeze(s)[0] == s[0]
    ensures s != "" && IsBlank(s[0]) && !AllBlank(s) ==> Squeeze(s) != "" && Squeeze(s)[0] == ' '
    ensures AllBlank(s) ==> Squeeze(s) == ""
    ensures Squeeze(s) != "" ==> !IsBlank(Squeeze(s)[|Squeeze(s)| - 1])
  {
    if s != "" {
      SqueezeEnds(s[1..]);
      if !AllBlank(s) && IsBlank(s[0]) {
        var i :| 0 <= i < |s| && !IsBlank(s[i]);
        assert s[1..][i - 1] == s[i];
      }
    }
  }

  lemma {:induction false} NormalizeIsSqueeze(s: string)
    ensures Normalize(s) == Squeeze(LStrip(s)) && Trimmed(Normalize(s))
  {
    JoinIsSqueeze(s);
    SqueezeEnds(LStrip(s));
    StripTrimmed(Squeeze(LStrip(s)));
  }

  function NonBlanks(s: string): string {
    if s == "" then "" else (if IsBlank(s[0]) then "" else [s[0]]) + NonBlanks(s[1..])
  }

  /** Every blank is a single space. */
  predicate SingleSpaced(s: string) {
    && (forall i :: 0 <= i < |s| && IsBlank(s[i]) ==> s[i] == ' ')
    && forall i :: 0 <= i < |s| - 1 && IsBlank(s[i]) ==> !IsBlank(s[i + 1])
  }

  lemma {:induction false} SqueezeKeepsText(s: string)
    ensures NonBlanks(Squeeze(s)) == NonBlanks(s) && SingleSpaced(Squeeze(s))
  {
    if s != "" {
      SqueezeKeepsText(s[1..]);
      if AllBlank(s) {
        assert AllBlank(s[1..]);
        SqueezeEnds(s[1..]);
      } else if !IsBlank(s[0]) || !IsBlank(s[1]) {
        SpacedCons(s);
        assert Squeeze(s)[1..] == Squeeze(s[1..]);
      }
    }
  }

  lemma SpacedCons(s: string)
    requires s != "" && !AllBlank(s) && (!IsBlank(s[0]) || !IsBlank(s[1])) && SingleSpaced(Squeeze(s[1..]))
    ensures SingleSpaced(Squeeze(s))
  {
    var t, r := Squeeze(s), Squeeze(s[1..]);
    SqueezeEnds(s[1..]);
    assert t == [t[0]] + r;
    assert forall i :: 0 < i < |t| ==> t[i] == r[i - 1];
  }

  lemma {:induction false} StripKeepsText(s: string)
    ensures NonBlanks(LStrip(s)) == NonBlanks(s)
  {
    if s != "" && IsBlank(s[0]) {
      StripKeepsText(s[1..]);
    }
  }

  /** Normalizing changes blanks only: single spaces between the words, none at the ends. */
  lemma NormalizeKeepsText(s: string)
    ensures NonBlanks(Normalize(s)) == NonBlanks(s)
    ensures SingleSpaced(Normalize(s)) && Trimmed(Normalize(s))
  {
    NormalizeIsSqueeze(s);
    SqueezeKeepsText(LStrip(s));
    StripKeepsText(s);
  }
}
