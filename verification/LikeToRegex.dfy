/** `convertSqlLikeToRegex` and `patternMatch`: compiling a LIKE pattern to regular expression text
    and running the text. */
module LikeToRegex {
  import opened Wrappers
  import opened LikePattern
  import opened Regex

  const ANY_ONE := "[\\s\\S]"
  const ANY_SEQUENCE := "[\\s\\S]*"
  const ANY_CHAR := Class([White, NonWhite])

  predicate OnlyPercent(p: string) {
    forall k :: 0 <= k < |p| ==> p[k] == '%'
  }

  predicate NeedsEscape(c: char) {
    c in ".^$*+?()[]{}|"
  }

  /** What the first element of a pattern adds to the text. */
  function Emitted(p: string): string
    requires p != ""
  {
    if |p| > 1 && p[0] == '\\' then
      if p[1] == '%' || p[1] == '_' then [p[1]] else "\\\\"
    else if p[0] == '%' then ANY_SEQUENCE
    else if p[0] == '_' then ANY_ONE
    else if NeedsEscape(p[0]) then "\\" + [p[0]]
    else [p[0]]
  }

  /** The text between the anchors. */
  function Body(p: string): string {
    if p == "" then "" else Emitted(p) + Body(p[ElementLength(p)..])
  }

  function RegexText(p: string): string {
    if OnlyPercent(p) then ".*" else "^" + Body(p) + "$"
  }

  /** `convertSqlLikeToRegex`. */
  method ConvertSqlLikeToRegex(pattern: string) returns (text: string)
    ensures text == RegexText(pattern)
  {
    var onlyPercent := ScanOnlyPercent(pattern);
    if onlyPercent {
      return ".*";
    }

    var body := ConvertBody(pattern);
    text := "^" + body + "$";
  }

  /** The loop over the elements of the pattern. */
  method ConvertBody(pattern: string) returns (regexPattern: string)
    ensures regexPattern == Body(pattern)
  {
    regexPattern := "";
    var i := 0;
    assert "" + Body(pattern) == Body(pattern) && pattern[0..] == pattern;
    while i < |pattern|
      invariant 0 <= i <= |pattern|
      invariant regexPattern + Body(pattern[i..]) == Body(pattern)
    {
      var emitted, n := ConvertElement(pattern, i);
      BodyStep(pattern, i, regexPattern);
      regexPattern := regexPattern + emitted;
      i := i + n;
    }
    assert pattern[i..] == "" && regexPattern + "" == regexPattern;
  }

  lemma BodyStep(p: string, i: nat, done: string)
    requires i < |p|
    ensures var n := ElementLength(p[i..]);
            done + Emitted(p[i..]) + Body(p[i + n..]) == done + Body(p[i..])
  {
    var n := ElementLength(p[i..]);
    assert p[i + n..] == p[i..][n..];
    assert done + Emitted(p[i..]) + Body(p[i + n..]) == done + (Emitted(p[i..]) + Body(p[i + n..]));
  }

  method ScanOnlyPercent(pattern: string) returns (onlyPercent: bool)
    ensures onlyPercent == OnlyPercent(pattern)
  {
    for k := 0 to |pattern|
      invariant OnlyPercent(pattern[..k])
    {
      if pattern[k] != '%' {
        return false;
      }
    }
    assert pattern[..|pattern|] == pattern;
    return true;
  }

  /** One round of the loop of `convertSqlLikeToRegex`: the text to append and the characters read. */
  method ConvertElement(pattern: string, i: nat) returns (emitted: string, n: nat)
    requires i < |pattern|
    ensures n == ElementLength(pattern[i..])
    ensures emitted == Emitted(pattern[i..])
  {
    var ch := pattern[i];
    if ch == '\\' && i + 1 < |pattern| {
      var nextChar := pattern[i + 1];
      if nextChar == '%' || nextChar == '_' {
        emitted, n := [nextChar], 2;
      } else if nextChar == '\\' {
        emitted, n := "\\\\", 2;
      } else {
        emitted, n := "\\\\", 1;
      }
    } else if ch == '%' {
      emitted, n := "[\\s\\S]*", 1;
    } else if ch == '_' {
      emitted, n := "[\\s\\S]", 1;
    } else {
      emitted, n := if NeedsEscape(ch) then "\\" else "", 1;
      emitted := emitted + [ch];
    }
  }

  /** Whether compiled pattern `p` matches the whole of `str`; a text that does not parse matches nothing. */
  predicate PatternMatches(str: string, p: string) {
    p == "" || match Parse(RegexText(p)) case None => false case Some(terms) => FullMatch(terms, str)
  }

  /** `patternMatch`. The `regex` constructor throws on malformed text; `AlwaysCompiles` shows that
      this branch is never taken. */
  method PatternMatch(str: string, pattern: string) returns (matched: Option<bool>)
    ensures matched == Some(PatternMatches(str, pattern))
  {
    if pattern == "" {
      return Some(true);
    }
    var text := ConvertSqlLikeToRegex(pattern);
    AlwaysCompiles(pattern);
    match Parse(text) {
      case None => matched := None;
      case Some(terms) => matched := Some(FullMatch(terms, str));
    }
  }

  // ---- The emitted text parses back to the pattern ----

  function TermOf(t: Token): Term {
    match t
    case AnySequence => Star(ANY_CHAR)
    case AnyOne => One(ANY_CHAR)
    case Literal(c) => One(Char(c))
  }

  function TermsOf(ts: seq<Token>): seq<Term> {
    if ts == [] then [] else [TermOf(ts[0])] + TermsOf(ts[1..])
  }

  /** Reading element by element, a backslash is left over at the end with nothing to escape. */
  predicate Dangling(p: string) {
    p != "" && (p == "\\" || Dangling(p[ElementLength(p)..]))
  }

  function TrailingBackslashes(p: string): nat {
    if p == "" || p[|p| - 1] != '\\' then 0 else 1 + TrailingBackslashes(p[..|p| - 1])
  }

  lemma {:induction false} TrailingSplit(p: string, n: nat)
    requires n <= |p|
    ensures TrailingBackslashes(p[n..]) <= |p| - n
    ensures TrailingBackslashes(p) == TrailingBackslashes(p[n..])
              + if TrailingBackslashes(p[n..]) == |p| - n then TrailingBackslashes(p[..n]) else 0
    decreases |p|
  {
    if n == |p| {
      assert p[..n] == p;
    } else if p[|p| - 1] == '\\' {
      var q := p[..|p| - 1];
      TrailingSplit(q, n);
      assert q[n..] == p[n..][..|p| - n - 1] && q[..n] == p[..n];
    }
  }

  /** A caller sees from the end of a pattern whether it dangles: the run of backslashes there is odd. */
  lemma {:induction false} DanglingIffOddRun(p: string)
    ensures Dangling(p) <==> TrailingBackslashes(p) % 2 == 1
  {
    if p != "" && p != "\\" {
      var n := ElementLength(p);
      DanglingIffOddRun(p[n..]);
      TrailingSplit(p, n);
      TrailingSplit(p[..n], 1);
      if n == 1 && p[0] == '\\' { TrailingSplit(p[1..], 1); }
    }
  }

  /** Without its dangling backslash the pattern has the same elements, less the last one. */
  lemma {:induction false} DanglingTokens(p: string)
    requires Dangling(p)
    ensures !Dangling(p[..|p| - 1])
    ensures Tokens(p) == Tokens(p[..|p| - 1]) + [Literal('\\')]
  {
    if |p| > 1 {
      var n := ElementLength(p);
      DanglingTokens(p[n..]);
      assert p[..|p| - 1][n..] == p[n..][..|p| - n - 1];
    }
  }

  /** The terms that the emitted text stands for: one for each element, then the end assertion; but a
      dangling backslash escapes the appended `$`, which turns it into a literal. */
  function CompiledTerms(p: string): seq<Term> {
    if Dangling(p) then TermsOf(Tokens(p[..|p| - 1])) + [One(Char('$'))] else TermsOf(Tokens(p)) + [End]
  }

  /** Every pattern that is not all `%` compiles to one anchored sequence whose atoms are the pattern's
      elements, in order; every metacharacter comes back as a literal. */
  lemma ParsesToTokens(p: string)
    requires !OnlyPercent(p)
    ensures Parse(RegexText(p)) == Some([Begin] + CompiledTerms(p))
  {
    BodyParses(p);
    assert ("^" + Body(p) + "$")[1..] == Body(p) + "$";
  }

  lemma AlwaysCompiles(p: string)
    ensures Parse(RegexText(p)).Some?
  {
    if OnlyPercent(p) {
      OnlyPercentParses();
    } else {
      ParsesToTokens(p);
    }
  }

  lemma OnlyPercentParses()
    ensures Parse(".*") == Some([Star(Dot)])
  {
    var t := ".*";
    assert ParseAtom(t) == Some((Dot, 1)) && t[1] == '*';
    assert t[2..] == "" && [Star(Dot)] + [] == [Star(Dot)];
  }

  lemma {:induction false} BodyParses(p: string)
    ensures Parse(Body(p) + "$") == Some(CompiledTerms(p))
  {
    if p == "" {
      assert Body(p) + "$" == "$";
      assert "$"[1..] == "" && [End] + [] == CompiledTerms(p);
    } else if p == "\\" {
      assert Body(p) + "$" == "\\$";
      assert "\\$"[2..] == "";
      assert ParseAtom("\\$") == Some((Char('$'), 2));
      assert [One(Char('$'))] + [] == CompiledTerms(p);
    } else {
      var q := p[ElementLength(p)..];
      BodyParses(q);
      assert Body(p) + "$" == Emitted(p) + (Body(q) + "$");
      BodyNotStar(q);
      ParsesEmitted(p, Body(q) + "$");
      CompiledTermsStep(p);
    }
  }

  lemma CompiledTermsStep(p: string)
    requires p != "" && p != "\\"
    ensures CompiledTerms(p) == [TermOf(FirstToken(p))] + CompiledTerms(p[ElementLength(p)..])
  {
    var q := p[ElementLength(p)..];
    if Dangling(p) {
      assert Dangling(q) && q != "";
      var init := p[..|p| - 1];
      assert init[ElementLength(p)..] == q[..|q| - 1];
      assert FirstToken(init) == FirstToken(p);
    }
  }

  lemma ParsesEmitted(p: string, rest: string)
    requires p != "" && p != "\\"
    requires rest != "" && rest[0] != '*'
    ensures Parse(Emitted(p) + rest) == Prepend(TermOf(FirstToken(p)), Parse(rest))
  {
    if p[0] == '%' {
      AnySequenceParses(rest);
    } else if p[0] == '_' {
      AnyOneParses(rest);
    } else {
      LiteralParses(Emitted(p), FirstToken(p).c, rest);
    }
  }

  lemma AnyOneParses(rest: string)
    requires rest != "" && rest[0] != '*'
    ensures Parse(ANY_ONE + rest) == Prepend(One(ANY_CHAR), Parse(rest))
  {
    AnyCharParses(rest);
    assert (ANY_ONE + rest)[6..] == rest;
  }

  lemma AnySequenceParses(rest: string)
    ensures Parse(ANY_SEQUENCE + rest) == Prepend(Star(ANY_CHAR), Parse(rest))
  {
    AnyCharParses("*" + rest);
    assert ANY_SEQUENCE == ANY_ONE + "*";
    var text := ANY_ONE + ("*" + rest);
    assert ANY_SEQUENCE + rest == text;
    assert text[7..] == rest && text[6] == '*';
  }

  lemma AnyCharParses(rest: string)
    ensures ParseAtom(ANY_ONE + rest) == Some((ANY_CHAR, 6))
    ensures (ANY_ONE + rest)[0] == '['
  {
    ClassParses((ANY_ONE + rest)[1..]);
  }

  /** A character that stands for itself, or escaped punctuation. */
  lemma LiteralParses(e: string, c: char, rest: string)
    requires rest != "" && rest[0] != '*'
    requires e == if IsSyntaxCharacter(c) then ['\\', c] else [c]
    ensures Parse(e + rest) == Prepend(One(Char(c)), Parse(rest))
  {
    assert (e + rest)[|e|..] == rest;
  }

  lemma ClassParses(t: string)
    requires |t| >= 5 && t[0] == '\\' && t[1] == 's' && t[2] == '\\' && t[3] == 'S' && t[4] == ']'
    ensures ParseClass(t) == Some(([White, NonWhite], 5))
  {
    var u := t[2..];
    assert ParseClass(u[2..]) == Some(([], 1));
    assert [NonWhite] + [] == [NonWhite];
    assert ParseClass(u) == Some(([NonWhite], 3));
    assert [White] + [NonWhite] == [White, NonWhite];
  }

  lemma BodyNotStar(p: string)
    ensures (Body(p) + "$")[0] != '*'
  {
  }

  // ---- The compiled pattern means the pattern ----

  lemma {:induction false} TermsMatchTokens(ts: seq<Token>, tail: seq<Term>, s: string, i: nat)
    requires i <= |s| && (tail == [] || tail == [End])
    ensures MatchFrom(TermsOf(ts) + tail, s, i) <==> Accepts(ts, s[i..])
    decreases |ts| + |s| - i
  {
    var terms := TermsOf(ts) + tail;
    if ts == [] {
      assert terms == tail;
      if tail == [End] { assert tail[1..] == []; }
    } else {
      assert terms[0] == TermOf(ts[0]) && terms[1..] == TermsOf(ts[1..]) + tail;
      if i < |s| {
        assert s[i..][1..] == s[i + 1..];
        TermsMatchTokens(ts[1..], tail, s, i + 1);
        if ts[0].AnySequence? {
          TermsMatchTokens(ts, tail, s, i + 1);
          TermsMatchTokens(ts[1..], tail, s, i);
        }
      } else if ts[0].AnySequence? {
        TermsMatchTokens(ts[1..], tail, s, i);
      }
    }
  }

  lemma {:induction false} OnlyPercentAccepts(p: string, s: string)
    requires p != "" && OnlyPercent(p)
    ensures Accepts(Tokens(p), s)
    decreases |p| + |s|
  {
    if s != "" {
      OnlyPercentAccepts(p, s[1..]);
    } else if |p| > 1 {
      OnlyPercentAccepts(p[1..], s);
    }
  }

  lemma {:induction false} DotStar(s: string, i: nat)
    requires i <= |s|
    ensures MatchFrom([Star(Dot)], s, i) <==> forall k :: i <= k < |s| ==> !IsLineTerminator(s[k])
    decreases |s| - i
  {
    if i < |s| { DotStar(s, i + 1); }
  }

  lemma {:induction false} OnlyPercentNotDangling(p: string)
    requires OnlyPercent(p)
    ensures !Dangling(p)
  {
    if p != "" { OnlyPercentNotDangling(p[1..]); }
  }

  lemma RunsCompiledTerms(str: string, p: string)
    requires !OnlyPercent(p)
    ensures PatternMatches(str, p) <==> MatchFrom(CompiledTerms(p), str, 0)
  {
    ParsesToTokens(p);
    assert ([Begin] + CompiledTerms(p))[1..] == CompiledTerms(p);
  }

  /** Main theorem. For a well-escaped pattern the compiled text matches exactly the LIKE language of
      the pattern, except that an all-`%` pattern does not match across a line terminator. */
  lemma PatternMatchesIsLike(str: string, p: string)
    requires p != "" && !Dangling(p)
    ensures PatternMatches(str, p) <==>
            InLanguage(Tokens(p), str) && !(OnlyPercent(p) && HasLineTerminator(str))
  {
    AcceptsIffInLanguage(Tokens(p), str);
    if OnlyPercent(p) {
      OnlyPercentParses();
      OnlyPercentAccepts(p, str);
      DotStar(str, 0);
    } else {
      RunsCompiledTerms(str, p);
      TermsMatchTokens(Tokens(p), [End], str, 0);
      assert str[0..] == str;
    }
  }

  /** A dangling backslash is read as a final `$`: the pattern matches what its well-escaped part
      matches, followed by a dollar sign. */
  lemma DanglingMatchesDollar(str: string, p: string)
    requires Dangling(p)
    ensures PatternMatches(str, p) <==>
            str != "" && str[|str| - 1] == '$' && InLanguage(Tokens(p[..|p| - 1]), str[..|str| - 1])
  {
    if OnlyPercent(p) { OnlyPercentNotDangling(p); }
    RunsCompiledTerms(str, p);
    DollarTail(Tokens(p[..|p| - 1]), str);
    if str != "" { AcceptsIffInLanguage(Tokens(p[..|p| - 1]), str[..|str| - 1]); }
  }

  lemma DollarTail(ts: seq<Token>, s: string)
    ensures MatchFrom(TermsOf(ts) + [One(Char('$'))], s, 0) <==>
            s != "" && s[|s| - 1] == '$' && Accepts(ts, s[..|s| - 1])
  {
    var all := ts + [Literal('$')];
    TermsOfAppend(ts, Literal('$'));
    TermsMatchTokens(all, [], s, 0);
    assert s[0..] == s && TermsOf(all) + [] == TermsOf(all);
    FinalLiteral(ts, '$', s);
  }

  lemma {:induction false} TermsOfAppend(ts: seq<Token>, t: Token)
    ensures TermsOf(ts + [t]) == TermsOf(ts) + [TermOf(t)]
  {
    if ts != [] {
      assert (ts + [t])[1..] == ts[1..] + [t];
      TermsOfAppend(ts[1..], t);
    }
  }

  /** With a dangling backslash the code and the LIKE language have no string in common. */
  lemma DanglingNeverAgrees(str: string, p: string)
    requires Dangling(p)
    ensures !(PatternMatches(str, p) && InLanguage(Tokens(p), str))
  {
    DanglingMatchesDollar(str, p);
    DanglingTokens(p);
    FinalLiteral(Tokens(p[..|p| - 1]), '\\', str);
    AcceptsIffInLanguage(Tokens(p), str);
  }

  /** The code decides the LIKE language of a non-empty pattern on all strings if and only if the
      pattern has no dangling backslash and is not all `%`. */
  lemma DecidesLikeIff(p: string)
    requires p != ""
    ensures (forall s: string :: PatternMatches(s, p) <==> InLanguage(Tokens(p), s))
            <==> TrailingBackslashes(p) % 2 == 0 && !OnlyPercent(p)
  {
    DanglingIffOddRun(p);
    if Dangling(p) {
      var q := SomeMember(Tokens(p[..|p| - 1]));
      DanglingTokens(p);
      FinalLiteral(Tokens(p[..|p| - 1]), '\\', q + "\\");
      assert (q + "\\")[..|q|] == q;
      AcceptsIffInLanguage(Tokens(p), q + "\\");
      DanglingNeverAgrees(q + "\\", p);
    } else if OnlyPercent(p) {
      OnlyPercentAccepts(p, "\n");
      AcceptsIffInLanguage(Tokens(p), "\n");
      assert IsLineTerminator("\n"[0]);
      PatternMatchesIsLike("\n", p);
    } else {
      forall s: string ensures PatternMatches(s, p) <==> InLanguage(Tokens(p), s) {
        PatternMatchesIsLike(s, p);
      }
    }
  }
}
