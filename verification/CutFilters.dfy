/** Filter text that is cut to its buffer, and when it still reads back. */
module CutFilters {
  import opened Wrappers
  import opened SqlConditions
  import opened CatalogFilters

  /** Reading a literal takes its escaped form and the closing quote. */
  lemma {:induction false} LiteralIsEscaped(s: string)
    requires ReadLiteral(s).Some?
    ensures s == Escape(ReadLiteral(s).value.0) + "'" + ReadLiteral(s).value.1
    decreases |s|
  {
    if s[0] != '\'' {
      LiteralIsEscaped(s[1..]);
      EscapeFirst(s[0], ReadLiteral(s[1..]).value.0);
    } else if |s| > 1 && s[1] == '\'' {
      LiteralIsEscaped(s[2..]);
      EscapeFirst('\'', ReadLiteral(s[2..]).value.0);
    }
  }

  lemma EscapeFirst(c: char, s: string)
    ensures Escape([c] + s) == (if c == '\'' then "''" else [c]) + Escape(s)
  {
    assert ([c] + s)[1..] == s;
  }

  // The quotes of a text follow from its tokens

  lemma {:induction false} QuoteCountConcat(s: string, t: string)
    ensures QuoteCount(s + t) == QuoteCount(s) + QuoteCount(t)
  {
    if s == "" {
      assert s + t == t;
    } else {
      assert (s + t)[1..] == s[1..] + t;
      QuoteCountConcat(s[1..], t);
    }
  }

  lemma {:induction false} NoQuotes(s: string)
    requires '\'' !in s
    ensures QuoteCount(s) == 0
  {
    if s != "" {
      NoQuotes(s[1..]);
    }
  }

  function TokenQuotes(ts: seq<Token>): nat {
    if ts == [] then 0
    else (if ts[0].StringLiteral? then QuoteCount(Quoted(ts[0].value)) else 0) + TokenQuotes(ts[1..])
  }

  lemma TokenQuotesFirst(t: Token, ts: seq<Token>)
    ensures TokenQuotes([t] + ts) == (if t.StringLiteral? then QuoteCount(Quoted(t.value)) else 0) + TokenQuotes(ts)
  {
    assert ([t] + ts)[1..] == ts;
  }

  lemma QuotesBehind(s: string, n: nat)
    requires n <= |s| && '\'' !in s[..n]
    ensures QuoteCount(s) == QuoteCount(s[n..])
  {
    NoQuotes(s[..n]);
    QuoteCountConcat(s[..n], s[n..]);
    assert s == s[..n] + s[n..];
  }

  lemma QuotesOfLiteral(body: string)
    requires ReadLiteral(body).Some?
    ensures QuoteCount("'" + body)
            == QuoteCount(Quoted(ReadLiteral(body).value.0)) + QuoteCount(ReadLiteral(body).value.1)
  {
    var (v, rest) := ReadLiteral(body).value;
    LiteralIsEscaped(body);
    assert "'" + body == Quoted(v) + rest;
    QuoteCountConcat(Quoted(v), rest);
  }

  /** A text has as many quotes as its tokens tell. */
  lemma {:induction false} LexQuotes(s: string)
    requires Lex(s).Some?
    ensures QuoteCount(s) == TokenQuotes(Lex(s).value)
    decreases |s|
  {
    hide QuoteCount, Quoted, ReadLiteral, Run;
    if s == "" {
      NoQuotes(s);
    } else if s[0] == ' ' {
      QuotesBehind(s, 1);
      LexQuotes(s[1..]);
    } else if s[0] == '(' || s[0] == ')' {
      QuotesBehind(s, 1);
      LexQuotes(s[1..]);
      TokenQuotesFirst(if s[0] == '(' then Open else Close, Lex(s[1..]).value);
    } else if s[0] == '\'' {
      var (v, rest) := ReadLiteral(s[1..]).value;
      assert s == "'" + s[1..];
      QuotesOfLiteral(s[1..]);
      LexQuotes(rest);
      TokenQuotesFirst(StringLiteral(v), Lex(rest).value);
    } else {
      var n := Run(s, IsWordChar(s[0]));
      QuotesBehind(s, n);
      LexQuotes(s[n..]);
      TokenQuotesFirst(if IsWordChar(s[0]) then Word(s[..n]) else Operator(s[..n]), Lex(s[n..]).value);
    }
  }

  /** Text that is cut inside the literal, or at the end of its body, and goes on with other conditions, or the start
      of them, reads as something else than the conditions meant. */
  lemma CutLiteral(name: string, k: nat, rest: string, n: nat, chain: Chain)
    requires k <= |Escape(name)| && n <= |rest| && Read(rest) == Some(chain)
    ensures Read(" AND " + (DatabaseHead(Like) + ("'" + (Escape(name)[..k] + rest[..n]))))
            != Some([CurrentDatabase(Like, name)] + chain)
  {
    hide DatabaseHead, Escape, ParseChain, ParseAtom, Lex, ReadLiteral, QuoteCount, TokenQuotes;
    var body := Escape(name)[..k] + rest[..n];
    var text := " AND " + (DatabaseHead(Like) + ("'" + body));
    var head := [Word("AND")] + (DATABASE_CALL + [OpToken(Like)]);
    LexCutText(body);
    if Read(text) == Some([CurrentDatabase(Like, name)] + chain) {
      ChainFromTokens(Lex(text).value);
      ChainFromTokens(Lex(rest).value);
      var (v, tail) := ReadLiteral(body).value;
      var found := Lex(tail).value;
      FirstTokens(name, chain);
      assert head + [StringLiteral(v)] + found == head + [StringLiteral(name)] + ChainTokens(chain);
      SameTokens(head, v, found, name, ChainTokens(chain));
      LexQuotes(tail);
      LexQuotes(rest);
      LiteralIsEscaped(body);
      assert rest == rest[..n] + rest[n..];
      QuoteCountConcat(rest[..n], rest[n..]);
      CutQuotes(Escape(name), k, rest[..n], tail);
    }
  }

  lemma FirstTokens(name: string, chain: Chain)
    ensures ChainTokens([CurrentDatabase(Like, name)] + chain)
            == [Word("AND")] + (DATABASE_CALL + [OpToken(Like)]) + [StringLiteral(name)] + ChainTokens(chain)
  {
    assert ([CurrentDatabase(Like, name)] + chain)[1..] == chain;
  }

  lemma SameTokens(head: seq<Token>, v: string, found: seq<Token>, name: string, tokens: seq<Token>)
    requires head + [StringLiteral(v)] + found == head + [StringLiteral(name)] + tokens
    ensures v == name && found == tokens
  {
    var all := head + [StringLiteral(v)] + found;
    assert all[|head|] == StringLiteral(v) && all[|head|] == StringLiteral(name);
    assert all[|head| + 1..] == found && all[|head| + 1..] == tokens;
  }

  /** A cut literal that is read whole takes quotes away from what follows. */
  lemma CutQuotes(escaped: string, k: nat, rest: string, tail: string)
    requires k <= |escaped| && escaped[..k] + rest == escaped + "'" + tail
    ensures QuoteCount(tail) < QuoteCount(rest)
  {
    QuoteCountConcat(escaped[..k], rest);
    QuoteCountConcat(escaped[..k], escaped[k..]);
    assert escaped == escaped[..k] + escaped[k..];
    QuoteCountConcat(escaped + "'", tail);
    QuoteCountConcat(escaped, "'");
  }

  lemma LexCutText(body: string)
    ensures var head := [Word("AND")] + (DATABASE_CALL + [OpToken(Like)]);
            var text := " AND " + (DatabaseHead(Like) + ("'" + body));
            Lex(text).Some? ==>
              && ReadLiteral(body).Some?
              && Lex(ReadLiteral(body).value.1).Some?
              && Lex(text).value
                 == head + [StringLiteral(ReadLiteral(body).value.0)] + Lex(ReadLiteral(body).value.1).value
  {
    hide DatabaseHead, ReadLiteral, Run;
    var head := [Word("AND")] + (DATABASE_CALL + [OpToken(Like)]);
    LexAnd(DatabaseHead(Like) + ("'" + body));
    LexDatabaseHead(Like, "'" + body);
    PrependTwice([Word("AND")], DATABASE_CALL + [OpToken(Like)], Lex("'" + body));
    assert ("'" + body)[1..] == body;
    var literal := ReadLiteral(body);
    if literal.Some? {
      LexQuote(body);
      PrependTwice(head, [StringLiteral(literal.value.0)], Lex(literal.value.1));
    }
  }

  /** The text of the condition on the connected database, cut to the buffer, reads back if and only if the escaped
      name has at most 991 characters. */
  lemma CatalogReadsBackIff(name: string)
    requires name != ""
    ensures var chain := CatalogFilter(true, "", name);
            Read(Fitted(ChainText(chain), MAX_LARGE_TEMP_BUF_LEN)) == Some(chain) <==> |Escape(name)| <= 991
  {
    hide Escape, Read, DatabaseHead, AtomOk;
    var a := CurrentDatabase(Like, name);
    var e := Escape(name);
    CatalogText(name);
    var text := ChainText([a]);
    if |e| < 991 {
      AlwaysOk(name);
      ChainReadsBack([a]);
    } else if |e| == 991 {
      assert Fitted(text, MAX_LARGE_TEMP_BUF_LEN) == " AND " + (DatabaseHead(Like) + ("'" + e + "'"));
      WithoutBlank(name);
    } else {
      assert Fitted(text, MAX_LARGE_TEMP_BUF_LEN) == " AND " + (DatabaseHead(Like) + ("'" + e[..992]));
      assert e[..992] + "" == e[..992] && [a] + [] == [a];
      ReadsNothing();
      CutLiteral(name, 992, "", 0, []);
    }
  }

  lemma ReadsNothing()
    ensures Read("") == Some([])
  {
  }

  lemma AlwaysOk(name: string)
    ensures AtomOk(CurrentDatabase(Like, name))
  {
  }

  lemma CatalogText(name: string)
    ensures |DatabaseHead(Like)| == 25
    ensures ChainText([CurrentDatabase(Like, name)])
            == " AND " + (DatabaseHead(Like) + ("'" + Escape(name) + "'")) + " "
  {
    hide Escape;
    var a := CurrentDatabase(Like, name);
    assert ChainText([a]) == ConditionText(a) + "" == ConditionText(a) by {
      assert [a][1..] == [];
    }
  }

  lemma WithoutBlank(name: string)
    ensures Read(" AND " + (DatabaseHead(Like) + ("'" + Escape(name) + "'"))) == Some([CurrentDatabase(Like, name)])
  {
    hide Escape, DatabaseHead;
    var a := CurrentDatabase(Like, name);
    LexAnd(AtomText(a));
    LexAtom(a, "");
    assert AtomText(a) + "" == AtomText(a);
    assert ChainTokens([a]) == [Word("AND")] + AtomTokens(a);
    ParsesChain([a]);
  }

  // Cutting a whole text

  predicate AllBlank(s: string) {
    forall i :: 0 <= i < |s| ==> s[i] == ' '
  }

  lemma {:induction false} NoTokensAllBlank(u: string)
    requires Lex(u) == Some([])
    ensures AllBlank(u)
  {
    if u != "" {
      NoTokensAllBlank(u[1..]);
    }
  }

  /** A literal ends at a quote that no other quote follows. */
  lemma {:induction false} LiteralEnds(s: string)
    requires ReadLiteral(s).Some?
    ensures var rest := ReadLiteral(s).value.1;
            rest == "" || rest[0] != '\''
    decreases |s|
  {
    if s[0] != '\'' {
      LiteralEnds(s[1..]);
    } else if |s| > 1 && s[1] == '\'' {
      LiteralEnds(s[2..]);
    }
  }

  /** Text with more behind it that starts with another character than a quote. */
  lemma {:induction false} LiteralBefore(s: string, u: string)
    requires u == "" || u[0] != '\'' || (ReadLiteral(s).Some? && ReadLiteral(s).value.1 != "")
    ensures ReadLiteral(s).Some? ==>
              ReadLiteral(s + u) == Some((ReadLiteral(s).value.0, ReadLiteral(s).value.1 + u))
    ensures ReadLiteral(s).None? && AllBlank(u) ==> ReadLiteral(s + u).None?
    decreases |s|
  {
    if s == "" {
      assert s + u == u;
      if AllBlank(u) {
        UnclosedBlank(u);
      }
    } else if s[0] != '\'' {
      assert (s + u)[1..] == s[1..] + u;
      LiteralBefore(s[1..], u);
    } else if |s| > 1 && s[1] == '\'' {
      assert (s + u)[2..] == s[2..] + u;
      LiteralBefore(s[2..], u);
    } else {
      assert (s + u)[1..] == s[1..] + u;
    }
  }

  lemma {:induction false} UnclosedBlank(u: string)
    requires AllBlank(u)
    ensures ReadLiteral(u).None?
  {
    if u != "" {
      UnclosedBlank(u[1..]);
    }
  }

  lemma {:induction false} RunBefore(s: string, u: string, word: bool)
    requires AllBlank(u)
    ensures Run(s + u, word) == Run(s, word)
  {
    if s == "" {
      assert s + u == u;
    } else {
      assert (s + u)[0] == s[0] && (s + u)[1..] == s[1..] + u;
      RunBefore(s[1..], u, word);
    }
  }

  /** Blanks at the end add no token. */
  lemma {:induction false} LexBeforeBlanks(s: string, u: string)
    requires AllBlank(u)
    ensures Lex(s + u) == Lex(s)
    decreases |s|
  {
    hide ReadLiteral, Run;
    if s == "" {
      assert s + u == u;
      LexBlanks(u);
    } else {
      assert (s + u)[0] == s[0] && (s + u)[1..] == s[1..] + u;
      if s[0] == ' ' || s[0] == '(' || s[0] == ')' {
        LexBeforeBlanks(s[1..], u);
      } else if s[0] == '\'' {
        LiteralBefore(s[1..], u);
        if ReadLiteral(s[1..]).Some? {
          LexBeforeBlanks(ReadLiteral(s[1..]).value.1, u);
        }
      } else if IsWordChar(s[0]) || IsOperatorChar(s[0]) {
        var n := Run(s, IsWordChar(s[0]));
        RunBefore(s, u, IsWordChar(s[0]));
        assert (s + u)[..n] == s[..n] && (s + u)[n..] == s[n..] + u;
        LexBeforeBlanks(s[n..], u);
      }
    }
  }

  lemma {:induction false} LexBlanks(u: string)
    requires AllBlank(u)
    ensures Lex(u) == Some([])
  {
    if u != "" {
      LexBlanks(u[1..]);
    }
  }

  /** What adds no token is blank. */
  lemma {:induction false} SameTokensAllBlank(s: string, u: string)
    requires Lex(s).Some? && Lex(s + u) == Lex(s)
    ensures AllBlank(u)
    decreases |s|
  {
    hide ReadLiteral, Run, Lex;
    if s == "" {
      assert s + u == u;
      NoText();
      NoTokensAllBlank(u);
    } else {
      if s[0] == ' ' || s[0] == '(' || s[0] == ')' {
        SameSeparator(s, u);
        SameTokensAllBlank(s[1..], u);
      } else if s[0] == '\'' {
        assert s == "'" + s[1..];
        SameLiteral(s[1..], u);
        SameTokensAllBlank(ReadLiteral(s[1..]).value.1, u);
      } else {
        SameRun(s, u);
        SameTokensAllBlank(s[Run(s, IsWordChar(s[0]))..], u);
      }
    }
  }

  lemma NoText()
    ensures Lex("") == Some([])
  {
  }

  lemma SameSeparator(s: string, u: string)
    requires s != "" && (s[0] == ' ' || s[0] == '(' || s[0] == ')')
    requires Lex(s).Some? && Lex(s + u) == Lex(s)
    ensures Lex(s[1..]).Some? && Lex(s[1..] + u) == Lex(s[1..])
  {
    assert (s + u)[0] == s[0] && (s + u)[1..] == s[1..] + u;
    SameBehind([if s[0] == '(' then Open else Close], Lex(s[1..] + u), Lex(s[1..]));
  }

  lemma SameBehind(ts: seq<Token>, x: Option<seq<Token>>, y: Option<seq<Token>>)
    ensures Prepend(ts, x) == Prepend(ts, y) ==> x == y
  {
    if Prepend(ts, x) == Prepend(ts, y) && x.Some? {
      assert (ts + x.value)[|ts|..] == x.value;
      assert (ts + y.value)[|ts|..] == y.value;
    }
  }

  lemma LexOfLiteral(body: string)
    ensures Lex("'" + body)
            == if ReadLiteral(body).None? then None
               else Prepend([StringLiteral(ReadLiteral(body).value.0)], Lex(ReadLiteral(body).value.1))
  {
    assert ("'" + body)[1..] == body;
  }

  lemma SameLiteral(body: string, u: string)
    requires Lex("'" + body).Some? && Lex("'" + body + u) == Lex("'" + body)
    ensures ReadLiteral(body).Some?
    ensures var rest := ReadLiteral(body).value.1;
            Lex(rest).Some? && Lex(rest + u) == Lex(rest)
  {
    hide ReadLiteral, Escape, Lex;
    assert "'" + body + u == "'" + (body + u);
    LexOfLiteral(body);
    LexOfLiteral(body + u);
    var (v, rest) := ReadLiteral(body).value;
    if rest != "" || u == "" || u[0] != '\'' {
      LiteralBefore(body, u);
      SameBehind([StringLiteral(v)], Lex(rest + u), Lex(rest));
    } else {
      assert Lex("'" + body).value[0] == StringLiteral(v);
      assert Lex("'" + body + u).value[0] == StringLiteral(ReadLiteral(body + u).value.0);
      LongerLiteral(body, u);
    }
  }

  /** A quote behind the closing quote continues the literal. */
  lemma LongerLiteral(body: string, u: string)
    requires ReadLiteral(body).Some? && ReadLiteral(body).value.1 == "" && u != "" && u[0] == '\''
    ensures ReadLiteral(body + u).Some? ==> ReadLiteral(body + u).value.0 != ReadLiteral(body).value.0
  {
    hide ReadLiteral, Escape;
    var v := ReadLiteral(body).value.0;
    LiteralIsEscaped(body);
    if ReadLiteral(body + u).Some? && ReadLiteral(body + u).value.0 == v {
      LiteralIsEscaped(body + u);
      var rest := ReadLiteral(body + u).value.1;
      assert (body + u)[|body|..] == u && (body + u)[|body|..] == rest;
      LiteralEnds(body + u);
    }
  }

  /** The token at the start of a text that starts with neither a blank, a parenthesis nor a quote. */
  function RunToken(s: string): Token
    requires s != ""
  {
    var word := IsWordChar(s[0]);
    if word then Word(s[..Run(s, word)]) else Operator(s[..Run(s, word)])
  }

  lemma LexOfRun(s: string)
    requires s != "" && s[0] !in " ()'"
    ensures Lex(s).Some? ==>
              && Run(s, IsWordChar(s[0])) > 0
              && Lex(s) == Prepend([RunToken(s)], Lex(s[Run(s, IsWordChar(s[0]))..]))
  {
    hide Run, ReadLiteral;
  }

  lemma SameRun(s: string, u: string)
    requires s != "" && s[0] !in " ()'"
    requires Lex(s).Some? && Lex(s + u) == Lex(s)
    ensures var n := Run(s, IsWordChar(s[0]));
            n > 0 && Lex(s[n..]).Some? && Lex(s[n..] + u) == Lex(s[n..])
  {
    hide Run, Lex;
    assert (s + u)[0] == s[0];
    LexOfRun(s);
    LexOfRun(s + u);
    assert Lex(s).value[0] == RunToken(s) && Lex(s + u).value[0] == RunToken(s + u);
    var n := Run(s, IsWordChar(s[0]));
    assert n == Run(s + u, IsWordChar(s[0])) by {
      assert |RunToken(s).text| == |RunToken(s + u).text|;
    }
    assert (s + u)[n..] == s[n..] + u;
    SameBehind([RunToken(s)], Lex(s[n..] + u), Lex(s[n..]));
  }

  /** Cutting a text that reads as a chain keeps what it says if and only if only blanks are cut. */
  lemma CutReadsBackIff(text: string, n: nat, chain: Chain)
    requires Read(text) == Some(chain) && n <= |text|
    ensures Read(text[..n]) == Some(chain) <==> AllBlank(text[n..])
  {
    hide Lex, ParseChain, ChainTokens, AllBlank;
    assert text[..n] + text[n..] == text;
    if AllBlank(text[n..]) {
      LexBeforeBlanks(text[..n], text[n..]);
    }
    if Read(text[..n]) == Some(chain) {
      ChainFromTokens(Lex(text).value);
      ChainFromTokens(Lex(text[..n]).value);
      SameTokensAllBlank(text[..n], text[n..]);
    }
  }
}
