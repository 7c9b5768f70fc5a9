/** The part of SQL in which the catalog queries state their filters: comparisons of a column or of
    `current_database()` with a string literal, `AND`, `OR`, parentheses and `false`, read as in sections 5.2, 5.3
    and 6.39 of ISO/IEC 9075-2. */
module SqlConditions {
  import opened Wrappers
  import LikePattern

  datatype Comparison = Equal | NotEqual | Like | Matches | NotMatches

  datatype Atom =
    | False
    | Compare(column: string, op: Comparison, literal: string)
    | CurrentDatabase(op: Comparison, literal: string)
    | Group(condition: Disjunction)
  datatype Conjunction = One(atom: Atom) | Also(atom: Atom, rest: Conjunction)
  datatype Disjunction = Just(terms: Conjunction) | Either(terms: Conjunction, rest: Disjunction)

  datatype Token = Word(text: string) | Operator(text: string) | StringLiteral(value: string) | Open | Close

  /** A chain is text of the form `AND atom AND atom ...`, appended to a query that ends in a condition. */
  type Chain = seq<Atom>

  // Characters

  predicate IsWordChar(c: char) {
    'a' <= c <= 'z' || 'A' <= c <= 'Z' || '0' <= c <= '9' || c == '_' || c == '.'
  }

  predicate IsOperatorChar(c: char) {
    c == '=' || c == '<' || c == '>' || c == '!' || c == '~' || c == '*'
  }

  /** The number of word characters, or of operator characters, at the start. */
  function Run(s: string, word: bool): (n: nat)
    ensures n <= |s|
    ensures forall i :: 0 <= i < n ==> if word then IsWordChar(s[i]) else IsOperatorChar(s[i])
    ensures n < |s| ==> !if word then IsWordChar(s[n]) else IsOperatorChar(s[n])
  {
    if s == "" || !(if word then IsWordChar(s[0]) else IsOperatorChar(s[0])) then 0 else 1 + Run(s[1..], word)
  }

  // String literals

  /** The body of a string literal: quotes are doubled. */
  function Escape(s: string): string {
    if s == "" then "" else (if s[0] == '\'' then "''" else [s[0]]) + Escape(s[1..])
  }

  /** Reads a literal from behind its opening quote: its value, and the text behind its closing quote. */
  function ReadLiteral(s: string): (r: Option<(string, string)>)
    ensures r.Some? ==> |r.value.1| < |s|
  {
    if s == "" then None
    else if s[0] != '\'' then
      var r := ReadLiteral(s[1..]);
      if r.Some? then Some(([s[0]] + r.value.0, r.value.1)) else None
    else if |s| > 1 && s[1] == '\'' then
      var r := ReadLiteral(s[2..]);
      if r.Some? then Some((['\''] + r.value.0, r.value.1)) else None
    else Some(("", s[1..]))
  }

  // Tokens

  function Prepend(ts: seq<Token>, rest: Option<seq<Token>>): Option<seq<Token>> {
    if rest.Some? then Some(ts + rest.value) else None
  }

  function Lex(s: string): Option<seq<Token>>
    decreases |s|
  {
    if s == "" then Some([])
    else if s[0] == ' ' then Lex(s[1..])
    else if s[0] == '(' then Prepend([Open], Lex(s[1..]))
    else if s[0] == ')' then Prepend([Close], Lex(s[1..]))
    else if s[0] == '\'' then
      var r := ReadLiteral(s[1..]);
      if r.Some? then Prepend([StringLiteral(r.value.0)], Lex(r.value.1)) else None
    else if IsWordChar(s[0]) then
      var n := Run(s, true);
      Prepend([Word(s[..n])], Lex(s[n..]))
    else if IsOperatorChar(s[0]) then
      var n := Run(s, false);
      Prepend([Operator(s[..n])], Lex(s[n..]))
    else None
  }

  // Parser

  const KEYWORDS := {"AND", "OR", "LIKE", "false"}

  /** The call of the function that returns the name of the connected database. */
  const DATABASE_CALL := [Word("current_database"), Open, Close]

  function OpToken(op: Comparison): Token {
    match op
    case Equal => Operator("=")
    case NotEqual => Operator("<>")
    case Like => Word("LIKE")
    case Matches => Operator("~")
    case NotMatches => Operator("!~")
  }

  function ReadOp(t: Token): Option<Comparison> {
    if t == Operator("=") then Some(Equal)
    else if t == Operator("<>") then Some(NotEqual)
    else if t == Word("LIKE") then Some(Like)
    else if t == Operator("~") then Some(Matches)
    else if t == Operator("!~") then Some(NotMatches)
    else None
  }

  function ParseAtom(ts: seq<Token>): (r: Option<(Atom, seq<Token>)>)
    ensures r.Some? ==> |r.value.1| < |ts|
    decreases |ts|, 0
  {
    if ts == [] then None
    else if ts[0] == Word("false") then Some((False, ts[1..]))
    else if ts[0] == Open then
      var r := ParseDisjunction(ts[1..]);
      if r.Some? && r.value.1 != [] && r.value.1[0] == Close
      then Some((Group(r.value.0), r.value.1[1..])) else None
    else if |ts| >= 3 && ts[0].Word? && ts[0].text !in KEYWORDS && ReadOp(ts[1]).Some? && ts[2].StringLiteral?
    then Some((Compare(ts[0].text, ReadOp(ts[1]).value, ts[2].value), ts[3..]))
    else if |ts| >= 5 && ts[..3] == DATABASE_CALL && ReadOp(ts[3]).Some? && ts[4].StringLiteral?
    then Some((CurrentDatabase(ReadOp(ts[3]).value, ts[4].value), ts[5..]))
    else None
  }

  function ParseConjunction(ts: seq<Token>): (r: Option<(Conjunction, seq<Token>)>)
    ensures r.Some? ==> |r.value.1| < |ts|
    decreases |ts|, 1
  {
    var first := ParseAtom(ts);
    if first.None? then None
    else if first.value.1 != [] && first.value.1[0] == Word("AND") then
      var rest := ParseConjunction(first.value.1[1..]);
      if rest.Some? then Some((Also(first.value.0, rest.value.0), rest.value.1)) else None
    else Some((One(first.value.0), first.value.1))
  }

  function ParseDisjunction(ts: seq<Token>): (r: Option<(Disjunction, seq<Token>)>)
    ensures r.Some? ==> |r.value.1| < |ts|
    decreases |ts|, 2
  {
    var first := ParseConjunction(ts);
    if first.None? then None
    else if first.value.1 != [] && first.value.1[0] == Word("OR") then
      var rest := ParseDisjunction(first.value.1[1..]);
      if rest.Some? then Some((Either(first.value.0, rest.value.0), rest.value.1)) else None
    else Some((Just(first.value.0), first.value.1))
  }

  function ParseChain(ts: seq<Token>): Option<Chain>
    decreases |ts|
  {
    if ts == [] then Some([])
    else if ts[0] != Word("AND") then None
    else
      var first := ParseAtom(ts[1..]);
      if first.None? then None
      else
        var rest := ParseChain(first.value.1);
        if rest.Some? then Some([first.value.0] + rest.value) else None
  }

  /** What a chain of conditions says. */
  function Read(text: string): Option<Chain> {
    var ts := Lex(text);
    if ts.Some? then ParseChain(ts.value) else None
  }

  // Meaning

  /** The pattern `^literal` of the match operators. */
  predicate StartsWith(s: string, anchored: string) {
    anchored != "" && anchored[0] == '^' && anchored[1..] <= s
  }

  predicate Compares(op: Comparison, value: string, literal: string) {
    match op
    case Equal => value == literal
    case NotEqual => value != literal
    case Like => LikePattern.Accepts(LikePattern.Tokens(literal), value)
    case Matches => StartsWith(value, literal)
    case NotMatches => !StartsWith(value, literal)
  }

  /** What a condition looks at: the columns by name, and the connected database under the text of its call. */
  type Columns = map<string, string>

  const CURRENT_DATABASE := "current_database()"

  predicate AtomHolds(a: Atom, row: Columns)
  {
    match a
    case False => false
    case Compare(c, op, v) => c in row && Compares(op, row[c], v)
    case CurrentDatabase(op, v) => CURRENT_DATABASE in row && Compares(op, row[CURRENT_DATABASE], v)
    case Group(d) => DisjunctionHolds(d, row)
  }

  predicate ConjunctionHolds(c: Conjunction, row: Columns)
  {
    AtomHolds(c.atom, row) && (c.Also? ==> ConjunctionHolds(c.rest, row))
  }

  predicate DisjunctionHolds(d: Disjunction, row: Columns)
  {
    ConjunctionHolds(d.terms, row) || (d.Either? && DisjunctionHolds(d.rest, row))
  }

  /** A row passes a chain when it passes every condition. */
  predicate ChainHolds(chain: Chain, row: Columns) {
    forall a :: a in chain ==> AtomHolds(a, row)
  }

  // The columns of a condition

  function AtomColumns(a: Atom): set<string> {
    match a
    case False => {}
    case Compare(c, _, _) => {c}
    case CurrentDatabase(_, _) => {CURRENT_DATABASE}
    case Group(d) => DisjunctionColumns(d)
  }

  function ConjunctionColumns(c: Conjunction): set<string> {
    AtomColumns(c.atom) + if c.Also? then ConjunctionColumns(c.rest) else {}
  }

  function DisjunctionColumns(d: Disjunction): set<string> {
    ConjunctionColumns(d.terms) + if d.Either? then DisjunctionColumns(d.rest) else {}
  }

  ghost predicate Agree(columns: set<string>, r1: Columns, r2: Columns) {
    forall c :: c in columns ==> c in r1 && c in r2 && r1[c] == r2[c]
  }

  lemma {:induction false} AtomLooksAt(a: Atom, r1: Columns, r2: Columns)
    requires Agree(AtomColumns(a), r1, r2)
    ensures AtomHolds(a, r1) == AtomHolds(a, r2)
    decreases a, 0
  {
    if a.Group? {
      DisjunctionLooksAt(a.condition, r1, r2);
    }
  }

  /** A condition looks at its columns only. */
  lemma {:induction false} ConjunctionLooksAt(c: Conjunction, r1: Columns, r2: Columns)
    requires Agree(ConjunctionColumns(c), r1, r2)
    ensures ConjunctionHolds(c, r1) == ConjunctionHolds(c, r2)
    decreases c, 1
  {
    AtomLooksAt(c.atom, r1, r2);
    if c.Also? {
      ConjunctionLooksAt(c.rest, r1, r2);
    }
  }

  lemma {:induction false} DisjunctionLooksAt(d: Disjunction, r1: Columns, r2: Columns)
    requires Agree(DisjunctionColumns(d), r1, r2)
    ensures DisjunctionHolds(d, r1) == DisjunctionHolds(d, r2)
    decreases d, 2
  {
    ConjunctionLooksAt(d.terms, r1, r2);
    if d.Either? {
      DisjunctionLooksAt(d.rest, r1, r2);
    }
  }

  // The tokens of a condition

  function AtomTokens(a: Atom): seq<Token> {
    match a
    case False => [Word("false")]
    case Compare(c, op, v) => [Word(c), OpToken(op), StringLiteral(v)]
    case CurrentDatabase(op, v) => DATABASE_CALL + [OpToken(op), StringLiteral(v)]
    case Group(d) => [Open] + DisjunctionTokens(d) + [Close]
  }

  function ConjunctionTokens(c: Conjunction): seq<Token> {
    AtomTokens(c.atom) + if c.Also? then [Word("AND")] + ConjunctionTokens(c.rest) else []
  }

  function DisjunctionTokens(d: Disjunction): seq<Token> {
    ConjunctionTokens(d.terms) + if d.Either? then [Word("OR")] + DisjunctionTokens(d.rest) else []
  }

  function ChainTokens(chain: Chain): seq<Token> {
    if chain == [] then [] else [Word("AND")] + AtomTokens(chain[0]) + ChainTokens(chain[1..])
  }

  /** Column names are words other than the keywords. */
  predicate IsColumn(c: string) {
    c != "" && c !in KEYWORDS && forall i :: 0 <= i < |c| ==> IsWordChar(c[i])
  }

  predicate AtomOk(a: Atom) {
    match a
    case False => true
    case Compare(c, _, _) => IsColumn(c)
    case CurrentDatabase(_, _) => true
    case Group(d) => DisjunctionOk(d)
  }

  predicate ConjunctionOk(c: Conjunction) {
    AtomOk(c.atom) && (c.Also? ==> ConjunctionOk(c.rest))
  }

  predicate DisjunctionOk(d: Disjunction) {
    ConjunctionOk(d.terms) && (d.Either? ==> DisjunctionOk(d.rest))
  }

  predicate Ends(ts: seq<Token>, words: set<string>) {
    ts == [] || !(ts[0].Word? && ts[0].text in words)
  }

  lemma ParsesCurrentDatabase(op: Comparison, v: string, rest: seq<Token>)
    ensures ParseAtom(AtomTokens(CurrentDatabase(op, v)) + rest) == Some((CurrentDatabase(op, v), rest))
  {
    hide ParseDisjunction;
    var ts := AtomTokens(CurrentDatabase(op, v)) + rest;
    assert ts[..3] == DATABASE_CALL && ts[3] == OpToken(op) && ts[5..] == rest;
  }

  lemma {:induction false} ParsesAtom(a: Atom, rest: seq<Token>)
    requires AtomOk(a)
    ensures ParseAtom(AtomTokens(a) + rest) == Some((a, rest))
    decreases a, 0
  {
    var ts := AtomTokens(a) + rest;
    match a
    case False =>
      assert ts[1..] == rest;
    case Compare(c, op, v) =>
      assert ts[3..] == rest;
    case CurrentDatabase(op, v) =>
      ParsesCurrentDatabase(op, v, rest);
    case Group(d) =>
      ParsesDisjunction(d, [Close] + rest);
      assert ts[1..] == DisjunctionTokens(d) + ([Close] + rest);
      assert ([Close] + rest)[1..] == rest;
  }

  lemma {:induction false} ParsesConjunction(c: Conjunction, rest: seq<Token>)
    requires ConjunctionOk(c) && Ends(rest, {"AND"})
    ensures ParseConjunction(ConjunctionTokens(c) + rest) == Some((c, rest))
    decreases c, 1
  {
    hide ParseAtom, AtomTokens, ParseDisjunction;
    var ts := ConjunctionTokens(c) + rest;
    if c.Also? {
      var tail := [Word("AND")] + (ConjunctionTokens(c.rest) + rest);
      assert ts == AtomTokens(c.atom) + tail;
      ParsesAtom(c.atom, tail);
      assert tail[1..] == ConjunctionTokens(c.rest) + rest;
      ParsesConjunction(c.rest, rest);
    } else {
      assert ts == AtomTokens(c.atom) + rest;
      ParsesAtom(c.atom, rest);
    }
  }

  lemma {:induction false} ParsesDisjunction(d: Disjunction, rest: seq<Token>)
    requires DisjunctionOk(d) && Ends(rest, {"AND", "OR"})
    ensures ParseDisjunction(DisjunctionTokens(d) + rest) == Some((d, rest))
    decreases d, 2
  {
    hide ParseConjunction, ConjunctionTokens, ParseAtom, AtomTokens;
    var ts := DisjunctionTokens(d) + rest;
    if d.Either? {
      var tail := [Word("OR")] + (DisjunctionTokens(d.rest) + rest);
      assert ts == ConjunctionTokens(d.terms) + tail;
      ParsesConjunction(d.terms, tail);
      assert tail[1..] == DisjunctionTokens(d.rest) + rest;
      ParsesDisjunction(d.rest, rest);
    } else {
      assert ts == ConjunctionTokens(d.terms) + rest;
      ParsesConjunction(d.terms, rest);
    }
  }

  /** The tokens of a chain parse to that chain. */
  lemma {:induction false} ParsesChain(chain: Chain)
    requires forall a :: a in chain ==> AtomOk(a)
    ensures ParseChain(ChainTokens(chain)) == Some(chain)
  {
    if chain != [] {
      var tail := AtomTokens(chain[0]) + ChainTokens(chain[1..]);
      assert ChainTokens(chain)[1..] == tail;
      ParsesAtom(chain[0], ChainTokens(chain[1..]));
      ParsesChain(chain[1..]);
      assert [chain[0]] + chain[1..] == chain;
    }
  }

  // Only the tokens of a condition parse to it

  lemma {:induction false} AtomFromTokens(ts: seq<Token>)
    requires ParseAtom(ts).Some?
    ensures ts == AtomTokens(ParseAtom(ts).value.0) + ParseAtom(ts).value.1
    decreases |ts|, 0
  {
    if ts[0] == Open {
      DisjunctionFromTokens(ts[1..]);
    }
  }

  lemma {:induction false} ConjunctionFromTokens(ts: seq<Token>)
    requires ParseConjunction(ts).Some?
    ensures ts == ConjunctionTokens(ParseConjunction(ts).value.0) + ParseConjunction(ts).value.1
    decreases |ts|, 1
  {
    hide ParseAtom, AtomTokens, ParseDisjunction;
    AtomFromTokens(ts);
    var first, rest := ParseAtom(ts).value.0, ParseAtom(ts).value.1;
    if rest != [] && rest[0] == Word("AND") {
      ConjunctionFromTokens(rest[1..]);
      AppendedTokens(AtomTokens(first), rest, Word("AND"));
    }
  }

  lemma {:induction false} DisjunctionFromTokens(ts: seq<Token>)
    requires ParseDisjunction(ts).Some?
    ensures ts == DisjunctionTokens(ParseDisjunction(ts).value.0) + ParseDisjunction(ts).value.1
    decreases |ts|, 2
  {
    hide ParseConjunction, ConjunctionTokens, ParseAtom;
    ConjunctionFromTokens(ts);
    var first, rest := ParseConjunction(ts).value.0, ParseConjunction(ts).value.1;
    if rest != [] && rest[0] == Word("OR") {
      DisjunctionFromTokens(rest[1..]);
      AppendedTokens(ConjunctionTokens(first), rest, Word("OR"));
    }
  }

  lemma AppendedTokens(before: seq<Token>, rest: seq<Token>, t: Token)
    requires rest != [] && rest[0] == t
    ensures before + rest == before + [t] + rest[1..]
  {
  }

  lemma {:induction false} ChainFromTokens(ts: seq<Token>)
    requires ParseChain(ts).Some?
    ensures ts == ChainTokens(ParseChain(ts).value)
    decreases |ts|
  {
    if ts != [] {
      AtomFromTokens(ts[1..]);
      ChainFromTokens(ParseAtom(ts[1..]).value.1);
    }
  }

  // Pieces of text

  /** Text behind which words, operators and literals cannot continue. */
  predicate Boundary(rest: string) {
    rest == "" || rest[0] == ' ' || rest[0] == '(' || rest[0] == ')'
  }

  lemma BoundaryStops(rest: string)
    requires Boundary(rest)
    ensures Run(rest, true) == Run(rest, false) == 0
  {
    if rest != "" {
      var c := rest[0];
      assert c == ' ' || c == '(' || c == ')';
      assert !IsOperatorChar(c);
    }
  }

  lemma {:induction false} RunOfWord(w: string, rest: string, word: bool)
    requires forall i :: 0 <= i < |w| ==> if word then IsWordChar(w[i]) else IsOperatorChar(w[i])
    requires Boundary(rest)
    ensures Run(w + rest, word) == |w|
  {
    var all := w + rest;
    if w != "" {
      assert all[1..] == w[1..] + rest;
      assert all[0] == w[0];
      RunOfWord(w[1..], rest, word);
    } else {
      assert all == rest;
      BoundaryStops(rest);
    }
  }

  lemma LexWord(w: string, rest: string, word: bool)
    requires w != "" && forall i :: 0 <= i < |w| ==> if word then IsWordChar(w[i]) else IsOperatorChar(w[i])
    requires Boundary(rest)
    ensures Lex(w + rest) == Prepend([if word then Word(w) else Operator(w)], Lex(rest))
  {
    RunOfWord(w, rest, word);
    var all := w + rest;
    assert all[0] == w[0] && all[..|w|] == w && all[|w|..] == rest;
  }

  lemma LexChar(c: char, rest: string)
    requires c == ' ' || c == '(' || c == ')'
    ensures Lex([c] + rest) == Prepend(if c == ' ' then [] else if c == '(' then [Open] else [Close], Lex(rest))
  {
    assert ([c] + rest)[1..] == rest;
    assert Lex(rest).Some? ==> [] + Lex(rest).value == Lex(rest).value;
  }

  /** Doubling the quotes hides none and adds none: the literal reads back whole. */
  lemma {:induction false} ReadsEscaped(v: string, rest: string)
    requires rest == "" || rest[0] != '\''
    ensures ReadLiteral(Escape(v) + "'" + rest) == Some((v, rest))
  {
    var all := Escape(v) + "'" + rest;
    if v == "" {
      assert all == "'" + rest && all[1..] == rest;
    } else {
      ReadsEscaped(v[1..], rest);
      var shorter := Escape(v[1..]) + "'" + rest;
      if v[0] == '\'' {
        assert all == "''" + shorter && all[2..] == shorter;
      } else {
        assert all == [v[0]] + shorter && all[1..] == shorter;
      }
      assert [v[0]] + v[1..] == v;
    }
  }

  lemma LexQuote(body: string)
    requires ReadLiteral(body).Some?
    ensures Lex("'" + body) == Prepend([StringLiteral(ReadLiteral(body).value.0)], Lex(ReadLiteral(body).value.1))
  {
    assert ("'" + body)[1..] == body;
  }

  /** The value as a string literal. */
  function Quoted(v: string): string {
    "'" + Escape(v) + "'"
  }

  lemma LexLiteral(v: string, rest: string)
    requires rest == "" || rest[0] != '\''
    ensures Lex(Quoted(v) + rest) == Prepend([StringLiteral(v)], Lex(rest))
  {
    ReadsEscaped(v, rest);
    var body := Escape(v) + "'" + rest;
    ThreeParts("'", Escape(v), "'", rest);
    LexQuote(body);
  }

  lemma ThreeParts(a: string, b: string, c: string, rest: string)
    ensures (a + b + c) + rest == a + ((b + c) + rest)
  {
  }

  function OpText(op: Comparison): string {
    match op
    case Equal => "="
    case NotEqual => "<>"
    case Like => "LIKE"
    case Matches => "~"
    case NotMatches => "!~"
  }

  lemma LexOp(op: Comparison, rest: string)
    requires Boundary(rest)
    ensures Lex(OpText(op) + rest) == Prepend([OpToken(op)], Lex(rest))
  {
    LexWord(OpText(op), rest, op.Like?);
  }

  /** The operator and the literal of a comparison, from the blank before the operator on. */
  function OperandText(op: Comparison, literal: string): string {
    " " + OpText(op) + " " + Quoted(literal)
  }

  /** `column op 'literal'`. */
  function ComparisonText(column: string, op: Comparison, literal: string): string {
    column + OperandText(op, literal)
  }

  lemma FourParts(a: string, b: string, c: string, d: string, rest: string)
    ensures (a + b + c + d) + rest == a + (b + (c + (d + rest)))
  {
  }

  lemma PrependTwice(a: seq<Token>, b: seq<Token>, rest: Option<seq<Token>>)
    ensures Prepend(a, Prepend(b, rest)) == Prepend(a + b, rest)
  {
    if rest.Some? {
      assert a + (b + rest.value) == a + b + rest.value;
    }
  }

  lemma LexOperand(op: Comparison, v: string, rest: string)
    requires Boundary(rest)
    ensures Lex(OperandText(op, v) + rest) == Prepend([OpToken(op)] + [StringLiteral(v)], Lex(rest))
  {
    var literal := Quoted(v) + rest;
    LexLiteral(v, rest);
    LexChar(' ', literal);
    LexOp(op, " " + literal);
    LexChar(' ', OpText(op) + (" " + literal));
    FourParts(" ", OpText(op), " ", Quoted(v), rest);
    PrependTwice([], [StringLiteral(v)], Lex(rest));
    PrependTwice([OpToken(op)], [StringLiteral(v)], Lex(rest));
    PrependTwice([], [OpToken(op)] + [StringLiteral(v)], Lex(rest));
  }

  lemma LexComparison(c: string, op: Comparison, v: string, rest: string)
    requires IsColumn(c) && Boundary(rest)
    ensures Lex(ComparisonText(c, op, v) + rest) == Prepend(AtomTokens(Compare(c, op, v)), Lex(rest))
  {
    LexOperand(op, v, rest);
    LexWord(c, OperandText(op, v) + rest, true);
    TwoParts(c, OperandText(op, v), rest);
    PrependTwice([Word(c)], [OpToken(op)] + [StringLiteral(v)], Lex(rest));
    assert [Word(c)] + ([OpToken(op)] + [StringLiteral(v)]) == AtomTokens(Compare(c, op, v));
  }

  /** `current_database() op  `, with the two blanks that the source writes. */
  function DatabaseHead(op: Comparison): string {
    CURRENT_DATABASE + (" " + OpText(op) + "  ")
  }

  function DatabaseText(op: Comparison, literal: string): string {
    DatabaseHead(op) + Quoted(literal)
  }

  lemma LexDatabaseCall(rest: string)
    ensures Lex(CURRENT_DATABASE + rest) == Prepend(DATABASE_CALL, Lex(rest))
  {
    ThreeParts("current_database", "(", ")", rest);
    TwoParts("(", ")", rest);
    assert CURRENT_DATABASE == "current_database" + "(" + ")";
    LexChar(')', rest);
    LexChar('(', ")" + rest);
    LexWord("current_database", "(" + (")" + rest), true);
    PrependTwice([Open], [Close], Lex(rest));
    PrependTwice([Word("current_database")], [Open] + [Close], Lex(rest));
    assert [Word("current_database")] + ([Open] + [Close]) == DATABASE_CALL;
  }

  lemma LexDatabaseHead(op: Comparison, rest: string)
    ensures Lex(DatabaseHead(op) + rest) == Prepend(DATABASE_CALL + [OpToken(op)], Lex(rest))
  {
    var blanks := " " + (" " + rest);
    assert "  " == " " + " ";
    TwoParts(" ", " ", rest);
    ThreeParts(" ", OpText(op), "  ", rest);
    TwoParts(OpText(op), "  ", rest);
    TwoParts(CURRENT_DATABASE, " " + OpText(op) + "  ", rest);
    LexDatabaseCall((" " + OpText(op) + "  ") + rest);
    LexChar(' ', OpText(op) + blanks);
    LexOp(op, blanks);
    LexChar(' ', " " + rest);
    LexChar(' ', rest);
    PrependTwice([], [], Lex(rest));
    PrependTwice([OpToken(op)], [], Lex(rest));
    PrependTwice([], [OpToken(op)], Lex(rest));
    PrependTwice(DATABASE_CALL, [OpToken(op)], Lex(rest));
    assert [OpToken(op)] + [] == [OpToken(op)] == [] + [OpToken(op)];
  }

  lemma LexDatabase(op: Comparison, v: string, rest: string)
    requires Boundary(rest)
    ensures Lex(DatabaseText(op, v) + rest) == Prepend(AtomTokens(CurrentDatabase(op, v)), Lex(rest))
  {
    TwoParts(DatabaseHead(op), Quoted(v), rest);
    LexLiteral(v, rest);
    LexDatabaseHead(op, Quoted(v) + rest);
    PrependTwice(DATABASE_CALL + [OpToken(op)], [StringLiteral(v)], Lex(rest));
    assert DATABASE_CALL + [OpToken(op)] + [StringLiteral(v)] == AtomTokens(CurrentDatabase(op, v));
  }

  lemma TwoParts(a: string, b: string, rest: string)
    ensures (a + b) + rest == a + (b + rest)
  {
  }

  // The text of a condition

  function AtomText(a: Atom): string {
    match a
    case False => "false"
    case Compare(c, op, v) => ComparisonText(c, op, v)
    case CurrentDatabase(op, v) => DatabaseText(op, v)
    case Group(d) => "(" + DisjunctionText(d) + ")"
  }

  function ConjunctionText(c: Conjunction): string {
    match c
    case One(a) => AtomText(a)
    case Also(a, rest) => AtomText(a) + " AND " + ConjunctionText(rest)
  }

  function DisjunctionText(d: Disjunction): string {
    match d
    case Just(c) => ConjunctionText(c)
    case Either(c, rest) => ConjunctionText(c) + " OR " + DisjunctionText(rest)
  }

  /** ` AND condition `. */
  function ConditionText(a: Atom): string {
    " AND " + AtomText(a) + " "
  }

  function ChainText(chain: Chain): string {
    if chain == [] then "" else ConditionText(chain[0]) + ChainText(chain[1..])
  }

  lemma LexSeparator(w: string, rest: string)
    requires w == "AND" || w == "OR"
    ensures Lex((" " + w + " ") + rest) == Prepend([Word(w)], Lex(rest))
  {
    ThreeParts(" ", w, " ", rest);
    TwoParts(w, " ", rest);
    LexChar(' ', w + (" " + rest));
    LexWord(w, " " + rest, true);
    LexChar(' ', rest);
    PrependTwice([Word(w)], [], Lex(rest));
    PrependTwice([], [Word(w)], Lex(rest));
    assert [Word(w)] + [] == [Word(w)] == [] + [Word(w)];
  }

  lemma LexAnd(rest: string)
    ensures Lex(" AND " + rest) == Prepend([Word("AND")], Lex(rest))
  {
    assert " " + "AND" + " " == " AND ";
    LexSeparator("AND", rest);
  }

  lemma LexOr(rest: string)
    ensures Lex(" OR " + rest) == Prepend([Word("OR")], Lex(rest))
  {
    assert " " + "OR" + " " == " OR ";
    LexSeparator("OR", rest);
  }

  lemma {:induction false} LexAtom(a: Atom, rest: string)
    requires AtomOk(a) && Boundary(rest)
    ensures Lex(AtomText(a) + rest) == Prepend(AtomTokens(a), Lex(rest))
    decreases a, 0
  {
    match a
    case False =>
      LexWord("false", rest, true);
    case Compare(c, op, v) =>
      LexComparison(c, op, v, rest);
    case CurrentDatabase(op, v) =>
      LexDatabase(op, v, rest);
    case Group(d) =>
      var inner := DisjunctionText(d);
      ThreeParts("(", inner, ")", rest);
      TwoParts(inner, ")", rest);
      LexChar('(', inner + (")" + rest));
      LexDisjunction(d, ")" + rest);
      LexChar(')', rest);
      PrependTwice(DisjunctionTokens(d), [Close], Lex(rest));
      PrependTwice([Open], DisjunctionTokens(d) + [Close], Lex(rest));
      assert [Open] + (DisjunctionTokens(d) + [Close]) == AtomTokens(a);
  }

  lemma {:induction false} LexConjunction(c: Conjunction, rest: string)
    requires ConjunctionOk(c) && Boundary(rest)
    ensures Lex(ConjunctionText(c) + rest) == Prepend(ConjunctionTokens(c), Lex(rest))
    decreases c, 1
  {
    match c
    case One(a) =>
      LexAtom(a, rest);
      assert ConjunctionTokens(c) == AtomTokens(a);
    case Also(a, more) =>
      var tail := ConjunctionText(more) + rest;
      LexConjunction(more, rest);
      LexAnd(tail);
      LexAtom(a, " AND " + tail);
      ThreeParts(AtomText(a), " AND ", ConjunctionText(more), rest);
      TwoParts(" AND ", ConjunctionText(more), rest);
      PrependTwice([Word("AND")], ConjunctionTokens(more), Lex(rest));
      PrependTwice(AtomTokens(a), [Word("AND")] + ConjunctionTokens(more), Lex(rest));
  }

  lemma {:induction false} LexDisjunction(d: Disjunction, rest: string)
    requires DisjunctionOk(d) && Boundary(rest)
    ensures Lex(DisjunctionText(d) + rest) == Prepend(DisjunctionTokens(d), Lex(rest))
    decreases d, 2
  {
    match d
    case Just(c) =>
      LexConjunction(c, rest);
      assert DisjunctionTokens(d) == ConjunctionTokens(c);
    case Either(c, more) =>
      var tail := DisjunctionText(more) + rest;
      LexDisjunction(more, rest);
      LexOr(tail);
      LexConjunction(c, " OR " + tail);
      ThreeParts(ConjunctionText(c), " OR ", DisjunctionText(more), rest);
      TwoParts(" OR ", DisjunctionText(more), rest);
      PrependTwice([Word("OR")], DisjunctionTokens(more), Lex(rest));
      PrependTwice(ConjunctionTokens(c), [Word("OR")] + DisjunctionTokens(more), Lex(rest));
  }

  lemma LexCondition(a: Atom, rest: string)
    requires AtomOk(a)
    ensures Lex(ConditionText(a) + rest) == Prepend([Word("AND")] + AtomTokens(a), Lex(rest))
  {
    ThreeParts(" AND ", AtomText(a), " ", rest);
    TwoParts(AtomText(a), " ", rest);
    LexAnd(AtomText(a) + (" " + rest));
    LexAtom(a, " " + rest);
    LexChar(' ', rest);
    PrependTwice(AtomTokens(a), [], Lex(rest));
    assert AtomTokens(a) + [] == AtomTokens(a);
    PrependTwice([Word("AND")], AtomTokens(a), Lex(rest));
  }

  lemma {:induction false} LexChain(chain: Chain, rest: string)
    requires forall a :: a in chain ==> AtomOk(a)
    ensures Lex(ChainText(chain) + rest) == Prepend(ChainTokens(chain), Lex(rest))
  {
    if chain == [] {
      assert "" + rest == rest;
      assert Lex(rest).Some? ==> [] + Lex(rest).value == Lex(rest).value;
    } else {
      var tail := ChainText(chain[1..]);
      TwoParts(ConditionText(chain[0]), tail, rest);
      LexCondition(chain[0], tail + rest);
      LexChain(chain[1..], rest);
      PrependTwice([Word("AND")] + AtomTokens(chain[0]), ChainTokens(chain[1..]), Lex(rest));
    }
  }

  /** A chain of conditions reads back as the same columns, operators and values, whatever the values are. */
  lemma ChainReadsBack(chain: Chain)
    requires forall a :: a in chain ==> AtomOk(a)
    ensures Read(ChainText(chain)) == Some(chain)
  {
    LexChain(chain, "");
    assert ChainText(chain) + "" == ChainText(chain);
    assert ChainTokens(chain) + [] == ChainTokens(chain);
    ParsesChain(chain);
  }

  lemma {:induction false} ChainTextConcat(first: Chain, second: Chain)
    ensures ChainText(first + second) == ChainText(first) + ChainText(second)
    ensures ChainTokens(first + second) == ChainTokens(first) + ChainTokens(second)
  {
    if first == [] {
      assert first + second == second;
    } else {
      assert (first + second)[1..] == first[1..] + second;
      ChainTextConcat(first[1..], second);
    }
  }
}
