/** The part of the ECMAScript regular expression grammar that the driver emits: assertions `^` and
    `$`, ordinary characters, escaped punctuation, `.`, classes of `\s` and `\S`, and the quantifier
    `*` (sections 15.10.1 and 15.10.2 of ECMA-262, 3rd edition; escaping `$` is admitted, as the
    C++ library does). A text outside this part does not parse. */
module Regex {
  import opened Wrappers

  datatype ClassItem = White | NonWhite
  datatype Atom = Char(c: char) | Dot | Class(items: seq<ClassItem>)
  datatype Term = Begin | End | One(atom: Atom) | Star(atom: Atom)

  predicate IsSyntaxCharacter(c: char) {
    c in "^$\\.*+?()[]{}|"
  }

  predicate IsLineTerminator(c: char) {
    c == '\n' || c == '\r' || c == '\U{2028}' || c == '\U{2029}'
  }

  predicate IsWhite(c: char) {
    c in " \t\U{0B}\U{0C}" || IsLineTerminator(c)
  }

  predicate HasLineTerminator(s: string) {
    exists k :: 0 <= k < |s| && IsLineTerminator(s[k])
  }

  /** Items of a class up to the closing bracket, with the number of characters read. */
  function ParseClass(t: string): (r: Option<(seq<ClassItem>, nat)>)
    ensures r.Some? ==> 0 < r.value.1 <= |t|
  {
    if t == "" then None
    else if t[0] == ']' then Some(([], 1))
    else if |t| > 1 && t[0] == '\\' && (t[1] == 's' || t[1] == 'S') then
      match ParseClass(t[2..])
      case None => None
      case Some((items, n)) => Some(([if t[1] == 's' then White else NonWhite] + items, n + 2))
    else None
  }

  /** The atom at the start of `t`, with the number of characters read. */
  function ParseAtom(t: string): (r: Option<(Atom, nat)>)
    requires t != ""
    ensures r.Some? ==> 0 < r.value.1 <= |t|
  {
    if t[0] == '\\' then
      if |t| > 1 && IsSyntaxCharacter(t[1]) then Some((Char(t[1]), 2)) else None
    else if t[0] == '.' then Some((Dot, 1))
    else if t[0] == '[' then
      match ParseClass(t[1..])
      case None => None
      case Some((items, n)) => Some((Class(items), n + 1))
    else if IsSyntaxCharacter(t[0]) then None
    else Some((Char(t[0]), 1))
  }

  function Prepend(term: Term, rest: Option<seq<Term>>): Option<seq<Term>> {
    match rest case None => None case Some(ts) => Some([term] + ts)
  }

  function Parse(t: string): Option<seq<Term>>
    decreases |t|
  {
    if t == "" then Some([])
    else if t[0] == '^' then Prepend(Begin, Parse(t[1..]))
    else if t[0] == '$' then Prepend(End, Parse(t[1..]))
    else match ParseAtom(t)
      case None => None
      case Some((a, n)) =>
        if n < |t| && t[n] == '*' then Prepend(Star(a), Parse(t[n + 1..]))
        else Prepend(One(a), Parse(t[n..]))
  }

  predicate AtomMatches(a: Atom, c: char) {
    match a
    case Char(d) => c == d
    case Dot => !IsLineTerminator(c)
    case Class(items) => (White in items && IsWhite(c)) || (NonWhite in items && !IsWhite(c))
  }

  /** Some way of matching `terms` from position `i` uses up the rest of `s`. */
  predicate MatchFrom(terms: seq<Term>, s: string, i: nat)
    requires i <= |s|
    decreases |terms| + |s| - i
  {
    if terms == [] then i == |s|
    else match terms[0]
      case Begin => i == 0 && MatchFrom(terms[1..], s, i)
      case End => i == |s| && MatchFrom(terms[1..], s, i)
      case One(a) => i < |s| && AtomMatches(a, s[i]) && MatchFrom(terms[1..], s, i + 1)
      case Star(a) =>
        || MatchFrom(terms[1..], s, i)
        || (i < |s| && AtomMatches(a, s[i]) && MatchFrom(terms, s, i + 1))
  }

  /** `std::regex_match`: the whole of `s` is matched. */
  predicate FullMatch(terms: seq<Term>, s: string) {
    MatchFrom(terms, s, 0)
  }
}
