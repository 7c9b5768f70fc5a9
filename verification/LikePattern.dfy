/** The SQL LIKE language with escape character `\`.

    `InLanguage` follows the wording of section 8.5 of ISO/IEC 9075-2: a string is in the language
    of a pattern when it can be cut into consecutive substrings, one for each pattern element.
    `Accepts` is the same language as a left-to-right recognizer. */
module LikePattern {
  datatype Token = AnySequence | AnyOne | Literal(c: char)

  /** How many characters the first element of a pattern takes: a backslash escapes `%`, `_` and `\`;
      before any other character, and at the very end, it stands for itself. */
  function ElementLength(p: string): (n: nat)
    requires p != ""
    ensures 0 < n <= |p|
  {
    if |p| > 1 && p[0] == '\\' && (p[1] == '%' || p[1] == '_' || p[1] == '\\') then 2 else 1
  }

  function FirstToken(p: string): Token
    requires p != ""
  {
    if ElementLength(p) == 2 then Literal(p[1])
    else if p[0] == '%' then AnySequence
    else if p[0] == '_' then AnyOne
    else Literal(p[0])
  }

  /** The elements of a pattern. */
  function Tokens(p: string): seq<Token> {
    if p == "" then [] else [FirstToken(p)] + Tokens(p[ElementLength(p)..])
  }

  predicate Fits(t: Token, part: string) {
    match t
    case AnySequence => true
    case AnyOne => |part| == 1
    case Literal(c) => part == [c]
  }

  function Flatten(parts: seq<string>): string {
    if parts == [] then "" else parts[0] + Flatten(parts[1..])
  }

  ghost predicate IsPartition(parts: seq<string>, ts: seq<Token>, s: string) {
    && |parts| == |ts|
    && Flatten(parts) == s
    && forall k :: 0 <= k < |ts| ==> Fits(ts[k], parts[k])
  }

  /** `s` can be cut into substrings that fit the tokens one by one. */
  ghost predicate InLanguage(ts: seq<Token>, s: string) {
    exists parts: seq<string> :: IsPartition(parts, ts, s)
  }

  /** Recognizer for `InLanguage`. */
  predicate Accepts(ts: seq<Token>, s: string)
    decreases |ts| + |s|
  {
    if ts == [] then s == ""
    else match ts[0]
      case Literal(c) => s != "" && s[0] == c && Accepts(ts[1..], s[1..])
      case AnyOne => s != "" && Accepts(ts[1..], s[1..])
      case AnySequence => Accepts(ts[1..], s) || (s != "" && Accepts(ts, s[1..]))
  }

  /** The recognizer decides the language. */
  lemma AcceptsIffInLanguage(ts: seq<Token>, s: string)
    ensures Accepts(ts, s) <==> InLanguage(ts, s)
  {
    if Accepts(ts, s) {
      var parts := AcceptsGivesPartition(ts, s);
    }
    if InLanguage(ts, s) {
      var parts :| IsPartition(parts, ts, s);
      PartitionGivesAccepts(parts, ts, s);
    }
  }

  lemma {:induction false} AcceptsGivesPartition(ts: seq<Token>, s: string) returns (parts: seq<string>)
    requires Accepts(ts, s)
    ensures IsPartition(parts, ts, s)
    decreases |ts| + |s|
  {
    if ts == [] {
      parts := [];
    } else if ts[0].AnySequence? && !Accepts(ts[1..], s) {
      var rest := AcceptsGivesPartition(ts, s[1..]);
      parts := [[s[0]] + rest[0]] + rest[1..];
      assert Flatten(parts) == [s[0]] + Flatten(rest);
    } else {
      var n := if ts[0].AnySequence? then 0 else 1;
      var rest := AcceptsGivesPartition(ts[1..], s[n..]);
      parts := [s[..n]] + rest;
    }
  }

  lemma {:induction false} PartitionGivesAccepts(parts: seq<string>, ts: seq<Token>, s: string)
    requires IsPartition(parts, ts, s)
    ensures Accepts(ts, s)
    decreases |ts|
  {
    if ts != [] {
      var rest := Flatten(parts[1..]);
      assert IsPartition(parts[1..], ts[1..], rest);
      PartitionGivesAccepts(parts[1..], ts[1..], rest);
      if ts[0].AnySequence? {
        AnySequenceAbsorbs(ts, parts[0], rest);
      } else {
        assert s[1..] == rest;
      }
    }
  }

  /** `%` may absorb any prefix. */
  lemma {:induction false} AnySequenceAbsorbs(ts: seq<Token>, prefix: string, rest: string)
    requires ts != [] && ts[0].AnySequence? && Accepts(ts[1..], rest)
    ensures Accepts(ts, prefix + rest)
    decreases |prefix|
  {
    if prefix == "" {
      assert prefix + rest == rest;
    } else {
      AnySequenceAbsorbs(ts, prefix[1..], rest);
      assert (prefix + rest)[1..] == prefix[1..] + rest;
    }
  }

  /** Tokens in front of a final literal: the subject must end in that literal. */
  lemma {:induction false} FinalLiteral(ts: seq<Token>, c: char, s: string)
    ensures Accepts(ts + [Literal(c)], s) <==> s != "" && s[|s| - 1] == c && Accepts(ts, s[..|s| - 1])
    decreases |ts| + |s|
  {
    var all := ts + [Literal(c)];
    if ts == [] {
      assert all[1..] == [];
      assert s != "" ==> (s[1..] == "" <==> |s| == 1);
    } else {
      assert all[1..] == ts[1..] + [Literal(c)];
      if s != "" {
        FinalLiteral(ts[1..], c, s[1..]);
        if |s| > 1 { assert s[1..][..|s| - 2] == s[..|s| - 1][1..]; }
        if ts[0].AnySequence? {
          FinalLiteral(ts[1..], c, s);
          FinalLiteral(ts, c, s[1..]);
        }
      } else if ts[0].AnySequence? {
        FinalLiteral(ts[1..], c, s);
      }
    }
  }

  /** Every token sequence accepts some string. */
  lemma {:induction false} SomeMember(ts: seq<Token>) returns (s: string)
    ensures Accepts(ts, s)
  {
    if ts == [] {
      s := "";
    } else {
      var rest := SomeMember(ts[1..]);
      s := match ts[0] case AnySequence => rest case AnyOne => "x" + rest case Literal(c) => [c] + rest;
      assert !ts[0].AnySequence? ==> s[1..] == rest;
    }
  }
}
