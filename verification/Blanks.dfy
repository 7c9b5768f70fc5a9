/** Cutting blanks off the ends of a text. */
module Blanks {
  predicate IsSpace(c: char) {
    c == ' ' || '\t' <= c <= '\r'
  }

  /** The blanks of the C locale: space, tab, line feed, vertical tab, form feed and carriage return. */
  lemma SpaceIff(c: char)
    ensures IsSpace(c) <==> c in {' ', '\t', '\n', '\U{0B}', '\U{0C}', '\r'}
  {
    assert IsSpace(c) ==> c as int in {9, 10, 11, 12, 13, 32};
  }

  function TrimLeft(s: string): string {
    if s != "" && IsSpace(s[0]) then TrimLeft(s[1..]) else s
  }

  function TrimRight(s: string): string {
    if s != "" && IsSpace(s[|s| - 1]) then TrimRight(s[..|s| - 1]) else s
  }

  /** `trim_whitespaces`. */
  function Trim(s: string): string {
    TrimRight(TrimLeft(s))
  }

  predicate AllSpaces(s: string) {
    forall i :: 0 <= i < |s| ==> IsSpace(s[i])
  }

  lemma {:induction false} TrimLeftCuts(s: string) returns (cut: string)
    ensures s == cut + TrimLeft(s) && AllSpaces(cut)
    ensures TrimLeft(s) == "" || !IsSpace(TrimLeft(s)[0])
  {
    cut := "";
    if s != "" && IsSpace(s[0]) {
      cut := TrimLeftCuts(s[1..]);
      cut := [s[0]] + cut;
    }
  }

  lemma {:induction false} TrimRightCuts(s: string) returns (cut: string)
    ensures s == TrimRight(s) + cut && AllSpaces(cut)
    ensures TrimRight(s) == "" || !IsSpace(TrimRight(s)[|TrimRight(s)| - 1])
  {
    cut := "";
    if s != "" && IsSpace(s[|s| - 1]) {
      var last := s[|s| - 1];
      cut := TrimRightCuts(s[..|s| - 1]);
      assert s == s[..|s| - 1] + [last];
      cut := cut + [last];
    }
  }

  /** The text with blanks around it. */
  ghost predicate Padded(s: string, text: string) {
    exists before, after :: AllSpaces(before) && AllSpaces(after) && s == before + (text + after)
  }

  /** Text that starts and ends with something other than a blank. */
  predicate Solid(s: string) {
    s != "" && !IsSpace(s[0]) && !IsSpace(s[|s| - 1])
  }

  lemma TrimPads(s: string)
    ensures Padded(s, Trim(s))
  {
    var before := TrimLeftCuts(s);
    var after := TrimRightCuts(TrimLeft(s));
    assert s == before + (Trim(s) + after);
  }

  /** Trimming the right end first. */
  lemma TrimmedRightFirst(s: string)
    ensures var text := TrimLeft(TrimRight(s));
            Padded(s, text) && (text == "" || Solid(text))
  {
    var after := TrimRightCuts(s);
    var before := TrimLeftCuts(TrimRight(s));
    var text := TrimLeft(TrimRight(s));
    hide TrimLeft, TrimRight;
    assert s == before + (text + after);
    assert text != "" ==> text[|text| - 1] == TrimRight(s)[|TrimRight(s)| - 1];
  }

  lemma {:induction false} TrimLeftOf(before: string, text: string)
    requires AllSpaces(before) && text != "" && !IsSpace(text[0])
    ensures TrimLeft(before + text) == text
  {
    if before == "" {
      assert before + text == text;
    } else {
      assert (before + text)[1..] == before[1..] + text;
      TrimLeftOf(before[1..], text);
    }
  }

  lemma {:induction false} TrimRightOf(text: string, after: string)
    requires AllSpaces(after) && Solid(text)
    ensures TrimRight(text + after) == text
  {
    if after == "" {
      assert text + after == text;
    } else {
      var n := |after| - 1;
      assert (text + after)[..|text| + n] == text + after[..n];
      TrimRightOf(text, after[..n]);
    }
  }

  /** Trimming finds the text between the blanks. */
  lemma TrimFinds(s: string, text: string)
    requires Solid(text) && Padded(s, text)
    ensures Trim(s) == text
  {
    var before, after :| AllSpaces(before) && AllSpaces(after) && s == before + (text + after);
    TrimLeftOf(before, text + after);
    TrimRightOf(text, after);
  }
}
