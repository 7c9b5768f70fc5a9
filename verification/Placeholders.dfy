/** Statement texts with `?` parameter markers, and the text that results when the bound values take
    the places of the markers in order. */
module Placeholders {
  function Marks(text: string): nat {
    if text == "" then 0 else (if text[0] == '?' then 1 else 0) + Marks(text[1..])
  }

  predicate NoMarks(text: string) {
    forall k :: 0 <= k < |text| ==> text[k] != '?'
  }

  /** The k-th marker gives way to the k-th value; markers without a value stay. */
  function Substitute(text: string, values: seq<string>): string {
    if text == "" then ""
    else if text[0] == '?' && values != [] then values[0] + Substitute(text[1..], values[1..])
    else [text[0]] + Substitute(text[1..], values)
  }

  /** `n` markers separated by commas. */
  function MarkList(n: nat): string {
    if n == 0 then "" else if n == 1 then "?" else MarkList(n - 1) + ", ?"
  }

  function Join(pieces: seq<string>): string {
    if pieces == [] then ""
    else if |pieces| == 1 then pieces[0]
    else pieces[0] + ", " + Join(pieces[1..])
  }

  /** Texts compose when each gets as many values as it has markers. */
  lemma {:induction false} SubstituteConcat(a: string, b: string, xs: seq<string>, ys: seq<string>)
    requires |xs| == Marks(a)
    ensures Marks(a + b) == Marks(a) + Marks(b)
    ensures Substitute(a + b, xs + ys) == Substitute(a, xs) + Substitute(b, ys)
  {
    if a == "" {
      assert a + b == b && xs + ys == ys;
    } else {
      assert (a + b)[1..] == a[1..] + b;
      if a[0] == '?' {
        assert (xs + ys)[1..] == xs[1..] + ys;
        SubstituteConcat(a[1..], b, xs[1..], ys);
      } else {
        SubstituteConcat(a[1..], b, xs, ys);
      }
    }
  }

  /** Text without markers stays as it is. */
  lemma {:induction false} PlainText(a: string)
    requires NoMarks(a)
    ensures Marks(a) == 0 && Substitute(a, []) == a
  {
    if a != "" { PlainText(a[1..]); }
  }

  lemma OneMark(v: string)
    ensures Marks("?") == 1 && Substitute("?", [v]) == v
  {
    assert "?"[1..] == "" && Substitute("", [v][1..]) == "";
    assert v + "" == v;
  }

  /** Plain text followed by one marker followed by more text. */
  lemma MarkAfter(a: string, v: string, rest: string, values: seq<string>)
    requires NoMarks(a)
    ensures Marks(a + "?" + rest) == 1 + Marks(rest)
    ensures Substitute(a + "?" + rest, [v] + values) == a + v + Substitute(rest, values)
  {
    PlainText(a);
    OneMark(v);
    SubstituteConcat(a, "?", [], [v]);
    assert [] + [v] == [v];
    SubstituteConcat(a + "?", rest, [v], values);
  }

  lemma {:induction false} JoinSnoc(pieces: seq<string>, last: string)
    requires pieces != []
    ensures Join(pieces + [last]) == Join(pieces) + ", " + last
  {
    if |pieces| == 1 {
      assert (pieces + [last])[1..] == [last];
    } else {
      assert (pieces + [last])[1..] == pieces[1..] + [last];
      JoinSnoc(pieces[1..], last);
      assert pieces[0] + ", " + (Join(pieces[1..]) + ", " + last) == pieces[0] + ", " + Join(pieces[1..]) + ", " + last;
    }
  }

  /** A list of markers turns into the list of values. */
  lemma {:induction false} MarkListSubstitutes(values: seq<string>)
    ensures Marks(MarkList(|values|)) == |values|
    ensures Substitute(MarkList(|values|), values) == Join(values)
  {
    if |values| == 1 {
      OneMark(values[0]);
      assert values == [values[0]];
    } else if |values| > 1 {
      var n := |values| - 1;
      var front, last := values[..n], values[n];
      MarkListSubstitutes(front);
      OneMoreMark(last);
      SubstituteConcat(MarkList(n), ", ?", front, [last]);
      assert front + [last] == values;
      JoinSnoc(front, last);
    }
  }

  lemma OneMoreMark(v: string)
    ensures Marks(", ?") == 1 && Substitute(", ?", [v]) == ", " + v
  {
    MarkAfter(", ", v, "", []);
    assert ", ?" == ", " + "?" + "" && [v] + [] == [v];
  }
}
