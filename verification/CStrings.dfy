/** Text in character buffers, and 16-bit lengths. */
module CStrings {
  /** The cast to a 16-bit signed integer. */
  function ToShort(value: int): int {
    (value + 0x8000) % 0x1_0000 - 0x8000
  }

  ghost predicate Terminated(a: seq<char>) {
    '\0' in a
  }

  /** The text in a buffer: everything before the first terminator. */
  function CString(a: seq<char>): (s: string)
    ensures |s| <= |a| && s == a[..|s|] && '\0' !in s
    ensures |s| < |a| ==> a[|s|] == '\0'
    ensures Terminated(a) ==> |s| < |a|
  {
    if a == [] || a[0] == '\0' then "" else [a[0]] + CString(a[1..])
  }

  lemma {:induction false} CStringIs(a: seq<char>, s: string)
    requires |s| < |a| && a[..|s|] == s && a[|s|] == '\0' && '\0' !in s
    ensures CString(a) == s
  {
    if s != "" {
      assert a[0] == s[0];
      assert a[1..][..|s[1..]|] == s[1..];
      CStringIs(a[1..], s[1..]);
    }
  }
}
