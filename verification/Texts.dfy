/** Prefixes and positions in texts. */
module Texts {
  predicate StartsWith(s: string, prefix: string) {
    |prefix| <= |s| && s[..|prefix|] == prefix
  }

  /** The index of the first c, or -1. */
  function IndexOf(s: string, c: char): (i: int)
    ensures -1 <= i < |s|
    ensures i >= 0 ==> s[i] == c && c !in s[..i]
    ensures i < 0 ==> c !in s
  {
    if s == "" then -1
    else if s[0] == c then 0
    else if IndexOf(s[1..], c) < 0 then -1 else 1 + IndexOf(s[1..], c)
  }

  lemma {:induction false} FoundAfter(a: string, c: char, b: string)
    requires c !in a
    ensures IndexOf(a + [c] + b, c) == |a|
  {
    var s := a + [c] + b;
    if a == "" {
      assert s[0] == c;
    } else {
      assert s[1..] == a[1..] + [c] + b;
      assert s[0] == a[0] && a[0] in a && forall x :: x in a[1..] ==> x in a;
      FoundAfter(a[1..], c, b);
    }
  }
}
