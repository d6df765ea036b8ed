/** Searching strings, as strings.LastIndex and strings.Split do. */
module Text {

  predicate OccursAt(s: string, sub: string, i: int) {
    0 <= i && i + |sub| <= |s| && s[i..i + |sub|] == sub
  }

  /** The last occurrence at or before i. */
  function LastIndexFrom(s: string, sub: string, i: int): (r: int)
    requires i + |sub| <= |s|
    ensures -1 <= r && (r == -1 || (r <= i && OccursAt(s, sub, r)))
    ensures forall j :: r < j <= i ==> !OccursAt(s, sub, j)
    decreases i + 1
  {
    if i < 0 then -1 else if s[i..i + |sub|] == sub then i else LastIndexFrom(s, sub, i - 1)
  }

  /** strings.LastIndex: where `sub` last occurs, or -1. */
  function LastIndex(s: string, sub: string): (r: int)
    ensures r == -1 || OccursAt(s, sub, r)
    ensures -1 <= r && forall j :: r < j ==> !OccursAt(s, sub, j)
  {
    LastIndexFrom(s, sub, |s| - |sub|)
  }

  ghost predicate Contains(s: string, sub: string) {
    exists i :: OccursAt(s, sub, i)
  }

  lemma FirstSeparator(sep: char, a: string, x: string)
    requires sep !in a
    ensures var s := a + [sep] + x;
            s[|a|] == sep && s[..|a|] == a && s[|a| + 1..] == x && forall k :: 0 <= k < |a| ==> s[k] != sep
  {
  }

  /** Cutting two strings at a separator their first parts lack. */
  lemma SplitAtSeparator(sep: char, a: string, x: string, b: string, y: string)
    requires sep !in a && sep !in b && a + [sep] + x <= b + [sep] + y
    ensures a == b && x <= y
  {
    var s, t := a + [sep] + x, b + [sep] + y;
    FirstSeparator(sep, a, x);
    FirstSeparator(sep, b, y);
    assert forall k :: 0 <= k < |s| ==> s[k] == t[k];
    assert t[|a|] == sep;
    assert s[|b|] == sep;
    assert a == s[..|a|] == t[..|a|] == b;
    assert x == s[|a| + 1..] && y == t[|a| + 1..];
  }
}
