/** The few library searches on strings that the image-update code uses. */
module Strings {
  /** The UTF-8 bytes of the ellipsis the program appends to what it cuts off. */
  const ELLIPSIS := "\U{e2}\U{80}\U{a6}"

  /** First position of c, or -1. */
  function Index(s: string, c: char): (r: int)
    ensures -1 <= r < |s|
    ensures r >= 0 ==> s[r] == c && c !in s[..r]
    ensures r < 0 ==> c !in s
  {
    if s == "" then -1
    else if s[0] == c then 0
    else
      var r := Index(s[1..], c);
      assert r >= 0 ==> s[..r + 1] == [s[0]] + s[1..][..r];
      if r < 0 then -1 else r + 1
  }

  /** Last position of c, or -1. */
  function LastIndex(s: string, c: char): (r: int)
    ensures -1 <= r < |s|
    ensures r >= 0 ==> s[r] == c && c !in s[r + 1..]
    ensures r < 0 ==> c !in s
  {
    if s == "" then -1
    else if s[|s| - 1] == c then |s| - 1
    else
      var r := LastIndex(s[..|s| - 1], c);
      assert r >= 0 ==> s[r + 1..] == s[..|s| - 1][r + 1..] + [s[|s| - 1]];
      r
  }

  lemma InConcat(a: string, b: string, c: char)
    ensures c in a + b <==> c in a || c in b
  {
  }

  lemma IndexIs(s: string, c: char, at: nat)
    requires at < |s| && s[at] == c && c !in s[..at]
    ensures Index(s, c) == at
  {
    var r := Index(s, c);
    assert forall k :: 0 <= k < at ==> s[k] == s[..at][k] != c;
    assert forall k :: 0 <= k < r ==> s[k] == s[..r][k] != c;
  }

  lemma LastIndexIs(s: string, c: char, at: nat)
    requires at < |s| && s[at] == c && c !in s[at + 1..]
    ensures LastIndex(s, c) == at
  {
    var r := LastIndex(s, c);
    assert forall k :: at < k < |s| ==> s[k] == s[at + 1..][k - at - 1] != c;
    assert r >= 0 ==> forall k :: r < k < |s| ==> s[k] == s[r + 1..][k - r - 1] != c;
  }

  /** Cutting at the last separator takes apart what was put together with one. */
  lemma LastSplits(a: string, c: char, b: string)
    requires c !in b
    ensures var s := a + ([c] + b);
            LastIndex(s, c) == |a| && s[..|a|] == a && s[|a| + 1..] == b
  {
    LastIndexIs(a + ([c] + b), c, |a|);
  }
}
