/** Python's string slicing, `s[:i]` and `s[i:]`, on Dafny strings.
    A negative bound counts from the end of the string, and any bound is
    clamped into [0, |s|]; slicing never fails. The editor computes its slice
    bounds from the cursor column, and those bounds can be negative or past
    the end of the value, so the model needs the exact Python rule. */
module Slicing {

  /** The position in a sequence of length `n` that the slice bound `i` denotes. */
  function Bound(n: nat, i: int): (k: nat)
    ensures k <= n
    ensures 0 <= i <= n ==> k == i
    ensures i < 0 && 0 <= n + i ==> k == n + i
    ensures i > n ==> k == n
    ensures n + i < 0 ==> k == 0
  {
    if i < 0 then (if n + i < 0 then 0 else n + i)
    else if i > n then n
    else i
  }

  /** `s[:i]` */
  function Prefix(s: string, i: int): (r: string)
    ensures |r| <= |s|
    ensures 0 <= i <= |s| ==> |r| == i
    ensures -|s| <= i < 0 ==> |r| == |s| + i
    ensures i >= |s| ==> r == s
    ensures i <= -|s| ==> r == []
  {
    s[..Bound(|s|, i)]
  }

  /** `s[i:]` */
  function Suffix(s: string, i: int): (r: string)
    ensures |r| <= |s|
    ensures 0 <= i <= |s| ==> |r| == |s| - i
    ensures -|s| <= i < 0 ==> |r| == -i
    ensures i >= |s| ==> r == []
    ensures i <= -|s| ==> r == s
  {
    s[Bound(|s|, i)..]
  }

  /** `s[:i]` is a prefix and `s[i:]` a suffix of `s`, and together they
      make up `s`, for every bound in or out of range. */
  lemma PrefixSuffix(s: string, i: int)
    ensures Prefix(s, i) == s[..|Prefix(s, i)|]
    ensures Suffix(s, i) == s[|s| - |Suffix(s, i)|..]
    ensures Prefix(s, i) + Suffix(s, i) == s
  {
  }

  /** `s[:-1]` removes the last character of a non-empty string and leaves
      the empty string empty. */
  lemma DropLast(s: string)
    ensures s == [] ==> Prefix(s, -1) == []
    ensures s != [] ==> Prefix(s, -1) + [s[|s| - 1]] == s
  {
  }
}
