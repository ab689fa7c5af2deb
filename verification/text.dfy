/** The string operations the extension applies to secret paths and context values. */
module Text {

  /** `s.startsWith(prefix)`. */
  predicate StartsWith(s: string, prefix: string) {
    |prefix| <= |s| && s[..|prefix|] == prefix
  }

  /** A string that starts with `a + b` starts with `a`; in particular `a + b` itself does. */
  lemma StartsWithLonger(s: string, a: string, b: string)
    requires StartsWith(s, a + b)
    ensures StartsWith(s, a)
  {
    assert s[..|a|] == (a + b)[..|a|];
  }

  /** `s.endsWith('/')`. */
  predicate EndsWithSlash(s: string) {
    |s| > 0 && s[|s| - 1] == '/'
  }

  /** `if (s.endsWith('/')) s = s.slice(0, -1)`: exactly one trailing slash is removed. */
  function StripSlash(s: string): (r: string)
    ensures EndsWithSlash(s) ==> r + "/" == s
    ensures !EndsWithSlash(s) ==> r == s
  {
    if EndsWithSlash(s) then s[..|s| - 1] else s
  }

  /** `pat` occurs in `s` starting at index `i`. */
  predicate OccursAt(s: string, pat: string, i: nat) {
    i + |pat| <= |s| && s[i..i + |pat|] == pat
  }

  /** `s.includes(pat)`. */
  predicate Contains(s: string, pat: string) {
    exists i: nat | i <= |s| :: OccursAt(s, pat, i)
  }

  /** `s.indexOf(pat)`: the first index where `pat` occurs, or -1 when it does not occur. */
  function IndexOf(s: string, pat: string): (k: int)
    ensures -1 <= k <= |s|
    ensures k >= 0 ==> k + |pat| <= |s|
    ensures k == -1 ==> forall i: nat | i <= |s| :: !OccursAt(s, pat, i)
    ensures k >= 0 ==> OccursAt(s, pat, k) && forall j: nat | j < k :: !OccursAt(s, pat, j)
    decreases |s|
  {
    if |s| < |pat| then -1
    else if s[..|pat|] == pat then 0
    else
      var k := IndexOf(s[1..], pat);
      assert !OccursAt(s, pat, 0);
      forall i: nat | 1 <= i <= |s| ensures OccursAt(s, pat, i) == OccursAt(s[1..], pat, i - 1) {
        if i + |pat| <= |s| {
          SliceOfTail(s, i, i + |pat|);
        }
      }
      if k == -1 then -1 else k + 1
  }

  /** A slice of `s[1..]` is the slice of `s` one position further on. */
  lemma SliceOfTail(s: string, i: nat, j: nat)
    requires 1 <= i <= j <= |s|
    ensures s[1..][i - 1..j - 1] == s[i..j]
  {
    forall k | 0 <= k < j - i ensures s[1..][i - 1..j - 1][k] == s[i..j][k] {
      assert s[1..][i - 1 + k] == s[i + k];
    }
  }

  /**
   * `s.replace(pat, rep)` with a non-global pattern: only the first occurrence is
   * replaced; a string without an occurrence is returned as it is.
   */
  function ReplaceFirst(s: string, pat: string, rep: string): (r: string)
    ensures IndexOf(s, pat) == -1 ==> r == s
    ensures var k := IndexOf(s, pat); k >= 0 ==> r == s[..k] + rep + s[k + |pat|..]
  {
    var k := IndexOf(s, pat);
    if k == -1 then s else s[..k] + rep + s[k + |pat|..]
  }

  /** `s.split(' ')`: the pieces between single spaces, always at least one. */
  function Split(s: string): (r: seq<string>)
    ensures |r| >= 1
  {
    if |s| == 0 then [""]
    else
      var rest := Split(s[1..]);
      if s[0] == ' ' then [""] + rest
      else [[s[0]] + rest[0]] + rest[1..]
  }

  /** A string without spaces is one piece. */
  lemma {:induction false} SplitWithoutSpace(w: string)
    requires ' ' !in w
    ensures Split(w) == [w]
  {
    if |w| > 0 {
      assert w[1..] == w[|w| - |w| + 1..];
      assert ' ' !in w[1..];
      SplitWithoutSpace(w[1..]);
      assert w == [w[0]] + w[1..];
    }
  }

  /** Splitting `w + " " + rest` yields `w` followed by the pieces of `rest`. */
  lemma {:induction false} SplitAtFirstSpace(w: string, rest: string)
    requires ' ' !in w
    ensures Split(w + " " + rest) == [w] + Split(rest)
  {
    if |w| == 0 {
      assert w + " " + rest == [' '] + rest;
      assert (w + " " + rest)[1..] == rest;
    } else {
      assert (w + " " + rest)[1..] == w[1..] + " " + rest;
      assert ' ' !in w[1..];
      SplitAtFirstSpace(w[1..], rest);
      assert w == [w[0]] + w[1..];
    }
  }
}
