/** JavaScript's `String.prototype.trim`, used by every client handler that
    takes typed text (new todo, new task, list rename). */
module Text {

  /** The characters `trim` removes: the ECMAScript WhiteSpace and
      LineTerminator code points (tab, LF, VT, FF, CR, space, no-break space,
      the Unicode space separators, line and paragraph separators, BOM). */
  predicate IsWhitespace(c: char) {
    || ('\t' <= c <= '\r')
    || c == ' '
    || c == '\U{00A0}'
    || c == '\U{1680}'
    || ('\U{2000}' <= c <= '\U{200A}')
    || c == '\U{2028}'
    || c == '\U{2029}'
    || c == '\U{202F}'
    || c == '\U{205F}'
    || c == '\U{3000}'
    || c == '\U{FEFF}'
  }

  /** Nothing would be left after trimming `s`. */
  predicate AllWhitespace(s: string) {
    forall k :: 0 <= k < |s| ==> IsWhitespace(s[k])
  }

  /** `s[lo..hi]` is all whitespace. */
  predicate SpaceBetween(s: string, lo: int, hi: int) {
    forall k :: lo <= k < hi && 0 <= k < |s| ==> IsWhitespace(s[k])
  }

  /** Where the text starts when scanning from `i`: the first index at or
      after `i` that is not whitespace, or `|s|`. */
  function SkipSpace(s: string, i: nat): (n: nat)
    requires i <= |s|
    ensures i <= n <= |s|
    ensures SpaceBetween(s, i, n)
    ensures n < |s| ==> !IsWhitespace(s[n])
    decreases |s| - i
  {
    if i == |s| || !IsWhitespace(s[i]) then i else SkipSpace(s, i + 1)
  }

  /** Where the text ends when scanning back from `e` down to `lo`: one past
      the last index below `e` that is not whitespace, or `lo`. */
  function SkipSpaceBack(s: string, lo: nat, e: nat): (m: nat)
    requires lo <= e <= |s|
    ensures lo <= m <= e
    ensures SpaceBetween(s, m, e)
    ensures m > lo ==> !IsWhitespace(s[m - 1])
    decreases e - lo
  {
    if e == lo || !IsWhitespace(s[e - 1]) then e else SkipSpaceBack(s, lo, e - 1)
  }

  /** `s.trim()`: the slice of `s` left after removing leading and trailing
      whitespace. It starts at `SkipSpace(s, 0)`, everything before it and
      after it is whitespace. */
  function Trim(s: string): (r: string)
    ensures |r| <= |s|
    ensures r != [] ==> !IsWhitespace(r[0]) && !IsWhitespace(r[|r| - 1])
    ensures r == [] <==> AllWhitespace(s)
    ensures SkipSpace(s, 0) + |r| <= |s|
    ensures r == s[SkipSpace(s, 0)..SkipSpace(s, 0) + |r|]
    ensures SpaceBetween(s, 0, SkipSpace(s, 0)) && SpaceBetween(s, SkipSpace(s, 0) + |r|, |s|)
  {
    var i := SkipSpace(s, 0);
    var m := SkipSpaceBack(s, i, |s|);
    assert i == m ==> i == |s|;
    s[i..m]
  }

  /** Trimming twice is the same as trimming once. */
  lemma TrimIdempotent(s: string)
    ensures Trim(Trim(s)) == Trim(s)
  {
    TrimKeepsTrimmed(Trim(s));
  }

  /** Text without surrounding whitespace is left as it is. */
  lemma TrimKeepsTrimmed(s: string)
    requires s != [] ==> !IsWhitespace(s[0]) && !IsWhitespace(s[|s| - 1])
    ensures Trim(s) == s
  {
    if s != [] {
      assert SkipSpace(s, 0) == 0;
      assert SkipSpaceBack(s, 0, |s|) == |s|;
    }
  }
}
