/**
 * Whitespace trimming as done by Go's strings.TrimSpace: leading and
 * trailing characters for which unicode.IsSpace holds are removed.
 * Strings are modelled as sequences of characters (decoded code points).
 */
module Strings {

  /** unicode.IsSpace: the Latin-1 spaces and the other White_Space code points. */
  predicate IsSpace(c: char) {
    || c == '\t' || c == '\n' || c == '\U{000B}' || c == '\U{000C}' || c == '\r' || c == ' '
    || c == '\U{0085}' || c == '\U{00A0}' || c == '\U{1680}'
    || ('\U{2000}' <= c <= '\U{200A}')
    || c == '\U{2028}' || c == '\U{2029}' || c == '\U{202F}' || c == '\U{205F}' || c == '\U{3000}'
  }

  /**
   * Below U+0100 the spaces are the six ASCII spaces (the table TrimSpace
   * checks first), NEL and NO-BREAK SPACE.
   */
  lemma IsSpaceLatin1(c: char)
    requires c <= '\U{00FF}'
    ensures IsSpace(c) <==> c in "\t\n\U{000B}\U{000C}\r \U{0085}\U{00A0}"
  {
  }

  /** Every character of s is a space. */
  predicate AllSpace(s: string) {
    forall i :: 0 <= i < |s| ==> IsSpace(s[i])
  }

  /** Drops the leading spaces of s. */
  function TrimLeft(s: string): (r: string)
    ensures |r| <= |s| && r == s[|s| - |r|..]
    ensures AllSpace(s[..|s| - |r|])
    ensures r == [] || !IsSpace(r[0])
  {
    if s != [] && IsSpace(s[0]) then TrimLeft(s[1..]) else s
  }

  /** Drops the trailing spaces of s. */
  function TrimRight(s: string): (r: string)
    ensures |r| <= |s| && r == s[..|r|]
    ensures AllSpace(s[|r|..])
    ensures r == [] || !IsSpace(r[|r| - 1])
  {
    if s != [] && IsSpace(s[|s| - 1]) then TrimRight(s[..|s| - 1]) else s
  }

  /** strings.TrimSpace: drops the leading and the trailing spaces of s. */
  function TrimSpace(s: string): (r: string)
    ensures |r| <= |s|
    ensures r == [] || (!IsSpace(r[0]) && !IsSpace(r[|r| - 1]))
  {
    TrimRight(TrimLeft(s))
  }

  /**
   * TrimSpace keeps the contiguous part of s that starts after its leading
   * spaces.
   */
  lemma TrimSpaceSlice(s: string)
    ensures var r, a := TrimSpace(s), |s| - |TrimLeft(s)|;
      a + |r| <= |s| && s[a..a + |r|] == r
  {
    var l := TrimLeft(s);
    var a := |s| - |l|;
    SliceOfSuffix(s, a, |TrimRight(l)|);
  }

  /** What TrimSpace removes around the part it keeps is all spaces. */
  lemma TrimSpaceDropsOnlySpaces(s: string)
    ensures var r, a := TrimSpace(s), |s| - |TrimLeft(s)|;
      a + |r| <= |s| && AllSpace(s[..a]) && AllSpace(s[a + |r|..])
  {
    var l := TrimLeft(s);
    var a := |s| - |l|;
    SliceOfSuffix(s, a, |TrimRight(l)|);
  }

  /** Slicing a suffix of s is slicing s at shifted positions. */
  lemma SliceOfSuffix(s: string, a: int, n: int)
    requires 0 <= a && 0 <= n && a + n <= |s|
    ensures s[a..][..n] == s[a..a + n] && s[a..][n..] == s[a + n..]
  {
  }

  /** Trimming twice is the same as trimming once. */
  lemma TrimSpaceIdempotent(s: string)
    ensures TrimSpace(TrimSpace(s)) == TrimSpace(s)
  {
    var r := TrimSpace(s);
    TrimSpaceSlice(s);
    assert TrimLeft(r) == r;
    assert TrimRight(r) == r;
  }

  /**
   * Leading spaces of a concatenation: they are those of the first part, and
   * extend into the second part only when the first part is all spaces.
   */
  lemma {:induction false} TrimLeftConcat(a: string, b: string)
    ensures TrimLeft(a + b) == if TrimLeft(a) == [] then TrimLeft(b) else TrimLeft(a) + b
  {
    if a == [] {
      assert a + b == b;
    } else if IsSpace(a[0]) {
      assert (a + b)[1..] == a[1..] + b;
      TrimLeftConcat(a[1..], b);
    } else {
      assert (a + b)[0] == a[0];
    }
  }

  /** A string whose last character is not a space has no trailing spaces to drop. */
  lemma TrimRightNoTrailingSpace(s: string)
    requires s != [] && !IsSpace(s[|s| - 1])
    ensures TrimRight(s) == s
  {
  }
}
