/**
 * The few string operations of Python that the mirroring script relies on:
 * `str.strip()` with no argument, `str.startswith` and the substring test
 * `sub in s`.  Strings are sequences of characters.
 */
module Text {

  /**
   * The characters for which Python's `str.isspace()` holds, which are the
   * characters `str.strip()` removes when it is given no argument.
   */
  const Spaces: set<char> := {
    ' ', '\t', '\n', '\r', '\U{0B}', '\U{0C}',
    '\U{1C}', '\U{1D}', '\U{1E}', '\U{1F}', '\U{85}', '\U{A0}', '\U{1680}',
    '\U{2000}', '\U{2001}', '\U{2002}', '\U{2003}', '\U{2004}', '\U{2005}',
    '\U{2006}', '\U{2007}', '\U{2008}', '\U{2009}', '\U{200A}',
    '\U{2028}', '\U{2029}', '\U{202F}', '\U{205F}', '\U{3000}'
  }

  predicate IsSpace(c: char) {
    c in Spaces
  }

  /** A string that neither starts nor ends with white space. */
  predicate IsStripped(t: string) {
    t == [] || (!IsSpace(t[0]) && !IsSpace(t[|t| - 1]))
  }

  /** `s.lstrip()`: drops the leading white space. */
  function StripLeft(s: string): (r: string)
    ensures |r| <= |s|
    ensures r == [] || !IsSpace(r[0])
  {
    if |s| > 0 && IsSpace(s[0]) then StripLeft(s[1..]) else s
  }

  /** `s.rstrip()`: drops the trailing white space. */
  function StripRight(s: string): (r: string)
    ensures |r| <= |s|
    ensures r == [] || !IsSpace(r[|r| - 1])
  {
    if |s| > 0 && IsSpace(s[|s| - 1]) then StripRight(s[..|s| - 1]) else s
  }

  /** What `lstrip()` keeps is a suffix of its argument. */
  lemma {:induction false} StripLeftKeepsSuffix(s: string)
    ensures StripLeft(s) == s[|s| - |StripLeft(s)|..]
    decreases |s|
  {
    if |s| > 0 && IsSpace(s[0]) {
      StripLeftKeepsSuffix(s[1..]);
      assert s[1..][|s| - 1 - |StripLeft(s)|..] == s[|s| - |StripLeft(s)|..];
    }
  }

  /** What `rstrip()` keeps is a prefix of its argument. */
  lemma {:induction false} StripRightKeepsPrefix(s: string)
    ensures StripRight(s) == s[..|StripRight(s)|]
    decreases |s|
  {
    if |s| > 0 && IsSpace(s[|s| - 1]) {
      StripRightKeepsPrefix(s[..|s| - 1]);
      assert s[..|s| - 1][..|StripRight(s)|] == s[..|StripRight(s)|];
    }
  }

  /** What `lstrip()` drops is white space. */
  lemma {:induction false} StripLeftDropsSpace(s: string, k: nat)
    requires k < |s| - |StripLeft(s)|
    ensures IsSpace(s[k])
    decreases |s|
  {
    assert |s| > 0 && IsSpace(s[0]);
    if k > 0 {
      assert StripLeft(s) == StripLeft(s[1..]);
      StripLeftDropsSpace(s[1..], k - 1);
      assert s[1..][k - 1] == s[k];
    }
  }

  /** What `rstrip()` drops is white space. */
  lemma {:induction false} StripRightDropsSpace(s: string, k: nat)
    requires |StripRight(s)| <= k < |s|
    ensures IsSpace(s[k])
    decreases |s|
  {
    assert |s| > 0 && IsSpace(s[|s| - 1]);
    if k < |s| - 1 {
      assert StripRight(s) == StripRight(s[..|s| - 1]);
      StripRightDropsSpace(s[..|s| - 1], k);
      assert s[..|s| - 1][k] == s[k];
    }
  }

  /** `s.strip()`: drops white space at both ends. */
  function Strip(s: string): (r: string)
    ensures |r| <= |s|
  {
    StripLeft(StripRight(s))
  }

  /** The result of `strip()` neither starts nor ends with white space. */
  lemma StripIsStripped(s: string)
    ensures IsStripped(Strip(s))
  {
    var right := StripRight(s);
    var r := StripLeft(right);
    StripLeftKeepsSuffix(right);
    assert r == [] || r[|r| - 1] == right[|right| - 1];
  }

  /**
   * What `strip()` keeps is one slice of `s`, and everything it cuts off on
   * either side is white space.
   */
  lemma StripIsTrimmedSlice(s: string)
    ensures exists i :: 0 <= i <= |s| - |Strip(s)| && Slice(s, i, |Strip(s)|) == Strip(s)
                        && (forall k :: 0 <= k < i ==> IsSpace(s[k]))
                        && (forall k :: i + |Strip(s)| <= k < |s| ==> IsSpace(s[k]))
  {
    var right := StripRight(s);
    var r := StripLeft(right);
    var i := |right| - |r|;
    StripRightKeepsPrefix(s);
    StripLeftKeepsSuffix(right);
    assert Strip(s) == r;
    assert s[i..i + |r|] == right[i..] == r;
    assert Slice(s, i, |r|) == r;
    forall k | 0 <= k < i ensures IsSpace(s[k]) {
      StripLeftDropsSpace(right, k);
      assert right[k] == s[k];
    }
    forall k | i + |r| <= k < |s| ensures IsSpace(s[k]) {
      StripRightDropsSpace(s, k);
    }
  }

  /** The `len` characters of `s` starting at index `i`. */
  function Slice(s: string, i: nat, len: nat): string
    requires i + len <= |s|
  {
    s[i..i + len]
  }

  /** A stripped string is left unchanged by `strip()`. */
  lemma {:induction false} StripFixesStripped(t: string)
    requires IsStripped(t)
    ensures Strip(t) == t
  {
    assert StripRight(t) == t;
    assert StripLeft(t) == t;
  }

  /** `strip()` is idempotent. */
  lemma StripIdempotent(s: string)
    ensures Strip(Strip(s)) == Strip(s)
  {
    StripIsStripped(s);
    StripFixesStripped(Strip(s));
  }

  /** `s.startswith(p)`. */
  predicate StartsWith(s: string, p: string) {
    |p| <= |s| && s[..|p|] == p
  }

  /** `sub` occurs in `s` at index `i`. */
  predicate OccursAt(s: string, sub: string, i: nat) {
    i + |sub| <= |s| && s[i..i + |sub|] == sub
  }

  /** Python's substring test `sub in s`: `sub` occurs at some index of `s`. */
  predicate Contains(s: string, sub: string) {
    exists i: nat :: i <= |s| && OccursAt(s, sub, i)
  }

  /** Whatever surrounds it, `sub` is found in `a + sub + b`. */
  lemma ContainsInfix(a: string, sub: string, b: string)
    ensures Contains(a + sub + b, sub)
  {
    var s := a + sub + b;
    assert s[|a|..|a| + |sub|] == sub;
    assert OccursAt(s, sub, |a|);
  }

  /** A string that lacks one of the characters of `sub` does not contain `sub`. */
  lemma MissingCharExcludes(s: string, sub: string, c: char)
    requires c in sub && c !in s
    ensures !Contains(s, sub)
  {
    var k :| 0 <= k < |sub| && sub[k] == c;
    forall i: nat | i + |sub| <= |s| ensures !OccursAt(s, sub, i) {
      assert s[i..i + |sub|][k] == s[i + k] != c;
    }
  }

  /** What a string contains, any extension of it on the right contains too. */
  lemma ContainsExtendRight(s: string, t: string, sub: string)
    requires Contains(s, sub)
    ensures Contains(s + t, sub)
  {
    var i: nat :| i <= |s| && OccursAt(s, sub, i);
    assert (s + t)[i..i + |sub|] == s[i..i + |sub|];
    assert OccursAt(s + t, sub, i);
  }
}
