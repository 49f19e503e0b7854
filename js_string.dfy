/**
 * The part of JavaScript's `String.prototype.trim` the composer relies on:
 * strip white space and line terminators from both ends of a string.
 */
module JsString {

  /** ECMAScript WhiteSpace and LineTerminator code points (the set `trim` removes). */
  predicate IsWhitespace(c: char) {
    c in Whitespace
  }

  const Whitespace: set<char> := {
    '\t', '\U{000B}', '\U{000C}', ' ', '\U{00A0}', '\U{FEFF}',
    '\n', '\r', '\U{2028}', '\U{2029}',
    // remaining members of the Unicode category Zs
    '\U{1680}', '\U{2000}', '\U{2001}', '\U{2002}', '\U{2003}', '\U{2004}', '\U{2005}',
    '\U{2006}', '\U{2007}', '\U{2008}', '\U{2009}', '\U{200A}', '\U{202F}', '\U{205F}', '\U{3000}'
  }

  predicate AllWhitespace(s: string) {
    forall i :: 0 <= i < |s| ==> IsWhitespace(s[i])
  }

  /** Length of the longest all-white-space prefix of `s`. */
  function LeadingSpaceCount(s: string): (k: nat)
    ensures k <= |s|
    ensures AllWhitespace(s[..k])
    ensures k < |s| ==> !IsWhitespace(s[k])
  {
    if |s| > 0 && IsWhitespace(s[0]) then
      var k := LeadingSpaceCount(s[1..]);
      assert s[..k + 1] == [s[0]] + s[1..][..k];
      k + 1
    else 0
  }

  /** Length of the longest all-white-space suffix of `s`. */
  function TrailingSpaceCount(s: string): (k: nat)
    ensures k <= |s|
    ensures AllWhitespace(s[|s| - k..])
    ensures k < |s| ==> !IsWhitespace(s[|s| - 1 - k])
  {
    if |s| > 0 && IsWhitespace(s[|s| - 1]) then
      var init := s[..|s| - 1];
      var k := TrailingSpaceCount(init);
      assert s[|s| - (k + 1)..] == init[|init| - k..] + [s[|s| - 1]];
      assert k < |init| ==> s[|s| - 1 - (k + 1)] == init[|init| - 1 - k];
      k + 1
    else 0
  }

  /**
   * `s.trim()`: the result is a contiguous piece of `s` surrounded only by
   * white space, and it neither starts nor ends with white space.
   */
  function Trim(s: string): (r: string)
    ensures |r| <= |s|
    ensures r != [] ==> !IsWhitespace(r[0]) && !IsWhitespace(r[|r| - 1])
    ensures r == [] <==> AllWhitespace(s)
    ensures exists i :: 0 <= i <= |s| - |r| && r == s[i..i + |r|]
                        && AllWhitespace(s[..i]) && AllWhitespace(s[i + |r|..])
  {
    var a := LeadingSpaceCount(s);
    var b := TrailingSpaceCount(s[a..]);
    assert s[|s| - b..] == s[a..][|s| - a - b..];
    TrimBounds(s, a, b);
    s[a..|s| - b]
  }

  /** The pieces Trim cuts off are white space, and what remains is either empty or not. */
  lemma TrimBounds(s: string, a: nat, b: nat)
    requires a <= |s| && AllWhitespace(s[..a]) && (a < |s| ==> !IsWhitespace(s[a]))
    requires b <= |s| - a && AllWhitespace(s[|s| - b..])
    requires b < |s| - a ==> !IsWhitespace(s[|s| - 1 - b])
    ensures a <= |s| - b
    ensures AllWhitespace(s[..a]) && AllWhitespace(s[|s| - b..])
    ensures a < |s| - b ==> !IsWhitespace(s[a]) && !IsWhitespace(s[|s| - b - 1])
    ensures a == |s| - b <==> AllWhitespace(s)
  {
    if a < |s| - b {
      assert !AllWhitespace(s) by { assert !IsWhitespace(s[a]); }
    } else {
      // the suffix is all white space and s[a] is not, so nothing is left after the prefix
      assert a == |s|;
      assert s == s[..a];
    }
  }

  /** Trimming twice is trimming once. */
  lemma TrimIdempotent(s: string)
    ensures Trim(Trim(s)) == Trim(s)
  {
    var r := Trim(s);
    if r != [] {
      assert LeadingSpaceCount(r) == 0;
      assert TrailingSpaceCount(r[LeadingSpaceCount(r)..]) == 0;
      assert r[0..] == r;
    }
  }
}
