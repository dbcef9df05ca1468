/** `String.prototype.trim` as the component uses it: `text.trim() === ""`
    decides whether the input box holds anything worth saving. */
module Text {

  /** The code points ECMAScript counts as WhiteSpace or LineTerminator, the
      set `trim` strips: TAB, VT, FF, SPACE, NBSP, ZWNBSP, the other members
      of Unicode category Zs, LF, CR, LINE SEPARATOR and PARAGRAPH SEPARATOR. */
  predicate IsWhitespace(c: char)
  {
    || c == '\t' || c == '\U{000B}' || c == '\U{000C}' || c == ' '
    || c == '\U{00A0}' || c == '\U{FEFF}'
    || c == '\U{1680}' || ('\U{2000}' <= c <= '\U{200A}')
    || c == '\U{202F}' || c == '\U{205F}' || c == '\U{3000}'
    || c == '\n' || c == '\r' || c == '\U{2028}' || c == '\U{2029}'
  }

  /** Every character of `s` is whitespace (vacuously so for ""). */
  predicate AllWhitespace(s: string)
  {
    forall i :: 0 <= i < |s| ==> IsWhitespace(s[i])
  }

  /** `s` without its leading whitespace. */
  function TrimStart(s: string): (r: string)
    ensures |r| <= |s| && r == s[|s| - |r|..]
    ensures AllWhitespace(s[..|s| - |r|])
    ensures |r| > 0 ==> !IsWhitespace(r[0])
  {
    if |s| > 0 && IsWhitespace(s[0]) then TrimStart(s[1..]) else s
  }

  /** `s` without its trailing whitespace. */
  function TrimEnd(s: string): (r: string)
    ensures |r| <= |s| && r == s[..|r|]
    ensures AllWhitespace(s[|r|..])
    ensures |r| > 0 ==> !IsWhitespace(r[|r| - 1])
  {
    if |s| > 0 && IsWhitespace(s[|s| - 1]) then TrimEnd(s[..|s| - 1]) else s
  }

  /** Cutting `s` at `i` and `j` removes whitespace only: `s[..i]` and
      `s[j..]` consist of whitespace. */
  predicate CutsWhitespaceOnly(s: string, i: int, j: int)
  {
    0 <= i <= j <= |s| && AllWhitespace(s[..i]) && AllWhitespace(s[j..])
  }

  /** `s.trim()`: `s` without leading and trailing whitespace. The result is
      the slice of `s` left once a whitespace prefix and a whitespace suffix
      are cut off, and it neither starts nor ends with whitespace, so the cut
      removes all the leading and trailing whitespace and nothing more. */
  function Trim(s: string): (r: string)
    ensures |r| <= |s|
    ensures exists i, j :: CutsWhitespaceOnly(s, i, j) && r == s[i..j]
    ensures |r| > 0 ==> !IsWhitespace(r[0]) && !IsWhitespace(r[|r| - 1])
  {
    var t := TrimStart(s);
    var r := TrimEnd(t);
    var i := |s| - |t|;
    assert t == s[i..];
    SuffixThenPrefix(s, i, |r|);
    assert r == s[i..i + |r|];
    assert t[|r|..] == s[i + |r|..];
    assert CutsWhitespaceOnly(s, i, i + |r|);
    r
  }

  /** Taking a prefix of a suffix of `s` is taking a slice of `s`, and what
      the prefix leaves over is a suffix of `s`. */
  lemma SuffixThenPrefix<T>(s: seq<T>, i: nat, n: nat)
    requires i + n <= |s|
    ensures s[i..][..n] == s[i..i + n]
    ensures s[i..][n..] == s[i + n..]
  {
  }

  /** The test at App.jsx:16: the text trims to "" exactly when it consists of
      whitespace only. */
  lemma TrimEmptyIffAllWhitespace(s: string)
    ensures Trim(s) == "" <==> AllWhitespace(s)
  {
    var t := TrimStart(s);
    if Trim(s) == "" {
      assert t[0..] == t;
      assert s[..|s|] == s;
    } else {
      assert |t| > 0 && t[0] == s[|s| - |t|];
    }
  }
}
