/**
 * `String.prototype.trim`: removal of leading and trailing white space, where
 * white space is the fixed set of characters ECMAScript counts as WhiteSpace
 * or LineTerminator (section 12.2 and 12.3 of ECMA-262).
 */
module Text {

  /** ECMAScript white space and line terminators (the space separators of Unicode 15 included). */
  const Spaces: set<char> := {
    '\t', '\U{000B}', '\U{000C}', ' ', '\U{00A0}', '\U{FEFF}',
    '\n', '\r', '\U{2028}', '\U{2029}',
    '\U{1680}', '\U{2000}', '\U{2001}', '\U{2002}', '\U{2003}', '\U{2004}', '\U{2005}',
    '\U{2006}', '\U{2007}', '\U{2008}', '\U{2009}', '\U{200A}', '\U{202F}', '\U{205F}', '\U{3000}'
  }

  predicate IsSpace(c: char)
  {
    c in Spaces
  }

  predicate AllSpace(s: string)
  {
    forall i :: 0 <= i < |s| ==> IsSpace(s[i])
  }

  /** The number of white-space characters `s` starts with. */
  function Lead(s: string): (k: nat)
    ensures k <= |s| && AllSpace(s[..k])
    ensures k < |s| ==> !IsSpace(s[k])
  {
    if s != [] && IsSpace(s[0]) then 1 + Lead(s[1..]) else 0
  }

  /** The number of white-space characters `s` ends with. */
  function Trail(s: string): (k: nat)
    ensures k <= |s| && AllSpace(s[|s| - k..])
    ensures k < |s| ==> !IsSpace(s[|s| - k - 1])
  {
    if s != [] && IsSpace(s[|s| - 1]) then 1 + Trail(s[..|s| - 1]) else 0
  }

  /** `s.trimStart()`: a suffix of `s` that does not start with white space, what it drops
      being white space. */
  function TrimStart(s: string): (r: string)
    ensures |r| <= |s| && r == s[|s| - |r|..] && AllSpace(s[..|s| - |r|])
    ensures r == [] || !IsSpace(r[0])
  {
    s[Lead(s)..]
  }

  /** `s.trimEnd()`: a prefix of `s` that does not end with white space, what it drops
      being white space. */
  function TrimEnd(s: string): (r: string)
    ensures |r| <= |s| && r == s[..|r|] && AllSpace(s[|r|..])
    ensures r == [] || !IsSpace(r[|r| - 1])
  {
    s[..|s| - Trail(s)]
  }

  /** `s.trim()`: neither starts nor ends with white space. */
  function Trim(s: string): (t: string)
    ensures |t| <= |s|
    ensures t == [] || (!IsSpace(t[0]) && !IsSpace(t[|t| - 1]))
  {
    var u := TrimStart(s);
    assert TrimEnd(u) == [] || TrimEnd(u)[0] == u[0];
    TrimEnd(u)
  }

  lemma {:induction false} SplitThree(s: string, k: nat, j: nat)
    requires k <= |s| && j <= |s| - k
    ensures s == s[..k] + s[k..][..j] + s[k..][j..]
  {
    assert s[k..] == s[k..][..j] + s[k..][j..];
    assert s == s[..k] + s[k..];
  }

  /** `s` is its trimmed form framed by white space on both sides. */
  lemma {:induction false} TrimFrames(s: string) returns (a: string, b: string)
    ensures s == a + Trim(s) + b && AllSpace(a) && AllSpace(b)
  {
    var u := TrimStart(s);
    var j := |u| - Trail(u);
    a, b := s[..Lead(s)], u[j..];
    SplitThree(s, Lead(s), j);
  }

  /** Trimming leaves nothing exactly when the text is all white space. */
  lemma {:induction false} TrimEmptyIff(s: string)
    ensures Trim(s) == [] <==> AllSpace(s)
  {
    var u := TrimStart(s);
    if TrimEnd(u) == [] {
      assert s == s[..Lead(s)] + u;
    }
  }

  /** Trimming twice is trimming once. */
  lemma {:induction false} TrimIdempotent(s: string)
    ensures Trim(Trim(s)) == Trim(s)
  {
    var t := Trim(s);
    if t != [] {
      assert Lead(t) == 0;
      assert Trail(t) == 0;
    }
  }
}
