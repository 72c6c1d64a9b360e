/** The name normalisation applied to the registration form: Python's
    `str.strip()` with no argument, which drops leading and trailing whitespace. */
module Text {

  /** The characters Python's `str.isspace()` accepts. */
  const Whitespace: set<char> := {
    '\t', '\n', '\U{b}', '\U{c}', '\r', '\U{1c}', '\U{1d}', '\U{1e}', '\U{1f}', ' ',
    '\U{85}', '\U{a0}', '\U{1680}',
    '\U{2000}', '\U{2001}', '\U{2002}', '\U{2003}', '\U{2004}', '\U{2005}',
    '\U{2006}', '\U{2007}', '\U{2008}', '\U{2009}', '\U{200a}',
    '\U{2028}', '\U{2029}', '\U{202f}', '\U{205f}', '\U{3000}'
  }

  /** `c` is a whitespace character. */
  predicate IsSpace(c: char)
  {
    c in Whitespace
  }

  /** Every character of `s` is whitespace. */
  predicate Blank(s: string)
  {
    forall i :: 0 <= i < |s| ==> IsSpace(s[i])
  }

  /** `s` without its leading whitespace. */
  function TrimStart(s: string): (r: string)
    ensures |r| <= |s| && r == s[|s| - |r|..]
    ensures forall i :: 0 <= i < |s| - |r| ==> IsSpace(s[i])
    ensures r == [] || !IsSpace(r[0])
  {
    if s == [] || !IsSpace(s[0]) then s
    else
      var r := TrimStart(s[1..]);
      assert forall i :: 1 <= i < |s| ==> s[i] == s[1..][i - 1];
      r
  }

  /** `s` without its trailing whitespace. */
  function TrimEnd(s: string): (r: string)
    ensures |r| <= |s| && r == s[..|r|]
    ensures forall i :: |r| <= i < |s| ==> IsSpace(s[i])
    ensures r == [] || !IsSpace(r[|r| - 1])
  {
    if s == [] || !IsSpace(s[|s| - 1]) then s
    else
      var r := TrimEnd(s[..|s| - 1]);
      assert forall i :: 0 <= i < |s| - 1 ==> s[i] == s[..|s| - 1][i];
      r
  }

  /** `str.strip()`: the infix of `s` left once the whitespace at both ends is
      dropped. The result is empty exactly when `s` is blank, and otherwise
      neither starts nor ends with whitespace. */
  function Strip(s: string): (r: string)
    ensures exists k :: 0 <= k <= |s| - |r| && r == s[k..k + |r|] && Blank(s[..k]) && Blank(s[k + |r|..])
    ensures r == [] <==> Blank(s)
    ensures r == [] || (!IsSpace(r[0]) && !IsSpace(r[|r| - 1]))
  {
    var t := TrimStart(s);
    var r := TrimEnd(t);
    StripWitness(s, t, r);
    r
  }

  /** The facts about one strip, stated for its two trimming steps. */
  lemma StripWitness(s: string, t: string, r: string)
    requires |t| <= |s| && t == s[|s| - |t|..] && (t == [] || !IsSpace(t[0]))
    requires forall i :: 0 <= i < |s| - |t| ==> IsSpace(s[i])
    requires |r| <= |t| && r == t[..|r|]
    requires forall i :: |r| <= i < |t| ==> IsSpace(t[i])
    requires r == [] || !IsSpace(r[|r| - 1])
    ensures exists k :: 0 <= k <= |s| - |r| && r == s[k..k + |r|] && Blank(s[..k]) && Blank(s[k + |r|..])
    ensures r == [] <==> Blank(s)
    ensures r == [] || (!IsSpace(r[0]) && !IsSpace(r[|r| - 1]))
  {
    var k := |s| - |t|;
    assert Blank(s[..k]);
    var tail := s[k + |r|..];
    forall j | 0 <= j < |tail| ensures IsSpace(tail[j]) {
      assert tail[j] == t[|r| + j];
    }
    if r == [] {
      assert t == [];
      assert s[..k] == s;
    } else {
      assert s[k] == t[0] && r[0] == t[0];
    }
    assert 0 <= k <= |s| - |r| && r == s[k..k + |r|] && Blank(s[..k]) && Blank(tail);
  }

  /** Stripping twice changes nothing: a stripped name is already stripped. */
  lemma StripIdempotent(s: string)
    ensures Strip(Strip(s)) == Strip(s)
  {
  }
}
