/** Python's notion of whitespace, as used by `\s` in a str pattern and by str.strip(). */
module Text {

  /** Python's str.isspace for one character: the characters `\s` matches in a str pattern. */
  predicate IsSpace(c: char) {
    || ('\t' <= c <= '\r')
    || ('\U{1c}' <= c <= '\U{1f}')
    || c == ' '
    || c == '\U{85}'
    || c == '\U{a0}'
    || c == '\U{1680}'
    || ('\U{2000}' <= c <= '\U{200a}')
    || c == '\U{2028}'
    || c == '\U{2029}'
    || c == '\U{202f}'
    || c == '\U{205f}'
    || c == '\U{3000}'
  }

  /** Every character of t from index i up to (not including) j is whitespace. */
  predicate SpacesIn(t: string, i: nat, j: nat)
    requires i <= j <= |t|
  {
    forall k :: i <= k < j ==> IsSpace(t[k])
  }

  /** The whole of s is whitespace. */
  predicate AllSpaces(s: string) {
    SpacesIn(s, 0, |s|)
  }

  /** Length of the whitespace run starting at index i: what a greedy `\s*` consumes there first. */
  function SpaceRun(t: string, i: nat): (n: nat)
    requires i <= |t|
    ensures i + n <= |t|
    ensures SpacesIn(t, i, i + n)
    ensures i + n == |t| || !IsSpace(t[i + n])
    decreases |t| - i
  {
    if i < |t| && IsSpace(t[i]) then 1 + SpaceRun(t, i + 1) else 0
  }

  /** No whitespace run starting at i is longer than SpaceRun(t, i). */
  lemma {:induction false} SpaceRunMaximal(t: string, i: nat, j: nat)
    requires i <= j <= |t|
    requires SpacesIn(t, i, j)
    ensures j <= i + SpaceRun(t, i)
    decreases |t| - i
  {
    if i < j {
      SpaceRunMaximal(t, i + 1, j);
    }
  }

  /** str.lstrip(): drops the leading whitespace. */
  function StripStart(s: string): (r: string)
    ensures r == [] || !IsSpace(r[0])
    ensures |r| <= |s| && r == s[|s| - |r|..]
    ensures SpacesIn(s, 0, |s| - |r|)
  {
    s[SpaceRun(s, 0)..]
  }

  /** str.rstrip(): drops the trailing whitespace. */
  function StripEnd(s: string): (r: string)
    ensures r == [] || !IsSpace(r[|r| - 1])
    ensures |r| <= |s| && r == s[..|r|]
    ensures SpacesIn(s, |r|, |s|)
    decreases |s|
  {
    if s != [] && IsSpace(s[|s| - 1]) then StripEnd(s[..|s| - 1]) else s
  }

  /**
   * str.strip() with no argument: a slice of s that is empty or starts and ends with
   * non-whitespace, with only whitespace before and after it.
   */
  function Strip(s: string): (r: string)
    ensures r == [] || (!IsSpace(r[0]) && !IsSpace(r[|r| - 1]))
    ensures exists i :: 0 <= i <= |s| - |r| && r == s[i..i + |r|] && SpacesIn(s, 0, i) && SpacesIn(s, i + |r|, |s|)
  {
    var l := StripStart(s);
    var r := StripEnd(l);
    var i := |s| - |l|;
    assert r == s[i..i + |r|];
    assert SpacesIn(s, i + |r|, |s|) by {
      forall k | i + |r| <= k < |s| ensures IsSpace(s[k]) {
        assert s[k] == l[k - i];
      }
    }
    r
  }

  /** `not code.strip()` holds exactly when the code is empty or all whitespace. */
  lemma {:induction false} StripEmptyIffAllSpaces(s: string)
    ensures Strip(s) == [] <==> AllSpaces(s)
  {
    var l := StripStart(s);
    if AllSpaces(s) {
      SpaceRunMaximal(s, 0, |s|);
      assert s[0..|s|] == s;
      assert l == [];
    } else {
      assert s[..|s| - |l|] + l == s;
      assert l != [];
    }
  }
}
