/**
 * The second pattern of extract_json_from_text, "(\[\s*{[\s\S]+?}\s*])", searched with
 * re.search: written out as the backtracking scan Python's regex engine performs.
 */
module ArrayScan {
  import opened Wrappers
  import opened Text

  /**
   * A match: `[` at `open`, `{` at `brace`, `}` at `close`, and `]` at end - 1; the whole
   * match t[open..end] is what is captured.
   */
  datatype ArrayMatch = ArrayMatch(open: nat, brace: nat, close: nat, end: nat)

  /** m is one way the pattern can match t: the language of the pattern, without any preference. */
  predicate IsMatch(t: string, m: ArrayMatch) {
    && m.open < m.brace && m.brace + 2 <= m.close && m.close + 2 <= m.end <= |t|
    && t[m.open] == '['
    && SpacesIn(t, m.open + 1, m.brace)
    && t[m.brace] == '{'
    && t[m.close] == '}'
    && SpacesIn(t, m.close + 1, m.end - 1)
    && t[m.end - 1] == ']'
  }

  /**
   * `\s*` followed by the character c, from index i with `\s*` holding k characters; on a
   * mismatch `\s*` gives back one character at a time. The result is the index of c.
   */
  function SpacesThen(t: string, i: nat, k: nat, c: char): (r: Option<nat>)
    requires i + k <= |t|
    ensures r.Some? ==> i <= r.value <= i + k && r.value < |t| && t[r.value] == c
    decreases k
  {
    if i + k < |t| && t[i + k] == c then Some(i + k)
    else if k == 0 then None
    else SpacesThen(t, i, k - 1, c)
  }

  /** `}\s*]` at index e: the end of the match, just past the `]`. */
  function CloseAt(t: string, e: nat): (r: Option<nat>)
    requires e < |t|
    ensures r.Some? ==> e + 2 <= r.value <= |t|
  {
    if t[e] != '}' then None
    else
      match SpacesThen(t, e + 1, SpaceRun(t, e + 1), ']')
      case Some(f) => Some(f + 1)
      case None => None
  }

  /** `[\s\S]+?}\s*]` with the lazy body ending just before index e, then e + 1, and so on: (close, end). */
  function LazyBody(t: string, e: nat): (r: Option<(nat, nat)>)
    ensures r.Some? ==> e <= r.value.0 < |t| && CloseAt(t, r.value.0) == Some(r.value.1)
    ensures r.Some? ==> forall j :: e <= j < r.value.0 ==> CloseAt(t, j).None?
    decreases |t| - e
  {
    if e >= |t| then None
    else
      match CloseAt(t, e)
      case Some(q) => Some((e, q))
      case None => LazyBody(t, e + 1)
  }

  /** `{` at index c followed by the lazy body and `}\s*]`: (close, end). */
  function BodyAfterBrace(t: string, c: nat): Option<(nat, nat)> {
    if c < |t| && t[c] == '{' then LazyBody(t, c + 2) else None
  }

  /** `\s*{` from index p + 1 with `\s*` holding k characters, then the rest of the pattern; `\s*` gives back on failure. */
  function BraceAfterSpaces(t: string, p: nat, k: nat): (r: Option<ArrayMatch>)
    requires p + 1 + k <= |t|
    ensures r.Some? ==> r.value.open == p && p + 1 <= r.value.brace <= p + 1 + k
    ensures r.Some? ==> r.value.open < r.value.end <= |t|
    decreases k
  {
    var c := p + 1 + k;
    var body := BodyAfterBrace(t, c);
    if body.Some? then Some(ArrayMatch(p, c, body.value.0, body.value.1))
    else if k == 0 then None
    else BraceAfterSpaces(t, p, k - 1)
  }

  /** The pattern anchored at index p. */
  function MatchAt(t: string, p: nat): (r: Option<ArrayMatch>)
    requires p < |t|
    ensures r.Some? ==> r.value.open == p && r.value.open < r.value.end <= |t|
  {
    if t[p] != '[' then None else BraceAfterSpaces(t, p, SpaceRun(t, p + 1))
  }

  /** re.search from index i: the first start position at which the pattern matches. */
  function Search(t: string, i: nat): (r: Option<ArrayMatch>)
    ensures r.Some? ==> i <= r.value.open < r.value.end <= |t| && MatchAt(t, r.value.open) == r
    decreases |t| - i
  {
    if i >= |t| then None
    else if MatchAt(t, i).Some? then MatchAt(t, i)
    else Search(t, i + 1)
  }

  // ---------------------------------------------------------------------------------------
  // What the scan finds, stated against IsMatch

  /** A `\s*` followed by a non-space character can only end where the whitespace run ends. */
  lemma SpacesThenOnlyAtRunEnd(t: string, i: nat, j: nat)
    requires i <= j < |t| && SpacesIn(t, i, j) && !IsSpace(t[j])
    ensures j == i + SpaceRun(t, i)
  {
    SpaceRunMaximal(t, i, j);
  }

  /** `}\s*]` at e succeeds exactly when some end makes it part of a match, and the end is the only one possible. */
  lemma CloseAtIff(t: string, e: nat, q: nat)
    requires e < |t|
    requires e + 2 <= q <= |t|
    ensures CloseAt(t, e) == Some(q) <==> t[e] == '}' && SpacesIn(t, e + 1, q - 1) && t[q - 1] == ']'
  {
    if t[e] == '}' && SpacesIn(t, e + 1, q - 1) && t[q - 1] == ']' {
      SpacesThenOnlyAtRunEnd(t, e + 1, q - 1);
    }
  }

  /** A `{` at c with a closing `}\s*]` after a non-empty body makes the lazy body succeed no later than that close. */
  lemma {:induction false} LazyBodyReaches(t: string, e: nat, close: nat)
    requires e <= close < |t| && CloseAt(t, close).Some?
    ensures LazyBody(t, e).Some? && LazyBody(t, e).value.0 <= close
    decreases |t| - e
  {
    if CloseAt(t, e).None? {
      LazyBodyReaches(t, e + 1, close);
    }
  }

  /** The brace is fixed by the bracket: it ends the whitespace run after `[`. */
  lemma BraceIsRunEnd(t: string, m: ArrayMatch)
    requires IsMatch(t, m)
    ensures m.brace == m.open + 1 + SpaceRun(t, m.open + 1)
  {
    SpacesThenOnlyAtRunEnd(t, m.open + 1, m.brace);
  }

  /** The end is fixed by the close: the `]` ends the whitespace run after `}`. */
  lemma EndIsRunEnd(t: string, m: ArrayMatch)
    requires IsMatch(t, m)
    ensures m.end == m.close + 2 + SpaceRun(t, m.close + 1)
  {
    SpacesThenOnlyAtRunEnd(t, m.close + 1, m.end - 1);
  }

  /** For k at or above the run end, BraceAfterSpaces only finds the brace at the run end. */
  lemma {:induction false} BraceAfterSpacesAtRunEnd(t: string, p: nat, k: nat)
    requires p + 1 + k <= |t| && k <= SpaceRun(t, p + 1)
    ensures
      var r := BraceAfterSpaces(t, p, k);
      r.Some? ==> k == SpaceRun(t, p + 1) && r.value.brace == p + 1 + k && BodyAfterBrace(t, p + 1 + k) == Some((r.value.close, r.value.end))
    decreases k
  {
    if k > 0 {
      BraceAfterSpacesAtRunEnd(t, p, k - 1);
    }
  }

  /** What BodyAfterBrace finds is `{`, a body of one character at least, and `}\s*]`. */
  lemma BodyAfterBraceSound(t: string, c: nat, close: nat, end: nat)
    requires BodyAfterBrace(t, c) == Some((close, end))
    ensures c < |t| && t[c] == '{' && c + 2 <= close && close + 2 <= end <= |t|
    ensures t[close] == '}' && SpacesIn(t, close + 1, end - 1) && t[end - 1] == ']'
  {
    CloseAtIff(t, close, end);
  }

  /** What MatchAt finds at p is a match of the pattern. */
  lemma MatchAtSound(t: string, p: nat)
    requires p < |t| && MatchAt(t, p).Some?
    ensures IsMatch(t, MatchAt(t, p).value)
  {
    var m := MatchAt(t, p).value;
    assert t[p] == '[' && m.open == p;
    assert m.brace == p + 1 + SpaceRun(t, p + 1) && BodyAfterBrace(t, m.brace) == Some((m.close, m.end)) by {
      BraceAfterSpacesAtRunEnd(t, p, SpaceRun(t, p + 1));
    }
    BodyAfterBraceSound(t, m.brace, m.close, m.end);
  }

  /** Whenever the pattern can match at m'.open, MatchAt finds a match there, with a close no later than m'. */
  lemma MatchAtComplete(t: string, m': ArrayMatch)
    requires IsMatch(t, m')
    ensures MatchAt(t, m'.open).Some? && MatchAt(t, m'.open).value.close <= m'.close
  {
    var p := m'.open;
    var c := m'.brace;
    assert c == p + 1 + SpaceRun(t, p + 1) by {
      BraceIsRunEnd(t, m');
    }
    assert BodyAfterBrace(t, c).Some? && BodyAfterBrace(t, c).value.0 <= m'.close by {
      assert CloseAt(t, m'.close).Some? by {
        CloseAtIff(t, m'.close, m'.end);
      }
      LazyBodyReaches(t, c + 2, m'.close);
    }
    BraceAtRunEnd(t, p, c);
  }

  /** The first try of `\s*{`, with `\s*` holding k characters, succeeds when a brace and a body follow. */
  lemma BraceFirstTry(t: string, p: nat, k: nat)
    requires p + 1 + k <= |t| && BodyAfterBrace(t, p + 1 + k).Some?
    ensures
      var body := BodyAfterBrace(t, p + 1 + k).value;
      BraceAfterSpaces(t, p, k) == Some(ArrayMatch(p, p + 1 + k, body.0, body.1))
  {
  }

  /** With `{` right after the whitespace that follows `[` and a body after it, the greedy first try succeeds. */
  lemma BraceAtRunEnd(t: string, p: nat, c: nat)
    requires p < |t| && t[p] == '['
    requires c == p + 1 + SpaceRun(t, p + 1) && BodyAfterBrace(t, c).Some?
    ensures MatchAt(t, p) == Some(ArrayMatch(p, c, BodyAfterBrace(t, c).value.0, BodyAfterBrace(t, c).value.1))
  {
    BraceFirstTry(t, p, SpaceRun(t, p + 1));
  }

  lemma {:induction false} SearchFacts(t: string, i: nat)
    ensures forall m :: IsMatch(t, m) && i <= m.open ==> Search(t, i).Some? && Search(t, i).value.open <= m.open
    decreases |t| - i
  {
    if i < |t| && MatchAt(t, i).None? {
      SearchFacts(t, i + 1);
      forall m | IsMatch(t, m) && m.open == i
        ensures false
      {
        MatchAtComplete(t, m);
      }
    }
  }

  /** Whatever re.search reports is a match, with brace and end fixed by the whitespace runs. */
  lemma SearchSound(t: string)
    requires Search(t, 0).Some?
    ensures IsMatch(t, Search(t, 0).value)
    ensures Search(t, 0).value.brace == Search(t, 0).value.open + 1 + SpaceRun(t, Search(t, 0).value.open + 1)
    ensures Search(t, 0).value.end == Search(t, 0).value.close + 2 + SpaceRun(t, Search(t, 0).value.close + 1)
  {
    var m := Search(t, 0).value;
    MatchAtSound(t, m.open);
    BraceIsRunEnd(t, m);
    EndIsRunEnd(t, m);
  }

  /** No match starts before the one re.search reports, and none from the same bracket closes earlier. */
  lemma SearchLeftmostShortest(t: string, m': ArrayMatch)
    requires IsMatch(t, m')
    ensures Search(t, 0).Some? && Search(t, 0).value.open <= m'.open
    ensures m'.open == Search(t, 0).value.open ==> Search(t, 0).value.close <= m'.close
  {
    SearchFacts(t, 0);
    MatchAtComplete(t, m');
  }

  /**
   * The match re.search reports: a match of the pattern at the leftmost position where one
   * exists, whose brace ends the whitespace after `[`, whose body is the shortest that any
   * match from that position has, and whose `]` ends the whitespace after `}`. And a match is
   * reported whenever the pattern matches anywhere.
   */
  lemma SearchSpec(t: string)
    ensures forall m' :: IsMatch(t, m') ==> Search(t, 0).Some?
    ensures Search(t, 0).Some? ==>
      var m := Search(t, 0).value;
      && IsMatch(t, m)
      && m.brace == m.open + 1 + SpaceRun(t, m.open + 1)
      && m.end == m.close + 2 + SpaceRun(t, m.close + 1)
      && (forall m' :: IsMatch(t, m') ==> m.open <= m'.open)
      && (forall m' :: IsMatch(t, m') && m'.open == m.open ==> m.close <= m'.close)
  {
    forall m' | IsMatch(t, m')
      ensures Search(t, 0).Some? && Search(t, 0).value.open <= m'.open
      ensures m'.open == Search(t, 0).value.open ==> Search(t, 0).value.close <= m'.close
    {
      SearchLeftmostShortest(t, m');
    }
    if Search(t, 0).Some? {
      SearchSound(t);
    }
  }

  /** Text without a `[` has no array of objects. */
  lemma NoBracketNoMatch(t: string)
    requires '[' !in t
    ensures Search(t, 0).None?
  {
    if Search(t, 0).Some? {
      SearchSound(t);
      assert false;
    }
  }
}
