/**
 * The first pattern of extract_json_from_text, "```(?:json)?\s*([\s\S]+?)```", searched with
 * re.search: written out as the backtracking scan Python's regex engine performs.
 */
module FenceScan {
  import opened Wrappers
  import opened Text

  /**
   * A match: the opening backticks at `open`, the captured interior t[start..end], and the
   * closing backticks at `end`.
   */
  datatype FenceMatch = FenceMatch(open: nat, start: nat, end: nat)

  /** Three backticks start at index i. */
  predicate TicksAt(t: string, i: nat) {
    i + 3 <= |t| && t[i] == '`' && t[i + 1] == '`' && t[i + 2] == '`'
  }

  /** The tag `json` (lower case) starts at index i. */
  predicate TagAt(t: string, i: nat) {
    i + 4 <= |t| && t[i] == 'j' && t[i + 1] == 's' && t[i + 2] == 'o' && t[i + 3] == 'n'
  }

  /** Between the opening backticks and the interior: `json` then whitespace, the tag being taken. */
  predicate Tagged(t: string, m: FenceMatch) {
    m.open + 7 <= m.start <= |t| && TagAt(t, m.open + 3) && SpacesIn(t, m.open + 7, m.start)
  }

  /** Between the opening backticks and the interior: whitespace only, the tag being skipped. */
  predicate Untagged(t: string, m: FenceMatch) {
    m.open + 3 <= m.start <= |t| && SpacesIn(t, m.open + 3, m.start)
  }

  /** m is one way the pattern can match t: the language of the pattern, without any preference. */
  predicate IsMatch(t: string, m: FenceMatch) {
    && TicksAt(t, m.open)
    && (Tagged(t, m) || Untagged(t, m))
    && m.start < m.end
    && TicksAt(t, m.end)
  }

  /** The first ``` at or after index i. */
  function NextTicks(t: string, i: nat): (r: Option<nat>)
    ensures r.Some? ==> i <= r.value && TicksAt(t, r.value)
    ensures r.Some? ==> forall j :: i <= j < r.value ==> !TicksAt(t, j)
    ensures r.None? ==> forall j :: i <= j ==> !TicksAt(t, j)
    decreases |t| - i
  {
    if i + 3 > |t| then None
    else if TicksAt(t, i) then Some(i)
    else NextTicks(t, i + 1)
  }

  /**
   * `\s*([\s\S]+?)```` from index o, with `\s*` holding k characters: the lazy interior takes
   * the first closing ``` that leaves it one character at least; when there is none, `\s*`
   * gives back one character and the interior is tried again. The result is (start, end).
   */
  function InteriorAfterSpaces(t: string, o: nat, k: nat): (r: Option<(nat, nat)>)
    ensures r.Some? ==> o <= r.value.0 <= o + k
    ensures r.Some? ==> r.value.0 < r.value.1 && TicksAt(t, r.value.1)
    ensures r.Some? ==> forall j :: r.value.0 < j < r.value.1 ==> !TicksAt(t, j)
    decreases k
  {
    match NextTicks(t, o + k + 1)
    case Some(e) => Some((o + k, e))
    case None => if k == 0 then None else InteriorAfterSpaces(t, o, k - 1)
  }

  /** `(?:json)?` taking the tag: `json` right after the backticks, then `\s*` and the interior. */
  function TaggedTry(t: string, p: nat): (r: Option<(nat, nat)>)
    requires p + 3 <= |t|
    ensures r.Some? ==> r.value.0 < r.value.1 && TicksAt(t, r.value.1)
    ensures r.Some? ==> TagAt(t, p + 3) && p + 7 <= r.value.0 <= |t| && SpacesIn(t, p + 7, r.value.0)
  {
    if TagAt(t, p + 3) then InteriorAfterSpaces(t, p + 7, SpaceRun(t, p + 7)) else None
  }

  /** `(?:json)?` skipping the tag: `\s*` and the interior right after the backticks. */
  function UntaggedTry(t: string, p: nat): (r: Option<(nat, nat)>)
    requires p + 3 <= |t|
    ensures r.Some? ==> r.value.0 < r.value.1 && TicksAt(t, r.value.1)
    ensures r.Some? ==> p + 3 <= r.value.0 <= |t| && SpacesIn(t, p + 3, r.value.0)
  {
    InteriorAfterSpaces(t, p + 3, SpaceRun(t, p + 3))
  }

  /** The pattern anchored at the backticks at p; `(?:json)?` tries the tag before skipping it. */
  function MatchAt(t: string, p: nat): (r: Option<FenceMatch>)
    requires TicksAt(t, p)
    ensures r.Some? ==> r.value.open == p && r.value.start < r.value.end && TicksAt(t, r.value.end)
    ensures r.Some? ==> forall j :: r.value.start < j < r.value.end ==> !TicksAt(t, j)
  {
    var chosen := if TaggedTry(t, p).Some? then TaggedTry(t, p) else UntaggedTry(t, p);
    match chosen
    case Some((b, e)) => Some(FenceMatch(p, b, e))
    case None => None
  }

  /** re.search from index i: the first start position at which the pattern matches. */
  function Search(t: string, i: nat): (r: Option<FenceMatch>)
    ensures r.Some? ==> i <= r.value.open && TicksAt(t, r.value.open) && MatchAt(t, r.value.open) == r
    ensures r.Some? ==> r.value.start < r.value.end <= |t|
    decreases |t| - i
  {
    if i + 3 > |t| then None
    else if TicksAt(t, i) && MatchAt(t, i).Some? then MatchAt(t, i)
    else Search(t, i + 1)
  }

  // ---------------------------------------------------------------------------------------
  // What the scan finds, stated against IsMatch

  /** Every result of InteriorAfterSpaces from the longest whitespace run sits after whitespace only. */
  lemma InteriorAfterSpacesSound(t: string, o: nat, k: nat)
    requires o <= |t| && k <= SpaceRun(t, o)
    requires InteriorAfterSpaces(t, o, k).Some?
    ensures SpacesIn(t, o, InteriorAfterSpaces(t, o, k).value.0)
  {
  }

  /** If a closing ``` follows the interior start o + j, the scan from k >= j finds a match. */
  lemma {:induction false} InteriorAfterSpacesComplete(t: string, o: nat, k: nat, j: nat, e: nat)
    requires j <= k && o + j < e && TicksAt(t, e)
    ensures InteriorAfterSpaces(t, o, k).Some?
    decreases k
  {
    if NextTicks(t, o + k + 1).None? && k > j {
      InteriorAfterSpacesComplete(t, o, k - 1, j, e);
    }
  }

  /**
   * Greedy `\s*`: the scan from k keeps as much whitespace as it can, so no interior start
   * between the chosen one and o + k has a closing ``` after it.
   */
  lemma {:induction false} InteriorAfterSpacesGreedy(t: string, o: nat, k: nat, j: nat, e: nat)
    requires InteriorAfterSpaces(t, o, k).Some?
    requires InteriorAfterSpaces(t, o, k).value.0 < o + j <= o + k
    requires o + j < e
    ensures !TicksAt(t, e)
    decreases k
  {
    if NextTicks(t, o + k + 1).Some? {
      assert false;
    } else if j < k {
      InteriorAfterSpacesGreedy(t, o, k - 1, j, e);
    }
  }

  /** The tagged try yields a tagged match. */
  lemma TaggedTrySound(t: string, p: nat)
    requires TicksAt(t, p) && TaggedTry(t, p).Some?
    ensures Tagged(t, FenceMatch(p, TaggedTry(t, p).value.0, TaggedTry(t, p).value.1))
  {
    InteriorAfterSpacesSound(t, p + 7, SpaceRun(t, p + 7));
  }

  /** The untagged try yields an untagged match, which is never tagged as well. */
  lemma UntaggedTrySound(t: string, p: nat)
    requires TicksAt(t, p) && UntaggedTry(t, p).Some?
    ensures
      var m := FenceMatch(p, UntaggedTry(t, p).value.0, UntaggedTry(t, p).value.1);
      Untagged(t, m) && !Tagged(t, m)
  {
    InteriorAfterSpacesSound(t, p + 3, SpaceRun(t, p + 3));
    var b := UntaggedTry(t, p).value.0;
    if b >= p + 7 {
      assert IsSpace(t[p + 3]);
    }
  }

  /** What MatchAt finds is a match of the pattern, tagged exactly when the tagged try succeeded. */
  lemma MatchAtSound(t: string, p: nat)
    requires TicksAt(t, p) && MatchAt(t, p).Some?
    ensures MatchAt(t, p).value.open == p && IsMatch(t, MatchAt(t, p).value)
    ensures Tagged(t, MatchAt(t, p).value) <==> TaggedTry(t, p).Some?
  {
    if TaggedTry(t, p).Some? {
      TaggedTrySound(t, p);
    } else {
      UntaggedTrySound(t, p);
    }
  }

  /** A tagged match at p makes the tagged try succeed. */
  lemma TaggedTryComplete(t: string, m: FenceMatch)
    requires IsMatch(t, m) && Tagged(t, m)
    ensures TaggedTry(t, m.open).Some?
  {
    var o := m.open + 7;
    SpaceRunMaximal(t, o, m.start);
    InteriorAfterSpacesComplete(t, o, SpaceRun(t, o), m.start - o, m.end);
  }

  /** An untagged match at p makes the untagged try succeed. */
  lemma UntaggedTryComplete(t: string, m: FenceMatch)
    requires IsMatch(t, m) && Untagged(t, m)
    ensures UntaggedTry(t, m.open).Some?
  {
    var o := m.open + 3;
    SpaceRunMaximal(t, o, m.start);
    InteriorAfterSpacesComplete(t, o, SpaceRun(t, o), m.start - o, m.end);
  }

  lemma MatchAtComplete(t: string, m: FenceMatch)
    requires IsMatch(t, m)
    ensures MatchAt(t, m.open).Some?
  {
    if Tagged(t, m) {
      TaggedTryComplete(t, m);
    } else {
      UntaggedTryComplete(t, m);
    }
  }

  lemma {:induction false} SearchFacts(t: string, i: nat)
    ensures forall m :: IsMatch(t, m) && i <= m.open ==> Search(t, i).Some? && Search(t, i).value.open <= m.open
    decreases |t| - i
  {
    if i + 3 > |t| {
    } else if TicksAt(t, i) && MatchAt(t, i).Some? {
    } else {
      SearchFacts(t, i + 1);
      forall m | IsMatch(t, m) && i <= m.open
        ensures Search(t, i).Some? && Search(t, i).value.open <= m.open
      {
        if m.open == i {
          MatchAtComplete(t, m);
        }
      }
    }
  }

  /** `(?:json)?` is greedy: if a match with the tag exists at p, MatchAt takes the tag. */
  lemma MatchAtPrefersTag(t: string, m': FenceMatch)
    requires IsMatch(t, m') && Tagged(t, m')
    ensures MatchAt(t, m'.open).Some? && Tagged(t, MatchAt(t, m'.open).value)
  {
    TaggedTryComplete(t, m');
    MatchAtSound(t, m'.open);
  }

  /** `\s*` is greedy: no match at the same position, tagged alike, starts its interior later. */
  lemma MatchAtGreedy(t: string, m': FenceMatch)
    requires IsMatch(t, m') && MatchAt(t, m'.open).Some?
    requires Tagged(t, m') == Tagged(t, MatchAt(t, m'.open).value)
    ensures m'.start <= MatchAt(t, m'.open).value.start
  {
    var p := m'.open;
    var m := MatchAt(t, p).value;
    MatchAtSound(t, p);
    if m'.start > m.start {
      var o := if Tagged(t, m) then p + 7 else p + 3;
      var k := SpaceRun(t, o);
      assert InteriorAfterSpaces(t, o, k).Some? && InteriorAfterSpaces(t, o, k).value.0 == m.start;
      SpaceRunMaximal(t, o, m'.start);
      InteriorAfterSpacesGreedy(t, o, k, m'.start - o, m'.end);
    }
  }

  /**
   * The match re.search reports: a match of the pattern, at the leftmost position where one
   * exists, taking the `json` tag whenever a match with the tag exists there, keeping the
   * longest whitespace run that still leaves a match, and ending the interior at the earliest
   * closing ``` that leaves it one character at least. And a match is reported whenever the
   * pattern matches anywhere.
   */
  lemma {:induction false} SearchSpec(t: string)
    ensures forall m' :: IsMatch(t, m') ==> Search(t, 0).Some?
    ensures Search(t, 0).Some? ==>
      var m := Search(t, 0).value;
      && IsMatch(t, m)
      && (forall j :: m.start < j < m.end ==> !TicksAt(t, j))
      && (forall m' :: IsMatch(t, m') ==> m.open <= m'.open)
      && (forall m' :: IsMatch(t, m') && m'.open == m.open && Tagged(t, m') ==> Tagged(t, m))
      && (forall m' :: IsMatch(t, m') && m'.open == m.open && Tagged(t, m') == Tagged(t, m) ==> m'.start <= m.start)
  {
    SearchFacts(t, 0);
    if Search(t, 0).Some? {
      var m := Search(t, 0).value;
      MatchAtSound(t, m.open);
      forall m' | IsMatch(t, m') && m'.open == m.open && Tagged(t, m')
        ensures Tagged(t, m)
      {
        MatchAtPrefersTag(t, m');
      }
      forall m' | IsMatch(t, m') && m'.open == m.open && Tagged(t, m') == Tagged(t, m)
        ensures m'.start <= m.start
      {
        MatchAtGreedy(t, m');
      }
    }
  }

  /** Text without a backtick has no fenced block. */
  lemma NoBacktickNoMatch(t: string)
    requires '`' !in t
    ensures Search(t, 0).None?
  {
  }
}
