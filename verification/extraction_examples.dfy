/** The extractor on a few replies of the kinds the model gives. */
module ExtractionExamples {
  import opened Wrappers
  import FenceScan
  import ArrayScan
  import Extraction
  import Text

  /** The fence scan on the reply below: the tag is taken, one newline is skipped, and the interior runs from 8 to the fence at 11. */
  lemma FencedReplyMatch(t: string)
    requires t == "```json\n[]\n```"
    ensures FenceScan.Search(t, 0) == Some(FenceScan.FenceMatch(0, 8, 11))
  {
    assert FenceScan.TicksAt(t, 0);
    assert FenceScan.TaggedTry(t, 0) == Some((8, 11)) by {
      assert FenceScan.TagAt(t, 3);
      assert Text.SpaceRun(t, 7) == 1;
      assert FenceScan.NextTicks(t, 9) == Some(11) by {
        assert !FenceScan.TicksAt(t, 9) && !FenceScan.TicksAt(t, 10) && FenceScan.TicksAt(t, 11);
      }
    }
  }

  /** A `json` fence: the tag and the newline after it are skipped; the newline before the closing fence stays in the interior. */
  lemma FencedReplyExample()
    ensures Extraction.Snippet("```json\n[]\n```") == "[]\n"
  {
    var t := "```json\n[]\n```";
    FencedReplyMatch(t);
    assert Extraction.Snippet(t) == t[8..11];
  }

  /** `\s*` gives back its last space when that is the only way to leave the interior a character. */
  lemma WhitespaceGivenBackExample()
    ensures Extraction.Snippet("``` ```") == " "
  {
    var t := "``` ```";
    assert FenceScan.TicksAt(t, 0) && !FenceScan.TagAt(t, 3);
    assert Text.SpaceRun(t, 3) == 1;
    assert FenceScan.NextTicks(t, 5) == None;
    assert FenceScan.NextTicks(t, 4) == Some(4);
  }

  /** The prose reply below: the bracket at 4 opens the only array of objects. */
  lemma ProseArrayFound(t: string)
    requires t == "See [{\"a\":1}] now"
    ensures ArrayScan.Search(t, 0).Some?
    ensures ArrayScan.IsMatch(t, ArrayScan.Search(t, 0).value)
    ensures ArrayScan.Search(t, 0).value.open == 4 && ArrayScan.Search(t, 0).value.close <= 11
  {
    var m := ArrayScan.ArrayMatch(4, 5, 11, 13);
    assert ArrayScan.IsMatch(t, m) by {
      assert t[4] == '[' && t[5] == '{' && t[11] == '}' && t[12] == ']';
    }
    ArrayScan.SearchLeftmostShortest(t, m);
    ArrayScan.SearchSound(t);
    assert t[0] != '[' && t[1] != '[' && t[2] != '[' && t[3] != '[';
  }

  /** The array scan on the prose reply below finds `[` at 4, `{` at 5, `}` at 11 and `]` at 12. */
  lemma ArrayInProseMatch(t: string)
    requires t == "See [{\"a\":1}] now"
    ensures ArrayScan.Search(t, 0) == Some(ArrayScan.ArrayMatch(4, 5, 11, 13))
  {
    ProseArrayFound(t);
    var s := ArrayScan.Search(t, 0).value;
    assert s.brace == 5 by {
      assert t[5] == '{';
    }
    assert s.close == 11 by {
      assert t[7] != '}' && t[8] != '}' && t[9] != '}' && t[10] != '}';
    }
    assert s.end == 13 by {
      ArrayScan.EndIsRunEnd(t, s);
      assert Text.SpaceRun(t, 12) == 0;
    }
  }

  /** The prose reply below holds no backtick, so no fence. */
  lemma ProseHasNoFence(t: string)
    requires t == "See [{\"a\":1}] now"
    ensures FenceScan.Search(t, 0).None?
  {
    FenceScan.NoBacktickNoMatch(t);
  }

  /** The array the scan cuts out of the prose reply. */
  lemma ProseSlice(t: string)
    requires t == "See [{\"a\":1}] now"
    ensures t[4..13] == "[{\"a\":1}]"
  {
  }

  /** Without a fence, the first array of objects is cut out of the surrounding prose. */
  lemma ArrayInProseExample()
    ensures Extraction.Snippet("See [{\"a\":1}] now") == "[{\"a\":1}]"
  {
    var t := "See [{\"a\":1}] now";
    ProseHasNoFence(t);
    ArrayInProseMatch(t);
    assert Extraction.Snippet(t) == t[4..13];
    ProseSlice(t);
  }

  /** With neither pattern present, the whole reply is handed to json.loads. */
  lemma PlainSentenceExample()
    ensures Extraction.Snippet("No declarations.") == "No declarations."
  {
    var t := "No declarations.";
    FenceScan.NoBacktickNoMatch(t);
    ArrayScan.NoBracketNoMatch(t);
  }
}
