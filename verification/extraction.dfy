/**
 * extract_json_from_text: recovers the JSON value from the model's reply by trying, in
 * order, the first fenced block, the first array of objects, and the whole text.
 */
module Extraction {
  import opened Wrappers
  import opened JsonValue
  import FenceScan
  import ArrayScan

  /** json.loads as the extractor sees it: the decoded value, or None where it raises. */
  type Parser = string -> Option<Json>

  /** json.loads on s inside the extractor's try block: any failure becomes []. */
  function LoadsOrEmpty(parse: Parser, s: string): (r: Json)
    ensures parse(s).None? ==> r == EmptyList
    ensures parse(s).Some? ==> r == parse(s).value
  {
    parse(s).GetOr(EmptyList)
  }

  /**
   * extract_json_from_text. The reply is None when the model's message carries no text;
   * re.search then raises, and the except branch returns [] as for any other failure. A stage
   * whose pattern matches returns the outcome of its own json.loads: the later stages are not
   * tried, even when that json.loads fails.
   */
  function ExtractJson(reply: Option<string>, parse: Parser): (r: Json)
    ensures reply.None? ==> r == EmptyList
    ensures reply.Some? ==> r == LoadsOrEmpty(parse, Snippet(reply.value))
  {
    match reply
    case None => EmptyList
    case Some(text) =>
      match FenceScan.Search(text, 0)
      case Some(f) => LoadsOrEmpty(parse, text[f.start..f.end])
      case None =>
        match ArrayScan.Search(text, 0)
        case Some(a) => LoadsOrEmpty(parse, text[a.open..a.end])
        case None => LoadsOrEmpty(parse, text)
  }

  /** The one part of the text the extractor hands to json.loads. */
  function Snippet(text: string): (s: string)
    ensures exists i, j :: 0 <= i <= j <= |text| && s == text[i..j]
  {
    match FenceScan.Search(text, 0)
    case Some(f) => text[f.start..f.end]
    case None =>
      match ArrayScan.Search(text, 0)
      case Some(a) => text[a.open..a.end]
      case None => assert text == text[0..|text|]; text
  }

  /**
   * The cascade calls json.loads once, on the snippet, and on nothing else: two parsers that
   * agree on the snippet give the same result, which is the parse of the snippet or [].
   */
  lemma {:induction false} ExtractParsesOnlySnippet(text: string, parse: Parser, other: Parser)
    requires other(Snippet(text)) == parse(Snippet(text))
    ensures ExtractJson(Some(text), parse) == LoadsOrEmpty(parse, Snippet(text))
    ensures ExtractJson(Some(text), other) == ExtractJson(Some(text), parse)
  {
  }

  /** Without text there is nothing to parse, and the result is []. */
  lemma {:induction false} ExtractNoText(parse: Parser)
    ensures ExtractJson(None, parse) == EmptyList
  {
  }

  /**
   * Never raises, and never invents: the result is [] or the value json.loads gives for the
   * snippet; where json.loads fails on it, the result is [].
   */
  lemma {:induction false} ExtractResultIsParsedOrEmpty(reply: Option<string>, parse: Parser)
    ensures
      var r := ExtractJson(reply, parse);
      r == EmptyList || (reply.Some? && parse(Snippet(reply.value)) == Some(r))
    ensures reply.Some? && parse(Snippet(reply.value)).None? ==> ExtractJson(reply, parse) == EmptyList
  {
  }

  /**
   * Fence priority: when the text holds a fenced block anywhere, the result is the parse of
   * the interior of the block re.search reports, or [] when that parse fails; the array scan
   * and the whole text are never parsed.
   */
  lemma FencePriority(text: string, parse: Parser, m: FenceScan.FenceMatch)
    requires FenceScan.IsMatch(text, m)
    ensures FenceScan.Search(text, 0).Some?
    ensures
      var f := FenceScan.Search(text, 0).value;
      && Snippet(text) == text[f.start..f.end]
      && ExtractJson(Some(text), parse) == LoadsOrEmpty(parse, text[f.start..f.end])
  {
    FenceScan.SearchSpec(text);
  }

  /** No fall-through: a fenced block whose interior does not parse gives [], whatever the rest of the text holds. */
  lemma FenceParseFailureGivesEmpty(text: string, parse: Parser, m: FenceScan.FenceMatch)
    requires FenceScan.IsMatch(text, m)
    requires parse(Snippet(text)).None?
    ensures ExtractJson(Some(text), parse) == EmptyList
  {
    FencePriority(text, parse, m);
  }

  /**
   * Array stage: with no fenced block anywhere, but an array of objects, the result is the
   * parse of the first array re.search reports, or [] when that parse fails.
   */
  lemma ArrayStage(text: string, parse: Parser, a: ArrayScan.ArrayMatch)
    requires forall m :: !FenceScan.IsMatch(text, m)
    requires ArrayScan.IsMatch(text, a)
    ensures FenceScan.Search(text, 0).None? && ArrayScan.Search(text, 0).Some?
    ensures
      var s := ArrayScan.Search(text, 0).value;
      && Snippet(text) == text[s.open..s.end]
      && ExtractJson(Some(text), parse) == LoadsOrEmpty(parse, text[s.open..s.end])
  {
    FenceScan.SearchSpec(text);
    ArrayScan.SearchSpec(text);
  }

  /** Last resort: with neither pattern matching anywhere, the whole text is parsed. */
  lemma WholeTextStage(text: string, parse: Parser)
    requires forall m :: !FenceScan.IsMatch(text, m)
    requires forall a :: !ArrayScan.IsMatch(text, a)
    ensures Snippet(text) == text
    ensures ExtractJson(Some(text), parse) == LoadsOrEmpty(parse, text)
  {
    FenceScan.SearchSpec(text);
    ArrayScan.SearchSpec(text);
  }
}
