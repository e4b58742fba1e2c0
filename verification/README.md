# ABAP selection-screen declaration extractor, modelled in Dafny

The service takes ABAP source code and sends it to a language model with a fixed instruction text. It expects back a JSON array of the program's `SELECT-OPTIONS` and `PARAMETERS` declarations. It then:

- recovers the JSON from the reply by three tries: a fenced block, the first array of objects, then the whole reply;
- removes the `type` member the model puts in each declaration;
- returns the list together with three names echoed from the request.

This project models the core of `app/app.py`:

- the blank-code check of the `POST /abap/selectionscreen` handler;
- the prompt builder `abap_lm_prompt`;
- the extractor `extract_json_from_text`, including both regular expressions it searches with;
- the loop that strips `type` from every declaration;
- the assembly of the response body.

Modules:

- `Text`: Python's `str.isspace` character set, used for `\s` and for `str.strip`.
- `JsonValue`: the values `json.loads` returns.
  - Objects are member sequences in insertion order, as Python dicts keep them.
  - `Pop` is `dict.pop(k, None)`.
- `Prompt`: the instruction text and `abap_lm_prompt`.
- `FenceScan`: `re.search(r"```(?:json)?\s*([\s\S]+?)```", text)`, written as the backtracking scan Python's engine performs.
  - The leftmost start wins.
  - The optional `json` tag is tried before it is skipped.
  - `\s*` is greedy but gives characters back.
  - The lazy interior stops at the first closing fence that leaves it non-empty.
  - `IsMatch` states the pattern's language with no preference at all. The lemmas relate the scan to it.
- `ArrayScan`: `re.search(r"(\[\s*{[\s\S]+?}\s*])", text)`, built the same way.
- `Extraction`: the three-stage cascade. `json.loads` is the parameter `parse`, which gives `None` where `json.loads` raises.
- `Endpoint`: the handler.
  - The model call is the parameter `complete`.
  - `StripTypes` is the sanitising loop over an array, updated in place.
  - `Respond` is the specification of the whole request; `HandleRequest` is proved equal to it.
- `ExtractionExamples`: the extractor on concrete replies.

The model follows the code in two places where a plain reading of the service's intent would differ:

- The extractor does not fall through. Once a pattern matches, a `json.loads` failure on its snippet gives `[]`, and the later stages are not tried (`Extraction.FenceParseFailureGivesEmpty`).
- The endpoint does not check the shape of the extracted value. An empty dict or an empty string iterates zero times and is returned as `selectionscreen`. Any other value that is not a list of dicts makes the loop raise, and the request fails with status 500.

## Model

| member | source | states |
|---|---|---|
| Text.StripStart | app/app.py:104 | `lstrip` drops a whitespace prefix and leaves a suffix that is empty or starts with non-whitespace |
| Text.StripEnd | app/app.py:104 | `rstrip` drops a whitespace suffix and leaves a prefix that is empty or ends with non-whitespace |
| Text.Strip | app/app.py:104 | `code.strip()` is a slice of the code that is empty or starts and ends with non-whitespace, with only whitespace before and after it |
| Text.StripEmptyIffAllSpaces | app/app.py:104 | `code.strip()` is empty exactly when every character of the code is whitespace in Python's sense |
| Endpoint.IsBlank | app/app.py:104 | `not code.strip()` holds exactly when every character of the code is whitespace |
| Endpoint.BlankCodeRefused | app/app.py:104-105 | whitespace-only code is refused with 400 and the fixed detail message, whatever the model and `json.loads` would do |
| Endpoint.NonBlankCodeProceeds | app/app.py:104-107 | code with any non-whitespace character is never refused with the 400 message |
| Prompt.BuildPrompt | app/app.py:38-46 | the prompt is the fixed instruction text followed by the code verbatim, and its length is the sum of the two |
| Prompt.CodeOfBuildPrompt | app/app.py:38-46 | the code is read back unchanged from its prompt |
| Prompt.BuildPromptInjective | app/app.py:38-46 | two snippets give the same prompt exactly when they are equal, and all prompts share the instruction prefix |
| Extraction.LoadsOrEmpty | app/app.py:55-67 | a `json.loads` call inside the try block gives its value, or `[]` when it raises |
| FenceScan.NextTicks | app/app.py:52 | finds the first three backticks at or after an index, with none before it |
| FenceScan.InteriorAfterSpaces | app/app.py:52 | the interior starts within the whitespace run, is non-empty, ends at a closing fence, and holds no fence strictly inside |
| FenceScan.TaggedTry | app/app.py:52 | the branch of `(?:json)?` that takes the tag: `json` follows the backticks, whitespace only up to a non-empty interior, closed by a fence |
| FenceScan.UntaggedTry | app/app.py:52 | the branch of `(?:json)?` that skips the tag: whitespace only after the backticks up to a non-empty interior, closed by a fence |
| FenceScan.MatchAt | app/app.py:52 | a match anchored at the opening fence: interior non-empty, closed by the first fence after its first character |
| FenceScan.Search | app/app.py:52-53 | the reported match starts at or after the search index on a fence and is the anchored match there |
| FenceScan.InteriorAfterSpacesComplete | app/app.py:52 | if any closing fence follows a whitespace-run prefix, the give-back scan finds an interior |
| FenceScan.InteriorAfterSpacesGreedy | app/app.py:52 | the give-back scan keeps the longest whitespace prefix that still has a closing fence after it |
| FenceScan.MatchAtSound | app/app.py:52 | what the anchored scan finds is a match of the pattern, tagged exactly when the `json` try succeeded |
| FenceScan.MatchAtComplete | app/app.py:52 | wherever the pattern can match at a fence, the anchored scan finds a match |
| FenceScan.SearchFacts | app/app.py:52-53 | from any index, a match is reported whenever one exists later, and it starts no later than any of them |
| FenceScan.MatchAtPrefersTag | app/app.py:52 | `(?:json)?` is greedy: if a tagged match exists at the start, the reported one is tagged |
| FenceScan.MatchAtGreedy | app/app.py:52 | `\s*` is greedy: no match at the same start and with the same tagging begins its interior later |
| FenceScan.SearchSpec | app/app.py:52-54 | `re.search` reports a match whenever one exists: the leftmost, tag-preferring one, with the longest leading whitespace and the shortest interior |
| ArrayScan.SpacesThen | app/app.py:57 | `\s*` followed by a character gives the index of that character within the whitespace allowance |
| ArrayScan.CloseAt | app/app.py:57 | `}\s*]` at an index ends the match at least two characters later, within the text |
| ArrayScan.CloseAtIff | app/app.py:57 | `}\s*]` succeeds at an index exactly when `}`, whitespace and `]` follow, and the end is the only one possible |
| ArrayScan.LazyBody | app/app.py:57 | the lazy body stops at the first `}\s*]` at or after its minimum length |
| ArrayScan.LazyBodyReaches | app/app.py:57 | any later `}\s*]` makes the lazy body succeed no later than it |
| ArrayScan.BraceAfterSpaces | app/app.py:57 | the brace lies within the whitespace allowance after `[`, and the match ends within the text |
| ArrayScan.BraceAfterSpacesAtRunEnd | app/app.py:57 | only the brace at the end of the whitespace run after `[` can lead to a match |
| ArrayScan.MatchAtSound | app/app.py:57 | what the anchored scan finds is a match of the pattern |
| ArrayScan.MatchAtComplete | app/app.py:57 | wherever the pattern can match at a bracket, the anchored scan finds a match whose body is no longer |
| ArrayScan.MatchAt | app/app.py:57 | the pattern anchored at an index: a match found there starts at that index and ends within the text |
| ArrayScan.Search | app/app.py:57-58 | the reported match starts at or after the search index, ends within the text and is the anchored match there |
| ArrayScan.SearchFacts | app/app.py:57-58 | from any index, a match is reported whenever one exists later, and it starts no later than any of them |
| ArrayScan.SearchSound | app/app.py:57-58 | the reported match is a match, with its brace and its end fixed by the whitespace runs |
| ArrayScan.SearchLeftmostShortest | app/app.py:57-58 | no match starts earlier than the reported one, and none from the same bracket closes earlier |
| ArrayScan.SearchSpec | app/app.py:57-59 | `re.search` reports a match whenever one exists: the leftmost, with the shortest body, whitespace fixed by the runs |
| FenceScan.NoBacktickNoMatch | app/app.py:52-53 | text without a backtick gives no fenced match |
| ArrayScan.NoBracketNoMatch | app/app.py:57-58 | text without `[` gives no match |
| Extraction.ExtractJson | app/app.py:49-67 | `extract_json_from_text`: `[]` for a reply without text, otherwise the parse of the one snippet the cascade selects, or `[]` when that parse fails |
| Extraction.Snippet | app/app.py:52-62 | what is handed to `json.loads` is always a contiguous slice of the reply |
| Extraction.ExtractParsesOnlySnippet | app/app.py:49-67 | `json.loads` runs once, on the snippet only, and two parsers that agree there give the same result |
| Extraction.ExtractNoText | app/app.py:49-67 | a reply without text makes `re.search` raise, and the result is `[]` |
| Extraction.ExtractResultIsParsedOrEmpty | app/app.py:49-67 | the result is `[]` or the parse of the snippet, and it is `[]` whenever that parse fails |
| Extraction.FencePriority | app/app.py:52-55 | with a fenced block anywhere, the parse of the reported interior is the result, and no other stage runs |
| Extraction.FenceParseFailureGivesEmpty | app/app.py:52-67 | no fall-through: a fenced interior that does not parse gives `[]` |
| Extraction.ArrayStage | app/app.py:57-60 | with no fence but an array of objects, the parse of the first reported array is the result |
| Extraction.WholeTextStage | app/app.py:62 | with neither pattern matching anywhere, the whole reply is parsed |
| ExtractionExamples.FencedReplyExample | app/app.py:52-54 | the `json` tag and the newline after it are skipped, and the newline before the closing fence stays |
| ExtractionExamples.WhitespaceGivenBackExample | app/app.py:52-54 | `\s*` gives back its space so that the interior is non-empty |
| ExtractionExamples.ProseArrayFound | app/app.py:57-58 | in a prose reply, the bracket at 4 opens the leftmost array of objects |
| ExtractionExamples.ArrayInProseMatch | app/app.py:57-58 | the array scan on the prose reply reports the exact bracket, brace, close and end |
| ExtractionExamples.ArrayInProseExample | app/app.py:57-59 | the array is cut out of the surrounding prose |
| ExtractionExamples.PlainSentenceExample | app/app.py:62 | a reply with neither pattern is handed to `json.loads` whole |
| JsonValue.Lookup | app/app.py:111 | a key has a value exactly when the dict holds it |
| JsonValue.Pop | app/app.py:111 | `pop("type", None)` leaves no `type`, keeps every other key's value, invents no member, leaves a dict without the key unchanged and keeps keys distinct |
| JsonValue.PopIdempotent | app/app.py:111 | popping `type` a second time changes nothing |
| JsonValue.PopRemovesOneEntry | app/app.py:111 | on a real dict, popping a key held at position i removes exactly that member, and the rest keep their order |
| Endpoint.FirstNonObject | app/app.py:110-111 | the position where the loop raises: every element before it is a dict, and the element there is not |
| Endpoint.SanitisedList | app/app.py:110-111 | a list of dicts comes through element by element: same length and order, no `type` left, every other key's value kept, and a declaration without `type` unchanged |
| Endpoint.Sanitised | app/app.py:110-111 | the loop goes through exactly a list of dicts, an empty dict or an empty string; a list comes back element by element with `type` popped, same length, and anything else unchanged |
| Endpoint.StripTypes | app/app.py:110-111 | the loop succeeds exactly when every element is a dict; the array ends with `type` popped from every dict before the first non-dict, and the rest untouched |
| Endpoint.Sanitise | app/app.py:110-111 | the loop run on the extracted value gives what `Sanitised` says, for lists, dicts, strings and scalars |
| Endpoint.SanitisedRecordOrder | app/app.py:110-111 | a declaration holding `type` loses exactly that member, and its other members keep their order |
| Endpoint.SanitisedIdempotent | app/app.py:110-111 | sanitising a sanitised value changes nothing |
| Endpoint.NonListFailsRequest | app/app.py:110-111 | a value the loop cannot go through fails the request |
| Endpoint.Respond | app/app.py:97-119 | the whole request up to the response body: 400 exactly for whitespace-only code, the three names echoed on success, and otherwise a 500 error |
| Endpoint.SuccessCarriesSanitised | app/app.py:107-119 | past the code check, the response body is assembled exactly when the loop goes through, and it holds the three echoed names and the sanitised list; rendering it is outside the model |
| Endpoint.HandleRequest | app/app.py:97-119 | blank code gets 400 before any model call; otherwise the built prompt is sent, and the outcome is the assembled body echoing the three names around the sanitised list, or a 500 error when the loop raises |

## Left out

- Reading `.env` and setting the tracing and API-key environment variables (lines 9-18) are not modelled: they are process configuration.
- The OpenAI client, the thread pool and the `async` plumbing (lines 20-21, 70-93) are not modelled. The model's reply is the parameter `complete`, which gives `None` when the message has no text.
  - Network failures and rate limits raised by the client are not modelled.
  - Model name, token limit and temperature are not modelled.
- The FastAPI and pydantic layer is not modelled: routing, JSON body validation (422), and serialising the response with `JSONResponse` (line 122).
- Endpoint.HandleRequest / Endpoint.SuccessCarriesSanitised: `Success` over-approximates the program's answer. `JSONResponse` renders the body with `allow_nan=False`, while `json.loads` accepts `NaN`, `Infinity` and `-Infinity`. So a body holding a non-finite number is a 500 in the program, yet `Success` here, because the model does not render the body.
  - Under pydantic, `code` is always a string, so the `isinstance` test of line 104 always holds and only the blank test is modelled.
- The diagnostic prints (lines 14, 64-66, 88-90) are not modelled: they are console output.
- How `json.loads` decodes text is not modelled. It is the parameter `parse`, and numbers keep their literal text.
- Strings are sequences of Unicode scalar values. A Python `str` may also hold a lone surrogate (U+D800 to U+DFFF), for example after `json.loads` decodes a `"\ud800"` escape, and the model cannot represent one. A surrogate is not whitespace and is none of the pattern characters, so the scanners and the blank check would treat it like any other ordinary character.
- The model has no serializer, so it cannot state idempotence after the response is re-serialised and re-parsed. `Endpoint.SanitisedIdempotent` states it on the decoded values instead.
- JsonValue.Pop: on member sequences with repeated keys it removes every member with the key. A Python dict never holds such a sequence; on distinct keys `JsonValue.PopRemovesOneEntry` shows it removes exactly the one member, as `dict.pop` does.
- Aliasing between declarations is not modelled: the same dict object appearing twice in the list cannot come out of `json.loads`.
