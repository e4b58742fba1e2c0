/**
 * abap_declarations_api: checks the code, asks the model for the declarations, strips the
 * internal `type` member from each declaration, and wraps the list with the echoed names.
 */
module Endpoint {
  import opened Wrappers
  import opened JsonValue
  import Text
  import Prompt
  import Extraction

  /** The request body: the code to analyse and three names passed through untouched. */
  datatype Request = Request(code: string, pgmName: string, incName: string, typeField: string)

  /** The response body: the three names echoed and the sanitised declarations. */
  datatype ResponseBody = ResponseBody(pgmName: string, incName: string, typeField: string, selectionScreen: Json)

  /**
   * What the caller gets: 400 with a message for blank code, 500 when the sanitising loop
   * raises on a value that is not a list of objects, and otherwise the response body.
   */
  datatype Outcome =
    | ClientError(status: int, detail: string)
    | ServerError
    | Success(body: ResponseBody)

  const MissingCode: Outcome := ClientError(400, "Missing or empty 'code' field.")

  /** The key the model adds to each declaration and the endpoint removes. */
  const TypeKey: string := "type"

  /** `not code.strip()`: the code is empty or whitespace only. */
  predicate IsBlank(code: string)
    ensures IsBlank(code) <==> Text.AllSpaces(code)
  {
    Text.StripEmptyIffAllSpaces(code);
    Text.Strip(code) == []
  }

  /** `decl.pop("type", None)` on one declaration that is a dict. */
  function PopType(decl: Json): Json
    requires decl.Obj?
  {
    Obj(Pop(decl.fields, TypeKey))
  }

  /** The position of the first element that is not a dict, or the length when all are. */
  function FirstNonObject(items: seq<Json>): (k: nat)
    ensures k <= |items|
    ensures forall i :: 0 <= i < k ==> items[i].Obj?
    ensures k < |items| ==> !items[k].Obj?
    decreases |items|
  {
    if items == [] || !items[0].Obj? then 0 else 1 + FirstNonObject(items[1..])
  }

  /** The list after the loop has popped `type` from its first n elements. */
  function PoppedUpTo(items: seq<Json>, n: nat): (r: seq<Json>)
    requires n <= FirstNonObject(items)
  {
    seq(|items|, i requires 0 <= i < |items| => if i < n then PopType(items[i]) else items[i])
  }

  /** One more turn of the loop pops `type` from element n and changes nothing else. */
  lemma PoppedUpToStep(items: seq<Json>, n: nat)
    requires n < FirstNonObject(items)
    ensures PoppedUpTo(items, n + 1) == PoppedUpTo(items, n)[n := PopType(items[n])]
  {
  }

  /**
   * The sanitising loop, `for decl in declarations: decl.pop("type", None)`, over the list in
   * place. A dict loses its `type` member; the first element that is not a dict makes the loop
   * raise (`ok` is false), leaving the dicts before it popped and the rest untouched.
   */
  method StripTypes(decls: array<Json>) returns (ok: bool)
    modifies decls
    ensures ok <==> FirstNonObject(old(decls[..])) == decls.Length
    ensures decls[..] == PoppedUpTo(old(decls[..]), FirstNonObject(old(decls[..])))
  {
    ghost var items := decls[..];
    var i := 0;
    while i < decls.Length
      invariant i <= FirstNonObject(items)
      invariant decls[..] == PoppedUpTo(items, i)
    {
      if !decls[i].Obj? {
        return false;
      }
      PoppedUpToStep(items, i);
      decls[i] := PopType(decls[i]);
      i := i + 1;
    }
    return true;
  }

  /**
   * What the loop leaves of the extracted value, or None where it raises. Iterating a list
   * visits its elements; iterating a dict visits its keys and a string its characters, neither
   * of which has a pop method, so only an empty dict or string gets through unchanged; any
   * other value is not iterable.
   */
  function Sanitised(extracted: Json): (r: Option<Json>)
    ensures r.Some? <==>
      || (extracted.Arr? && forall i :: 0 <= i < |extracted.items| ==> extracted.items[i].Obj?)
      || extracted == Obj([])
      || extracted == Str([])
    ensures r.Some? && extracted.Arr? ==>
      && r.value.Arr? && |r.value.items| == |extracted.items|
      && forall i :: 0 <= i < |extracted.items| ==> r.value.items[i] == PopType(extracted.items[i])
    ensures r.Some? && !extracted.Arr? ==> r.value == extracted
  {
    match extracted
    case Arr(items) =>
      if FirstNonObject(items) == |items| then Some(Arr(PoppedUpTo(items, |items|))) else None
    case Obj(fields) => if fields == [] then Some(extracted) else None
    case Str(s) => if s == [] then Some(extracted) else None
    case _ => None
  }

  /**
   * The loop run on what extraction returned: a list is copied into an array and stripped in
   * place; an empty dict or string passes through; anything else makes the loop raise.
   */
  method Sanitise(declarations: Json) returns (r: Option<Json>)
    ensures r == Sanitised(declarations)
  {
    match declarations {
      case Arr(items) =>
        var decls := new Json[|items|](i requires 0 <= i < |items| => items[i]);
        assert decls[..] == items;
        var ok := StripTypes(decls);
        r := if ok then Some(Arr(decls[..])) else None;
      case Obj(fields) =>
        r := if fields == [] then Some(declarations) else None;
      case Str(s) =>
        r := if s == [] then Some(declarations) else None;
      case _ =>
        r := None;
    }
  }

  /** The whole endpoint for a given model and json.loads: what the caller gets back. */
  function Respond(req: Request, complete: string -> Option<string>, parse: Extraction.Parser): (r: Outcome)
    ensures r == MissingCode <==> Text.AllSpaces(req.code)
    ensures r.Success? ==> r.body.pgmName == req.pgmName && r.body.incName == req.incName && r.body.typeField == req.typeField
    ensures r.Success? || r == MissingCode || r == ServerError
  {
    if IsBlank(req.code) then MissingCode
    else
      match Sanitised(Extraction.ExtractJson(complete(Prompt.BuildPrompt(req.code)), parse))
      case None => ServerError
      case Some(list) => Success(ResponseBody(req.pgmName, req.incName, req.typeField, list))
  }

  /**
   * The endpoint. `complete` is the chat-completion call: the model's reply text for a
   * prompt, None when the reply carries no text. `prompted` is the prompt sent to the
   * model, None when the request is refused before any call.
   */
  method HandleRequest(req: Request, complete: string -> Option<string>, parse: Extraction.Parser)
    returns (out: Outcome, prompted: Option<string>)
    ensures out == Respond(req, complete, parse)
    ensures IsBlank(req.code) <==> out == MissingCode
    ensures IsBlank(req.code) <==> prompted.None?
    ensures prompted.Some? ==> prompted.value == Prompt.BuildPrompt(req.code)
    ensures out.Success? ==> out.body.pgmName == req.pgmName && out.body.incName == req.incName && out.body.typeField == req.typeField
  {
    if IsBlank(req.code) {
      return MissingCode, None;
    }
    var prompt := Prompt.BuildPrompt(req.code);
    prompted := Some(prompt);
    var declarations := Extraction.ExtractJson(complete(prompt), parse);
    var sanitised := Sanitise(declarations);
    match sanitised {
      case None => out := ServerError;
      case Some(list) => out := Success(ResponseBody(req.pgmName, req.incName, req.typeField, list));
    }
  }

  // ---------------------------------------------------------------------------------------
  // What sanitising promises

  /**
   * A list of dicts is sanitised element by element: same length and order, no `type` key
   * left in any record, every other key keeping its value, and a record that had no `type`
   * coming back unchanged.
   */
  lemma {:induction false} SanitisedList(items: seq<Json>)
    requires forall i :: 0 <= i < |items| ==> items[i].Obj?
    ensures Sanitised(Arr(items)).Some?
    ensures
      var r := Sanitised(Arr(items)).value;
      && r.Arr? && |r.items| == |items|
      && forall i :: 0 <= i < |items| ==>
        && r.items[i].Obj?
        && !HasKey(r.items[i].fields, TypeKey)
        && (forall k :: k != TypeKey ==> Lookup(r.items[i].fields, k) == Lookup(items[i].fields, k))
        && (!HasKey(items[i].fields, TypeKey) ==> r.items[i] == items[i])
  {
  }

  /** On real dicts (distinct keys) a record holding `type` at position j loses exactly that member, the others keeping their order. */
  lemma SanitisedRecordOrder(items: seq<Json>, i: nat, j: nat)
    requires forall n :: 0 <= n < |items| ==> items[n].Obj?
    requires i < |items| && UniqueKeys(items[i].fields)
    requires j < |items[i].fields| && items[i].fields[j].0 == TypeKey
    ensures Sanitised(Arr(items)).Some?
    ensures Sanitised(Arr(items)).value.items[i].fields == items[i].fields[..j] + items[i].fields[j + 1..]
  {
    SanitisedList(items);
    PopRemovesOneEntry(items[i].fields, TypeKey, j);
  }

  /** Sanitising is idempotent: a sanitised list of records goes through again unchanged. */
  lemma SanitisedIdempotent(extracted: Json)
    requires Sanitised(extracted).Some?
    ensures Sanitised(Sanitised(extracted).value) == Sanitised(extracted)
  {
    if extracted.Arr? {
      var items := extracted.items;
      assert FirstNonObject(items) == |items|;
      var once := PoppedUpTo(items, |items|);
      forall i | 0 <= i < |once| ensures once[i].Obj? && PopType(once[i]) == once[i] {
        assert once[i] == PopType(items[i]);
      }
      assert PoppedUpTo(once, |once|) == once;
    }
  }

  /** A value the loop cannot iterate through, such as a list holding a non-dict or a non-empty dict, fails the request with 500. */
  lemma NonListFailsRequest(req: Request, complete: string -> Option<string>, parse: Extraction.Parser)
    requires !IsBlank(req.code)
    requires Sanitised(Extraction.ExtractJson(complete(Prompt.BuildPrompt(req.code)), parse)).None?
    ensures Respond(req, complete, parse) == ServerError
  {
  }

  /**
   * Response assembly: past the code check, the request succeeds exactly when the loop goes
   * through the extracted value, and the body then echoes the three names around the
   * sanitised declarations.
   */
  lemma SuccessCarriesSanitised(req: Request, complete: string -> Option<string>, parse: Extraction.Parser)
    requires !IsBlank(req.code)
    ensures
      var s := Sanitised(Extraction.ExtractJson(complete(Prompt.BuildPrompt(req.code)), parse));
      && (Respond(req, complete, parse).Success? <==> s.Some?)
      && (s.Some? ==> Respond(req, complete, parse).body == ResponseBody(req.pgmName, req.incName, req.typeField, s.value))
  {
    var s := Sanitised(Extraction.ExtractJson(complete(Prompt.BuildPrompt(req.code)), parse));
    if s.Some? {
      assert Respond(req, complete, parse) == Success(ResponseBody(req.pgmName, req.incName, req.typeField, s.value));
    } else {
      assert Respond(req, complete, parse) == ServerError;
    }
  }

  /** Blank code is refused with 400 whatever the model or json.loads would do: neither extraction nor sanitising matters. */
  lemma BlankCodeRefused(req: Request, complete: string -> Option<string>, parse: Extraction.Parser,
                         complete': string -> Option<string>, parse': Extraction.Parser)
    requires Text.AllSpaces(req.code)
    ensures Respond(req, complete, parse) == Respond(req, complete', parse') == MissingCode
  {
    Text.StripEmptyIffAllSpaces(req.code);
  }

  /** Code with any non-whitespace character gets past the check and is sent to the model. */
  lemma NonBlankCodeProceeds(req: Request, complete: string -> Option<string>, parse: Extraction.Parser)
    requires !Text.AllSpaces(req.code)
    ensures Respond(req, complete, parse) != MissingCode
  {
    Text.StripEmptyIffAllSpaces(req.code);
  }
}
