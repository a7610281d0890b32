/**
 Listing the models a connection offers (`fetchModels` in `AIContext`). The
 network is a parameter: `fetch` maps a URL to what requesting it yields.
 Every failure of an OpenAI-style candidate is caught and remembered, 404 or
 not, and the next candidate is tried; only after the last one fails is the
 remembered error raised.
 */
module ModelListing {
  import opened Common
  import opened Json
  import opened Endpoints

  /** What one `fetch` (and the `json()` of its body) yields. */
  datatype Attempt =
    | Thrown(message: string)         // the request or the body decoding rejected
    | Status(code: int, text: string) // a response that is not ok, with its error text
    | Body(data: Json)                // an ok response and its decoded body

  datatype FetchError =
    | NotFoundAt(url: string)         // `404 Not Found at <url>`
    | ApiError(code: int, text: string)
    | GeminiError(code: int, text: string)
    | Caught(message: string)
    | NullBody                        // reading a property of a `null` body
    | NoCandidates

  /** An attempt that ends the candidate loop with a result. */
  predicate Succeeds(a: Attempt) {
    a.Body? && a.data != JNull
  }

  /** The error remembered for a failed candidate. */
  function FailureOf(url: string, a: Attempt): (e: FetchError)
    requires !Succeeds(a)
    ensures a.Status? && a.code == 404 <==> e == NotFoundAt(url)
  {
    match a
    case Thrown(m) => Caught(m)
    case Status(code, text) => if code == 404 then NotFoundAt(url) else ApiError(code, text)
    case Body(_) => NullBody
  }

  /** The model list in an ok body: `data.data`, the body itself, or `data.list`, whichever is an array first; otherwise empty. */
  function ModelsIn(data: Json): (models: seq<Json>)
    ensures data.JArr? ==> models == data.items
    ensures data.JObj? && "data" in data.fields && data.fields["data"].JArr? ==> models == data.fields["data"].items
  {
    if data.JObj? && "data" in data.fields && data.fields["data"].JArr? then data.fields["data"].items
    else if data.JArr? then data.items
    else if data.JObj? && "list" in data.fields && data.fields["list"].JArr? then data.fields["list"].items
    else []
  }

  /**
   The candidate loop: the models of the first candidate that succeeds, or the
   error of the last candidate when none does.
   */
  method TryCandidates(candidates: seq<string>, fetch: string -> Attempt) returns (r: Result<seq<Json>, FetchError>)
    ensures r.Ok? <==> exists i :: 0 <= i < |candidates| && Succeeds(fetch(candidates[i]))
    ensures r.Ok? ==>
              exists i :: 0 <= i < |candidates| && Succeeds(fetch(candidates[i]))
                && (forall j :: 0 <= j < i ==> !Succeeds(fetch(candidates[j])))
                && r.value == ModelsIn(fetch(candidates[i]).data)
    ensures r.Err? && |candidates| > 0 ==> r.error == FailureOf(candidates[|candidates| - 1], fetch(candidates[|candidates| - 1]))
    ensures r.Err? && |candidates| == 0 ==> r.error == NoCandidates
  {
    var lastError: Option<FetchError> := None;
    var i := 0;
    while i < |candidates|
      invariant 0 <= i <= |candidates|
      invariant forall j :: 0 <= j < i ==> !Succeeds(fetch(candidates[j]))
      invariant i == 0 ==> lastError.None?
      invariant i > 0 ==> lastError == Some(FailureOf(candidates[i - 1], fetch(candidates[i - 1])))
    {
      var a := fetch(candidates[i]);
      if Succeeds(a) {
        return Ok(ModelsIn(a.data));
      }
      lastError := Some(FailureOf(candidates[i], a));
      i := i + 1;
    }
    return Err(lastError.GetOr(NoCandidates));
  }

  /** `name.replace('models/', '')`: the first occurrence removed. */
  function DropModelsPrefix(name: string): (id: string)
    ensures !Includes(name, "models/") ==> id == name
    ensures |id| <= |name|
  {
    match IndexOf(name, "models/", 0)
    case None => name
    case Some(k) => name[..k] + name[k + 7..]
  }

  /** Gemini's `models/<id>` names give back the id. */
  lemma DropModelsPrefixOfName(id: string)
    ensures DropModelsPrefix("models/" + id) == id
  {
    var name := "models/" + id;
    assert MatchesAt(name, "models/", 0);
    assert name[7..] == id;
  }

  /** The Gemini model entries `{ id }`, or `None` when an entry has no string `name` (the `replace` call throws). */
  function GeminiIds(models: seq<Json>): (r: Option<seq<Json>>)
    ensures r.Some? ==> |r.value| == |models|
    ensures r.Some? <==> forall k :: 0 <= k < |models| ==> models[k].JObj? && "name" in models[k].fields && models[k].fields["name"].JStr?
    ensures r.Some? ==> forall k :: 0 <= k < |models| ==>
              r.value[k] == JObj(map["id" := JStr(DropModelsPrefix(models[k].fields["name"].s))])
  {
    if forall k :: 0 <= k < |models| ==> models[k].JObj? && "name" in models[k].fields && models[k].fields["name"].JStr? then
      Some(seq(|models|, k requires 0 <= k < |models| && models[k].JObj? && "name" in models[k].fields && models[k].fields["name"].JStr? =>
        JObj(map["id" := JStr(DropModelsPrefix(models[k].fields["name"].s))])))
    else None
  }

  /** The Gemini list from one request: its error, nothing when the body has no models, or the renamed entries. */
  function GeminiModels(a: Attempt): (r: Result<seq<Json>, FetchError>)
    ensures a.Status? ==> r == Err(GeminiError(a.code, a.text))
    ensures a.Thrown? ==> r == Err(Caught(a.message))
    ensures a.Body? && a.data.JNull? ==> r == Err(NullBody)
    ensures a.Body? && !a.data.JNull? && !(a.data.JObj? && TruthyAt(a.data.fields, "models")) ==> r == Ok([])
    ensures a.Body? && a.data.JObj? && TruthyAt(a.data.fields, "models") ==>
      var models := a.data.fields["models"];
      if models.JArr? && GeminiIds(models.items).Some? then r == Ok(GeminiIds(models.items).value)
      else r == Err(Caught("TypeError"))
  {
    match a
    case Thrown(m) => Err(Caught(m))
    case Status(code, text) => Err(GeminiError(code, text))
    case Body(data) =>
      if data.JNull? then Err(NullBody)
      else if data.JObj? && TruthyAt(data.fields, "models") then
        var models := data.fields["models"];
        if models.JArr? then
          match GeminiIds(models.items)
          case Some(ids) => Ok(ids)
          case None => Err(Caught("TypeError"))
        else Err(Caught("TypeError"))
      else Ok([])
  }

  /** `fetchModels`: one Gemini request, or the OpenAI-style candidates in order. */
  method FetchModels(provider: string, baseUrl: string, apiKey: string, origin: Option<string>, fetch: string -> Attempt)
    returns (r: Result<seq<Json>, FetchError>)
    ensures UsesGemini(provider, baseUrl) ==> r == GeminiModels(fetch(GeminiModelsUrl(baseUrl, origin, apiKey)))
    ensures !UsesGemini(provider, baseUrl) && r.Ok? ==>
              (Succeeds(fetch(ModelCandidates(baseUrl)[0])) && r.value == ModelsIn(fetch(ModelCandidates(baseUrl)[0]).data))
              || (!Succeeds(fetch(ModelCandidates(baseUrl)[0])) && Succeeds(fetch(ModelCandidates(baseUrl)[1]))
                  && r.value == ModelsIn(fetch(ModelCandidates(baseUrl)[1]).data))
    ensures !UsesGemini(provider, baseUrl) && r.Err? ==>
              !Succeeds(fetch(ModelCandidates(baseUrl)[0])) && !Succeeds(fetch(ModelCandidates(baseUrl)[1]))
              && r.error == FailureOf(ModelCandidates(baseUrl)[1], fetch(ModelCandidates(baseUrl)[1]))
  {
    if UsesGemini(provider, baseUrl) {
      return GeminiModels(fetch(GeminiModelsUrl(baseUrl, origin, apiKey)));
    }
    var candidates := ModelCandidates(baseUrl);
    r := TryCandidates(candidates, fetch);
    if r.Ok? {
      var i :| 0 <= i < |candidates| && Succeeds(fetch(candidates[i]))
        && (forall j :: 0 <= j < i ==> !Succeeds(fetch(candidates[j])))
        && r.value == ModelsIn(fetch(candidates[i]).data);
      assert i == 0 || i == 1;
    }
  }
}
