/**
 Where the AI requests go (`fetchModels` and `callAI` in `AIContext`): base
 URL normalisation, the Gemini switch, the model-list candidates and the chat
 endpoint. `new URL(baseUrl).origin` is outside this model: callers pass the
 origin it yields, or `None` when the URL does not parse.
 */
module Endpoints {
  import opened Common

  const GeminiHost: string := "generativelanguage.googleapis.com"
  const DefaultModel: string := "gpt-3.5-turbo"
  const MissingKeyMessage: string := "API Key is missing. Please check your settings."

  /** `s.replace(/\/$/, '')`: one trailing slash removed. */
  function StripSlash(s: string): (r: string)
    ensures EndsWith(s, "/") ==> r + "/" == s
    ensures !EndsWith(s, "/") ==> r == s
  {
    if EndsWith(s, "/") then s[..|s| - 1] else s
  }

  /** A trailing `/v1` removed, as both request paths do before appending their own. */
  function StripV1(s: string): (r: string)
    ensures EndsWith(s, "/v1") ==> r + "/v1" == s
    ensures !EndsWith(s, "/v1") ==> r == s
  {
    if EndsWith(s, "/v1") then s[..|s| - 3] else s
  }

  /** The Gemini protocol is used when the provider says so or the URL names Google's host, slash or not. */
  function UsesGemini(provider: string, baseUrl: string): (b: bool)
    ensures b <==> provider == "google" || Includes(baseUrl, GeminiHost)
  {
    GeminiHostSurvivesStrip(baseUrl);
    provider == "google" || Includes(StripSlash(baseUrl), GeminiHost)
  }

  /** Removing a trailing slash never hides or reveals the Gemini host. */
  lemma GeminiHostSurvivesStrip(s: string)
    ensures Includes(StripSlash(s), GeminiHost) <==> Includes(s, GeminiHost)
  {
    var r := StripSlash(s);
    if EndsWith(s, "/") {
      assert s == r + "/";
      if Contains(s, GeminiHost) {
        var i :| MatchesAt(s, GeminiHost, i);
        assert s[i + |GeminiHost| - 1] == s[i..i + |GeminiHost|][|GeminiHost| - 1] == 'm';
        assert s[|s| - 1] == '/';
        assert r[i..i + |GeminiHost|] == s[i..i + |GeminiHost|];
        assert MatchesAt(r, GeminiHost, i);
      }
      if Contains(r, GeminiHost) {
        var i :| MatchesAt(r, GeminiHost, i);
        assert s[i..i + |GeminiHost|] == r[i..i + |GeminiHost|];
        assert MatchesAt(s, GeminiHost, i);
      }
    }
  }

  /** The base the OpenAI-style model list is built on: the trailing slash is removed twice, then `/v1`. */
  function ModelsBase(baseUrl: string): (r: string)
    ensures |r| <= |baseUrl| && baseUrl[..|r|] == r
    ensures baseUrl[|r|..] in ModelsSuffixes
  {
    var r := StripV1(StripSlash(StripSlash(baseUrl)));
    ModelsBaseSplits(baseUrl);
    r
  }

  /** What the model-list base may cut off the end of the entered URL. */
  const ModelsSuffixes: set<string> := {"", "/", "//", "/v1", "/v1/", "/v1//"}

  /** The entered URL is the base followed by one of those endings. */
  lemma ModelsBaseSplits(baseUrl: string)
    ensures var r := StripV1(StripSlash(StripSlash(baseUrl)));
            exists tail :: tail in ModelsSuffixes && baseUrl == r + tail
  {
    var once := StripSlash(baseUrl);
    var twice := StripSlash(once);
    var r := StripV1(twice);
    var s1 := if EndsWith(baseUrl, "/") then "/" else "";
    var s2 := if EndsWith(once, "/") then "/" else "";
    var s3 := if EndsWith(twice, "/v1") then "/v1" else "";
    assert baseUrl == once + s1 && once == twice + s2 && twice == r + s3;
    var tail := s3 + s2 + s1;
    assert baseUrl == r + tail;
    if s3 == "" {
      if s2 == "" {
        assert tail == s1;
      } else {
        assert tail == "//";
      }
    } else {
      if s2 == "" && s1 == "" {
        assert tail == "/v1";
      } else if s2 == "" {
        assert tail == "/v1/";
      } else {
        assert tail == "/v1//";
      }
    }
  }

  /** The model-list URLs tried in order: `/v1/models`, then `/models`. */
  function ModelCandidates(baseUrl: string): (urls: seq<string>)
    ensures |urls| == 2
    ensures urls[0] == ModelsBase(baseUrl) + "/v1/models"
    ensures urls[1] == ModelsBase(baseUrl) + "/models"
  {
    [ModelsBase(baseUrl) + "/v1/models", ModelsBase(baseUrl) + "/models"]
  }

  /** The chat completions URL: one trailing slash and then `/v1` removed before `/v1/chat/completions` is appended. */
  function ChatEndpoint(baseUrl: string): (url: string)
    ensures EndsWith(url, "/v1/chat/completions")
  {
    var url := StripV1(StripSlash(baseUrl)) + "/v1/chat/completions";
    assert url[|url| - 20..] == "/v1/chat/completions";
    url
  }

  /** A base URL with no trailing slash and no trailing `/v1`. */
  predicate Bare(b: string) {
    !EndsWith(b, "/") && !EndsWith(b, "/v1")
  }

  /** Appending a suffix to a bare base: the suffix decides what the string ends with. */
  lemma EndsWithAppended(b: string, suffix: string, tail: string)
    requires |tail| <= |suffix|
    ensures EndsWith(b + suffix, tail) <==> EndsWith(suffix, tail)
  {
    var s := b + suffix;
    assert s[|s| - |tail|..] == suffix[|suffix| - |tail|..];
  }

  /** A user may enter the bare base with or without `/v1` and a trailing slash: the chat request goes to the same URL. */
  lemma ChatEndpointForms(b: string)
    requires Bare(b)
    ensures ChatEndpoint(b) == b + "/v1/chat/completions"
    ensures ChatEndpoint(b + "/") == b + "/v1/chat/completions"
    ensures ChatEndpoint(b + "/v1") == b + "/v1/chat/completions"
    ensures ChatEndpoint(b + "/v1/") == b + "/v1/chat/completions"
  {
    EndsWithAppended(b, "/", "/");
    assert (b + "/")[..|b|] == b;
    EndsWithAppended(b, "/v1", "/");
    EndsWithAppended(b, "/v1", "/v1");
    assert (b + "/v1")[..|b|] == b;
    EndsWithAppended(b, "/v1/", "/");
    assert (b + "/v1/")[..|b| + 3] == b + "/v1";
  }

  /** The model list is looked up at the same two places for every way of entering the same base. */
  lemma ModelCandidatesForms(b: string)
    requires Bare(b)
    ensures ModelCandidates(b) == [b + "/v1/models", b + "/models"]
    ensures ModelCandidates(b + "/") == [b + "/v1/models", b + "/models"]
    ensures ModelCandidates(b + "//") == [b + "/v1/models", b + "/models"]
    ensures ModelCandidates(b + "/v1") == [b + "/v1/models", b + "/models"]
    ensures ModelCandidates(b + "/v1/") == [b + "/v1/models", b + "/models"]
    ensures ModelCandidates(b + "/v1//") == [b + "/v1/models", b + "/models"]
  {
    SlashFormsBase(b);
    V1FormsBase(b);
  }

  /** The bare base with up to two trailing slashes. */
  lemma SlashFormsBase(b: string)
    requires Bare(b)
    ensures ModelsBase(b) == b && ModelsBase(b + "/") == b && ModelsBase(b + "//") == b
  {
    EndsWithAppended(b, "/", "/");
    assert (b + "/")[..|b|] == b;
    EndsWithAppended(b, "//", "/");
    assert (b + "//")[..|b| + 1] == b + "/";
  }

  /** The base followed by `/v1` and up to two trailing slashes. */
  lemma V1FormsBase(b: string)
    requires Bare(b)
    ensures ModelsBase(b + "/v1") == b && ModelsBase(b + "/v1/") == b && ModelsBase(b + "/v1//") == b
  {
    V1Base(b);
    V1SlashBase(b);
    V1DoubleSlashBase(b);
  }

  /** `b/v1` */
  lemma V1Base(b: string)
    requires Bare(b)
    ensures ModelsBase(b + "/v1") == b
  {
    EndsWithAppended(b, "/v1", "/");
    EndsWithAppended(b, "/v1", "/v1");
    assert (b + "/v1")[..|b|] == b;
  }

  /** `b/v1/` */
  lemma V1SlashBase(b: string)
    requires Bare(b)
    ensures ModelsBase(b + "/v1/") == b
  {
    EndsWithAppended(b, "/v1/", "/");
    assert (b + "/v1/")[..|b| + 3] == b + "/v1";
    V1Base(b);
    EndsWithAppended(b, "/v1", "/");
  }

  /** `b/v1//` */
  lemma V1DoubleSlashBase(b: string)
    requires Bare(b)
    ensures ModelsBase(b + "/v1//") == b
  {
    EndsWithAppended(b, "/v1//", "/");
    assert (b + "/v1//")[..|b| + 4] == b + "/v1/";
    EndsWithAppended(b, "/v1/", "/");
    assert (b + "/v1/")[..|b| + 3] == b + "/v1";
    V1Base(b);
  }

  /** A doubled trailing slash still reaches the model list (see above) but not the chat endpoint, which keeps one slash. */
  lemma DoubleSlashChatEndpoint(b: string)
    requires Bare(b)
    ensures ChatEndpoint(b + "//") == b + "/" + "/v1/chat/completions"
    ensures ChatEndpoint(b + "//") != ChatEndpoint(b)
  {
    EndsWithAppended(b, "//", "/");
    var once := b + "/";
    assert (b + "//")[..|b| + 1] == once;
    assert once[|once| - 1] == '/';
    assert !EndsWith(once, "/v1") by {
      if |once| >= 3 {
        assert once[|once| - 3..][2] == '/';
      }
    }
    assert StripSlash(b + "//") == once;
    assert StripV1(once) == once;
    ChatEndpointForms(b);
  }

  /** The base of a Gemini URL: the parsed origin, or the slash-stripped base URL when it does not parse. */
  function GeminiBase(baseUrl: string, origin: Option<string>): (r: string)
    ensures origin.Some? ==> r == origin.value
    ensures origin.None? ==> r == StripSlash(baseUrl)
  {
    origin.GetOr(StripSlash(baseUrl))
  }

  /** The Gemini model list. */
  function GeminiModelsUrl(baseUrl: string, origin: Option<string>, apiKey: string): (url: string)
    ensures StartsWith(url, GeminiBase(baseUrl, origin) + "/v1beta/models?key=")
    ensures EndsWith(url, apiKey)
  {
    var prefix := GeminiBase(baseUrl, origin) + "/v1beta/models?key=";
    var url := prefix + apiKey;
    assert url[..|prefix|] == prefix;
    assert url[|url| - |apiKey|..] == apiKey;
    url
  }

  /** What `callAI` does before any traffic: refuse without a key, else one of the two protocols. */
  datatype Route =
    | Refused(message: string)
    | GeminiCall(url: string, model: string)
    | OpenAiCall(url: string, model: string)

  /** `config.model || 'gpt-3.5-turbo'` */
  function ModelOrDefault(model: Option<string>): (m: string)
    ensures m != ""
    ensures TruthyStr(model) ==> m == model.value
  {
    if TruthyStr(model) then model.value else DefaultModel
  }

  /**
   The route of one `callAI`: no key, no request; otherwise Gemini's
   `generateContent` on the origin when the provider or host is Google, and
   the chat completions endpoint for everything else.
   */
  function RouteCall(provider: string, baseUrl: string, apiKey: Option<string>, model: Option<string>, origin: Option<string>): (r: Route)
    ensures r.Refused? <==> !TruthyStr(apiKey)
    ensures r.Refused? ==> r.message == MissingKeyMessage
    ensures r.GeminiCall? <==> TruthyStr(apiKey) && UsesGemini(provider, baseUrl)
    ensures !r.Refused? ==> r.model == ModelOrDefault(model) && r.model != ""
    ensures r.GeminiCall? ==> StartsWith(r.url, GeminiBase(baseUrl, origin) + "/v1beta/models/" + r.model + ":generateContent?key=")
    ensures r.OpenAiCall? ==> r.url == ChatEndpoint(baseUrl)
  {
    if !TruthyStr(apiKey) then Refused(MissingKeyMessage)
    else
      var m := ModelOrDefault(model);
      if UsesGemini(provider, baseUrl) then
        var prefix := GeminiBase(baseUrl, origin) + "/v1beta/models/" + m + ":generateContent?key=";
        var url := prefix + apiKey.value;
        assert url[..|prefix|] == prefix;
        GeminiCall(url, m)
      else OpenAiCall(ChatEndpoint(baseUrl), m)
  }
}
