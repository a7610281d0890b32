/**
 The Gemini request body built by `callAI` in `AIContext`: system messages
 are taken out of the conversation, roles become `user` or `model`, text and
 image parts are converted (an image only when its data URL parses), and the
 first system message becomes the system instruction.
 */
module Gemini {
  import opened Common
  import opened ChatMessages
  import opened ChatRequest

  datatype GeminiPart = GText(text: string) | InlineData(mimeType: string, data: string)

  datatype GeminiContent = GeminiContent(role: string, parts: seq<GeminiPart>)

  // ---------------------------------------------------------------------------
  // Data URLs
  // ---------------------------------------------------------------------------

  const Marker: string := ";base64,"

  /** The characters `.` does not match in a JavaScript regular expression. */
  predicate IsLineTerminator(c: char) {
    c == '\n' || c == '\r' || c == '\U{2028}' || c == '\U{2029}'
  }

  predicate NoLineTerminator(s: string) {
    forall i :: 0 <= i < |s| ==> !IsLineTerminator(s[i])
  }

  /** A place where `;base64,` can separate a non-empty media type from non-empty data. */
  predicate MarkerFits(url: string, k: int) {
    6 <= k && k + |Marker| < |url| && MatchesAt(url, Marker, k)
  }

  /** The last place below `k` where the marker fits: the greedy first group of the pattern. */
  function LastMarkerBelow(url: string, k: nat): (r: Option<nat>)
    ensures r.Some? ==> r.value < k && MarkerFits(url, r.value)
    ensures forall j :: (if r.Some? then r.value else -1) < j < k ==> !MarkerFits(url, j)
  {
    if k == 0 then None
    else if MarkerFits(url, k - 1) then Some(k - 1)
    else LastMarkerBelow(url, k - 1)
  }

  /**
   `url.match(/^data:(.+);base64,(.+)$/)`: the media type and the data, with
   the greedy first group reaching to the last `;base64,` that leaves some data.
   */
  function ParseDataUrl(url: string): (r: Option<(string, string)>)
    ensures r.Some? ==> |r.value.0| > 0 && |r.value.1| > 0 && url == "data:" + r.value.0 + Marker + r.value.1
    ensures r.Some? ==> forall j :: 5 + |r.value.0| < j ==> !MarkerFits(url, j)
    ensures r.None? ==> !StartsWith(url, "data:") || !NoLineTerminator(url) || forall j :: !MarkerFits(url, j)
  {
    if StartsWith(url, "data:") && NoLineTerminator(url) then
      match LastMarkerBelow(url, |url|)
      case None => None
      case Some(k) =>
        var mime := url[5..k];
        var data := url[k + |Marker|..];
        assert url == url[..5] + url[5..k] + url[k..k + |Marker|] + url[k + |Marker|..];
        Some((mime, data))
    else None
  }

  /** A data URL built from text without line terminators has none. */
  lemma DataUrlNoTerminator(mime: string, data: string)
    requires NoLineTerminator(mime) && NoLineTerminator(data)
    ensures NoLineTerminator("data:" + mime + Marker + data)
  {
    var url := "data:" + mime + Marker + data;
    var k := 5 + |mime|;
    forall i | 0 <= i < |url| ensures !IsLineTerminator(url[i]) {
      if 5 <= i < k {
        assert url[i] == mime[i - 5];
      } else if k + |Marker| <= i {
        assert url[i] == data[i - k - |Marker|];
      }
    }
  }

  /** The marker cannot start inside itself: only its first character is `;`. */
  lemma MarkerNotInsideMarker(url: string, k: nat, j: nat)
    requires k + |Marker| <= |url| && url[k..k + |Marker|] == Marker
    requires k < j < k + |Marker|
    ensures !MarkerFits(url, j)
  {
    assert url[j] == url[k..k + |Marker|][j - k] == Marker[j - k];
  }

  /** The marker cannot start inside data that does not contain it. */
  lemma MarkerNotInData(url: string, data: string, j: nat)
    requires |data| <= |url| && url[|url| - |data|..] == data && !Includes(data, Marker)
    requires |url| - |data| <= j
    ensures !MarkerFits(url, j)
  {
    if j + |Marker| <= |url| {
      var d := j - (|url| - |data|);
      assert data[d..d + |Marker|] == url[j..j + |Marker|];
      assert !MatchesAt(data, Marker, d);
    }
  }

  /** In a data URL whose data does not contain the marker, the marker after the media type is the last one that fits. */
  lemma DataUrlLastMarker(mime: string, data: string)
    requires |mime| > 0 && |data| > 0 && !Includes(data, Marker)
    ensures var url := "data:" + mime + Marker + data;
            LastMarkerBelow(url, |url|) == Some(5 + |mime|)
  {
    var url := "data:" + mime + Marker + data;
    var k := 5 + |mime|;
    assert url[k..k + |Marker|] == Marker;
    assert url[k + |Marker|..] == data;
    assert MarkerFits(url, k);
    forall j | k < j ensures !MarkerFits(url, j) {
      if j < k + |Marker| {
        MarkerNotInsideMarker(url, k, j);
      } else {
        MarkerNotInData(url, data, j);
      }
    }
  }

  /** A data URL written from a media type and base64 data reads back as the two. */
  lemma ParseDataUrlRoundTrip(mime: string, data: string)
    requires |mime| > 0 && |data| > 0
    requires NoLineTerminator(mime) && NoLineTerminator(data)
    requires !Includes(data, Marker)
    ensures ParseDataUrl("data:" + mime + Marker + data) == Some((mime, data))
  {
    var url := "data:" + mime + Marker + data;
    var k := 5 + |mime|;
    assert url[..5] == "data:";
    DataUrlNoTerminator(mime, data);
    DataUrlLastMarker(mime, data);
    assert url[5..k] == mime;
    assert url[k + |Marker|..] == data;
  }

  // ---------------------------------------------------------------------------
  // Contents
  // ---------------------------------------------------------------------------

  /** One OpenAI-style part: text stays text, an image becomes inline data when its URL parses and is dropped otherwise. */
  function PartOf(p: Part): (r: seq<GeminiPart>)
    ensures p.TextPart? ==> r == [GText(p.text)]
    ensures p.ImagePart? && ParseDataUrl(p.url).Some? ==> r == [InlineData(ParseDataUrl(p.url).value.0, ParseDataUrl(p.url).value.1)]
    ensures p.ImagePart? && ParseDataUrl(p.url).None? ==> r == []
  {
    match p
    case TextPart(t) => [GText(t)]
    case ImagePart(url) =>
      match ParseDataUrl(url)
      case Some((mime, data)) => [InlineData(mime, data)]
      case None => []
  }

  /** The parts of a message, each converted in order and unusable images dropped. */
  function PartsOfList(ps: seq<Part>): (r: seq<GeminiPart>)
    ensures |r| <= |ps|
    ensures |ps| == 1 ==> r == PartOf(ps[0])
  {
    if |ps| == 0 then [] else PartOf(ps[0]) + PartsOfList(ps[1..])
  }

  /** Converting parts distributes over concatenation: every part contributes in place. */
  lemma {:induction false} PartsOfListAppend(a: seq<Part>, b: seq<Part>)
    ensures PartsOfList(a + b) == PartsOfList(a) + PartsOfList(b)
    decreases |a|
  {
    if |a| == 0 {
      assert a + b == b;
    } else {
      assert (a + b)[0] == a[0] && (a + b)[1..] == a[1..] + b;
      PartsOfListAppend(a[1..], b);
    }
  }

  /** Text-only parts convert one-to-one. */
  lemma {:induction false} PartsOfListAllText(ps: seq<Part>)
    requires forall k :: 0 <= k < |ps| ==> ps[k].TextPart?
    ensures |PartsOfList(ps)| == |ps|
    ensures forall k :: 0 <= k < |ps| ==> PartsOfList(ps)[k] == GText(ps[k].text)
    decreases |ps|
  {
    if |ps| > 0 {
      PartsOfListAllText(ps[1..]);
    }
  }

  /** The parts of one message: plain text is one text part. */
  function PartsOf(c: Content): seq<GeminiPart> {
    match c
    case Text(t) => [GText(t)]
    case Parts(ps) => PartsOfList(ps)
  }

  predicate NotSystem(m: ApiMessage) {
    m.role != "system"
  }

  /** Only `user` stays `user`; every other role is the model's. */
  function GeminiRole(role: string): (r: string)
    ensures r == "user" <==> role == "user"
    ensures r == "user" || r == "model"
  {
    if role == "user" then "user" else "model"
  }

  function ContentOf(m: ApiMessage): GeminiContent {
    GeminiContent(GeminiRole(m.role), PartsOf(m.content))
  }

  /** `contents`: the non-system messages, converted, in order. */
  function Contents(ms: seq<ApiMessage>): (r: seq<GeminiContent>)
    ensures |r| == |Filter(ms, NotSystem)|
    ensures forall i :: 0 <= i < |r| ==> r[i] == ContentOf(Filter(ms, NotSystem)[i])
  {
    var kept := Filter(ms, NotSystem);
    seq(|kept|, i requires 0 <= i < |kept| => ContentOf(kept[i]))
  }

  /** `system_instruction` as written: the content of the first system message, if any. */
  function SystemInstruction(ms: seq<ApiMessage>): (r: Option<Content>)
    ensures r.None? <==> forall i :: 0 <= i < |ms| ==> ms[i].role != "system"
    ensures r.Some? ==> exists i :: 0 <= i < |ms| && ms[i].role == "system" && r.value == ms[i].content
                          && forall j :: 0 <= j < i ==> ms[j].role != "system"
  {
    match Find(ms, (m: ApiMessage) => m.role == "system")
    case None => None
    case Some(m) => Some(m.content)
  }

  /** Every system message, in order: what the system instruction is evidently meant to carry. */
  function SystemInstructionAll(ms: seq<ApiMessage>): (r: seq<Content>)
    ensures |r| <= |ms|
  {
    if |ms| == 0 then []
    else (if ms[0].role == "system" then [ms[0].content] else []) + SystemInstructionAll(ms[1..])
  }

  // ---------------------------------------------------------------------------
  // The chat request sent to Gemini
  // ---------------------------------------------------------------------------

  /** Dropping the two system messages around a run of non-system messages leaves the run. */
  lemma {:induction false} FilterAroundSystem(s: seq<ApiMessage>, ctx: ApiMessage, prev: seq<ApiMessage>, rules: ApiMessage, block: seq<ApiMessage>)
    requires s == [ctx] + prev + [rules] + block
    requires ctx.role == "system" && rules.role == "system"
    requires forall i :: 0 <= i < |prev| ==> NotSystem(prev[i])
    requires forall i :: 0 <= i < |block| ==> NotSystem(block[i])
    ensures Filter(s, NotSystem) == prev + block
  {
    var tail := [rules] + block;
    var rest := prev + tail;
    assert s == [ctx] + rest;
    assert Filter([ctx], NotSystem) == [] && Filter([rules], NotSystem) == [];
    calc {
      Filter(s, NotSystem);
      { FilterAppend([ctx], rest, NotSystem); }
      Filter(rest, NotSystem);
      { FilterAppend(prev, tail, NotSystem); FilterAll(prev, NotSystem); }
      prev + Filter(tail, NotSystem);
      { FilterAppend([rules], block, NotSystem); FilterAll(block, NotSystem); }
      prev + block;
    }
  }

  /** No mapped history message and no user-block message is a system message. */
  lemma HistoryNotSystem(prev: seq<ChatMessage>, block: seq<ChatMessage>)
    ensures forall i :: 0 <= i < |prev| ==> NotSystem(MapHistory(prev)[i])
    ensures forall i :: 0 <= i < |block| ==> NotSystem(UserBlock(block)[i])
  {
    assert "user" != "system" && "assistant" != "system";
  }

  /** The assembled request without its system messages is the history, role-mapped. */
  lemma AssembledWithoutSystem(contextPrompt: string, rulesPrompt: string, history: seq<ChatMessage>, split: int)
    requires -1 <= split < |history|
    ensures Filter(Sandwich(contextPrompt, rulesPrompt, history, split), NotSystem)
              == MapHistory(history[..split + 1]) + UserBlock(history[split + 1..])
  {
    var prev := MapHistory(history[..split + 1]);
    var block := UserBlock(history[split + 1..]);
    var ctx, rules := ApiMessage("system", Text(Trim(contextPrompt))), ApiMessage("system", Text(Trim(rulesPrompt)));
    var api := Sandwich(contextPrompt, rulesPrompt, history, split);
    assert api == [ctx] + prev + [rules] + block;
    HistoryNotSystem(history[..split + 1], history[split + 1..]);
    FilterAroundSystem(api, ctx, prev, rules, block);
  }

  /** The converted contents for any split after which only the user speaks: one per history message, `user` exactly for the user's messages. */
  lemma GeminiContentsOfSandwich(contextPrompt: string, rulesPrompt: string, history: seq<ChatMessage>, split: int)
    requires -1 <= split < |history|
    requires forall i :: split < i < |history| ==> history[i].sender == "user"
    ensures var api := Sandwich(contextPrompt, rulesPrompt, history, split);
      && |Contents(api)| == |history|
      && (forall i :: 0 <= i < |history| ==>
            Contents(api)[i] == GeminiContent(if history[i].sender == "user" then "user" else "model", PartsOf(FormatContent(history[i]))))
  {
    var api := Sandwich(contextPrompt, rulesPrompt, history, split);
    AssembledWithoutSystem(contextPrompt, rulesPrompt, history, split);
    var prev := MapHistory(history[..split + 1]);
    var block := UserBlock(history[split + 1..]);
    var kept := prev + block;
    assert Filter(api, NotSystem) == kept;
    forall i | 0 <= i < |history|
      ensures Contents(api)[i] == GeminiContent(if history[i].sender == "user" then "user" else "model", PartsOf(FormatContent(history[i])))
    {
      assert Contents(api)[i] == ContentOf(kept[i]);
      if i <= split {
        assert kept[i] == prev[i];
        assert history[..split + 1][i] == history[i];
      } else {
        assert kept[i] == block[i - split - 1];
        assert history[split + 1..][i - split - 1] == history[i];
      }
    }
  }

  /** The converted contents of an assembled request: one per history message, `user` exactly for the user's messages. */
  lemma GeminiContentsOfAssembled(contextPrompt: string, rulesPrompt: string, history: seq<ChatMessage>)
    ensures var api := Sandwich(contextPrompt, rulesPrompt, history, LastNonUser(history));
      && |Contents(api)| == |history|
      && (forall i :: 0 <= i < |history| ==>
            Contents(api)[i] == GeminiContent(if history[i].sender == "user" then "user" else "model", PartsOf(FormatContent(history[i]))))
  {
    GeminiContentsOfSandwich(contextPrompt, rulesPrompt, history, LastNonUser(history));
  }

  /** The system instruction of an assembled request is the context prompt. */
  lemma GeminiSystemOfAssembled(contextPrompt: string, rulesPrompt: string, history: seq<ChatMessage>)
    ensures SystemInstruction(Sandwich(contextPrompt, rulesPrompt, history, LastNonUser(history))) == Some(Text(Trim(contextPrompt)))
  {
    var api := Sandwich(contextPrompt, rulesPrompt, history, LastNonUser(history));
    assert api[0] == ApiMessage("system", Text(Trim(contextPrompt)));
  }

  /** As written, the rules prompt never reaches Gemini: with no history, the request carries the context prompt and nothing else. */
  lemma RulesPromptDropped(contextPrompt: string, rulesPrompt: string)
    ensures var api := Sandwich(contextPrompt, rulesPrompt, [], -1);
      Contents(api) == [] && SystemInstruction(api) == Some(Text(Trim(contextPrompt)))
  {
    GeminiContentsOfAssembled(contextPrompt, rulesPrompt, []);
    GeminiSystemOfAssembled(contextPrompt, rulesPrompt, []);
  }

  /** Carrying every system message, the instruction holds both prompts, context first. */
  lemma SystemInstructionAllKeepsRules(contextPrompt: string, rulesPrompt: string, history: seq<ChatMessage>)
    ensures SystemInstructionAll(Sandwich(contextPrompt, rulesPrompt, history, LastNonUser(history)))
              == [Text(Trim(contextPrompt)), Text(Trim(rulesPrompt))]
  {
    var split := LastNonUser(history);
    var api := Sandwich(contextPrompt, rulesPrompt, history, split);
    SandwichShape(contextPrompt, rulesPrompt, history, split);
    SystemInstructionAllSlots(api, split + 2);
  }

  /** With exactly two system messages, at 0 and at `k`, the collected instruction is those two. */
  lemma {:induction false} SystemInstructionAllSlots(api: seq<ApiMessage>, k: int)
    requires 0 < k < |api|
    requires forall i :: 0 <= i < |api| ==> (api[i].role == "system" <==> i == 0 || i == k)
    ensures SystemInstructionAll(api) == [api[0].content, api[k].content]
  {
    var rest := api[1..];
    SystemInstructionAllOne(rest, k - 1);
  }

  /** With exactly one system message, at `k`, the collected instruction is that one. */
  lemma {:induction false} SystemInstructionAllOne(ms: seq<ApiMessage>, k: int)
    requires 0 <= k < |ms|
    requires forall i :: 0 <= i < |ms| ==> (ms[i].role == "system" <==> i == k)
    ensures SystemInstructionAll(ms) == [ms[k].content]
    decreases |ms|
  {
    if k > 0 {
      SystemInstructionAllOne(ms[1..], k - 1);
    } else {
      SystemInstructionAllNone(ms[1..]);
    }
  }

  lemma {:induction false} SystemInstructionAllNone(ms: seq<ApiMessage>)
    requires forall i :: 0 <= i < |ms| ==> ms[i].role != "system"
    ensures SystemInstructionAll(ms) == []
    decreases |ms|
  {
    if |ms| > 0 {
      SystemInstructionAllNone(ms[1..]);
    }
  }
}
