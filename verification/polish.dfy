/**
 Reading a polishing reply (`AIPolishAssistant`): the `<content>` (or the
 older `<polished>`), `<title>` and `<tags>` sections a reply may carry, and
 the reply text shown with those sections removed. A section is the first
 opening tag followed by the nearest closing tag after it, as the lazy
 pattern `<t>([\s\S]*?)</t>` finds it.
 */
module Polish {
  import opened Common

  function Open(tag: string): string { "<" + tag + ">" }
  function Close(tag: string): string { "</" + tag + ">" }

  /** A tag name: letters only, so its tags hold `<` only at their start. */
  predicate TagName(tag: string) {
    |tag| > 0 && forall k :: 0 <= k < |tag| ==> 'a' <= tag[k] <= 'z'
  }

  /** Where the first section lies: the start of its opening tag and of its closing tag. */
  function SectionAt(text: string, tag: string): (r: Option<(nat, nat)>)
    ensures r.Some? ==> MatchesAt(text, Open(tag), r.value.0) && r.value.0 + |Open(tag)| <= r.value.1
                        && MatchesAt(text, Close(tag), r.value.1)
    ensures r.Some? ==> forall j :: 0 <= j < r.value.0 ==> !MatchesAt(text, Open(tag), j)
    ensures r.Some? ==> forall j :: r.value.0 + |Open(tag)| <= j < r.value.1 ==> !MatchesAt(text, Close(tag), j)
    ensures r.None? ==> forall i, j :: MatchesAt(text, Open(tag), i) && i + |Open(tag)| <= j ==> !MatchesAt(text, Close(tag), j)
  {
    match IndexOf(text, Open(tag), 0)
    case None => None
    case Some(i) =>
      match IndexOf(text, Close(tag), i + |Open(tag)|)
      case None => None
      case Some(j) => Some((i, j))
  }

  /** `getTagContent(tag)`: the trimmed body of the first section, `null` without one. */
  function TagContent(text: string, tag: string): (r: Option<string>)
    ensures r.Some? <==> SectionAt(text, tag).Some?
    ensures r.Some? ==> Trim(r.value) == r.value
  {
    match SectionAt(text, tag)
    case None => None
    case Some((i, j)) =>
      TrimIdempotent(text[i + |Open(tag)|..j]);
      Some(Trim(text[i + |Open(tag)|..j]))
  }

  /** Text without `<` holds no tag at all. */
  lemma NoAngleNoSection(text: string, tag: string)
    requires '<' !in text
    ensures TagContent(text, tag) == None
  {
    forall j | 0 <= j <= |text| ensures !MatchesAt(text, Open(tag), j) {
      if j + |Open(tag)| <= |text| {
        assert text[j] in text;
        assert text[j..j + |Open(tag)|][0] == text[j] != Open(tag)[0];
      }
    }
  }

  /** Inside `pre + Open(tag)`, the opening tag occurs only at its end when `pre` has no `<`. */
  lemma OpenOnlyAtEnd(s: string, pre: string, tag: string, j: nat)
    requires TagName(tag) && '<' !in pre
    requires |pre| + |Open(tag)| <= |s| && s[..|pre|] == pre && s[|pre|..|pre| + |Open(tag)|] == Open(tag)
    requires j < |pre|
    ensures !MatchesAt(s, Open(tag), j)
  {
    if j + |Open(tag)| <= |s| {
      assert s[j] == s[..|pre|][j] == pre[j];
      assert pre[j] in pre;
      assert s[j..j + |Open(tag)|][0] == s[j] != Open(tag)[0];
    }
  }

  /** A body without `<` ends at the first closing tag after it. */
  lemma CloseOnlyAfterBody(s: string, start: nat, body: string, tag: string, j: nat)
    requires '<' !in body
    requires start + |body| <= |s| && s[start..start + |body|] == body
    requires start <= j < start + |body|
    ensures !MatchesAt(s, Close(tag), j)
  {
    if j + |Close(tag)| <= |s| {
      assert s[j] == s[start..start + |body|][j - start] == body[j - start];
      assert body[j - start] in body;
      assert s[j..j + |Close(tag)|][0] == s[j] != Close(tag)[0];
    }
  }

  /** In `pre <tag>body</tag> post`, the first opening tag is the one after `pre`. */
  lemma OpenFoundAfterPre(pre: string, tag: string, body: string, post: string)
    requires TagName(tag) && '<' !in pre
    ensures IndexOf(pre + Open(tag) + body + Close(tag) + post, Open(tag), 0) == Some(|pre|)
  {
    var s := pre + Open(tag) + body + Close(tag) + post;
    var i := |pre|;
    assert s[..i] == pre;
    assert s[i..i + |Open(tag)|] == Open(tag);
    forall k | 0 <= k < i ensures !MatchesAt(s, Open(tag), k) {
      OpenOnlyAtEnd(s, pre, tag, k);
    }
    IndexOfFinds(s, Open(tag), 0, i);
  }

  /** In `pre <tag>body</tag> post`, the first closing tag after the opening one is the one after `body`. */
  lemma CloseFoundAfterBody(pre: string, tag: string, body: string, post: string)
    requires '<' !in body
    ensures var s := pre + Open(tag) + body + Close(tag) + post;
            |pre| + |Open(tag)| <= |s|
            && IndexOf(s, Close(tag), |pre| + |Open(tag)|) == Some(|pre| + |Open(tag)| + |body|)
  {
    var s := pre + Open(tag) + body + Close(tag) + post;
    var start := |pre| + |Open(tag)|;
    var j := start + |body|;
    assert s[start..j] == body;
    assert s[j..j + |Close(tag)|] == Close(tag);
    forall k | start <= k < j ensures !MatchesAt(s, Close(tag), k) {
      CloseOnlyAfterBody(s, start, body, tag, k);
    }
    IndexOfFinds(s, Close(tag), start, j);
  }

  /** The section of a reply laid out as `pre <tag>body</tag> post` spans from the opening tag to the closing tag. */
  lemma SectionOfLayout(pre: string, tag: string, body: string, post: string)
    requires TagName(tag) && '<' !in pre && '<' !in body
    ensures SectionAt(pre + Open(tag) + body + Close(tag) + post, tag) == Some((|pre|, |pre| + |Open(tag)| + |body|))
  {
    OpenFoundAfterPre(pre, tag, body, post);
    CloseFoundAfterBody(pre, tag, body, post);
  }

  /** The section of a reply laid out as `pre <tag>body</tag> post` is the trimmed body, whatever follows. */
  lemma TagContentOfSection(pre: string, tag: string, body: string, post: string)
    requires TagName(tag) && '<' !in pre && '<' !in body
    ensures TagContent(pre + Open(tag) + body + Close(tag) + post, tag) == Some(Trim(body))
  {
    var s := pre + Open(tag) + body + Close(tag) + post;
    SectionOfLayout(pre, tag, body, post);
    BodyOfLayout(pre + Open(tag), body, Close(tag) + post);
    assert s == (pre + Open(tag)) + body + (Close(tag) + post);
  }

  /** A five-part string seen as a three-part one around its middle three parts. */
  lemma RegroupLayout(a: string, b: string, c: string, d: string, e: string)
    ensures a + b + c + d + e == a + (b + c + d) + e
  {
  }

  /** The outer parts of a three-part string are its prefix and its suffix. */
  lemma AroundLayout(a: string, b: string, c: string)
    ensures (a + b + c)[..|a|] == a && (a + b + c)[|a| + |b|..] == c
  {
  }

  /** The middle of a three-part string is the slice between the other two. */
  lemma BodyOfLayout(a: string, b: string, c: string)
    ensures (a + b + c)[|a|..|a| + |b|] == b
  {
  }

  // ---------------------------------------------------------------------------
  // The polished result
  // ---------------------------------------------------------------------------

  datatype Polished = Polished(content: Option<string>, title: Option<string>, tags: Option<seq<string>>)

  /** `getTagContent('content') || getTagContent('polished')` */
  function ContentOf(text: string): (r: Option<string>)
    ensures TruthyStr(TagContent(text, "content")) ==> r == TagContent(text, "content")
    ensures !TruthyStr(TagContent(text, "content")) ==> r == TagContent(text, "polished")
  {
    var c := TagContent(text, "content");
    if TruthyStr(c) then c else TagContent(text, "polished")
  }

  /** The tag list, `null` when the `<tags>` section is missing or blank; an all-empty list is still a list. */
  function TagsOf(text: string): (r: Option<seq<string>>)
    ensures r.Some? <==> TruthyStr(TagContent(text, "tags"))
  {
    var s := TagContent(text, "tags");
    if TruthyStr(s) then Some(SplitList(s.value)) else None
  }

  /** `extractPolishedData`: nothing when no section gives content, title or a tag list. */
  function ExtractPolished(text: string): (r: Option<Polished>)
    ensures r.None? <==> !TruthyStr(ContentOf(text)) && !TruthyStr(TagContent(text, "title")) && TagsOf(text).None?
    ensures r.Some? ==> r.value == Polished(ContentOf(text), TagContent(text, "title"), TagsOf(text))
  {
    var content := ContentOf(text);
    var title := TagContent(text, "title");
    var tags := TagsOf(text);
    if !TruthyStr(content) && !TruthyStr(title) && tags.None? then None
    else Some(Polished(content, title, tags))
  }

  /** A plain reply without any tag gives nothing to apply. */
  lemma PlainReplyExtractsNothing(text: string)
    requires '<' !in text
    ensures ExtractPolished(text) == None
  {
    NoAngleNoSection(text, "content");
    NoAngleNoSection(text, "polished");
    NoAngleNoSection(text, "title");
    NoAngleNoSection(text, "tags");
  }

  /** `<` in `pre + Open(tag) + body + Close(tag) + post` sits only at the two tags. */
  lemma AnglesOfSection(pre: string, tag: string, body: string, post: string, j: nat)
    requires TagName(tag) && '<' !in pre && '<' !in body && '<' !in post
    requires j < |pre + Open(tag) + body + Close(tag) + post|
    requires j != |pre| && j != |pre| + |Open(tag)| + |body|
    ensures (pre + Open(tag) + body + Close(tag) + post)[j] != '<'
  {
    var s := pre + Open(tag) + body + Close(tag) + post;
    var a := |pre|;
    var b := a + |Open(tag)|;
    var c := b + |body|;
    var d := c + |Close(tag)|;
    if j < a {
      assert s[j] == pre[j] && pre[j] in pre;
    } else if j < b - 1 {
      assert s[j] == Open(tag)[j - a] == tag[j - a - 1];
    } else if j == b - 1 {
      assert s[j] == Open(tag)[j - a] == '>';
    } else if j < c {
      assert s[j] == body[j - b] && body[j - b] in body;
    } else if j == c + 1 {
      assert s[j] == Close(tag)[1] == '/';
    } else if j < d - 1 {
      assert s[j] == Close(tag)[j - c] == tag[j - c - 2];
    } else if j == d - 1 {
      assert s[j] == Close(tag)[j - c] == '>';
    } else {
      assert s[j] == post[j - d] && post[j - d] in post;
    }
  }

  /** The opening tag of another name does not start at `j` in a reply with a single section. */
  lemma OtherOpenNotAt(pre: string, tag: string, body: string, post: string, other: string, j: nat)
    requires TagName(tag) && '<' !in pre && '<' !in body && '<' !in post
    requires TagName(other) && other[0] != tag[0]
    ensures !MatchesAt(pre + Open(tag) + body + Close(tag) + post, Open(other), j)
  {
    var s := pre + Open(tag) + body + Close(tag) + post;
    var a := |pre|;
    var c := a + |Open(tag)| + |body|;
    if j + |Open(other)| <= |s| {
      var m := s[j..j + |Open(other)|];
      assert m[0] == s[j] && m[1] == s[j + 1];
      assert Open(other)[1] == other[0];
      if j == a {
        assert s[j + 1] == Open(tag)[1] == tag[0];
      } else if j == c {
        assert s[j + 1] == Close(tag)[1] == '/';
      } else {
        AnglesOfSection(pre, tag, body, post, j);
      }
    }
  }

  /** Without an opening tag there is no section. */
  lemma NoOpenNoSection(text: string, tag: string)
    requires forall j :: 0 <= j <= |text| ==> !MatchesAt(text, Open(tag), j)
    ensures TagContent(text, tag) == None
  {
  }

  /** In a reply with a single section, another tag name is nowhere. */
  lemma OtherTagAbsent(pre: string, tag: string, body: string, post: string, other: string)
    requires TagName(tag) && '<' !in pre && '<' !in body && '<' !in post
    requires TagName(other) && other[0] != tag[0]
    ensures TagContent(pre + Open(tag) + body + Close(tag) + post, other) == None
  {
    var s := pre + Open(tag) + body + Close(tag) + post;
    forall j | 0 <= j <= |s| ensures !MatchesAt(s, Open(other), j) {
      OtherOpenNotAt(pre, tag, body, post, other, j);
    }
    NoOpenNoSection(s, other);
  }

  /** The four tag names a reply may use. */
  lemma ReplyTagNames()
    ensures TagName("content") && TagName("polished") && TagName("title") && TagName("tags")
  {
  }

  /** A reply whose only section is a non-blank `<polished>` yields that section as the content and nothing else. */
  lemma ExtractPolishedOnly(s: string, text: string)
    requires TagContent(s, "content") == None && TagContent(s, "title") == None && TagContent(s, "tags") == None
    requires TagContent(s, "polished") == Some(text) && text != ""
    ensures ExtractPolished(s) == Some(Polished(Some(text), None, None))
  {
  }

  /** A reply in the older form, with its text in `<polished>` only, still yields that text as the content. */
  lemma LegacyPolishedSection(pre: string, body: string, post: string)
    requires '<' !in pre && '<' !in body && '<' !in post
    requires Trim(body) != ""
    ensures ExtractPolished(pre + Open("polished") + body + Close("polished") + post)
            == Some(Polished(Some(Trim(body)), None, None))
  {
    var s := pre + Open("polished") + body + Close("polished") + post;
    ReplyTagNames();
    OtherTagAbsent(pre, "polished", body, post, "content");
    OtherTagAbsent(pre, "polished", body, post, "title");
    OtherTagAbsent(pre, "polished", body, post, "tags");
    TagContentOfSection(pre, "polished", body, post);
    ExtractPolishedOnly(s, Trim(body));
  }

  // ---------------------------------------------------------------------------
  // The text shown
  // ---------------------------------------------------------------------------

  /** `text.replace(/<t>[\s\S]*?<\/t>/g, '')`: sections removed left to right, each search resuming after the last removal. */
  function RemoveSections(text: string, tag: string): (r: string)
    ensures |r| <= |text|
    ensures SectionAt(text, tag).None? ==> r == text
    decreases |text|
  {
    var section := SectionAt(text, tag);
    if section.None? then text
    else text[..section.value.0] + RemoveSections(text[section.value.1 + |Close(tag)|..], tag)
  }

  /** `cleanTextForDisplay` */
  function CleanForDisplay(text: string): (r: string)
    ensures |r| <= |text|
  {
    var a := RemoveSections(text, "content");
    var b := RemoveSections(a, "polished");
    var c := RemoveSections(b, "title");
    var d := RemoveSections(c, "tags");
    Trim(d)
  }

  /** A reply without tags is shown trimmed and otherwise as it is. */
  lemma CleanPlainReply(text: string)
    requires '<' !in text
    ensures CleanForDisplay(text) == Trim(text)
  {
    NoAngleNoSection(text, "content");
    NoAngleNoSection(text, "polished");
    NoAngleNoSection(text, "title");
    NoAngleNoSection(text, "tags");
  }

  /** One removal step. */
  lemma RemoveSectionsStep(s: string, tag: string)
    requires SectionAt(s, tag).Some?
    ensures SectionAt(s, tag).value.1 + |Close(tag)| <= |s|
    ensures RemoveSections(s, tag) == s[..SectionAt(s, tag).value.0] + RemoveSections(s[SectionAt(s, tag).value.1 + |Close(tag)|..], tag)
  {
  }

  /** When the first section is all that separates `pre` from a `post` without sections, removal leaves `pre + post`. */
  lemma RemoveOnlySection(s: string, tag: string, pre: string, post: string)
    requires SectionAt(s, tag).Some?
    requires SectionAt(s, tag).value.0 == |pre| && s[..|pre|] == pre
    requires SectionAt(s, tag).value.1 + |Close(tag)| <= |s| && s[SectionAt(s, tag).value.1 + |Close(tag)|..] == post
    requires SectionAt(post, tag).None?
    ensures RemoveSections(s, tag) == pre + post
  {
    RemoveSectionsStep(s, tag);
  }

  /** Removing the sections of `pre <tag>body</tag> post` leaves `pre + post`. */
  lemma RemoveSingleSection(pre: string, tag: string, body: string, post: string)
    requires TagName(tag) && '<' !in pre && '<' !in body && '<' !in post
    ensures RemoveSections(pre + Open(tag) + body + Close(tag) + post, tag) == pre + post
  {
    var s := pre + Open(tag) + body + Close(tag) + post;
    var section := Open(tag) + body + Close(tag);
    SectionOfLayout(pre, tag, body, post);
    RegroupLayout(pre, Open(tag), body, Close(tag), post);
    AroundLayout(pre, section, post);
    NoAngleNoSection(post, tag);
    RemoveOnlySection(s, tag, pre, post);
  }

  /** A reply `pre <content>body</content> post` is shown as its surrounding text: the section is gone. */
  lemma CleanRemovesSection(pre: string, body: string, post: string)
    requires '<' !in pre && '<' !in body && '<' !in post
    ensures CleanForDisplay(pre + Open("content") + body + Close("content") + post) == Trim(pre + post)
  {
    RemoveSingleSection(pre, "content", body, post);
    assert '<' !in pre + post;
    NoAngleNoSection(pre + post, "polished");
    NoAngleNoSection(pre + post, "title");
    NoAngleNoSection(pre + post, "tags");
  }

  // ---------------------------------------------------------------------------
  // The assistant conversation
  // ---------------------------------------------------------------------------

  /** Message ids: the greeting's `'init'` or a timestamp. */
  datatype MessageId = Init | Stamp(n: int)

  datatype Message = Message(id: MessageId, role: string, content: string)

  /** What the polishing request sends per message. */
  datatype Turn = Turn(role: string, content: string)

  const GreetingText: string := "Hi! I'm your writing assistant. I can help you polish your diary, fix grammar, or suggest improvements. Just ask or click 'One-Click Polish'!"
  const OneClickRequest: string := "Please polish this diary entry to make it flow better and correct any mistakes."

  /** The conversation shown when the assistant opens: the greeting when it is empty. */
  function OnOpen(ms: seq<Message>): (r: seq<Message>)
    ensures |ms| == 0 ==> r == [Message(Init, "assistant", GreetingText)]
    ensures |ms| > 0 ==> r == ms
  {
    if |ms| == 0 then [Message(Init, "assistant", GreetingText)] else ms
  }

  /** The first request turn: the draft as context, from the user. */
  function DraftTurn(draft: string): Turn {
    Turn("user", "Here is my current diary draft:\n\n\"" + draft + "\"\n\n(Please use this as the context for my requests)")
  }

  predicate NotGreeting(m: Message) { m.id != Init }

  function TurnsOf(ms: seq<Message>): (r: seq<Turn>)
    ensures |r| == |ms| && forall k :: 0 <= k < |ms| ==> r[k] == Turn(ms[k].role, ms[k].content)
  {
    seq(|ms|, k requires 0 <= k < |ms| => Turn(ms[k].role, ms[k].content))
  }

  /** The request history: the draft turn, then every message but the greeting, in order. */
  function ApiHistory(ms: seq<Message>, draft: string): (r: seq<Turn>)
    ensures |r| >= 1 && r[0] == DraftTurn(draft)
    ensures r[1..] == TurnsOf(Filter(ms, NotGreeting))
    ensures |r| <= |ms| + 1
  {
    [DraftTurn(draft)] + TurnsOf(Filter(ms, NotGreeting))
  }

  /** One more message that is not the greeting adds exactly its turn at the end of the history. */
  lemma ApiHistorySnoc(ms: seq<Message>, m: Message, draft: string)
    requires m.id != Init
    ensures ApiHistory(ms + [m], draft) == ApiHistory(ms, draft) + [Turn(m.role, m.content)]
  {
    var kept, d, t := Filter(ms, NotGreeting), DraftTurn(draft), Turn(m.role, m.content);
    FilterAppend(ms, [m], NotGreeting);
    FilterAll([m], NotGreeting);
    TurnsOfSnoc(kept, m);
    assert ApiHistory(ms + [m], draft) == [d] + (TurnsOf(kept) + [t]);
    assert ApiHistory(ms, draft) == [d] + TurnsOf(kept);
    AppendAssoc([d], TurnsOf(kept), [t]);
  }

  /** `a + (b + c) == (a + b) + c` */
  lemma AppendAssoc<T>(a: seq<T>, b: seq<T>, c: seq<T>)
    ensures a + (b + c) == (a + b) + c
  {
  }

  /** One more message adds its turn at the end. */
  lemma TurnsOfSnoc(ms: seq<Message>, m: Message)
    ensures TurnsOf(ms + [m]) == TurnsOf(ms) + [Turn(m.role, m.content)]
  {
    assert forall k :: 0 <= k < |ms| ==> (ms + [m])[k] == ms[k];
  }

  /** `handleSend` acts only on non-blank text and while no request is running. */
  predicate AcceptsSend(text: string, processing: bool) {
    Trim(text) != "" && !processing
  }

  /** The conversation after accepting a message: the user's message appended. */
  function Send(ms: seq<Message>, text: string, processing: bool, now: int): (r: seq<Message>)
    ensures !AcceptsSend(text, processing) ==> r == ms
    ensures AcceptsSend(text, processing) ==> r == ms + [Message(Stamp(now), "user", text)]
  {
    if AcceptsSend(text, processing) then ms + [Message(Stamp(now), "user", text)] else ms
  }

  /** `handleReroll` acts only on a last assistant reply that is not the greeting, with no request running. */
  predicate MayReroll(ms: seq<Message>, processing: bool) {
    !processing && |ms| > 0 && ms[|ms| - 1].role == "assistant" && ms[|ms| - 1].id != Init
  }

  /** The conversation a reroll asks again from: the last reply removed, and nothing else. */
  function Reroll(ms: seq<Message>, processing: bool): (r: seq<Message>)
    ensures !MayReroll(ms, processing) ==> r == ms
    ensures MayReroll(ms, processing) ==> |r| == |ms| - 1 && r == ms[..|ms| - 1]
  {
    if MayReroll(ms, processing) then ms[..|ms| - 1] else ms
  }

  /** A reroll changes the conversation exactly when it is allowed, and then only by its last reply. */
  lemma RerollActsIff(ms: seq<Message>, processing: bool)
    ensures Reroll(ms, processing) != ms <==> MayReroll(ms, processing)
    ensures MayReroll(ms, processing) ==> Reroll(ms, processing) + [ms[|ms| - 1]] == ms
  {
    if MayReroll(ms, processing) {
      assert |Reroll(ms, processing)| < |ms|;
    }
  }

  /** A reroll asks with the history of the original request: the history minus the dropped reply's turn. */
  lemma RerollHistory(ms: seq<Message>, processing: bool, draft: string)
    requires MayReroll(ms, processing)
    ensures ApiHistory(Reroll(ms, processing), draft) + [Turn(ms[|ms| - 1].role, ms[|ms| - 1].content)] == ApiHistory(ms, draft)
  {
    var last := ms[|ms| - 1];
    assert ms == Reroll(ms, processing) + [last];
    ApiHistorySnoc(Reroll(ms, processing), last, draft);
  }
}
