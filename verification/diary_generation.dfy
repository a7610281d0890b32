/**
 Turning a chat into a diary (`generateDiary`) and a written entry into a
 memory note (`generateBriefing`): which writing style is used, how the
 reply's tags are normalised, and what is returned when the reply is not
 the JSON object asked for. The model call, and the JSON parser, are
 outside this model: their outcome is a parameter.
 */
module DiaryGeneration {
  import opened Common
  import opened Json
  import DiaryStore

  // ---------------------------------------------------------------------------
  // Style
  // ---------------------------------------------------------------------------

  datatype Style = NoAiTrace | WithAiTrace

  /** The style asked for by name; an unknown name falls back to writing without AI traces. */
  function StyleOf(name: string): (s: Style)
    ensures name == "with_ai_trace" <==> s == WithAiTrace
  {
    if name == "with_ai_trace" then WithAiTrace else NoAiTrace
  }

  // ---------------------------------------------------------------------------
  // The parsed reply
  // ---------------------------------------------------------------------------

  /** `tags` made a list when it is missing or falsy (empty) or a single string; any other truthy value is left as it is. */
  function NormalTags(fields: map<string, Json>): (r: map<string, Json>)
    ensures r.Keys == fields.Keys + {"tags"}
    ensures forall k :: k in fields && k != "tags" ==> r[k] == fields[k]
    ensures !TruthyAt(fields, "tags") ==> r["tags"] == JArr([])
    ensures TruthyAt(fields, "tags") && fields["tags"].JStr? ==> r["tags"] == JArr([fields["tags"]])
    ensures TruthyAt(fields, "tags") && !fields["tags"].JStr? ==> r["tags"] == fields["tags"]
  {
    if !TruthyAt(fields, "tags") then fields["tags" := JArr([])]
    else if fields["tags"].JStr? then fields["tags" := JArr([fields["tags"]])]
    else fields
  }

  /** A reply whose tags are already a list keeps them; normalising twice is normalising once. */
  lemma NormalTagsStable(fields: map<string, Json>)
    ensures TruthyAt(fields, "tags") && fields["tags"].JArr? ==> NormalTags(fields) == fields
    ensures NormalTags(NormalTags(fields)) == NormalTags(fields)
  {
    var once := NormalTags(fields);
    if !TruthyAt(fields, "tags") || fields["tags"].JStr? {
      assert once["tags"].JArr? && |once["tags"].items| <= 1;
      if TruthyAt(fields, "tags") {
        assert Truthy(once["tags"]);
      } else {
        assert once["tags"] == JArr([]);
      }
    }
  }

  // ---------------------------------------------------------------------------
  // The fallback for a reply that is not JSON
  // ---------------------------------------------------------------------------

  /** `tag` (lower case) occurs at `i`, ignoring the case of letters. */
  predicate TagAt(s: string, tag: string, i: nat) {
    i + |tag| <= |s| && Lower(s[i..i + |tag|]) == tag
  }

  /** A tag starts with `<`, and so does any text matching it. */
  lemma TagAtStartsWithAngle(s: string, tag: string, i: nat)
    requires |tag| > 0 && tag[0] == '<' && TagAt(s, tag, i)
    ensures s[i] == '<'
  {
    assert LowerChar(s[i]) == Lower(s[i..i + |tag|])[0];
  }

  /** `<name>` */
  function OpenTag(name: string): (t: string)
    ensures |t| == |name| + 2 && t[0] == '<'
  {
    "<" + name + ">"
  }

  /** `</name>` */
  function CloseTag(name: string): (t: string)
    ensures |t| == |name| + 3 && t[0] == '<'
  {
    "</" + name + ">"
  }

  /** `s.replace(/<\/?name>/gi, '')`: every opening and closing tag of that name removed, scanning left to right without rescanning. */
  function RemoveTag(s: string, name: string): (r: string)
    ensures |r| <= |s|
    ensures '<' !in s ==> r == s
    decreases |s|
  {
    var open := OpenTag(name);
    var close := CloseTag(name);
    if |s| == 0 then ""
    else if TagAt(s, open, 0) then
      TagAtStartsWithAngle(s, open, 0);
      RemoveTag(s[|open|..], name)
    else if TagAt(s, close, 0) then
      TagAtStartsWithAngle(s, close, 0);
      RemoveTag(s[|close|..], name)
    else
      assert s[0] != '<' ==> !TagAt(s, open, 0) && !TagAt(s, close, 0);
      [s[0]] + RemoveTag(s[1..], name)
  }

  /** The page wrapper some models add: `html` and `body` tags removed, in that order, then the text trimmed. */
  function StripPage(s: string): (r: string)
    ensures |r| <= |s|
  {
    Trim(RemoveTag(RemoveTag(s, "html"), "body"))
  }

  /** Where no tag of the name starts, the first character is kept. */
  lemma RemoveTagKeepsFirst(s: string, name: string)
    requires |s| > 0 && !TagAt(s, OpenTag(name), 0) && !TagAt(s, CloseTag(name), 0)
    ensures RemoveTag(s, name) == [s[0]] + RemoveTag(s[1..], name)
  {
  }

  /** A first character other than `<` is kept. */
  lemma RemoveTagKeepsPlainFirst(s: string, name: string)
    requires |s| > 0 && s[0] != '<'
    ensures RemoveTag(s, name) == [s[0]] + RemoveTag(s[1..], name)
  {
    if TagAt(s, OpenTag(name), 0) { TagAtStartsWithAngle(s, OpenTag(name), 0); }
    if TagAt(s, CloseTag(name), 0) { TagAtStartsWithAngle(s, CloseTag(name), 0); }
  }

  /** A tag of the name at the front is dropped. */
  lemma RemoveTagDropsOpen(s: string, name: string)
    requires TagAt(s, OpenTag(name), 0)
    ensures RemoveTag(s, name) == RemoveTag(s[|name| + 2..], name)
  {
  }

  /** A closing tag of the name at the front is dropped. */
  lemma RemoveTagDropsClose(s: string, name: string)
    requires !TagAt(s, OpenTag(name), 0) && TagAt(s, CloseTag(name), 0)
    ensures RemoveTag(s, name) == RemoveTag(s[|name| + 3..], name)
  {
  }

  /** Growing a prefix of `pre` by one character, seen from the right. */
  lemma PrefixStep(pre: string, k: int, u: string)
    requires 0 <= k < |pre|
    ensures pre[..k] + ([pre[k]] + u) == pre[..k + 1] + u
  {
    assert pre[..k + 1] == pre[..k] + [pre[k]];
  }

  /** Text without `<` in front of the rest passes through unchanged. */
  lemma RemoveTagPlainPrefix(pre: string, rest: string, name: string)
    requires '<' !in pre
    ensures RemoveTag(pre + rest, name) == pre + RemoveTag(rest, name)
  {
    var s := pre + rest;
    var k := 0;
    while k < |pre|
      invariant 0 <= k <= |pre|
      invariant RemoveTag(s, name) == pre[..k] + RemoveTag(s[k..], name)
    {
      var t := s[k..];
      assert t[0] == pre[k];
      RemoveTagKeepsPlainFirst(t, name);
      assert t[1..] == s[k + 1..];
      PrefixStep(pre, k, RemoveTag(s[k + 1..], name));
      k := k + 1;
    }
    assert s[|pre|..] == rest && pre[..|pre|] == pre;
  }

  /** A tag name: lower-case ASCII letters. */
  predicate TagName(name: string) {
    |name| > 0 && forall i :: 0 <= i < |name| ==> 'a' <= name[i] <= 'z'
  }

  /** A tag of a tag name has no capital letters, so it matches itself. */
  lemma TagMatchesItself(tag: string, rest: string, name: string)
    requires TagName(name) && (tag == OpenTag(name) || tag == CloseTag(name))
    ensures TagAt(tag + rest, tag, 0)
  {
    var s := tag + rest;
    assert s[..|tag|] == tag;
    forall i | 0 <= i < |tag| ensures LowerChar(tag[i]) == tag[i] {
      if tag == OpenTag(name) {
        if 0 < i < |tag| - 1 { assert tag[i] == name[i - 1]; }
      } else {
        if 1 < i < |tag| - 1 { assert tag[i] == name[i - 2]; }
      }
    }
  }

  /** A closing tag is not an opening tag of any tag name. */
  lemma CloseNotOpen(b: string, rest: string, a: string)
    requires TagName(a)
    ensures !TagAt(CloseTag(b) + rest, OpenTag(a), 0)
  {
    var s := CloseTag(b) + rest;
    assert s[1] == '/' && OpenTag(a)[1] == a[0];
    assert |s| >= |a| + 2 ==> Lower(s[..|a| + 2])[1] == '/';
  }

  /** Closing tags of names with different first letters do not match each other. */
  lemma CloseNotOtherClose(b: string, rest: string, a: string)
    requires TagName(a) && TagName(b) && a[0] != b[0]
    ensures !TagAt(CloseTag(b) + rest, CloseTag(a), 0)
  {
    var s := CloseTag(b) + rest;
    assert s[2] == b[0] && CloseTag(a)[2] == a[0];
    assert |s| >= |a| + 3 ==> Lower(s[..|a| + 3])[2] == b[0];
  }

  /** A `<` that starts no tag of the name, followed by `<`-free text, is kept with it. */
  lemma RemoveTagKeepsLoneAngle(t: string, name: string)
    requires '<' !in t
    requires !TagAt(['<'] + t, OpenTag(name), 0) && !TagAt(['<'] + t, CloseTag(name), 0)
    ensures RemoveTag(['<'] + t, name) == ['<'] + t
  {
    RemoveTagKeepsFirst(['<'] + t, name);
    assert (['<'] + t)[1..] == t;
  }

  /** A closing tag of another name, followed by `<`-free text, is left as it is. */
  lemma RemoveTagKeepsOtherClose(b: string, rest: string, a: string)
    requires TagName(a) && TagName(b) && a[0] != b[0] && '<' !in rest
    ensures RemoveTag(CloseTag(b) + rest, a) == CloseTag(b) + rest
  {
    var t := "/" + b + ">" + rest;
    CloseTagSplits(b, rest);
    CloseNotOpen(b, rest, a);
    CloseNotOtherClose(b, rest, a);
    assert '<' !in t by {
      assert '<' !in b by {
        forall i | 0 <= i < |b| ensures b[i] != '<' { assert 'a' <= b[i] <= 'z'; }
      }
      assert '<' !in "/" + b + ">";
    }
    RemoveTagKeepsLoneAngle(t, a);
  }

  /** A closing tag followed by text is `<` and the rest. */
  lemma CloseTagSplits(b: string, rest: string)
    ensures CloseTag(b) + rest == ['<'] + ("/" + b + ">" + rest)
  {
  }

  /**
   One pass over `pre<a>body</b>post`, with `<`-free parts and names of
   different first letters: the pass for `a` removes only the opening tag.
   */
  lemma FirstPass(pre: string, body: string, post: string, a: string, b: string)
    requires '<' !in pre && '<' !in body && '<' !in post
    requires TagName(a) && TagName(b) && a[0] != b[0]
    ensures RemoveTag(pre + OpenTag(a) + body + CloseTag(b) + post, a) == (pre + body) + (CloseTag(b) + post)
  {
    var close := CloseTag(b) + post;
    var tail := body + close;
    Regroup(pre, OpenTag(a), body, CloseTag(b), post);
    calc {
      RemoveTag(pre + OpenTag(a) + body + CloseTag(b) + post, a);
      RemoveTag(pre + (OpenTag(a) + tail), a);
      { RemoveTagPlainPrefix(pre, OpenTag(a) + tail, a); }
      pre + RemoveTag(OpenTag(a) + tail, a);
      { RemoveTagSkipsOpen(tail, a); }
      pre + RemoveTag(tail, a);
      { RemoveTagPlainPrefix(body, close, a); RemoveTagKeepsOtherClose(b, post, a); }
      pre + (body + close);
    }
  }

  /** `pre + x + body + y + post`, grouped from the right. */
  lemma Regroup(pre: string, x: string, body: string, y: string, post: string)
    ensures pre + x + body + y + post == pre + (x + (body + (y + post)))
  {
  }

  /** An opening tag of a tag name at the front is dropped. */
  lemma RemoveTagSkipsOpen(tail: string, a: string)
    requires TagName(a)
    ensures RemoveTag(OpenTag(a) + tail, a) == RemoveTag(tail, a)
  {
    TagMatchesItself(OpenTag(a), tail, a);
    RemoveTagDropsOpen(OpenTag(a) + tail, a);
    assert (OpenTag(a) + tail)[|a| + 2..] == tail;
  }

  /** The pass for `b` then removes the closing tag. */
  lemma SecondPass(text: string, post: string, a: string, b: string)
    requires '<' !in text && '<' !in post
    requires TagName(a) && TagName(b) && a[0] != b[0]
    ensures RemoveTag(text + (CloseTag(b) + post), b) == text + post
  {
    RemoveTagPlainPrefix(text, CloseTag(b) + post, b);
    var s := CloseTag(b) + post;
    TagMatchesItself(CloseTag(b), post, b);
    CloseNotOpen(b, post, b);
    RemoveTagDropsClose(s, b);
    assert s[|b| + 3..] == post;
  }

  /** A reply wrapped as `pre<html>body</body>post`, with no other `<`, is shown as its text without the tags, trimmed. */
  lemma StripPageUnwraps(pre: string, body: string, post: string)
    requires '<' !in pre && '<' !in body && '<' !in post
    ensures StripPage(pre + "<html>" + body + "</body>" + post) == Trim(pre + body + post)
  {
    assert TagName("html") && TagName("body");
    assert OpenTag("html") == "<html>" && CloseTag("body") == "</body>";
    FirstPass(pre, body, post, "html", "body");
    assert '<' !in pre + body;
    SecondPass(pre + body, post, "html", "body");
    assert (pre + body) + post == pre + body + post;
  }

  /** A reply without any `<` is only trimmed. */
  lemma StripPlainText(s: string)
    requires '<' !in s
    ensures StripPage(s) == Trim(s)
  {
  }

  // ---------------------------------------------------------------------------
  // The code block a reply may wrap its JSON in
  // ---------------------------------------------------------------------------

  const Fence: string := "```"

  /** Where the block's text starts after the fence at `p`: past an optional `json` (any case) and the white space after it. */
  function BlockStart(s: string, p: nat): (start: nat)
    requires MatchesAt(s, Fence, p)
    ensures p + |Fence| <= start <= |s|
    ensures start == |s| || !IsSpace(s[start])
  {
    var a := if p + 7 <= |s| && Lower(s[p + 3..p + 7]) == "json" then p + 7 else p + 3;
    SpaceRunEnd(s, a)
  }

  /**
   `reply.match(/```(?:json)?\s*([\s\S]*?)\s*```/i)`: the captured text of
   the first fenced block, with the white space inside the fences left out.
   A match needs a closing fence at or after where the text starts; the text
   ends where the white space before the nearest such fence begins.
   */
  function CodeBlock(s: string): (r: Option<string>)
    ensures (forall k :: !MatchesAt(s, Fence, k)) ==> r.None?
    ensures r.Some? ==> forall k :: !MatchesAt(r.value, Fence, k)
    ensures r.Some? ==> r.value == [] || (!IsSpace(r.value[0]) && !IsSpace(r.value[|r.value| - 1]))
  {
    match IndexOf(s, Fence, 0)
    case None => None
    case Some(p) =>
      var start := BlockStart(s, p);
      match IndexOf(s, Fence, start)
      case None => None
      case Some(w) =>
        var e := SpaceRunStart(s, start, w);
        BlockHasNoFence(s, start, e, w);
        Some(s[start..e])
  }

  /** A slice that ends before the first fence from its start holds no fence. */
  lemma BlockHasNoFence(s: string, start: nat, e: nat, w: nat)
    requires start <= e <= w <= |s|
    requires forall j :: start <= j < w ==> !MatchesAt(s, Fence, j)
    ensures forall k :: !MatchesAt(s[start..e], Fence, k)
  {
    forall k | MatchesAt(s[start..e], Fence, k) ensures false {
      SubSlice(s, start, e, s[start..e], k, k + |Fence|);
      assert MatchesAt(s, Fence, start + k);
    }
  }

  /** The text `JSON.parse` is given: the code block's text when there is a non-empty one, else the whole reply. */
  function Unfenced(reply: string): (t: string)
    ensures CodeBlock(reply).Some? && CodeBlock(reply).value != "" ==> t == CodeBlock(reply).value
    ensures CodeBlock(reply).None? || CodeBlock(reply).value == "" ==> t == reply
    ensures |t| <= |reply|
  {
    match CodeBlock(reply)
    case Some(b) => if b != "" then (CodeBlockIsSlice(reply); b) else reply
    case None => reply
  }

  /** The code block is a slice of the reply. */
  lemma CodeBlockIsSlice(s: string)
    requires CodeBlock(s).Some?
    ensures |CodeBlock(s).value| <= |s|
  {
  }

  /** A reply without a backtick is parsed as it is. */
  lemma UnfencedPlain(reply: string)
    requires '`' !in reply
    ensures Unfenced(reply) == reply
  {
    NoFenceIn(reply, 0, |reply|, reply);
  }

  /** A reply holding one fenced block: `pre`, a fence, `lang` and a line break, `body`, a line break, a fence, `post`. */
  function FencedReply(pre: string, lang: string, body: string, post: string): string
  {
    pre + (Fence + lang + "\n") + body + ("\n" + Fence + post)
  }

  /** No backtick before the block or inside it, a language name the pattern skips, and a body without white space at its ends. */
  predicate PlainBlock(pre: string, lang: string, body: string)
  {
    && '`' !in pre && '`' !in body
    && (lang == "" || lang == "json" || lang == "JSON")
    && |body| > 0 && !IsSpace(body[0]) && !IsSpace(body[|body| - 1])
  }

  /**
   `s` laid out as such a reply: `pre` up to `p`, a fence, `lang`, a line
   break, `body` from `start` to `e`, a line break, a fence and `post`.
   */
  predicate LaidOut(s: string, pre: string, lang: string, body: string, post: string, p: nat, start: nat, e: nat)
  {
    && p == |pre| && start == p + 4 + |lang| && e == start + |body| && e <= |s|
    && s[..p] == pre && s[p..p + 3] == Fence && s[p + 3..start - 1] == lang && s[start - 1] == '\n'
    && s[start..e] == body && s[e..] == "\n" + Fence + post
  }

  /** Such a reply is parsed as its body. */
  lemma UnfencedBlock(pre: string, lang: string, body: string, post: string)
    requires PlainBlock(pre, lang, body)
    ensures Unfenced(FencedReply(pre, lang, body, post)) == body
  {
    var p := |pre|;
    var start := p + 4 + |lang|;
    var e := start + |body|;
    FencedReplyParts(pre, lang, body, post, p, start, e);
    UnfencedLaidOut(FencedReply(pre, lang, body, post), pre, lang, body, post, p, start, e);
  }

  /** A fenced reply is laid out as its parts say. */
  lemma FencedReplyParts(pre: string, lang: string, body: string, post: string, p: nat, start: nat, e: nat)
    requires p == |pre| && start == p + 4 + |lang| && e == start + |body|
    ensures LaidOut(FencedReply(pre, lang, body, post), pre, lang, body, post, p, start, e)
  {
    var head := Fence + lang + "\n";
    var s := FencedReply(pre, lang, body, post);
    SplitFenced(pre, head, body, "\n" + Fence + post);
    HeadParts(lang);
    SubSlice(s, p, p + |head|, head, 0, 3);
    SubSlice(s, p, p + |head|, head, 3, 3 + |lang|);
    assert s[p + 3 + |lang|] == s[p..p + |head|][3 + |lang|];
  }

  /** A reply laid out like that is parsed as its body. */
  lemma UnfencedLaidOut(s: string, pre: string, lang: string, body: string, post: string, p: nat, start: nat, e: nat)
    requires PlainBlock(pre, lang, body) && LaidOut(s, pre, lang, body, post, p, start, e)
    ensures Unfenced(s) == body
  {
    BlockLaidOut(s, pre, lang, body, post, p, start, e);
    UnfencedIsBlock(s, body);
  }

  /** The code block of a reply laid out like that is its body. */
  lemma BlockLaidOut(s: string, pre: string, lang: string, body: string, post: string, p: nat, start: nat, e: nat)
    requires PlainBlock(pre, lang, body) && LaidOut(s, pre, lang, body, post, p, start, e)
    ensures CodeBlock(s) == Some(body)
  {
    FirstFence(s, pre, p);
    assert s[start] == body[0];
    LangSkipped(s, p, lang, start);
    CloseFence(s, start, e, e + 1, body, post);
    CodeBlockAt(s, p, start, e + 1, e);
  }

  /** A non-empty code block is what is parsed. */
  lemma UnfencedIsBlock(s: string, b: string)
    requires CodeBlock(s) == Some(b) && b != ""
    ensures Unfenced(s) == b
  {
  }

  /** The block found from the first fence, where its text starts and the closing fence. */
  lemma CodeBlockAt(s: string, p: nat, start: nat, w: nat, e: nat)
    requires MatchesAt(s, Fence, p) && IndexOf(s, Fence, 0) == Some(p)
    requires BlockStart(s, p) == start && IndexOf(s, Fence, start) == Some(w)
    requires SpaceRunStart(s, start, w) == e
    ensures e <= |s| && CodeBlock(s) == Some(s[start..e])
  {
  }

  /** A slice of a slice. */
  lemma SubSlice(s: string, i: nat, j: nat, t: string, a: nat, b: nat)
    requires i <= j <= |s| && s[i..j] == t && a <= b <= |t|
    ensures s[i + a..i + b] == t[a..b]
  {
    forall k | 0 <= k < b - a ensures s[i + a..i + b][k] == t[a..b][k] {
      assert s[i + a..i + b][k] == s[i + a + k] == s[i..j][a + k];
    }
  }

  /** The four parts of a fenced reply, as slices of it. */
  lemma SplitFenced(pre: string, head: string, body: string, tail: string)
    ensures var s := pre + head + body + tail;
            s[..|pre|] == pre && s[|pre|..|pre| + |head|] == head
            && s[|pre| + |head|..|pre| + |head| + |body|] == body && s[|pre| + |head| + |body|..] == tail
  {
  }

  /** The opening of a fence: the fence, the language name and a line break. */
  lemma HeadParts(lang: string)
    ensures var head := Fence + lang + "\n";
            |head| == 4 + |lang| && head[..3] == Fence && head[3..3 + |lang|] == lang && head[3 + |lang|] == '\n'
  {
  }

  /** The first fence of the reply is the one right after `pre`. */
  lemma FirstFence(s: string, pre: string, p: nat)
    requires '`' !in pre && p == |pre|
    requires p + 3 <= |s| && s[..p] == pre && s[p..p + 3] == Fence
    ensures MatchesAt(s, Fence, p) && IndexOf(s, Fence, 0) == Some(p)
  {
    NoFenceIn(s, 0, p, pre);
    IndexOfFinds(s, Fence, 0, p);
  }

  /** After the body and a line break comes the closing fence, the nearest one, and the body is the block. */
  lemma CloseFence(s: string, start: nat, e: nat, w: nat, body: string, post: string)
    requires '`' !in body && |body| > 0 && !IsSpace(body[|body| - 1])
    requires e == start + |body| && w == e + 1
    requires start < |s| && e <= |s| && s[start..e] == body
    requires s[e..] == "\n" + Fence + post
    ensures start <= e < w <= |s|
    ensures IndexOf(s, Fence, start) == Some(w)
    ensures SpaceRunStart(s, start, w) == e
  {
    assert s[w - 1] == '\n';
    assert s[w..w + 3] == Fence;
    NoFenceIn(s, start, start + |body|, body);
    IndexOfFinds(s, Fence, start, w);
    assert s[w - 2] == body[|body| - 1];
  }

  /** No fence starts inside a backtick-free stretch of the text. */
  lemma NoFenceIn(s: string, from: nat, to: nat, t: string)
    requires from <= to <= |s| && s[from..to] == t && '`' !in t
    ensures forall j :: from <= j < to ==> !MatchesAt(s, Fence, j)
  {
    forall j | from <= j < to ensures !MatchesAt(s, Fence, j) {
      assert s[j] == t[j - from];
      assert t[j - from] in t;
    }
  }

  /** After a fence followed by `lang` and a line break, the text starts after the line break. */
  lemma LangSkipped(s: string, p: nat, lang: string, start: nat)
    requires lang == "" || lang == "json" || lang == "JSON"
    requires start == p + 4 + |lang| && start < |s|
    requires s[p..p + 3] == Fence && s[p + 3..start - 1] == lang && s[start - 1] == '\n' && !IsSpace(s[start])
    ensures MatchesAt(s, Fence, p)
    ensures BlockStart(s, p) == start
  {
    var a := if p + 7 <= |s| && Lower(s[p + 3..p + 7]) == "json" then p + 7 else p + 3;
    if lang == "" {
      if p + 7 <= |s| {
        assert Lower(s[p + 3..p + 7])[0] == LowerChar(s[p + 3]) == '\n';
      }
    }
    assert a == p + 3 + |lang|;
    var j := SpaceRunEnd(s, a);
    assert IsSpace(s[a]);
    assert j == a + 1;
  }

  /** The diary returned when the text cannot be parsed: that text, cleaned, as its content, everything else fixed. */
  datatype DiaryDraft = DiaryDraft(title: string, content: string, mood: string, tags: seq<string>, summary: string)

  function FallbackDiary(text: string): (d: DiaryDraft)
    ensures d.title == "Generated Diary" && d.mood == "neutral" && d.tags == ["generated"]
    ensures d.summary == "Auto-generated diary entry."
    ensures d.content == StripPage(text)
  {
    DiaryDraft("Generated Diary", StripPage(text), "neutral", ["generated"], "Auto-generated diary entry.")
  }

  /** What the JSON parser made of the reply. */
  datatype Parsed = Object(fields: map<string, Json>) | NotJson

  datatype Generated = FromReply(fields: map<string, Json>) | Fallback(draft: DiaryDraft)

  /**
   `generateDiary`'s result: the parsed object with its tags normalised, or
   the fallback diary built from the text left once the code block is taken
   out. `parsed` is what `JSON.parse` made of `Unfenced(reply)`.
   */
  function Generate(reply: string, parsed: Parsed): (g: Generated)
    ensures parsed.Object? ==> g == FromReply(NormalTags(parsed.fields))
    ensures parsed.NotJson? ==> g == Fallback(FallbackDiary(Unfenced(reply)))
  {
    match parsed
    case Object(fields) => FromReply(NormalTags(fields))
    case NotJson => Fallback(FallbackDiary(Unfenced(reply)))
  }

  /** An unparsable fenced reply shows the text inside the fences, not the fences. */
  lemma FencedFallback(body: string)
    requires '`' !in body && '<' !in body
    requires |body| > 0 && !IsSpace(body[0]) && !IsSpace(body[|body| - 1])
    ensures Generate(FencedReply("", "json", body, ""), NotJson) == Fallback(FallbackDiary(body))
    ensures FallbackDiary(body).content == body
  {
    UnfencedBlock("", "json", body, "");
    StripPlainText(body);
    TrimOfTrimmed(body);
  }

  /** Whatever the reply, the result has tags: a list unless the model sent some other truthy value. */
  lemma GeneratedHasTags(reply: string, parsed: Parsed)
    ensures match Generate(reply, parsed)
            case FromReply(f) => "tags" in f && (f["tags"].JArr? || (Truthy(f["tags"]) && !f["tags"].JStr?))
            case Fallback(d) => d.tags == ["generated"]
  {
  }

  // ---------------------------------------------------------------------------
  // The memory note for a written entry
  // ---------------------------------------------------------------------------

  /** The note used when the briefing call or its parsing fails: the first hundred characters and an ellipsis, an unknown mood, nothing unfinished. */
  function FallbackBriefing(content: string): (b: DiaryStore.Briefing)
    ensures b.events == FirstN(content, 100) + "..."
    ensures |b.events| <= 103 && b.events[..|b.events| - 3] == content[..|b.events| - 3]
    ensures b.atmosphere == "Unknown" && b.unfinishedTopics.None?
  {
    DiaryStore.Briefing(FirstN(content, 100) + "...", "Unknown", None)
  }

  /** `generateBriefing`: the parsed note when there is one, else the fallback; it never fails. */
  function Briefing(content: string, parsed: Option<DiaryStore.Briefing>): (b: DiaryStore.Briefing)
    ensures parsed.Some? ==> b == parsed.value
    ensures parsed.None? ==> b == FallbackBriefing(content)
  {
    parsed.GetOr(FallbackBriefing(content))
  }

  /** A short entry's fallback note holds the whole entry. */
  lemma ShortEntryKeptWhole(content: string)
    requires |content| <= 100
    ensures Briefing(content, None).events == content + "..."
  {
  }
}
