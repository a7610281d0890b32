/**
 Shaping the chat request (`generateChatResponse` in `AIContext`): the
 OpenAI-style message list with the context prompt first, the earlier
 conversation, the rules prompt, and the latest run of user messages last;
 and the context it is built from — yesterday's tail of the transcript and
 the newest diaries before the active date. Prompt texts are opaque strings.
 */
module ChatRequest {
  import opened Common
  import opened Dates
  import DiaryStore
  import opened DiaryOrder
  import opened ChatMessages

  datatype Part = TextPart(text: string) | ImagePart(url: string)

  /** A message body: plain text, or the multimodal list of parts. */
  datatype Content = Text(text: string) | Parts(parts: seq<Part>)

  datatype ApiMessage = ApiMessage(role: string, content: Content)

  const ImageNote: string := "\n[User uploaded an image]"

  /** The API role of a transcript sender: only `'user'` stays a user; every other sender is the assistant. */
  function RoleOf(sender: string): (role: string)
    ensures role == "user" || role == "assistant"
    ensures role == "user" <==> sender == "user"
  {
    if sender == "user" then "user" else "assistant"
  }

  /** `formatMessageContent`: an image becomes a text part (a blank placeholder when there is no text) and an image part; any other attachment becomes a note after the text. */
  function FormatContent(m: ChatMessage): (c: Content)
    ensures c.Parts? <==> m.attachment.Some? && m.attachment.value.kind == "image"
    ensures c.Parts? ==>
              |c.parts| == 2 && c.parts[1] == ImagePart(m.attachment.value.url)
              && c.parts[0] == TextPart(if m.text == "" then " " else m.text)
    ensures c.Text? ==> StartsWith(c.text, m.text)
    ensures c.Text? && m.attachment.None? ==> c.text == m.text
    ensures c.Text? && m.attachment.Some? ==> c.text[|m.text|..] == ImageNote
  {
    if m.attachment.Some? && m.attachment.value.kind == "image" then
      Parts([TextPart(if m.text == "" then " " else m.text), ImagePart(m.attachment.value.url)])
    else
      Text(m.text + (if m.attachment.Some? then ImageNote else ""))
  }

  /** Index of the last message not sent by the user, or -1 when every message is. */
  function LastNonUser(h: seq<ChatMessage>): (k: int)
    ensures -1 <= k < |h|
    ensures k >= 0 ==> h[k].sender != "user"
    ensures forall i :: k < i < |h| ==> h[i].sender == "user"
  {
    if |h| == 0 then -1
    else if h[|h| - 1].sender != "user" then |h| - 1
    else LastNonUser(h[..|h| - 1])
  }

  /** The earlier conversation with roles mapped. */
  function MapHistory(h: seq<ChatMessage>): (r: seq<ApiMessage>)
    ensures |r| == |h|
    ensures forall i :: 0 <= i < |h| ==> r[i] == ApiMessage(RoleOf(h[i].sender), FormatContent(h[i]))
  {
    seq(|h|, i requires 0 <= i < |h| => ApiMessage(RoleOf(h[i].sender), FormatContent(h[i])))
  }

  /** The latest input block, every message sent as the user. */
  function UserBlock(h: seq<ChatMessage>): (r: seq<ApiMessage>)
    ensures |r| == |h|
    ensures forall i :: 0 <= i < |h| ==> r[i] == ApiMessage("user", FormatContent(h[i]))
  {
    seq(|h|, i requires 0 <= i < |h| => ApiMessage("user", FormatContent(h[i])))
  }

  /** The message list for a given split point. */
  function Sandwich(contextPrompt: string, rulesPrompt: string, history: seq<ChatMessage>, split: int): (r: seq<ApiMessage>)
    requires -1 <= split < |history|
    ensures |r| == |history| + 2
    ensures r[0] == ApiMessage("system", Text(Trim(contextPrompt)))
    ensures r[split + 2] == ApiMessage("system", Text(Trim(rulesPrompt)))
  {
    [ApiMessage("system", Text(Trim(contextPrompt)))]
    + MapHistory(history[..split + 1])
    + [ApiMessage("system", Text(Trim(rulesPrompt)))]
    + UserBlock(history[split + 1..])
  }

  /** In `[a] + xs + [b] + ys`, `xs` starts at index 1 and `ys` right after `b`. */
  lemma FourPartSlots<T>(a: T, xs: seq<T>, b: T, ys: seq<T>, i: int)
    requires 0 <= i
    ensures i < |xs| ==> ([a] + xs + [b] + ys)[i + 1] == xs[i]
    ensures i < |ys| ==> ([a] + xs + [b] + ys)[|xs| + 2 + i] == ys[i]
  {
  }

  /** Each history message lands one slot later up to the split and two slots later after it. */
  lemma SandwichSlot(contextPrompt: string, rulesPrompt: string, history: seq<ChatMessage>, split: int, i: int)
    requires -1 <= split < |history| && 0 <= i < |history|
    ensures i <= split ==> Sandwich(contextPrompt, rulesPrompt, history, split)[i + 1] == ApiMessage(RoleOf(history[i].sender), FormatContent(history[i]))
    ensures split < i ==> Sandwich(contextPrompt, rulesPrompt, history, split)[i + 2] == ApiMessage("user", FormatContent(history[i]))
  {
    var prev, block := history[..split + 1], history[split + 1..];
    var ctx, rules := ApiMessage("system", Text(Trim(contextPrompt))), ApiMessage("system", Text(Trim(rulesPrompt)));
    if i <= split {
      FourPartSlots(ctx, MapHistory(prev), rules, UserBlock(block), i);
      assert prev[i] == history[i];
    } else {
      var j := i - split - 1;
      FourPartSlots(ctx, MapHistory(prev), rules, UserBlock(block), j);
      assert block[j] == history[i];
    }
  }

  /** Where each history message lands in the request, and where the two system prompts are. */
  lemma SandwichShape(contextPrompt: string, rulesPrompt: string, history: seq<ChatMessage>, split: int)
    requires split == LastNonUser(history)
    ensures var api := Sandwich(contextPrompt, rulesPrompt, history, split);
      && |api| == |history| + 2
      && api[0] == ApiMessage("system", Text(Trim(contextPrompt)))
      && api[split + 2] == ApiMessage("system", Text(Trim(rulesPrompt)))
      && (forall i :: 0 <= i <= split ==> api[i + 1] == ApiMessage(RoleOf(history[i].sender), FormatContent(history[i])))
      && (forall i :: split < i < |history| ==> history[i].sender == "user" && api[i + 2] == ApiMessage("user", FormatContent(history[i])))
      && (forall i :: 0 <= i < |api| ==> (api[i].role == "system" <==> i == 0 || i == split + 2))
  {
    var api := Sandwich(contextPrompt, rulesPrompt, history, split);
    forall i | 0 <= i < |history|
      ensures i <= split ==> api[i + 1] == ApiMessage(RoleOf(history[i].sender), FormatContent(history[i]))
      ensures split < i ==> api[i + 2] == ApiMessage("user", FormatContent(history[i]))
    {
      SandwichSlot(contextPrompt, rulesPrompt, history, split, i);
    }
    forall k | 0 <= k < |api| ensures api[k].role == "system" <==> k == 0 || k == split + 2 {
      if 0 < k <= split + 1 {
        SandwichSlot(contextPrompt, rulesPrompt, history, split, k - 1);
      } else if split + 2 < k {
        SandwichSlot(contextPrompt, rulesPrompt, history, split, k - 2);
      }
    }
  }

  /**
   The request messages: context prompt, history up to and including the last
   non-user message (roles mapped), rules prompt, then the trailing user block
   (always role `'user'`). `split` is the index of the last non-user message.
   */
  method AssembleMessages(contextPrompt: string, rulesPrompt: string, history: seq<ChatMessage>)
    returns (api: seq<ApiMessage>, split: int)
    ensures split == LastNonUser(history)
    ensures |api| == |history| + 2
    ensures api[0] == ApiMessage("system", Text(Trim(contextPrompt)))
    ensures api[split + 2] == ApiMessage("system", Text(Trim(rulesPrompt)))
    ensures forall i :: 0 <= i <= split ==> api[i + 1] == ApiMessage(RoleOf(history[i].sender), FormatContent(history[i]))
    ensures forall i :: split < i < |history| ==> history[i].sender == "user" && api[i + 2] == ApiMessage("user", FormatContent(history[i]))
    ensures forall i :: 0 <= i < |api| ==> (api[i].role == "system" <==> i == 0 || i == split + 2)
  {
    if |history| > 0 {
      var i := |history| - 1;
      while i >= 0 && history[i].sender == "user"
        invariant -1 <= i < |history|
        invariant LastNonUser(history) == LastNonUser(history[..i + 1])
        decreases i
      {
        assert history[..i + 1][..i] == history[..i];
        i := i - 1;
      }
      assert i >= 0 ==> history[..i + 1][i] == history[i];
      split := i;
    } else {
      split := -1;
    }
    api := Sandwich(contextPrompt, rulesPrompt, history, split);
    SandwichShape(contextPrompt, rulesPrompt, history, split);
  }

  // ---------------------------------------------------------------------------
  // Yesterday's messages
  // ---------------------------------------------------------------------------

  /** The storage key of the day before the active date, or `None` when the active date is not a date with a day before it. */
  function PrevDayKey(activeDate: string): (key: Option<string>)
    ensures key.None? <==> ParseDate(activeDate).None? || ParseDate(activeDate) == Some(Date(1000, 1, 1))
    ensures key.Some? ==> |key.value| == 24 && key.value[..14] == "chat_messages_"
    ensures key.Some? ==>
              && ParseDate(activeDate).Some?
              && ParseDate(key.value[14..]).Some?
              && ParseDate(key.value[14..]).value != Date(9999, 12, 31)
              && NextDay(ParseDate(key.value[14..]).value) == ParseDate(activeDate).value
  {
    match ParseDate(activeDate)
    case None => None
    case Some(d) =>
      if d == Date(1000, 1, 1) then None
      else
        var p := PrevDay(d);
        var key := "chat_messages_" + Format(p);
        assert key[14..] == Format(p);
        ParseFormat(p);
        NextOfPrev(d);
        Some(key)
  }

  /** At most the last 20 of yesterday's messages, in order, ahead of today's history; a missing, unreadable or empty list adds nothing. */
  function CombineHistory(yesterday: Stored, history: seq<ChatMessage>): (r: seq<ChatMessage>)
    ensures yesterday.Parsed? && |yesterday.messages| > 0 ==>
      var n := if |yesterday.messages| < 20 then |yesterday.messages| else 20;
      |r| == n + |history| && r[..n] == yesterday.messages[|yesterday.messages| - n..] && r[n..] == history
    ensures !(yesterday.Parsed? && |yesterday.messages| > 0) ==> r == history
  {
    if yesterday.Parsed? && |yesterday.messages| > 0 then
      var tail := LastN(yesterday.messages, 20);
      assert (tail + history)[..|tail|] == tail;
      tail + history
    else history
  }

  // ---------------------------------------------------------------------------
  // Recent diaries
  // ---------------------------------------------------------------------------

  /**
   `new Date(a) < new Date(b)` on date strings: false when either is not a
   date, and on real dates the order of the `yyyy-MM-dd` text.
   */
  function DateBefore(a: string, b: string): (r: bool)
    ensures ParseDate(a).None? || ParseDate(b).None? ==> !r
    ensures ParseDate(a).Some? && ParseDate(b).Some? ==> (r <==> StrLt(a, b))
  {
    match ParseDate(a)
    case None => false
    case Some(x) =>
      match ParseDate(b)
      case None => false
      case Some(y) =>
        FormatParse(a);
        FormatParse(b);
        FormatOrder(x, y);
        Before(x, y)
  }

  function Min(a: nat, b: nat): nat {
    if a < b then a else b
  }

  /** Sorting keeps exactly the same elements. */
  lemma SortSameElements(kept: seq<Diary>)
    ensures forall d :: d in Sort(kept, false) <==> d in kept
  {
    var sorted := Sort(kept, false);
    forall d ensures d in sorted <==> d in kept {
      assert d in sorted <==> d in multiset(sorted);
      assert d in kept <==> d in multiset(kept);
    }
  }

  /** Taking a prefix of a date-descending list leaves out nothing newer than what it takes. */
  lemma PrefixIsNewest(sorted: seq<Diary>, n: nat)
    requires DateDescending(sorted) && n <= |sorted|
    ensures forall d, x :: d in sorted && d !in sorted[..n] && x in sorted[..n] ==> !StrLt(x.date, d.date)
  {
    forall d, x | d in sorted && d !in sorted[..n] && x in sorted[..n] ensures !StrLt(x.date, d.date) {
      var j :| 0 <= j < |sorted| && sorted[j] == d;
      var i :| 0 <= i < n && sorted[..n][i] == x;
      assert forall k :: 0 <= k < n ==> sorted[..n][k] == sorted[k];
      assert i < j;
    }
  }

  /**
   `filter(keep).sort(newest first).slice(0, limit)`: up to `limit` of the
   kept diaries, newest first, and no kept diary left out is newer than one taken.
   */
  function Recent(ds: seq<Diary>, keep: Diary -> bool, limit: nat): (r: seq<Diary>)
    ensures |r| == Min(limit, |Filter(ds, keep)|)
    ensures forall d :: d in r ==> d in ds && keep(d)
    ensures DateDescending(r)
    ensures forall d, x :: d in ds && keep(d) && d !in r && x in r ==> !StrLt(x.date, d.date)
  {
    var kept := Filter(ds, keep);
    var sorted := Sort(kept, false);
    SortSameElements(kept);
    PrefixIsNewest(sorted, Min(limit, |sorted|));
    FirstN(sorted, limit)
  }

  /** Diaries dated strictly before the active date. */
  function BeforeActive(activeDate: string): Diary -> bool {
    (d: Diary) => DateBefore(d.date, activeDate)
  }

  /** Memory for the chat and polish prompts: the 7 newest diaries before the active date. */
  function RecentForChat(ds: seq<Diary>, activeDate: string): (r: seq<Diary>)
    ensures |r| <= 7
    ensures |r| == Min(7, |Filter(ds, BeforeActive(activeDate))|)
    ensures forall d :: d in r ==> d in ds && DateBefore(d.date, activeDate)
    ensures DateDescending(r)
    ensures forall d, x :: d in ds && DateBefore(d.date, activeDate) && d !in r && x in r ==> !StrLt(x.date, d.date)
  {
    Recent(ds, BeforeActive(activeDate), 7)
  }

  /** Memory for diary generation: the 3 newest diaries before the active date. */
  function RecentForDiary(ds: seq<Diary>, activeDate: string): (r: seq<Diary>)
    ensures |r| <= 3
    ensures |r| == Min(3, |Filter(ds, BeforeActive(activeDate))|)
    ensures forall d :: d in r ==> d in ds && DateBefore(d.date, activeDate)
    ensures DateDescending(r)
    ensures forall d, x :: d in ds && DateBefore(d.date, activeDate) && d !in r && x in r ==> !StrLt(x.date, d.date)
  {
    Recent(ds, BeforeActive(activeDate), 3)
  }

  /** Diaries other than the one with this id. */
  function OtherThan(diaryId: string): Diary -> bool {
    (d: Diary) => d.id != diaryId
  }

  /** Memory for a diary comment: the 7 newest other diaries, whatever their date. */
  function RecentForComment(ds: seq<Diary>, diaryId: string): (r: seq<Diary>)
    ensures |r| <= 7
    ensures |r| == Min(7, |Filter(ds, OtherThan(diaryId))|)
    ensures forall d :: d in r ==> d in ds && d.id != diaryId
    ensures DateDescending(r)
    ensures forall d, x :: d in ds && d.id != diaryId && d !in r && x in r ==> !StrLt(x.date, d.date)
  {
    Recent(ds, OtherThan(diaryId), 7)
  }

  /** The diaries are the newest before the active date: a shorter list means every earlier diary is in it. */
  lemma RecentForChatTakesAllWhenFew(ds: seq<Diary>, activeDate: string)
    requires |Filter(ds, BeforeActive(activeDate))| <= 7
    ensures forall d :: d in ds && DateBefore(d.date, activeDate) ==> d in RecentForChat(ds, activeDate)
  {
    var kept := Filter(ds, BeforeActive(activeDate));
    var sorted := Sort(kept, false);
    assert RecentForChat(ds, activeDate) == sorted;
    forall d | d in ds && DateBefore(d.date, activeDate) ensures d in sorted {
      assert d in kept;
      assert d in multiset(kept);
    }
  }

  /** What a memory entry shows: the AI briefing when the diary has one, else title and a gist. */
  datatype MemoryNote =
    | BriefingNote(date: string, events: string, atmosphere: string, unfinished: Option<string>)
    | SummaryNote(date: string, title: string, gist: string)

  /** The summary when there is one, else the first `n` characters of the content. */
  function Gist(d: Diary, n: nat): (g: string)
    ensures TruthyStr(d.summary) ==> g == d.summary.value
    ensures !TruthyStr(d.summary) ==> |g| <= n && StartsWith(d.content, g)
  {
    if TruthyStr(d.summary) then d.summary.value else FirstN(d.content, n)
  }

  /** One memory entry of the chat, polish and comment prompts; the unfinished-topics line appears only when it is non-empty. */
  function NoteOf(d: Diary): (n: MemoryNote)
    ensures n.date == d.date
    ensures n.BriefingNote? <==> d.briefing.Some?
    ensures n.BriefingNote? ==>
              n.events == d.briefing.value.events
              && n.atmosphere == d.briefing.value.atmosphere
              && (n.unfinished.Some? <==> TruthyStr(d.briefing.value.unfinishedTopics))
              && (n.unfinished.Some? ==> n.unfinished == d.briefing.value.unfinishedTopics)
    ensures n.SummaryNote? ==> n.title == d.title && n.gist == Gist(d, 50)
  {
    match d.briefing
    case Some(b) =>
      BriefingNote(d.date, b.events, b.atmosphere,
        if TruthyStr(b.unfinishedTopics) then b.unfinishedTopics else None)
    case None => SummaryNote(d.date, d.title, Gist(d, 50))
  }

  // ---------------------------------------------------------------------------
  // The other requests
  // ---------------------------------------------------------------------------

  /** `polishDiary`: the persona's system prompt followed by the editor conversation, unchanged. */
  function PolishMessages(systemPrompt: string, history: seq<ApiMessage>): (r: seq<ApiMessage>)
    ensures |r| == |history| + 1 && r[0] == ApiMessage("system", Text(systemPrompt)) && r[1..] == history
  {
    [ApiMessage("system", Text(systemPrompt))] + history
  }

  /** The day's chat log shown to the polish prompt: from the first diary of that date, if it has a saved chat. */
  function DayChatLog(ds: seq<Diary>, activeDate: string): (lines: Option<seq<string>>)
    ensures lines.Some? <==> (exists i :: 0 <= i < |ds| && ds[i].date == activeDate) && DiaryStore.GetDiaryByDate(ds, activeDate).value.chatHistory.Some?
    ensures lines.Some? ==> |lines.value| == |DiaryStore.GetDiaryByDate(ds, activeDate).value.chatHistory.value|
  {
    match DiaryStore.GetDiaryByDate(ds, activeDate)
    case None => None
    case Some(d) =>
      match d.chatHistory
      case None => None
      case Some(h) =>
        Some(seq(|h|, i requires 0 <= i < |h| => (if h[i].sender == "user" then "User: " else "AI: ") + h[i].text))
  }

  function HexValue(c: char): Option<nat> {
    if '0' <= c <= '9' then Some(c as int - '0' as int)
    else if 'a' <= c <= 'f' then Some(c as int - 'a' as int + 10)
    else if 'A' <= c <= 'F' then Some(c as int - 'A' as int + 10)
    else None
  }

  /** The value of the longest prefix of digits in the given base, with the number of digits read. */
  function DigitPrefix(s: string, base: nat, acc: nat): (r: (nat, nat))
    requires base == 10 || base == 16
    ensures r.1 <= |s|
    ensures r.1 == 0 ==> r.0 == acc
  {
    if |s| == 0 then (acc, 0)
    else
      match HexValue(s[0])
      case Some(v) =>
        if v < base then
          var rest := DigitPrefix(s[1..], base, acc * base + v);
          (rest.0, rest.1 + 1)
        else (acc, 0)
      case None => (acc, 0)
  }

  /** `parseInt(s)` without a radix: leading white space, an optional sign, a `0x` prefix for hex, then digits; `None` is `NaN`. */
  function ParseInt(s: string): (r: Option<int>)
    ensures r.Some? ==> |TrimStart(s)| > 0
  {
    var t := TrimStart(s);
    var sign := if |t| > 0 && t[0] == '-' then -1 else 1;
    var u := if |t| > 0 && (t[0] == '-' || t[0] == '+') then t[1..] else t;
    var hex := |u| >= 2 && u[0] == '0' && (u[1] == 'x' || u[1] == 'X');
    var body := if hex then u[2..] else u;
    var p := DigitPrefix(body, if hex then 16 else 10, 0);
    if p.1 == 0 then None else Some(sign * p.0)
  }

  /** `(a * 10 + v) * p == a * (10 * p) + v * p`, kept apart from the induction below. */
  lemma ShiftDigit(a: nat, v: nat, p: nat)
    ensures (a * 10 + v) * p == a * (10 * p) + v * p
  {
  }

  /** Reading a digit string from the front accumulates the number it denotes. */
  lemma {:induction false} DigitPrefixOfDigits(s: string, acc: nat)
    requires AllDigits(s)
    ensures DigitPrefix(s, 10, acc) == (acc * Pow10(|s|) + NumOf(s), |s|)
    decreases |s|
  {
    if |s| > 0 {
      var v: nat := s[0] as int - '0' as int;
      assert HexValue(s[0]) == Some(v) && v < 10;
      var tail := s[1..];
      var rest := DigitPrefix(tail, 10, acc * 10 + v);
      assert DigitPrefix(s, 10, acc) == (rest.0, rest.1 + 1);
      DigitPrefixOfDigits(tail, acc * 10 + v);
      var p := Pow10(|tail|);
      assert rest == ((acc * 10 + v) * p + NumOf(tail), |tail|);
      NumOfCons(s);
      assert NumOf(s) == v * p + NumOf(tail);
      ShiftDigit(acc, v, p);
      assert Pow10(|s|) == 10 * p;
    }
  }

  /** A digit string's number is its first digit's place value plus the rest. */
  lemma {:induction false} NumOfCons(s: string)
    requires AllDigits(s) && |s| > 0
    ensures NumOf(s) == (s[0] as int - '0' as int) * Pow10(|s| - 1) + NumOf(s[1..])
    decreases |s|
  {
    if |s| > 1 {
      var init, tail := s[..|s| - 1], s[1..];
      var d0, dl := s[0] as int - '0' as int, s[|s| - 1] as int - '0' as int;
      NumOfCons(init);
      assert init[1..] == tail[..|tail| - 1];
      var n, p := NumOf(init[1..]), Pow10(|s| - 2);
      assert NumOf(init) == d0 * p + n;
      assert NumOf(tail) == n * 10 + dl;
      ShiftDigitProduct(d0, p, Pow10(|s| - 1), n);
    }
  }

  /** `(d * p + n) * 10 == d * q + n * 10` when `q` is ten times `p`. */
  lemma ShiftDigitProduct(d: int, p: int, q: int, n: int)
    requires q == 10 * p
    ensures (d * p + n) * 10 == d * q + n * 10
  {
  }

  /** Text that starts with a decimal digit other than a `0x` prefix is read as decimal digits from its first character. */
  lemma ParseIntDecimal(s: string)
    requires |s| > 0 && IsDigit(s[0])
    requires |s| >= 2 && s[0] == '0' ==> s[1] != 'x' && s[1] != 'X'
    ensures var p := DigitPrefix(s, 10, 0);
            ParseInt(s) == if p.1 == 0 then None else Some(p.0)
  {
    assert !IsSpace(s[0]);
    assert TrimStart(s) == s;
    var p := DigitPrefix(s, 10, 0);
    assert 1 * p.0 == p.0;
  }

  /** `parseInt` of a plain decimal digit string is the number it denotes. */
  lemma ParseIntOfDigitString(s: string)
    requires AllDigits(s) && |s| > 0
    ensures ParseInt(s) == Some(NumOf(s))
  {
    assert IsDigit(s[0]);
    if |s| >= 2 {
      assert IsDigit(s[1]);
    }
    ParseIntDecimal(s);
    DigitPrefixOfDigits(s, 0);
  }

  /** `parseInt` of a number written out in decimal gives the number back, as for the timestamp that starts a diary id when read alone. */
  lemma ParseIntOfDigits(n: nat, w: nat)
    requires 0 < w && n < Pow10(w)
    ensures ParseInt(Digits(n, w)) == Some(n)
  {
    NumOfDigits(n, w);
    ParseIntOfDigitString(Digits(n, w));
  }

  /**
   `generateComment`: the diary's day transcript with only the messages whose
   id is below `parseInt(diary.id)`, or all of it when that is `NaN`. Diary
   ids are a string id; a numeric one is not modelled.
   */
  function ChatBeforeDiary(dayChat: seq<ChatMessage>, diaryId: string): (r: seq<ChatMessage>)
    ensures ParseInt(diaryId).None? ==> r == dayChat
    ensures ParseInt(diaryId).Some? ==> forall m :: m in r <==> m in dayChat && m.id < ParseInt(diaryId).value
  {
    match ParseInt(diaryId)
    case None =>
      FilterAll(dayChat, (m: ChatMessage) => true);
      Filter(dayChat, (m: ChatMessage) => true)
    case Some(ts) => Filter(dayChat, (m: ChatMessage) => m.id < ts)
  }

  /** Reading one decimal digit moves it into the accumulator. */
  lemma DigitPrefixStep(c: char, s: string, acc: nat)
    requires IsDigit(c)
    ensures var rest := DigitPrefix(s, 10, acc * 10 + (c as int - '0' as int));
            DigitPrefix([c] + s, 10, acc) == (rest.0, rest.1 + 1)
  {
    assert ([c] + s)[0] == c && ([c] + s)[1..] == s;
  }

  /** A digit run followed by one more digit reads to at least ten times the run's own value. */
  lemma {:induction false} DigitPrefixReadsOn(a: string, b: string, acc: nat)
    requires AllDigits(a)
    requires |b| > 0 && IsDigit(b[0])
    ensures DigitPrefix(a + b, 10, acc).0 >= 10 * DigitPrefix(a, 10, acc).0
    decreases |a|
  {
    if |a| == 0 {
      assert a + b == b;
      DigitPrefixOneMore(b, acc);
    } else {
      var v: nat := a[0] as int - '0' as int;
      var tail := a[1..];
      assert IsDigit(a[0]);
      assert a + b == [a[0]] + (tail + b) && a == [a[0]] + tail;
      DigitPrefixStep(a[0], tail + b, acc);
      DigitPrefixStep(a[0], tail, acc);
      assert AllDigits(tail) by {
        forall i | 0 <= i < |tail| ensures IsDigit(tail[i]) { assert tail[i] == a[i + 1]; }
      }
      DigitPrefixReadsOn(tail, b, acc * 10 + v);
    }
  }

  /** Text that starts with a digit reads to at least ten times the accumulated value. */
  lemma DigitPrefixOneMore(b: string, acc: nat)
    requires |b| > 0 && IsDigit(b[0])
    ensures DigitPrefix(b, 10, acc).0 >= 10 * acc
  {
    assert b == [b[0]] + b[1..];
    DigitPrefixStep(b[0], b[1..], acc);
    DigitPrefixGrows(b[1..], acc * 10 + (b[0] as int - '0' as int));
  }

  /** Reading more digits never lowers the accumulated value. */
  lemma {:induction false} DigitPrefixGrows(s: string, acc: nat)
    ensures DigitPrefix(s, 10, acc).0 >= acc
    decreases |s|
  {
    if |s| > 0 && HexValue(s[0]).Some? && HexValue(s[0]).value < 10 {
      DigitPrefixGrows(s[1..], acc * 10 + HexValue(s[0]).value);
    }
  }

  /** The width of `Date.now().toString()` for the dates the app runs on. */
  const TimestampWidth := 13

  /**
   As written: a diary id is the 13-digit creation time followed by a base-36
   random suffix. When the suffix starts with a digit, `parseInt` reads on
   into it, so the cut is at least ten times the creation time and messages
   written after the diary pass the filter.
   */
  lemma ChatBeforeDiaryKeepsLaterMessages(dayChat: seq<ChatMessage>, ts: nat, suffix: string, m: ChatMessage)
    requires ts < Pow10(TimestampWidth)
    requires |suffix| > 0 && IsDigit(suffix[0])
    requires m in dayChat && ts <= m.id < 10 * ts
    ensures m in ChatBeforeDiary(dayChat, Digits(ts, TimestampWidth) + suffix)
  {
    StampedIdReadsOn(ts, suffix);
  }

  /** `parseInt` of a timestamp followed by a suffix that starts with a digit is at least ten times the timestamp. */
  lemma StampedIdReadsOn(ts: nat, suffix: string)
    requires ts < Pow10(TimestampWidth)
    requires |suffix| > 0 && IsDigit(suffix[0])
    ensures var r := ParseInt(Digits(ts, TimestampWidth) + suffix);
            r.Some? && r.value >= 10 * ts
  {
    NumOfDigits(ts, TimestampWidth);
    DigitsReadOn(Digits(ts, TimestampWidth), suffix);
  }

  /** `parseInt` of two or more digits followed by a digit reads past the first run. */
  lemma DigitsReadOn(d: string, suffix: string)
    requires AllDigits(d) && |d| >= 2
    requires |suffix| > 0 && IsDigit(suffix[0])
    ensures var r := ParseInt(d + suffix);
            r.Some? && r.value >= 10 * NumOf(d)
  {
    var id := d + suffix;
    assert id[0] == d[0] && id[1] == d[1];
    assert IsDigit(d[0]) && IsDigit(d[1]);
    ParseIntDecimal(id);
    DigitPrefixReadsOn(d, suffix, 0);
    DigitPrefixOfDigits(d, 0);
  }

  /** The creation time a diary id starts with: `parseInt` of its first 13 characters. */
  function IdTimestamp(diaryId: string): (r: Option<int>)
    ensures |diaryId| <= TimestampWidth ==> r == ParseInt(diaryId)
  {
    ParseInt(if |diaryId| > TimestampWidth then diaryId[..TimestampWidth] else diaryId)
  }

  /** The intended cut: the messages written before the diary's creation time, or all when the id has none. */
  function ChatBeforeDiaryCorrected(dayChat: seq<ChatMessage>, diaryId: string): (r: seq<ChatMessage>)
    ensures IdTimestamp(diaryId).None? ==> r == dayChat
    ensures IdTimestamp(diaryId).Some? ==> forall m :: m in r <==> m in dayChat && m.id < IdTimestamp(diaryId).value
  {
    match IdTimestamp(diaryId)
    case None =>
      FilterAll(dayChat, (m: ChatMessage) => true);
      Filter(dayChat, (m: ChatMessage) => true)
    case Some(ts) => Filter(dayChat, (m: ChatMessage) => m.id < ts)
  }

  /** Whatever the random suffix, the intended cut is exactly the creation time. */
  lemma ChatBeforeDiaryCorrectedCutsAtCreation(dayChat: seq<ChatMessage>, ts: nat, suffix: string)
    requires ts < Pow10(TimestampWidth)
    ensures forall m :: m in ChatBeforeDiaryCorrected(dayChat, Digits(ts, TimestampWidth) + suffix) <==>
      m in dayChat && m.id < ts
  {
    IdTimestampOfStampedId(ts, suffix);
  }

  /** An id made of a creation time and any suffix yields that creation time. */
  lemma IdTimestampOfStampedId(ts: nat, suffix: string)
    requires ts < Pow10(TimestampWidth)
    ensures IdTimestamp(Digits(ts, TimestampWidth) + suffix) == Some(ts)
  {
    var d := Digits(ts, TimestampWidth);
    assert (d + suffix)[..TimestampWidth] == d;
    if |suffix| == 0 {
      assert d + suffix == d;
    }
    ParseIntOfDigits(ts, TimestampWidth);
  }

  /** `generateComment`: the last 20 messages of the active day, only when the diary is from another day. */
  function PresentSnippet(activeDate: string, diaryDate: string, activeChat: seq<ChatMessage>): (r: Option<seq<ChatMessage>>)
    ensures r.Some? <==> activeDate != diaryDate
    ensures r.Some? ==> |r.value| <= 20 && |r.value| <= |activeChat| && r.value == activeChat[|activeChat| - |r.value|..]
    ensures r.Some? && |activeChat| <= 20 ==> r.value == activeChat
  {
    if activeDate != diaryDate then Some(LastN(activeChat, 20)) else None
  }
}
