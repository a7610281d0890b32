/**
 The chat transcript of the active day (`AIContext` chat state): sending,
 editing, deleting and regenerating messages, clearing the chat, the typing
 delay, and which stored transcript is loaded for a day. Ids come from
 `Date.now()` in the app and are parameters here.
 */
module ChatMessages {
  import opened Common

  datatype Attachment = Attachment(kind: string, url: string)

  datatype ChatMessage = ChatMessage(
    id: int,
    sender: string,
    text: string,
    attachment: Option<Attachment>,
    timestamp: Option<int>)

  const Greeting: string := "Hi there! How are you feeling today?"

  /** The single AI greeting a fresh transcript starts with. */
  function GreetingMessage(id: int): ChatMessage {
    ChatMessage(id, "ai", Greeting, None, None)
  }

  // ---------------------------------------------------------------------------
  // Sending and replies
  // ---------------------------------------------------------------------------

  /** `sendMessage`: ignore blank text without an attachment; otherwise append one user message. */
  function SendMessage(ms: seq<ChatMessage>, text: string, attachment: Option<Attachment>, now: int): (r: seq<ChatMessage>)
    ensures IsBlank(text) && attachment.None? ==> r == ms
    ensures !(IsBlank(text) && attachment.None?) ==>
      |r| == |ms| + 1 && r[..|ms|] == ms && r[|ms|] == ChatMessage(now, "user", text, attachment, None)
  {
    TrimEmptyIffBlank(text);
    if Trim(text) == "" && attachment.None? then ms
    else ms + [ChatMessage(now, "user", text, attachment, None)]
  }

  /** The AI's replies appended one message each, in order (`triggerAIResponse`, `regenerateLastResponse`). */
  function AppendReplies(ms: seq<ChatMessage>, replies: seq<string>, ids: seq<int>): (r: seq<ChatMessage>)
    requires |ids| == |replies|
    ensures |r| == |ms| + |replies|
    ensures r[..|ms|] == ms
    ensures forall k :: 0 <= k < |replies| ==> r[|ms| + k] == ChatMessage(ids[k], "ai", replies[k], None, None)
  {
    ms + seq(|replies|, k requires 0 <= k < |replies| => ChatMessage(ids[k], "ai", replies[k], None, None))
  }

  /** The pause before showing a reply: 30 ms per character, clamped to [800, 2000]. */
  function TypingDelay(length: nat): (ms: int)
    ensures 800 <= ms <= 2000
    ensures length * 30 <= 800 ==> ms == 800
    ensures length * 30 >= 2000 ==> ms == 2000
    ensures 800 <= length * 30 <= 2000 ==> ms == length * 30
  {
    var raw := length * 30;
    var atLeast := if raw > 800 then raw else 800;
    if atLeast < 2000 then atLeast else 2000
  }

  /** Longer replies never get a shorter pause. */
  lemma TypingDelayMonotone(a: nat, b: nat)
    requires a <= b
    ensures TypingDelay(a) <= TypingDelay(b)
  {
  }

  // ---------------------------------------------------------------------------
  // Editing and deleting
  // ---------------------------------------------------------------------------

  /** `editMessage`: replace the text of the messages with that id; everything else stays. */
  function EditMessage(ms: seq<ChatMessage>, id: int, newText: string): (r: seq<ChatMessage>)
    ensures |r| == |ms|
    ensures forall i :: 0 <= i < |ms| && ms[i].id == id ==> r[i] == ms[i].(text := newText)
    ensures forall i :: 0 <= i < |ms| && ms[i].id != id ==> r[i] == ms[i]
  {
    seq(|ms|, i requires 0 <= i < |ms| => if ms[i].id == id then ms[i].(text := newText) else ms[i])
  }

  /** Editing back to the original text restores the transcript when the id is unique. */
  lemma EditThenRestore(ms: seq<ChatMessage>, k: nat, newText: string)
    requires k < |ms|
    requires forall i :: 0 <= i < |ms| && i != k ==> ms[i].id != ms[k].id
    ensures EditMessage(EditMessage(ms, ms[k].id, newText), ms[k].id, ms[k].text) == ms
  {
    var once := EditMessage(ms, ms[k].id, newText);
    var twice := EditMessage(once, ms[k].id, ms[k].text);
    forall i | 0 <= i < |ms| ensures twice[i] == ms[i] {
      if i == k {
        assert once[i].id == ms[k].id;
      } else {
        assert once[i] == ms[i];
      }
    }
  }

  function DeleteMessages(ms: seq<ChatMessage>, ids: seq<int>): (r: seq<ChatMessage>)
    ensures forall m :: m in r <==> m in ms && m.id !in ids
    ensures |r| <= |ms|
  {
    Filter(ms, (m: ChatMessage) => m.id !in ids)
  }

  /** Deleting nothing keeps the transcript. */
  lemma DeleteNothing(ms: seq<ChatMessage>)
    ensures DeleteMessages(ms, []) == ms
  {
    FilterAll(ms, (m: ChatMessage) => m.id !in []);
  }

  /** Deleting two batches one after the other equals deleting them together. */
  lemma {:induction false} DeleteTwice(ms: seq<ChatMessage>, a: seq<int>, b: seq<int>)
    ensures DeleteMessages(DeleteMessages(ms, a), b) == DeleteMessages(ms, a + b)
    decreases |ms|
  {
    if |ms| > 0 {
      DeleteTwice(ms[1..], a, b);
      var first := (m: ChatMessage) => m.id !in a;
      var rest := DeleteMessages(ms[1..], a);
      if first(ms[0]) {
        assert DeleteMessages(ms, a) == [ms[0]] + rest;
        assert DeleteMessages(ms, a)[1..] == rest;
      }
    }
  }

  // ---------------------------------------------------------------------------
  // Regenerating
  // ---------------------------------------------------------------------------

  /** The transcript with its maximal trailing run of AI messages removed. */
  function DropTrailingAi(ms: seq<ChatMessage>): (r: seq<ChatMessage>)
    ensures |r| <= |ms| && r == ms[..|r|]
    ensures |r| == 0 || r[|r| - 1].sender != "ai"
    ensures forall i :: |r| <= i < |ms| ==> ms[i].sender == "ai"
  {
    if |ms| == 0 || ms[|ms| - 1].sender != "ai" then ms
    else DropTrailingAi(ms[..|ms| - 1])
  }

  /**
   `regenerateLastResponse` up to the new request: nothing happens unless the
   last message is from the AI; otherwise the trailing AI messages are popped.
   Returns whether it acted and the shortened transcript.
   */
  method Regenerate(ms: seq<ChatMessage>) returns (acted: bool, history: seq<ChatMessage>)
    ensures acted <==> |ms| > 0 && ms[|ms| - 1].sender == "ai"
    ensures !acted ==> history == ms
    ensures acted ==> history == DropTrailingAi(ms) && |history| < |ms|
  {
    if |ms| == 0 || ms[|ms| - 1].sender != "ai" {
      return false, ms;
    }
    history := ms;
    while |history| > 0 && history[|history| - 1].sender == "ai"
      invariant |history| <= |ms| && history == ms[..|history|]
      invariant DropTrailingAi(history) == DropTrailingAi(ms)
      decreases |history|
    {
      history := history[..|history| - 1];
    }
    acted := true;
    assert DropTrailingAi(ms) == DropTrailingAi(ms[..|ms| - 1]);
  }

  /** `clearChat`: only the greeting remains. */
  function ClearChat(now: int): (r: seq<ChatMessage>)
    ensures |r| == 1 && r[0].sender == "ai" && r[0].text == Greeting && r[0].id == now
  {
    [GreetingMessage(now)]
  }

  // ---------------------------------------------------------------------------
  // Loading a day's transcript
  // ---------------------------------------------------------------------------

  /** A stored `localStorage` value: absent or empty, not valid JSON, valid JSON but not an array, or a decoded transcript. */
  datatype Stored = Missing | Unparsable | NotAList | Parsed(messages: seq<ChatMessage>)

  /**
   The transcript shown after the active date changes. The day's own key wins;
   today falls back to the legacy single-transcript key, and an unparsable
   legacy value gives the greeting; otherwise the chat starts with the
   greeting. An unparsable day key makes the effect throw, since that parse is
   outside any `try`, and JSON that is not an array leaves no usable
   transcript: both are `None`.
   */
  function LoadTranscript(dayKey: Stored, isToday: bool, legacyKey: Stored): (r: Option<seq<ChatMessage>>)
    ensures dayKey.Parsed? ==> r == Some(dayKey.messages)
    ensures dayKey.Unparsable? || dayKey.NotAList? ==> r.None?
    ensures dayKey.Missing? && isToday && legacyKey.Parsed? ==> r == Some(legacyKey.messages)
    ensures dayKey.Missing? && isToday && legacyKey.NotAList? ==> r.None?
    ensures dayKey.Missing? && (!isToday || legacyKey.Missing? || legacyKey.Unparsable?) ==> r == Some([GreetingMessage(1)])
  {
    match dayKey
    case Parsed(ms) => Some(ms)
    case Unparsable => None
    case NotAList => None
    case Missing =>
      if isToday then
        match legacyKey
        case Parsed(ms) => Some(ms)
        case NotAList => None
        case _ => Some([GreetingMessage(1)])
      else Some([GreetingMessage(1)])
  }

  /**
   The transcript is written back to the day's key only once it has been
   loaded for that same day; today's transcript is also mirrored to the legacy key.
   */
  function SaveTargets(activeDate: string, isLoaded: bool, loadedDate: Option<string>, isToday: bool): (keys: seq<string>)
    ensures (activeDate == "" || !isLoaded || loadedDate != Some(activeDate)) ==> keys == []
    ensures activeDate != "" && isLoaded && loadedDate == Some(activeDate) ==>
      |keys| >= 1 && keys[0] == "chat_messages_" + activeDate && (|keys| == 2 <==> isToday)
  {
    if activeDate != "" && isLoaded && loadedDate == Some(activeDate) then
      ["chat_messages_" + activeDate] + (if isToday then ["ai_chat_history"] else [])
    else []
  }
}
