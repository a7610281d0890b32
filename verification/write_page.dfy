/**
 The writing page (`WritePage`): picking chat messages for deletion, when a
 message shows its time, the future-day lock, the manual editor's review of
 a polished draft, and the two ways a diary is saved from the page (from the
 generated preview of a chat, and from the manual editor).
 */
module WritePage {
  import opened Common
  import opened Dates
  import opened DiaryStore
  import ChatMessages
  import Polish

  // ---------------------------------------------------------------------------
  // The page mode
  // ---------------------------------------------------------------------------

  datatype Mode = Chat | Manual

  /** The `mode` query parameter: only `chat` and `manual` switch the mode; anything else leaves it. */
  function ModeFromParam(current: Mode, param: Option<string>): (r: Mode)
    ensures param == Some("chat") ==> r == Chat
    ensures param == Some("manual") ==> r == Manual
    ensures param != Some("chat") && param != Some("manual") ==> r == current
  {
    match param
    case Some("chat") => Chat
    case Some("manual") => Manual
    case _ => current
  }

  // ---------------------------------------------------------------------------
  // Choosing messages
  // ---------------------------------------------------------------------------

  /** `toggleMessageSelection`: the id leaves the selection if it was in it and joins it otherwise. */
  function ToggleSelection(selected: set<int>, id: int): (r: set<int>)
    ensures id in r <==> id !in selected
    ensures forall x :: x != id ==> (x in r <==> x in selected)
  {
    if id in selected then selected - {id} else selected + {id}
  }

  /** Clicking a message twice leaves the selection as it was. */
  lemma ToggleTwice(selected: set<int>, id: int)
    ensures ToggleSelection(ToggleSelection(selected, id), id) == selected
  {
  }

  // ---------------------------------------------------------------------------
  // Message times
  // ---------------------------------------------------------------------------

  /** Three minutes in milliseconds; message ids are creation times in milliseconds. */
  const TimestampGap: int := 3 * 60 * 1000

  /** `shouldShowTimestamp`: the first message shows its time, a later one only after a pause of more than three minutes. */
  function ShowTimestamp(current: int, previous: Option<int>): (b: bool)
    ensures previous.None? ==> b
    ensures previous.Some? ==> (b <==> current - previous.value > 180000)
  {
    previous.None? || current - previous.value > TimestampGap
  }

  /** Whether message `i` of a transcript shows its time. */
  function ShowsTimeAt(ids: seq<int>, i: nat): bool
    requires i < |ids|
  {
    ShowTimestamp(ids[i], if i == 0 then None else Some(ids[i - 1]))
  }

  /** In a burst of messages each less than three minutes after the one before, only the first shows its time. */
  lemma BurstShowsOneTime(ids: seq<int>)
    requires |ids| > 0
    requires forall i :: 0 < i < |ids| ==> ids[i] - ids[i - 1] <= TimestampGap
    ensures ShowsTimeAt(ids, 0)
    ensures forall i :: 0 < i < |ids| ==> !ShowsTimeAt(ids, i)
  {
  }

  // ---------------------------------------------------------------------------
  // The future-day lock
  // ---------------------------------------------------------------------------

  /** `isFutureDate`: the active day's `yyyy-MM-dd` text sorts after today's; no active day is never in the future. */
  function IsFutureDate(activeDate: string, today: string): (b: bool)
    ensures activeDate == "" ==> !b
    ensures activeDate != "" ==> (b <==> StrLt(today, activeDate))
  {
    activeDate != "" && StrLt(today, activeDate)
  }

  /** For real dates the text comparison is the calendar order: the page is locked exactly for days after today. */
  lemma FutureDateIsLater(active: Date, today: Date)
    requires Valid(active) && Valid(today)
    ensures IsFutureDate(Format(active), Format(today)) <==> Before(today, active)
  {
    FormatOrder(today, active);
  }

  // ---------------------------------------------------------------------------
  // Reviewing a polished draft in the manual editor
  // ---------------------------------------------------------------------------

  /**
   The manual editor: the entry being written, and the review in progress
   (whether the diff is shown, the text it was taken from, and the proposed
   text, title and tags).
   */
  datatype Editor = Editor(
    content: string,
    title: string,
    tags: seq<string>,
    diffMode: bool,
    original: string,
    proposed: string,
    proposedTitle: Option<string>,
    proposedTags: Option<seq<string>>)

  /** `handleAssistantPreview`: review what the assistant proposed against the current text; missing parts of the proposal fall back. */
  function Preview(e: Editor, data: Polish.Polished): (r: Editor)
    ensures r.diffMode && r.original == e.content
    ensures r.proposed == if TruthyStr(data.content) then data.content.value else e.content
    ensures r.proposedTitle == if TruthyStr(data.title) then data.title else None
    ensures r.proposedTags == data.tags
    ensures r.content == e.content && r.title == e.title && r.tags == e.tags
  {
    e.(original := e.content,
       proposed := if TruthyStr(data.content) then data.content.value else e.content,
       proposedTitle := if TruthyStr(data.title) then data.title else None,
       proposedTags := data.tags,
       diffMode := true)
  }

  /** `handleAcceptDiff`: the text passed in (the partly accepted diff), or else the whole proposal, becomes the entry; a proposed title or tags replace the current ones. */
  function Accept(e: Editor, finalContent: Option<string>): (r: Editor)
    ensures r.content == finalContent.GetOr(e.proposed)
    ensures r.title == if TruthyStr(e.proposedTitle) then e.proposedTitle.value else e.title
    ensures r.tags == e.proposedTags.GetOr(e.tags)
    ensures !r.diffMode && r.proposedTitle.None? && r.proposedTags.None?
  {
    e.(content := finalContent.GetOr(e.proposed),
       title := if TruthyStr(e.proposedTitle) then e.proposedTitle.value else e.title,
       tags := e.proposedTags.GetOr(e.tags),
       diffMode := false,
       proposedTitle := None,
       proposedTags := None)
  }

  /** `handleRejectDiff`: the review closes and the entry is left exactly as it was. */
  function Reject(e: Editor): (r: Editor)
    ensures r.content == e.content && r.title == e.title && r.tags == e.tags
    ensures !r.diffMode && r.proposedTitle.None? && r.proposedTags.None?
  {
    e.(diffMode := false, proposedTitle := None, proposedTags := None)
  }

  /** Reviewing a proposal and rejecting it leaves the entry untouched, whatever was proposed. */
  lemma PreviewThenReject(e: Editor, data: Polish.Polished)
    ensures var r := Reject(Preview(e, data));
            r.content == e.content && r.title == e.title && r.tags == e.tags && !r.diffMode
  {
  }

  /** Accepting a whole proposal takes its text, title and tags, keeping whatever it left out. */
  lemma PreviewThenAcceptAll(e: Editor, data: Polish.Polished)
    ensures var r := Accept(Preview(e, data), None);
            r.content == (if TruthyStr(data.content) then data.content.value else e.content)
            && r.title == (if TruthyStr(data.title) then data.title.value else e.title)
            && r.tags == data.tags.GetOr(e.tags)
            && !r.diffMode
  {
  }

  /** A proposal that brings nothing (no text, title or tags) changes nothing when accepted. */
  lemma AcceptEmptyProposal(e: Editor)
    ensures var r := Accept(Preview(e, Polish.Polished(None, None, None)), None);
            r.content == e.content && r.title == e.title && r.tags == e.tags
  {
  }

  // ---------------------------------------------------------------------------
  // Saving
  // ---------------------------------------------------------------------------

  /** The chat as kept inside the diary: id, text, sender and time of every message, without attachments, in order. */
  function SavedChat(ms: seq<ChatMessages.ChatMessage>): (r: seq<SavedMessage>)
    ensures |r| == |ms|
    ensures forall i :: 0 <= i < |ms| ==>
      r[i].id == ms[i].id && r[i].text == ms[i].text && r[i].sender == ms[i].sender && r[i].timestamp == ms[i].timestamp
  {
    seq(|ms|, i requires 0 <= i < |ms| => SavedMessage(ms[i].id, ms[i].text, ms[i].sender, ms[i].timestamp))
  }

  /** Keeping a longer chat keeps the shorter one's record as its start. */
  lemma SavedChatPrefix(ms: seq<ChatMessages.ChatMessage>, more: seq<ChatMessages.ChatMessage>)
    ensures SavedChat(ms + more) == SavedChat(ms) + SavedChat(more)
  {
    var all := SavedChat(ms + more);
    var parts := SavedChat(ms) + SavedChat(more);
    assert |all| == |parts|;
    forall i | 0 <= i < |all| ensures all[i] == parts[i] {
      if i < |ms| {
        assert (ms + more)[i] == ms[i];
      } else {
        assert (ms + more)[i] == more[i - |ms|];
      }
    }
  }

  /** The day a diary is saved under: the active day, or today when none is set. */
  function SaveDate(activeDate: string, today: string): (d: string)
    ensures activeDate != "" ==> d == activeDate
    ensures activeDate == "" ==> d == today
  {
    if activeDate != "" then activeDate else today
  }

  /** What the chat's diary preview holds: its text, title, mood, tags, summary, category and the memory note. */
  datatype Generated = Generated(
    content: string,
    title: string,
    mood: string,
    tags: seq<string>,
    summary: string,
    category: string,
    briefing: Option<Briefing>)

  /** `handleSaveDiary`: with a preview on screen, one diary for the day holding it and the chat it came from; without one, nothing. */
  function SaveGenerated(ds: Diaries, g: Option<Generated>, messages: seq<ChatMessages.ChatMessage>,
                         newId: string, activeDate: string, today: string, now: string): (r: Diaries)
    ensures !(g.Some? && g.value.content != "") ==> r == ds
    ensures g.Some? && g.value.content != "" ==>
      |r| == |ds| + 1 && r[..|ds|] == ds
      && r[|ds|].id == newId && r[|ds|].date == SaveDate(activeDate, today)
      && r[|ds|].content == g.value.content
      && r[|ds|].title == (if g.value.title != "" then g.value.title else "Daily Reflection")
      && r[|ds|].chatHistory == Some(SavedChat(messages))
      && r[|ds|].mood == Some(g.value.mood) && r[|ds|].tags == Some(g.value.tags)
      && r[|ds|].category == Some(g.value.category) && r[|ds|].summary == Some(g.value.summary)
      && r[|ds|].briefing == g.value.briefing
  {
    if g.Some? && g.value.content != "" then
      var x := g.value;
      AddDiary(ds, Diary(newId, SaveDate(activeDate, today),
                         if x.title != "" then x.title else "Daily Reflection",
                         x.content, Some(x.mood), Some(x.tags), Some(x.category), Some(x.summary),
                         x.briefing, None, None, Some(SavedChat(messages))), now)
    else ds
  }

  /** `handleSaveManualDiary`'s guard: an entry whose text and title are both blank is not saved. */
  function MaySaveManual(e: Editor): (b: bool)
    ensures b <==> !IsBlank(e.content) || !IsBlank(e.title)
  {
    TrimEmptyIffBlank(e.content);
    TrimEmptyIffBlank(e.title);
    Trim(e.content) != "" || Trim(e.title) != ""
  }

  /** `handleSaveManualDiary`: one diary for the day from the editor, untitled when the title is empty, with an empty chat; the memory note is whatever the briefing call gave (`None` when it failed). */
  function SaveManual(ds: Diaries, e: Editor, mood: string, category: string, briefing: Option<Briefing>,
                      newId: string, activeDate: string, today: string, now: string): (r: Diaries)
    ensures !MaySaveManual(e) ==> r == ds
    ensures MaySaveManual(e) ==>
      |r| == |ds| + 1 && r[..|ds|] == ds
      && r[|ds|].id == newId && r[|ds|].date == SaveDate(activeDate, today)
      && r[|ds|].content == e.content
      && r[|ds|].title == (if e.title != "" then e.title else "Untitled Entry")
      && r[|ds|].tags == Some(e.tags) && r[|ds|].briefing == briefing
      && r[|ds|].chatHistory == Some([])
      && r[|ds|].mood == Some(mood) && r[|ds|].category == Some(category) && r[|ds|].summary.None?
  {
    if MaySaveManual(e) then
      AddDiary(ds, Diary(newId, SaveDate(activeDate, today),
                         if e.title != "" then e.title else "Untitled Entry",
                         e.content, Some(mood), Some(e.tags), Some(category), None,
                         briefing, None, None, Some([])), now)
    else ds
  }

  /** A blank entry (only spaces in both text and title) is never saved. */
  lemma BlankEntryNotSaved(ds: Diaries, e: Editor, mood: string, category: string, briefing: Option<Briefing>,
                           newId: string, activeDate: string, today: string, now: string)
    requires IsBlank(e.content) && IsBlank(e.title)
    ensures SaveManual(ds, e, mood, category, briefing, newId, activeDate, today, now) == ds
  {
    TrimEmptyIffBlank(e.content);
    TrimEmptyIffBlank(e.title);
  }

  /** A saved manual entry is found again by its id, on the day it was saved under. */
  lemma SavedManualFound(ds: Diaries, e: Editor, mood: string, category: string, briefing: Option<Briefing>,
                         newId: string, activeDate: string, today: string, now: string)
    requires MaySaveManual(e)
    requires forall i :: 0 <= i < |ds| ==> ds[i].id != newId
    ensures var found := GetDiaryById(SaveManual(ds, e, mood, category, briefing, newId, activeDate, today, now), newId);
            found.Some? && found.value.date == SaveDate(activeDate, today) && found.value.content == e.content
  {
    var d := Diary(newId, SaveDate(activeDate, today),
                   if e.title != "" then e.title else "Untitled Entry",
                   e.content, Some(mood), Some(e.tags), Some(category), None,
                   briefing, None, None, Some([]));
    AddThenGetById(ds, d, now);
  }
}
