/**
 Editing one diary in the timeline (`DiaryItem`): the edit form starts from
 the diary with defaults for missing fields, saving writes every field back
 with the category trimmed, and a typed comment is added under the user's
 name unless it is blank.
 */
module DiaryEditor {
  import opened Common
  import opened DiaryStore

  /** The edit form's fields. */
  datatype EditForm = EditForm(title: string, content: string, category: string, tags: seq<string>, mood: string)

  const DefaultMood := "neutral"

  /** The form for a diary: an unset or empty category is `""`, missing tags are none, an unset or empty mood is neutral. */
  function FormOf(d: Diary): (f: EditForm)
    ensures f.title == d.title && f.content == d.content
    ensures TruthyStr(d.category) ==> f.category == d.category.value
    ensures !TruthyStr(d.category) ==> f.category == ""
    ensures f.tags == d.tags.GetOr([])
    ensures TruthyStr(d.mood) ==> f.mood == d.mood.value
    ensures !TruthyStr(d.mood) ==> f.mood == DefaultMood
    ensures f.mood != ""
  {
    EditForm(d.title, d.content,
             if TruthyStr(d.category) then d.category.value else "",
             d.tags.GetOr([]),
             if TruthyStr(d.mood) then d.mood.value else DefaultMood)
  }

  /** The update `handleSave` sends: every field, the category trimmed. */
  function SavePatch(f: EditForm): (p: DiaryPatch)
    ensures p.title == Some(f.title) && p.content == Some(f.content)
    ensures p.category == Some(Trim(f.category))
    ensures p.tags == Some(f.tags) && p.mood == Some(f.mood)
  {
    DiaryPatch(Some(f.title), Some(f.content), Some(Trim(f.category)), Some(f.tags), Some(f.mood))
  }

  /** `handleSave`: the diary with that id takes the form's fields. */
  function Save(ds: Diaries, id: string, f: EditForm): (r: Diaries)
    ensures |r| == |ds|
    ensures forall i :: 0 <= i < |ds| && ds[i].id == id ==>
      r[i].title == f.title && r[i].content == f.content && r[i].category == Some(Trim(f.category))
      && r[i].tags == Some(f.tags) && r[i].mood == Some(f.mood)
      && r[i].comments == ds[i].comments && r[i].chatHistory == ds[i].chatHistory
    ensures forall i :: 0 <= i < |ds| && ds[i].id != id ==> r[i] == ds[i]
  {
    UpdateDiary(ds, id, SavePatch(f))
  }

  /** Reopening the form after a save shows what was saved: the fields as typed, the category trimmed. */
  lemma SaveThenReopen(d: Diary, f: EditForm)
    requires f.mood != ""
    ensures FormOf(Merge(d, SavePatch(f))) == f.(category := Trim(f.category))
  {
  }

  /** Opening the form and saving it untouched trims the category, fills in missing tags and mood, and keeps everything else. */
  lemma SaveUntouched(d: Diary)
    ensures var saved := Merge(d, SavePatch(FormOf(d)));
            saved.title == d.title && saved.content == d.content
            && saved.tags == Some(d.tags.GetOr([]))
            && (TruthyStr(d.mood) ==> saved.mood == d.mood)
            && (TruthyStr(d.category) && Trim(d.category.value) == d.category.value ==> saved.category == d.category)
  {
  }

  /** The comment box after `handleAddComment`: blank text is ignored, otherwise the user's comment is added and the box emptied. */
  function SubmitComment(ds: Diaries, id: string, text: string, commentId: string, now: string): (r: (Diaries, string))
    ensures Trim(text) == "" ==> r == (ds, text)
    ensures Trim(text) != "" ==> r == (AddComment(ds, id, CommentDraft("user", text), commentId, now), "")
  {
    if Trim(text) == "" then (ds, text)
    else (AddComment(ds, id, CommentDraft("user", text), commentId, now), "")
  }

  /** A submitted comment is stored with its text as typed (not trimmed), under the user's name, at the end of the list. */
  lemma SubmittedCommentLast(ds: Diaries, id: string, text: string, commentId: string, now: string, i: nat)
    requires !IsBlank(text) && i < |ds| && ds[i].id == id
    ensures var r := SubmitComment(ds, id, text, commentId, now).0[i].comments.value;
            |r| > 0 && r[|r| - 1] == Comment(commentId, "user", text, now)
  {
    TrimEmptyIffBlank(text);
  }
}
