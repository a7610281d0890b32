/**
 The diary collection (`DiaryContext`): diary records with their nested
 comments and saved chat history, the three lookups, and the list operations
 that replace the collection with a new one. The collection is an immutable
 sequence in store order; each operation returns the next collection.
 Wall-clock time and generated ids are parameters.
 */
module DiaryStore {
  import opened Common

  /** The AI's memory note attached to a diary (`ai_briefing`). */
  datatype Briefing = Briefing(events: string, atmosphere: string, unfinishedTopics: Option<string>)

  datatype Comment = Comment(id: string, author: string, text: string, date: string)

  /** What a caller hands to `addComment`: the stored comment gets an id and a date on top. */
  datatype CommentDraft = CommentDraft(author: string, text: string)

  /** A chat message as saved inside a diary: id, text, sender and timestamp only. */
  datatype SavedMessage = SavedMessage(id: int, text: string, sender: string, timestamp: Option<int>)

  /** A diary record; `None` is a field that is absent (or `undefined`) on the JavaScript object. */
  datatype Diary = Diary(
    id: string,
    date: string,
    title: string,
    content: string,
    mood: Option<string>,
    tags: Option<seq<string>>,
    category: Option<string>,
    summary: Option<string>,
    briefing: Option<Briefing>,
    createdAt: Option<string>,
    comments: Option<seq<Comment>>,
    chatHistory: Option<seq<SavedMessage>>)

  /** The fields an `updateDiary` call may carry; `None` means the key is not in the update object. */
  datatype DiaryPatch = DiaryPatch(
    title: Option<string>,
    content: Option<string>,
    category: Option<string>,
    tags: Option<seq<string>>,
    mood: Option<string>)

  type Diaries = seq<Diary>

  // ---------------------------------------------------------------------------
  // Lookups
  // ---------------------------------------------------------------------------

  /** `getDiaryByDate`: the first diary in store order with that date. */
  function GetDiaryByDate(ds: Diaries, date: string): (r: Option<Diary>)
    ensures r.Some? ==> exists i :: 0 <= i < |ds| && ds[i] == r.value && ds[i].date == date
                                    && forall j :: 0 <= j < i ==> ds[j].date != date
    ensures r.None? <==> forall j :: 0 <= j < |ds| ==> ds[j].date != date
  {
    Find(ds, (d: Diary) => d.date == date)
  }

  /** `getDiaryById`: the first diary in store order with that id. */
  function GetDiaryById(ds: Diaries, id: string): (r: Option<Diary>)
    ensures r.Some? ==> exists i :: 0 <= i < |ds| && ds[i] == r.value && ds[i].id == id
                                    && forall j :: 0 <= j < i ==> ds[j].id != id
    ensures r.None? <==> forall j :: 0 <= j < |ds| ==> ds[j].id != id
  {
    Find(ds, (d: Diary) => d.id == id)
  }

  /** `getDiariesByDate`: every diary with that date, in store order. */
  function GetDiariesByDate(ds: Diaries, date: string): (r: Diaries)
    ensures forall d :: d in r <==> d in ds && d.date == date
  {
    Filter(ds, (d: Diary) => d.date == date)
  }

  /** The by-date list keeps store order: it distributes over any split of the store. */
  lemma DiariesByDateKeepsOrder(a: Diaries, b: Diaries, date: string)
    ensures GetDiariesByDate(a + b, date) == GetDiariesByDate(a, date) + GetDiariesByDate(b, date)
  {
    FilterAppend(a, b, (d: Diary) => d.date == date);
  }

  /** The single-diary lookup is the head of the by-date list. */
  lemma {:induction false} ByDateHeadIsFirst(ds: Diaries, date: string)
    ensures GetDiaryByDate(ds, date).Some? <==> |GetDiariesByDate(ds, date)| > 0
    ensures GetDiaryByDate(ds, date).Some? ==> GetDiaryByDate(ds, date).value == GetDiariesByDate(ds, date)[0]
    decreases |ds|
  {
    if |ds| > 0 && ds[0].date != date {
      ByDateHeadIsFirst(ds[1..], date);
      var p := (d: Diary) => d.date == date;
      assert Find(ds, p) == Find(ds[1..], p) by {
        assert FindIndex(ds, p) == match FindIndex(ds[1..], p) case None => None case Some(i) => Some(i + 1);
      }
    }
  }

  // ---------------------------------------------------------------------------
  // Updates
  // ---------------------------------------------------------------------------

  /** The record `addDiary` stores: supplied fields kept, `createdAt` defaulted to now, empty lists for missing comments and chat history. */
  function WithDefaults(d: Diary, now: string): (r: Diary)
    ensures r.id == d.id && r.date == d.date && r.title == d.title && r.content == d.content
    ensures r.mood == d.mood && r.tags == d.tags && r.category == d.category
    ensures r.summary == d.summary && r.briefing == d.briefing
    ensures TruthyStr(d.createdAt) ==> r.createdAt == d.createdAt
    ensures !TruthyStr(d.createdAt) ==> r.createdAt == Some(now)
    ensures r.comments.Some? && r.chatHistory.Some?
    ensures d.comments.Some? ==> r.comments == d.comments
    ensures d.chatHistory.Some? ==> r.chatHistory == d.chatHistory
    ensures d.comments.None? ==> r.comments == Some([])
    ensures d.chatHistory.None? ==> r.chatHistory == Some([])
  {
    d.(createdAt := if TruthyStr(d.createdAt) then d.createdAt else Some(now),
       comments := Some(d.comments.GetOr([])),
       chatHistory := Some(d.chatHistory.GetOr([])))
  }

  /** `addDiary`: append exactly one entry, several per day allowed. */
  function AddDiary(ds: Diaries, d: Diary, now: string): (r: Diaries)
    ensures |r| == |ds| + 1
    ensures r[..|ds|] == ds
    ensures r[|ds|].id == d.id && r[|ds|].date == d.date && r[|ds|].content == d.content
    ensures r[|ds|].comments.Some? && r[|ds|].chatHistory.Some? && r[|ds|].createdAt.Some?
  {
    ds + [WithDefaults(d, now)]
  }

  /** `{ ...d, ...updates }` for the keys the update carries. */
  function Merge(d: Diary, p: DiaryPatch): (r: Diary)
    ensures r.id == d.id && r.date == d.date && r.createdAt == d.createdAt
    ensures r.comments == d.comments && r.chatHistory == d.chatHistory
    ensures r.summary == d.summary && r.briefing == d.briefing
    ensures r.title == p.title.GetOr(d.title) && r.content == p.content.GetOr(d.content)
    ensures p.category.Some? ==> r.category == p.category
    ensures p.category.None? ==> r.category == d.category
    ensures p.tags.Some? ==> r.tags == p.tags
    ensures p.tags.None? ==> r.tags == d.tags
    ensures p.mood.Some? ==> r.mood == p.mood
    ensures p.mood.None? ==> r.mood == d.mood
  {
    d.(title := p.title.GetOr(d.title),
       content := p.content.GetOr(d.content),
       category := if p.category.Some? then p.category else d.category,
       tags := if p.tags.Some? then p.tags else d.tags,
       mood := if p.mood.Some? then p.mood else d.mood)
  }

  /** `updateDiary`: shallow-merge the update into every entry with that id; nothing else changes. */
  function UpdateDiary(ds: Diaries, id: string, p: DiaryPatch): (r: Diaries)
    ensures |r| == |ds|
    ensures forall i :: 0 <= i < |ds| && ds[i].id == id ==> r[i] == Merge(ds[i], p)
    ensures forall i :: 0 <= i < |ds| && ds[i].id != id ==> r[i] == ds[i]
  {
    seq(|ds|, i requires 0 <= i < |ds| => if ds[i].id == id then Merge(ds[i], p) else ds[i])
  }

  /** Applying the same update twice is the same as applying it once. */
  lemma UpdateIdempotent(ds: Diaries, id: string, p: DiaryPatch)
    ensures UpdateDiary(UpdateDiary(ds, id, p), id, p) == UpdateDiary(ds, id, p)
  {
    var once := UpdateDiary(ds, id, p);
    var twice := UpdateDiary(once, id, p);
    forall i | 0 <= i < |ds| ensures twice[i] == once[i] {
      if ds[i].id == id {
        assert once[i].id == id;
      }
    }
  }

  /** `deleteDiary`: drop every entry with that id. */
  function DeleteDiary(ds: Diaries, id: string): (r: Diaries)
    ensures forall d :: d in r <==> d in ds && d.id != id
    ensures |r| <= |ds|
  {
    Filter(ds, (d: Diary) => d.id != id)
  }

  /** Deleting keeps the relative order of the survivors: it distributes over any split of the store. */
  lemma DeleteKeepsOrder(a: Diaries, b: Diaries, id: string)
    ensures DeleteDiary(a + b, id) == DeleteDiary(a, id) + DeleteDiary(b, id)
  {
    FilterAppend(a, b, (d: Diary) => d.id != id);
  }

  /** Deleting a freshly added diary by its (unused) id restores the collection. */
  lemma AddThenDelete(ds: Diaries, d: Diary, now: string)
    requires forall i :: 0 <= i < |ds| ==> ds[i].id != d.id
    ensures DeleteDiary(AddDiary(ds, d, now), d.id) == ds
  {
    var keep := (x: Diary) => x.id != d.id;
    FilterAppend(ds, [WithDefaults(d, now)], keep);
    FilterAll(ds, keep);
    assert Filter([WithDefaults(d, now)], keep) == [];
  }

  /** A freshly added diary is what the by-id lookup finds afterwards. */
  lemma AddThenGetById(ds: Diaries, d: Diary, now: string)
    requires forall i :: 0 <= i < |ds| ==> ds[i].id != d.id
    ensures GetDiaryById(AddDiary(ds, d, now), d.id) == Some(WithDefaults(d, now))
  {
    var r := AddDiary(ds, d, now);
    assert r[|ds|].id == d.id;
  }

  /** `deleteChatHistory`: remove the chat-history field of the matching entries only. */
  function DeleteChatHistory(ds: Diaries, id: string): (r: Diaries)
    ensures |r| == |ds|
    ensures forall i :: 0 <= i < |ds| && ds[i].id == id ==> r[i] == ds[i].(chatHistory := None)
    ensures forall i :: 0 <= i < |ds| && ds[i].id != id ==> r[i] == ds[i]
  {
    seq(|ds|, i requires 0 <= i < |ds| => if ds[i].id == id then ds[i].(chatHistory := None) else ds[i])
  }

  /** `addComment`: append one comment (with the given id and date) to the matching diaries; a missing list counts as empty. */
  function AddComment(ds: Diaries, id: string, c: CommentDraft, commentId: string, now: string): (r: Diaries)
    ensures |r| == |ds|
    ensures forall i :: 0 <= i < |ds| && ds[i].id == id ==>
      r[i] == ds[i].(comments := Some(ds[i].comments.GetOr([]) + [Comment(commentId, c.author, c.text, now)]))
    ensures forall i :: 0 <= i < |ds| && ds[i].id != id ==> r[i] == ds[i]
  {
    seq(|ds|, i requires 0 <= i < |ds| =>
      if ds[i].id == id
      then ds[i].(comments := Some(ds[i].comments.GetOr([]) + [Comment(commentId, c.author, c.text, now)]))
      else ds[i])
  }

  /** `deleteComment`: filter the comment out of the matching diaries that have a comment list; others are untouched. */
  function DeleteComment(ds: Diaries, diaryId: string, commentId: string): (r: Diaries)
    ensures |r| == |ds|
    ensures forall i :: 0 <= i < |ds| && ds[i].id == diaryId && ds[i].comments.Some? ==>
      r[i] == ds[i].(comments := Some(Filter(ds[i].comments.value, (c: Comment) => c.id != commentId)))
    ensures forall i :: 0 <= i < |ds| && (ds[i].id != diaryId || ds[i].comments.None?) ==> r[i] == ds[i]
    ensures forall i, c :: 0 <= i < |ds| && r[i].comments.Some? && c in r[i].comments.value && ds[i].id == diaryId ==> c.id != commentId
  {
    seq(|ds|, i requires 0 <= i < |ds| =>
      if ds[i].id == diaryId && ds[i].comments.Some?
      then ds[i].(comments := Some(Filter(ds[i].comments.value, (c: Comment) => c.id != commentId)))
      else ds[i])
  }

  /** Deleting a comment that was just added under an unused id restores the diary's comment list. */
  lemma AddThenDeleteComment(ds: Diaries, id: string, draft: CommentDraft, commentId: string, now: string)
    requires forall i, x :: 0 <= i < |ds| && ds[i].comments.Some? && x in ds[i].comments.value ==> x.id != commentId
    ensures forall i :: 0 <= i < |ds| && ds[i].id == id ==>
      DeleteComment(AddComment(ds, id, draft, commentId, now), id, commentId)[i].comments == Some(ds[i].comments.GetOr([]))
  {
    var keep := (c: Comment) => c.id != commentId;
    var added := AddComment(ds, id, draft, commentId, now);
    var deleted := DeleteComment(added, id, commentId);
    forall i | 0 <= i < |ds| && ds[i].id == id
      ensures deleted[i].comments == Some(ds[i].comments.GetOr([]))
    {
      var prior := ds[i].comments.GetOr([]);
      var newComment := Comment(commentId, draft.author, draft.text, now);
      assert added[i].comments == Some(prior + [newComment]);
      assert added[i].id == id;
      assert deleted[i].comments == Some(Filter(prior + [newComment], keep));
      FilterAppend(prior, [newComment], keep);
      forall j | 0 <= j < |prior| ensures keep(prior[j]) {
        assert ds[i].comments.Some? ==> prior[j] in ds[i].comments.value;
      }
      FilterAll(prior, keep);
      assert Filter([newComment], keep) == [];
      assert Filter(prior + [newComment], keep) == prior + [];
      assert prior + [] == prior;
    }
  }
}
