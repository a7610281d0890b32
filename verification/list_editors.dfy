/**
 The small list editors: tags typed into a box and confirmed with Enter
 (`TagEditor`, and the interest editor of the profile page), and the
 milestone, relationship, pet and focus lists of the profile page, whose
 rows are added blank, removed by position and edited one field at a time.
 */
module ListEditors {
  import opened Common
  import opened Json

  // ---------------------------------------------------------------------------
  // Tags
  // ---------------------------------------------------------------------------

  /** The tags and the text in the input box. */
  datatype TagBox = TagBox(tags: seq<string>, input: string)

  /** Enter: the trimmed input is added and the box cleared, unless it is blank or already a tag; then nothing changes. */
  function PressEnter(b: TagBox): (r: TagBox)
    ensures Trim(b.input) != "" && Trim(b.input) !in b.tags ==> r == TagBox(b.tags + [Trim(b.input)], "")
    ensures Trim(b.input) == "" || Trim(b.input) in b.tags ==> r == b
  {
    var t := Trim(b.input);
    if t != "" && t !in b.tags then TagBox(b.tags + [t], "") else b
  }

  /** A tag as `TagEditor` stores it: trimmed and non-empty. */
  predicate CleanTag(t: string) {
    t != "" && Trim(t) == t
  }

  /** Appending a new clean tag keeps a clean, duplicate-free list so. */
  lemma SnocTag(tags: seq<string>, t: string)
    requires NoDuplicates(tags) && t !in tags
    requires forall k :: 0 <= k < |tags| ==> CleanTag(tags[k])
    requires CleanTag(t)
    ensures NoDuplicates(tags + [t])
    ensures forall k :: 0 <= k < |tags + [t]| ==> CleanTag((tags + [t])[k])
  {
    var r := tags + [t];
    assert forall i :: 0 <= i < |tags| ==> r[i] == tags[i];
  }

  /** Adding keeps the tags free of duplicates, and every tag trimmed and non-empty. */
  lemma PressEnterKeepsTagsClean(b: TagBox)
    requires NoDuplicates(b.tags)
    requires forall k :: 0 <= k < |b.tags| ==> CleanTag(b.tags[k])
    ensures NoDuplicates(PressEnter(b).tags)
    ensures forall k :: 0 <= k < |PressEnter(b).tags| ==> CleanTag(PressEnter(b).tags[k])
  {
    var t := Trim(b.input);
    if t != "" && t !in b.tags {
      TrimIdempotent(b.input);
      SnocTag(b.tags, t);
    }
  }

  function NotTag(x: string): string -> bool {
    (t: string) => t != x
  }

  /** `removeTag`: every occurrence goes, the rest keep their order. */
  function RemoveTag(tags: seq<string>, x: string): (r: seq<string>)
    ensures x !in r
    ensures forall t :: t in r <==> t in tags && t != x
    ensures |r| <= |tags|
  {
    Filter(tags, NotTag(x))
  }

  /** Adding a new tag and removing it again gives the tags back, and clears the box. */
  lemma AddThenRemoveTag(b: TagBox)
    requires Trim(b.input) != "" && Trim(b.input) !in b.tags
    ensures RemoveTag(PressEnter(b).tags, Trim(b.input)) == b.tags
  {
    var t := Trim(b.input);
    FilterAppend(b.tags, [t], NotTag(t));
    FilterAll(b.tags, NotTag(t));
  }

  // ---------------------------------------------------------------------------
  // Record lists
  // ---------------------------------------------------------------------------

  /** A row of a record list: its text fields. */
  type Row = map<string, string>

  const BlankMilestone: Row := map["year" := "", "content" := ""]
  const BlankRelationship: Row := map["name" := "", "relation" := "", "note" := ""]
  const BlankPet: Row := map["name" := "", "type" := "", "note" := ""]

  /** `addItem`: one blank row at the end. */
  function AddRow<T>(items: seq<T>, blank: T): (r: seq<T>)
    ensures |r| == |items| + 1 && r[..|items|] == items && r[|items|] == blank
  {
    items + [blank]
  }

  /** `items.filter((_, i) => i !== index)`: the row at that position goes; a position past the end removes nothing. */
  function RemoveRow<T>(items: seq<T>, index: nat): (r: seq<T>)
    ensures index < |items| ==> |r| == |items| - 1
    ensures index >= |items| ==> r == items
    ensures forall k :: 0 <= k < |r| ==> r[k] == items[if k < index then k else k + 1]
  {
    if index < |items| then items[..index] + items[index + 1..] else items
  }

  /** `updateItem`: one field of one row set; every other row and field stays. */
  function UpdateRow(items: seq<Row>, index: nat, field: string, value: string): (r: seq<Row>)
    requires index < |items|
    ensures |r| == |items|
    ensures r[index] == items[index][field := value]
    ensures forall k :: 0 <= k < |items| && k != index ==> r[k] == items[k]
  {
    items[index := items[index][field := value]]
  }

  /** Adding a blank row and removing it again gives the list back. */
  lemma AddThenRemoveRow<T>(items: seq<T>, blank: T)
    ensures RemoveRow(AddRow(items, blank), |items|) == items
  {
    assert AddRow(items, blank)[..|items|] == items;
  }

  /** Editing a field back to its old value restores the list. */
  lemma UpdateRowUndo(items: seq<Row>, index: nat, field: string, value: string)
    requires index < |items| && field in items[index]
    ensures UpdateRow(UpdateRow(items, index, field, value), index, field, items[index][field]) == items
  {
    var once := UpdateRow(items, index, field, value);
    assert once[index][field := items[index][field]] == items[index];
  }

  /** The focus list tolerates a stored value that is not a list: it edits an empty one instead. */
  function FocusItems(v: Json): (r: seq<Json>)
    ensures v.JArr? ==> r == v.items
    ensures !v.JArr? ==> r == []
  {
    if v.JArr? then v.items else []
  }

  /** The focus editor's `updateItem`: the entry at that position replaced. */
  function UpdateFocus(v: Json, index: nat, value: string): (r: seq<Json>)
    requires index < |FocusItems(v)|
    ensures |r| == |FocusItems(v)| && r[index] == JStr(value)
    ensures forall k :: 0 <= k < |r| && k != index ==> r[k] == FocusItems(v)[k]
  {
    FocusItems(v)[index := JStr(value)]
  }

  // ---------------------------------------------------------------------------
  // The profile form
  // ---------------------------------------------------------------------------

  /** A list field of the form: kept when it is a list, else empty. */
  function ListOrEmpty(v: Option<Json>): (r: Json)
    ensures r.JArr?
    ensures v.Some? && v.value.JArr? ==> r == v.value
    ensures !(v.Some? && v.value.JArr?) ==> r == JArr([])
  {
    if v.Some? && v.value.JArr? then v.value else JArr([])
  }

  /** The goals field: a list is kept, any other truthy value becomes a one-entry list, a falsy one an empty list. */
  function GoalsList(v: Option<Json>): (r: Json)
    ensures r.JArr?
    ensures v.Some? && v.value.JArr? ==> r == v.value
    ensures v.Some? && !v.value.JArr? && Truthy(v.value) ==> r == JArr([v.value])
    ensures v.None? || !Truthy(v.value) ==> r == JArr([])
  {
    if v.Some? && v.value.JArr? then v.value
    else if v.Some? && Truthy(v.value) then JArr([v.value])
    else JArr([])
  }

  const FormLists: set<string> := {"lifeExperience", "coreRelationships", "interests", "pets", "shortTermGoals"}

  /** The form built from the profile: every list field a list, every other field as in the profile. */
  function FormOf(profile: map<string, Json>): (form: map<string, Json>)
    ensures form.Keys == profile.Keys + FormLists
    ensures forall k :: k in FormLists ==> form[k].JArr?
    ensures forall k :: k in profile && k !in FormLists ==> form[k] == profile[k]
    ensures forall k :: k in FormLists && k in profile && profile[k].JArr? ==> form[k] == profile[k]
  {
    profile["lifeExperience" := ListOrEmpty(Get(profile, "lifeExperience"))]
           ["coreRelationships" := ListOrEmpty(Get(profile, "coreRelationships"))]
           ["interests" := ListOrEmpty(Get(profile, "interests"))]
           ["pets" := ListOrEmpty(Get(profile, "pets"))]
           ["shortTermGoals" := GoalsList(Get(profile, "shortTermGoals"))]
  }

  /** Building the form from a form changes nothing. */
  lemma FormOfIdempotent(profile: map<string, Json>)
    ensures FormOf(FormOf(profile)) == FormOf(profile)
  {
    var f := FormOf(profile);
    assert forall k :: k in FormLists ==> Get(f, k) == Some(f[k]);
  }
}
