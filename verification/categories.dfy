/**
 The category picker (`CategorySelector`): a text box over the built-in
 categories and those already used by some diary. Typing filters the list
 case-insensitively; a name that matches no category exactly (ignoring case)
 can be created.
 */
module Categories {
  import opened Common
  import opened DiaryStore

  const DefaultCategories: seq<string> := ["Daily Life", "Work", "Travel", "Emotions", "Dreams", "Reading"]

  /** A category that is set and non-empty. */
  predicate IsSet(c: Option<string>) {
    c.Some? && c.value != ""
  }

  function CategoryList(ds: Diaries): (r: seq<string>)
    ensures |r| <= |ds|
    ensures forall c :: c in r <==> exists i :: 0 <= i < |ds| && IsSet(ds[i].category) && ds[i].category.value == c
  {
    if |ds| == 0 then []
    else
      var rest := CategoryList(ds[1..]);
      assert forall i :: 0 < i < |ds| ==> ds[i] == ds[1..][i - 1];
      assert forall i :: 0 <= i < |ds| - 1 ==> ds[1..][i] == ds[i + 1];
      if IsSet(ds[0].category) then [ds[0].category.value] + rest else rest
  }

  /** The list follows the diaries' order: a run of diaries contributes its categories in place. */
  lemma {:induction false} CategoryListAppend(a: Diaries, b: Diaries)
    ensures CategoryList(a + b) == CategoryList(a) + CategoryList(b)
    decreases |a|
  {
    if |a| == 0 {
      assert a + b == b;
    } else {
      assert (a + b)[1..] == a[1..] + b;
      CategoryListAppend(a[1..], b);
    }
  }

  /** One diary contributes its category when it has one, and nothing otherwise. */
  lemma CategoryListSingle(d: Diary)
    ensures CategoryList([d]) == if IsSet(d.category) then [d.category.value] else []
  {
  }

  /** The categories used by diaries, each once, in order of first use. */
  function ExistingCategories(ds: Diaries): (r: seq<string>)
    ensures NoDuplicates(r)
    ensures forall c :: c in r <==> exists i :: 0 <= i < |ds| && IsSet(ds[i].category) && ds[i].category.value == c
  {
    Dedup(CategoryList(ds))
  }

  /** The choices: the built-in categories first, then the others in use, each once. */
  function AllCategories(existing: seq<string>): (r: seq<string>)
    ensures NoDuplicates(r)
    ensures forall c :: c in r <==> c in DefaultCategories || c in existing
    ensures |r| >= |DefaultCategories| && r[..|DefaultCategories|] == DefaultCategories
  {
    DefaultsDistinct();
    DedupPrefix(DefaultCategories, existing);
    DedupOfDistinct(DefaultCategories);
    Dedup(DefaultCategories + existing)
  }

  /** No built-in category is listed twice. */
  lemma DefaultsDistinct()
    ensures NoDuplicates(DefaultCategories)
  {
    var d := DefaultCategories;
    assert forall i :: 0 <= i < |d| ==> d[i][0] == ['D', 'W', 'T', 'E', 'D', 'R'][i];
    assert d[0][1] != d[4][1];
  }

  /** A duplicate-free list is its own de-duplication. */
  lemma {:induction false} DedupOfDistinct(s: seq<string>)
    requires NoDuplicates(s)
    ensures Dedup(s) == s
    decreases |s|
  {
    if |s| > 0 {
      var init := s[..|s| - 1];
      assert s == init + [s[|s| - 1]];
      DedupOfDistinct(init);
      DedupSnoc(init, s[|s| - 1]);
    }
  }

  /** What `a` de-duplicates to stays in front when more elements follow. */
  lemma {:induction false} DedupPrefix(a: seq<string>, b: seq<string>)
    ensures |Dedup(a + b)| >= |Dedup(a)| && Dedup(a + b)[..|Dedup(a)|] == Dedup(a)
    decreases |b|
  {
    if |b| == 0 {
      assert a + b == a;
    } else {
      var init := b[..|b| - 1];
      var x := b[|b| - 1];
      assert a + b == (a + init) + [x];
      DedupPrefix(a, init);
      DedupSnoc(a + init, x);
    }
  }

  // ---------------------------------------------------------------------------
  // The list shown while typing
  // ---------------------------------------------------------------------------

  /** The whole list is shown while the box is empty or still shows the chosen category. */
  predicate ShowAll(input: string, value: string) {
    input == "" || input == value
  }

  /** A category whose lower-cased name contains the lower-cased input. */
  function Matching(input: string): string -> bool {
    (c: string) => Includes(Lower(c), Lower(input))
  }

  function Filtered(all: seq<string>, input: string, value: string): (r: seq<string>)
    ensures ShowAll(input, value) ==> r == all
    ensures !ShowAll(input, value) ==> forall c :: c in r <==> c in all && Contains(Lower(c), Lower(input))
  {
    if ShowAll(input, value) then all else Filter(all, Matching(input))
  }

  /** "Create" is offered for non-empty input no category equals, ignoring case. */
  function ShowCreate(all: seq<string>, input: string): (b: bool)
    ensures b <==> input != "" && forall c :: c in all ==> Lower(c) != Lower(input)
  {
    input != "" && !Any(all, (c: string) => Lower(c) == Lower(input))
  }

  /** When creation is not offered for some typed text, the category it names is in the filtered list. */
  lemma ExactMatchListed(all: seq<string>, input: string, value: string)
    requires input != "" && !ShowCreate(all, input)
    ensures exists c :: c in Filtered(all, input, value) && Lower(c) == Lower(input)
  {
    var c :| c in all && Lower(c) == Lower(input);
    assert MatchesAt(Lower(c), Lower(input), 0);
    assert c in Filtered(all, input, value);
  }

  // ---------------------------------------------------------------------------
  // The picker's state
  // ---------------------------------------------------------------------------

  /** The chosen category (owned by the page; `""` when none), the box's text, and whether the list is open. */
  datatype Picker = Picker(value: string, input: string, open: bool)

  /** The box follows the chosen category whenever that changes. */
  function Choose(p: Picker, v: string): (r: Picker)
    ensures r.value == v
    ensures v != p.value ==> r.input == v
    ensures v == p.value ==> r.input == p.input
  {
    if v != p.value then p.(value := v, input := v) else p.(value := v)
  }

  /** `handleSelect`: the category chosen and shown, the list closed. */
  function Select(p: Picker, c: string): (r: Picker)
    ensures r == Picker(c, c, false)
  {
    Picker(c, c, false)
  }

  /** `handleCreate` (also Enter): the trimmed text chosen when it is not blank; blank text changes nothing. */
  function Create(p: Picker): (r: Picker)
    ensures Trim(p.input) == "" ==> r == p
    ensures Trim(p.input) != "" ==> r.value == Trim(p.input) && !r.open
  {
    if Trim(p.input) != "" then Choose(p, Trim(p.input)).(open := false) else p
  }

  /** `clearInput`: no category and an empty box. */
  function Clear(p: Picker): (r: Picker)
    ensures r.value == "" && r.input == "" && r.open == p.open
  {
    p.(value := "", input := "")
  }

  /** A click outside closes the list and puts back the chosen category's name. */
  function ClickOutside(p: Picker): (r: Picker)
    ensures r == Picker(p.value, p.value, false)
  {
    Picker(p.value, if p.input != p.value then p.value else p.input, false)
  }

  /** Typing: the box holds the text and the list opens. */
  function Type(p: Picker, text: string): (r: Picker)
    ensures r == p.(input := text, open := true)
  {
    p.(input := text, open := true)
  }

  /** After choosing, clearing or clicking outside, the next opening shows every category. */
  lemma SettledShowsAll(p: Picker, c: string, all: seq<string>)
    ensures Filtered(all, Select(p, c).input, Select(p, c).value) == all
    ensures Filtered(all, Clear(p).input, Clear(p).value) == all
    ensures Filtered(all, ClickOutside(p).input, ClickOutside(p).value) == all
  {
  }

  /** Creating a category from text that differs from the current choice shows it trimmed, so the full list comes back. */
  lemma CreateShowsAll(p: Picker, all: seq<string>)
    requires Trim(p.input) != "" && Trim(p.input) != p.value
    ensures Create(p).input == Create(p).value == Trim(p.input)
    ensures Filtered(all, Create(p).input, Create(p).value) == all
  {
  }

  /**
   Re-creating the chosen category from text that trims to it leaves the
   untrimmed text in the box; when that text has surrounding spaces, the next
   opening filters by it instead of showing every category.
   */
  lemma CreateSameKeepsSpaces(p: Picker, all: seq<string>)
    requires Trim(p.input) == p.value && p.value != ""
    ensures Create(p) == p.(open := false)
    ensures p.input != p.value ==> Filtered(all, Create(p).input, Create(p).value) == Filter(all, Matching(p.input))
  {
  }

  /** " Work " with "Work" chosen is such a case. */
  lemma CreateSameKeepsSpacesExample()
    ensures var p := Picker("Work", " Work ", true);
            Create(p) == Picker("Work", " Work ", false) && !ShowAll(Create(p).input, Create(p).value)
  {
    var t := " Work ";
    assert TrimOffset(t[1..]) == 0;
    assert TrimOffset(t) == 1;
    assert TrimLimit(t[..5]) == 5;
    assert TrimLimit(t) == 5;
    assert Trim(t) == "Work";
    CreateSameKeepsSpaces(Picker("Work", " Work ", true), []);
  }
}
