/**
 The timeline page: every diary sorted newest first and grouped by day, the
 "on this day" memories from earlier years, and the confirm-then-delete step.

 The comparator subtracts `new Date(...)` values. For `yyyy-MM-dd` dates and
 the ISO timestamps `toISOString` writes, that subtraction has the sign of
 the string comparison (`Dates.FormatOrder` proves it for dates), so the
 model compares the strings.
 */
module Timeline {
  import opened Common
  import opened Dates
  import DiaryStore
  import opened DiaryOrder
  import Categories

  type Diary = DiaryStore.Diary

  // ---------------------------------------------------------------------------
  // Sorting
  // ---------------------------------------------------------------------------

  /** The timeline order: newest day first, then newest `createdAt` when both entries carry one. */
  function SortDiaries(ds: seq<Diary>): (r: seq<Diary>)
    ensures multiset(r) == multiset(ds)
    ensures DateDescending(r)
    ensures AllCreated(ds) ==> SameDayNewestCreatedFirst(r)
  {
    SortByCreatedWithinDay(ds);
    Sort(ds, true)
  }

  // ---------------------------------------------------------------------------
  // Grouping
  // ---------------------------------------------------------------------------

  datatype DayGroup = DayGroup(date: string, diaries: seq<Diary>)

  function GroupKeys(gs: seq<DayGroup>): (ks: seq<string>)
    ensures |ks| == |gs|
    ensures forall i :: 0 <= i < |gs| ==> ks[i] == gs[i].date
  {
    seq(|gs|, i requires 0 <= i < |gs| => gs[i].date)
  }

  /** `acc[date]`: the position of the group for that day, if there is one. */
  function DayIndex(gs: seq<DayGroup>, date: string): (r: Option<nat>)
    ensures r.Some? ==> r.value < |gs| && gs[r.value].date == date
    ensures r.None? ==> forall j :: 0 <= j < |gs| ==> gs[j].date != date
    decreases |gs|
  {
    if |gs| == 0 then None
    else if gs[0].date == date then Some(0)
    else
      match DayIndex(gs[1..], date)
      case None => None
      case Some(i) => Some(i + 1)
  }

  /** A day has a group exactly when it is among the keys. */
  lemma DayIndexFound(gs: seq<DayGroup>, date: string)
    ensures DayIndex(gs, date).Some? <==> date in GroupKeys(gs)
  {
    var ks := GroupKeys(gs);
    if DayIndex(gs, date).Some? {
      assert ks[DayIndex(gs, date).value] == date;
    }
  }

  /** One `reduce` step: push onto the day's list, creating it at the end when the day is new. */
  function AddToGroups(gs: seq<DayGroup>, d: Diary): (r: seq<DayGroup>)
    ensures DayIndex(gs, d.date).None? ==> r == gs + [DayGroup(d.date, [d])]
    ensures DayIndex(gs, d.date).Some? ==> |r| == |gs|
    ensures forall j :: 0 <= j < |gs| ==> r[j].date == gs[j].date
    ensures forall j :: 0 <= j < |gs| ==> r[j].diaries == gs[j].diaries || r[j].diaries == gs[j].diaries + [d]
  {
    match DayIndex(gs, d.date)
    case None => gs + [DayGroup(d.date, [d])]
    case Some(i) => gs[i := gs[i].(diaries := gs[i].diaries + [d])]
  }

  /** A group that is not empty and holds only diaries of its own day. */
  predicate OneDay(g: DayGroup) {
    |g.diaries| > 0 && forall e :: e in g.diaries ==> e.date == g.date
  }

  /** `sorted.reduce(...)`, then `Object.entries` in key insertion order (date keys are not integer-like). */
  function GroupByDate(sorted: seq<Diary>): (gs: seq<DayGroup>)
    ensures |gs| <= |sorted|
    ensures forall i :: 0 <= i < |gs| ==> OneDay(gs[i])
    decreases |sorted|
  {
    if |sorted| == 0 then []
    else AddToGroups(GroupByDate(sorted[..|sorted| - 1]), sorted[|sorted| - 1])
  }

  function DatesOf(s: seq<Diary>): (r: seq<string>)
    ensures |r| == |s|
    ensures forall i :: 0 <= i < |s| ==> r[i] == s[i].date
  {
    seq(|s|, i requires 0 <= i < |s| => s[i].date)
  }

  function OnDay(date: string): Diary -> bool {
    (d: Diary) => d.date == date
  }

  /** The groups are the distinct days in order of first appearance, each holding that day's diaries in list order. */
  predicate GroupsMatch(gs: seq<DayGroup>, sorted: seq<Diary>) {
    GroupKeys(gs) == Dedup(DatesOf(sorted))
    && forall i :: 0 <= i < |gs| ==> gs[i].diaries == Filter(sorted, OnDay(gs[i].date))
  }

  /** One step of adding to the matching group, when no day has two groups. */
  lemma AddToGroupsSpec(gs: seq<DayGroup>, d: Diary)
    requires NoDuplicates(GroupKeys(gs))
    ensures GroupKeys(AddToGroups(gs, d)) == if d.date in GroupKeys(gs) then GroupKeys(gs) else GroupKeys(gs) + [d.date]
    ensures forall i :: 0 <= i < |gs| ==>
      AddToGroups(gs, d)[i].diaries == if gs[i].date == d.date then gs[i].diaries + [d] else gs[i].diaries
  {
    var r := AddToGroups(gs, d);
    DayIndexFound(gs, d.date);
    match DayIndex(gs, d.date)
    case None =>
      assert GroupKeys(r) == GroupKeys(gs) + [d.date];
    case Some(k) =>
      assert GroupKeys(r) == GroupKeys(gs);
      forall i | 0 <= i < |gs| && i != k ensures gs[i].date != d.date {
        assert GroupKeys(gs)[i] != GroupKeys(gs)[k];
      }
  }

  /** The day list gains the new day at the end exactly when it is new. */
  lemma GroupKeysStep(init: seq<Diary>, last: Diary)
    requires GroupKeys(GroupByDate(init)) == Dedup(DatesOf(init))
    ensures GroupKeys(GroupByDate(init + [last])) == Dedup(DatesOf(init + [last]))
  {
    var gs := GroupByDate(init);
    var dates := DatesOf(init);
    assert NoDuplicates(GroupKeys(gs));
    AddToGroupsSpec(gs, last);
    assert (init + [last])[..|init|] == init;
    assert GroupByDate(init + [last]) == AddToGroups(gs, last);
    assert DatesOf(init + [last]) == dates + [last.date];
    assert last.date in GroupKeys(gs) <==> last.date in dates;
    DedupSnoc(dates, last.date);
  }

  /** A day that does not occur in the list selects nothing from it. */
  lemma FilterAbsentDay(s: seq<Diary>, date: string)
    requires date !in DatesOf(s)
    ensures Filter(s, OnDay(date)) == []
  {
    forall x | x in s ensures x.date != date {
      var k :| 0 <= k < |s| && s[k] == x;
      assert DatesOf(s)[k] == x.date;
    }
  }

  /** Filtering a single element keeps it exactly when it passes. */
  lemma FilterOne(x: Diary, keep: Diary -> bool)
    ensures Filter([x], keep) == if keep(x) then [x] else []
  {
    assert [x][1..] == [];
  }

  /** When the step adds a group, the day is new to the list and the group holds just the new diary. */
  lemma NewDayGroup(gs: seq<DayGroup>, init: seq<Diary>, last: Diary)
    requires GroupKeys(gs) == Dedup(DatesOf(init))
    requires |AddToGroups(gs, last)| > |gs|
    ensures last.date !in DatesOf(init)
    ensures AddToGroups(gs, last) == gs + [DayGroup(last.date, [last])]
  {
    DayIndexFound(gs, last.date);
  }

  /** Each group's list grows by the new diary exactly when the diary is on that day. */
  lemma GroupListsStep(init: seq<Diary>, last: Diary)
    requires GroupsMatch(GroupByDate(init), init)
    ensures forall i :: 0 <= i < |GroupByDate(init + [last])| ==>
      GroupByDate(init + [last])[i].diaries == Filter(init + [last], OnDay(GroupByDate(init + [last])[i].date))
  {
    var gs := GroupByDate(init);
    var sorted := init + [last];
    assert sorted[..|init|] == init;
    var r := GroupByDate(sorted);
    assert r == AddToGroups(gs, last);
    AddToGroupsSpec(gs, last);
    forall i | 0 <= i < |r| ensures r[i].diaries == Filter(sorted, OnDay(r[i].date)) {
      var day := r[i].date;
      FilterAppend(init, [last], OnDay(day));
      FilterOne(last, OnDay(day));
      if i < |gs| {
        assert day == gs[i].date;
        assert gs[i].diaries == Filter(init, OnDay(day));
      } else {
        NewDayGroup(gs, init, last);
        FilterAbsentDay(init, last.date);
      }
    }
  }

  /** Grouping yields exactly one group per distinct day, in first-appearance order, holding that day's diaries in order. */
  lemma {:induction false} GroupByDateCorrect(sorted: seq<Diary>)
    ensures GroupsMatch(GroupByDate(sorted), sorted)
    decreases |sorted|
  {
    if |sorted| > 0 {
      var init := sorted[..|sorted| - 1];
      var last := sorted[|sorted| - 1];
      SplitLast(sorted);
      GroupByDateCorrect(init);
      GroupsMatchStep(init, last);
    }
  }

  /** A non-empty list is its front followed by its last element. */
  lemma SplitLast(s: seq<Diary>)
    requires |s| > 0
    ensures s == s[..|s| - 1] + [s[|s| - 1]]
  {
  }

  /** Grouping one more diary keeps the groups matching the list. */
  lemma GroupsMatchStep(init: seq<Diary>, last: Diary)
    requires GroupsMatch(GroupByDate(init), init)
    ensures GroupsMatch(GroupByDate(init + [last]), init + [last])
  {
    GroupKeysStep(init, last);
    GroupListsStep(init, last);
  }

  /** The page's grouped list: sort, then group. */
  function GroupedDiaries(ds: seq<Diary>): (gs: seq<DayGroup>)
    ensures GroupsMatch(gs, SortDiaries(ds))
  {
    GroupByDateCorrect(SortDiaries(ds));
    GroupByDate(SortDiaries(ds))
  }

  // ---------------------------------------------------------------------------
  // On this day
  // ---------------------------------------------------------------------------

  /**
   The local calendar day on which `new Date("yyyy-MM-dd")` falls. That
   constructor reads a date-only string as UTC midnight; a zone west of UTC
   (negative offset, in minutes, of local time from UTC) sees the previous day.
   */
  function LocalDayOfUtcMidnight(d: Date, utcOffsetMinutes: int): (r: Date)
    requires Valid(d)
    requires -24 * 60 < utcOffsetMinutes < 24 * 60
    ensures utcOffsetMinutes >= 0 ==> r == d
    ensures utcOffsetMinutes < 0 && d != Date(1000, 1, 1) ==>
              Valid(r) && Before(r, d) && r != Date(9999, 12, 31) && NextDay(r) == d
  {
    if utcOffsetMinutes >= 0 then d
    else if d == Date(1000, 1, 1) then Date(999, 12, 31)
    else
      NextOfPrevDay(d);
      PrevDay(d)
  }

  /** Helper used where `PrevDay` and `NextDay` are chained. */
  lemma NextOfPrevDay(d: Date)
    requires Valid(d) && d != Date(1000, 1, 1)
    ensures NextDay(PrevDay(d)) == d
  {
    NextOfPrev(d);
  }

  /**
   Same month and day as today in a different year, read from the date fields
   the way the memories filter reads them: at or east of UTC the written date,
   west of UTC the day before it.
   */
  function RecallAsWritten(diaryDate: string, today: Date, utcOffsetMinutes: int): (b: bool)
    requires -24 * 60 < utcOffsetMinutes < 24 * 60
    ensures ParseDate(diaryDate).None? ==> !b
    ensures utcOffsetMinutes >= 0 ==> (b <==> RecallCorrected(diaryDate, today))
    ensures utcOffsetMinutes < 0 && ParseDate(diaryDate).Some? && ParseDate(diaryDate).value != Date(1000, 1, 1) ==>
              (b <==> RecallCorrected(Format(PrevDay(ParseDate(diaryDate).value)), today))
  {
    match ParseDate(diaryDate)
    case None => false
    case Some(d) =>
      var shown := LocalDayOfUtcMidnight(d, utcOffsetMinutes);
      ParseFormat(d);
      if utcOffsetMinutes < 0 && d != Date(1000, 1, 1) then
        ParseFormat(shown);
        shown.month == today.month && shown.day == today.day && shown.year != today.year
      else
        shown.month == today.month && shown.day == today.day && shown.year != today.year
  }

  /** The memories list as the page computes it, including the time-zone shift. */
  function MemoriesAsWritten(ds: seq<Diary>, today: Date, utcOffsetMinutes: int): (r: seq<Diary>)
    requires -24 * 60 < utcOffsetMinutes < 24 * 60
    ensures forall d :: d in r <==> d in ds && RecallAsWritten(d.date, today, utcOffsetMinutes)
  {
    Filter(ds, (d: Diary) => RecallAsWritten(d.date, today, utcOffsetMinutes))
  }

  /** The text `2023-10-09` reads as that date. */
  lemma AnniversaryDateParses()
    ensures ParseDate("2023-10-09") == Some(Date(2023, 10, 9))
  {
    var d := Date(2023, 10, 9);
    ParseFormat(d);
    assert Format(d) == "2023-10-09" by {
      assert Digits(2023, 4) == "2023" && Digits(10, 2) == "10" && Digits(9, 2) == "09";
    }
  }

  /** West of UTC the page misses a diary written exactly one year ago today. */
  lemma MemoriesAsWrittenMissesAnniversary()
    ensures var diary := DiaryStore.Diary("1", "2023-10-09", "", "", None, None, None, None, None, None, None, None);
            var today := Date(2024, 10, 9);
            MemoriesAsWritten([diary], today, -300) == []
            && MemoriesCorrected([diary], today) == [diary]
  {
    var diary := DiaryStore.Diary("1", "2023-10-09", "", "", None, None, None, None, None, None, None, None);
    var today := Date(2024, 10, 9);
    AnniversaryDateParses();
    assert PrevDay(Date(2023, 10, 9)) == Date(2023, 10, 8);
    assert !RecallAsWritten(diary.date, today, -300);
    assert RecallCorrected(diary.date, today);
    FilterOne(diary, (d: Diary) => RecallAsWritten(d.date, today, -300));
    FilterOne(diary, (d: Diary) => RecallCorrected(d.date, today));
  }

  /**
   The intended test: the month and day written in the diary's date equal
   today's, and the year differs; on the text, the date matches today's after
   the year and differs in the year.
   */
  function RecallCorrected(diaryDate: string, today: Date): (b: bool)
    ensures ParseDate(diaryDate).None? ==> !b
    ensures Valid(today) && ParseDate(diaryDate).Some? ==>
              (b <==> diaryDate[4..] == Format(today)[4..] && diaryDate[..4] != Format(today)[..4])
  {
    match ParseDate(diaryDate)
    case None => false
    case Some(d) =>
      FormatParse(diaryDate);
      DateParts(d, today);
      d.month == today.month && d.day == today.day && d.year != today.year
  }

  /** The year is the text before the first dash, the month and day the text from it. */
  lemma DateParts(d: Date, today: Date)
    requires Valid(d)
    ensures Valid(today) ==>
              (Format(d)[..4] == Format(today)[..4] <==> d.year == today.year)
              && (Format(d)[4..] == Format(today)[4..] <==> d.month == today.month && d.day == today.day)
  {
    if Valid(today) {
      FormatYearPart(d, today);
      FormatDayOfYearPart(d, today);
    }
  }

  /** The memories list compared on the written date fields, so independent of the time zone. */
  function MemoriesCorrected(ds: seq<Diary>, today: Date): (r: seq<Diary>)
    ensures forall d :: d in r <==> d in ds && RecallCorrected(d.date, today)
  {
    Filter(ds, (d: Diary) => RecallCorrected(d.date, today))
  }

  /** At or east of UTC the page's list is the intended one. */
  lemma MemoriesAgreeEastOfUtc(ds: seq<Diary>, today: Date, utcOffsetMinutes: int)
    requires 0 <= utcOffsetMinutes < 24 * 60
    ensures MemoriesAsWritten(ds, today, utcOffsetMinutes) == MemoriesCorrected(ds, today)
  {
    FilterSame(ds, (d: Diary) => RecallAsWritten(d.date, today, utcOffsetMinutes), (d: Diary) => RecallCorrected(d.date, today));
  }

  /** Filters with pointwise-equal predicates agree. */
  lemma {:induction false} FilterSame<T(!new)>(s: seq<T>, p: T -> bool, q: T -> bool)
    requires forall x :: x in s ==> p(x) == q(x)
    ensures Filter(s, p) == Filter(s, q)
    decreases |s|
  {
    if |s| > 0 {
      assert forall x :: x in s[1..] ==> x in s;
      FilterSame(s[1..], p, q);
    }
  }

  // ---------------------------------------------------------------------------
  // Deleting from the timeline
  // ---------------------------------------------------------------------------

  /** `handleConfirmDelete`: delete the pending diary, if there is one, and clear the pending id. */
  function ConfirmDelete(ds: seq<Diary>, pending: Option<string>): (r: (seq<Diary>, Option<string>))
    ensures r.1 == if TruthyStr(pending) then None else pending
    ensures TruthyStr(pending) ==> forall d :: d in r.0 <==> d in ds && d.id != pending.value
    ensures !TruthyStr(pending) ==> r.0 == ds
  {
    if TruthyStr(pending) then (DiaryStore.DeleteDiary(ds, pending.value), None)
    else (ds, pending)
  }

  // ---------------------------------------------------------------------------
  // Category colours
  // ---------------------------------------------------------------------------

  const DefaultBorder := "!border-l-[#D1D5DB]"

  const CategoryBorders: map<string, string> := map[
    "Daily Life" := "!border-l-[#A4B494]", "Work" := "!border-l-[#9FB8AD]",
    "Travel" := "!border-l-[#B6C6C8]", "Emotions" := "!border-l-[#DBC4C3]",
    "Dreams" := "!border-l-[#BEC3C8]", "Reading" := "!border-l-[#E2D5C4]"]

  /**
   The names every object literal inherits from `Object.prototype`. Reading
   one of them from the colour table gives a truthy member (a function, or
   the prototype itself for `__proto__`), not a class name.
   */
  const InheritedMembers: set<string> := {
    "constructor", "hasOwnProperty", "isPrototypeOf", "propertyIsEnumerable",
    "toLocaleString", "toString", "valueOf", "__proto__",
    "__defineGetter__", "__defineSetter__", "__lookupGetter__", "__lookupSetter__"}

  /** What `map[category] || default` yields: a class name, or an inherited member of the table. */
  datatype Border = ClassName(name: string) | Inherited(member: string)

  /**
   `getCategoryBorderClass`: the colour of a known category; an inherited
   member for a category named like one; the light grey default for anything
   else or none.
   */
  function BorderClass(category: Option<string>): (c: Border)
    ensures category.Some? && category.value in CategoryBorders ==> c == ClassName(CategoryBorders[category.value])
    ensures category.Some? && category.value in InheritedMembers ==> c == Inherited(category.value)
    ensures !(category.Some? && (category.value in CategoryBorders || category.value in InheritedMembers)) ==>
      c == ClassName(DefaultBorder)
  {
    InheritedNotColoured();
    if category.Some? && category.value in CategoryBorders then ClassName(CategoryBorders[category.value])
    else if category.Some? && category.value in InheritedMembers then Inherited(category.value)
    else ClassName(DefaultBorder)
  }

  /** No built-in category is named like an inherited member. */
  lemma InheritedNotColoured()
    ensures forall c :: c in InheritedMembers ==> c !in CategoryBorders
  {
    forall c | c in InheritedMembers ensures c !in CategoryBorders {
      assert |c| >= 7 && c !in CategoryBorders;
    }
  }

  /**
   The coloured categories are exactly the picker's built-in ones, none shown
   in the default grey; a category named like an inherited member gets that
   member; any other category gets the default border.
   */
  lemma BordersForBuiltIns(category: string)
    ensures category in CategoryBorders <==> category in Categories.DefaultCategories
    ensures category in Categories.DefaultCategories ==>
      BorderClass(Some(category)).ClassName? && BorderClass(Some(category)).name != DefaultBorder
    ensures category in InheritedMembers ==> BorderClass(Some(category)) == Inherited(category)
    ensures category !in Categories.DefaultCategories && category !in InheritedMembers ==>
      BorderClass(Some(category)) == ClassName(DefaultBorder)
  {
    assert CategoryBorders.Keys == set c | c in Categories.DefaultCategories;
    if category in CategoryBorders {
      assert CategoryBorders[category][13] != DefaultBorder[13];
    }
  }

  /** Each built-in category has its own colour. */
  lemma BorderColoursDistinct()
    ensures forall i, j :: 0 <= i < j < |Categories.DefaultCategories| ==>
      BorderClass(Some(Categories.DefaultCategories[i])) != BorderClass(Some(Categories.DefaultCategories[j]))
  {
    var ds := Categories.DefaultCategories;
    var marks := "4F6BE2";
    assert forall i :: 0 <= i < |ds| ==> ds[i] in CategoryBorders && BorderClass(Some(ds[i])).name[13] == marks[i];
  }
}
