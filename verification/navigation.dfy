/**
 Which diaries the day page shows (`DiaryEntryPage`) and where a click on the
 small calendar leads (`MiniCalendar`).
 */
module Navigation {
  import opened Common
  import opened DiaryStore

  // ---------------------------------------------------------------------------
  // The day page
  // ---------------------------------------------------------------------------

  /** The route's parameters: a diary id, or a day, or neither (`""` is an absent parameter). */
  datatype Route = Route(date: string, id: string)

  /** What the page shows: the diaries, and the day named in the header (`""` for none). */
  datatype Shown = Shown(diaries: Diaries, date: string)

  /** An id wins over a day: it shows that one diary under its own day, or nothing; a day alone shows every diary of that day. */
  function EntryPage(ds: Diaries, route: Route): (r: Shown)
    ensures route.id != "" ==> match GetDiaryById(ds, route.id)
                               case Some(d) => r == Shown([d], d.date)
                               case None => r == Shown([], route.date)
    ensures route.id == "" && route.date != "" ==> r == Shown(GetDiariesByDate(ds, route.date), route.date)
    ensures route.id == "" && route.date == "" ==> r == Shown([], "")
  {
    if route.id != "" then
      match GetDiaryById(ds, route.id)
      case Some(d) => Shown([d], d.date)
      case None => Shown([], route.date)
    else if route.date != "" then Shown(GetDiariesByDate(ds, route.date), route.date)
    else Shown([], "")
  }

  /** With an id route, every diary shown carries that id. */
  lemma IdRouteShowsThatDiary(ds: Diaries, route: Route)
    requires route.id != ""
    ensures forall d :: d in EntryPage(ds, route).diaries ==> d.id == route.id
    ensures |EntryPage(ds, route).diaries| <= 1
  {
  }

  /** With a day route, exactly the diaries of that day are shown, and they are dated under the header's day. */
  lemma DateRouteShowsThatDay(ds: Diaries, route: Route)
    requires route.id == "" && route.date != ""
    ensures forall d :: d in EntryPage(ds, route).diaries <==> d in ds && d.date == route.date
    ensures forall d :: d in EntryPage(ds, route).diaries ==> d.date == EntryPage(ds, route).date
  {
  }

  /** "Write for this day" on an empty page: the header's day, or today when there is none. */
  function FallbackDate(shown: Shown, today: string): (d: string)
    ensures shown.date != "" ==> d == shown.date
    ensures shown.date == "" ==> d == today
  {
    if shown.date != "" then shown.date else today
  }

  /** The count badge: singular for exactly one diary. */
  function EntryLabel(count: nat): (s: string)
    ensures s == "Entry" <==> count == 1
    ensures s == "Entry" || s == "Entries"
  {
    if count == 1 then "Entry" else "Entries"
  }

  // ---------------------------------------------------------------------------
  // The small calendar
  // ---------------------------------------------------------------------------

  datatype Destination = DayPage(date: string) | WriteFor(date: string)

  /** A click on a day: its page when a diary exists for it, else the writing page for it. Future days are let through. */
  function DateClick(ds: Diaries, date: string): (r: Destination)
    ensures r.date == date
    ensures r.DayPage? <==> exists i :: 0 <= i < |ds| && ds[i].date == date
  {
    if GetDiaryByDate(ds, date).Some? then DayPage(date) else WriteFor(date)
  }

  /** The path of a destination. */
  function Path(r: Destination): string {
    match r
    case DayPage(d) => "/date/" + d
    case WriteFor(d) => "/write?date=" + d
  }

  /** Clicking a day with a diary leads to a page that shows it. */
  lemma ClickedDayShowsDiaries(ds: Diaries, date: string)
    requires date != ""
    requires DateClick(ds, date).DayPage?
    ensures |EntryPage(ds, Route(date, "")).diaries| > 0
  {
    var i :| 0 <= i < |ds| && ds[i].date == date;
    assert ds[i] in EntryPage(ds, Route(date, "")).diaries;
  }

  /** The year picker: ten years, from five before this year to four after. */
  function Years(current: int): (ys: seq<int>)
    ensures |ys| == 10
    ensures forall i :: 0 <= i < 10 ==> ys[i] == current - 5 + i
    ensures current in ys
  {
    var ys := seq(10, i requires 0 <= i < 10 => current - 5 + i);
    assert ys[5] == current;
    ys
  }
}
