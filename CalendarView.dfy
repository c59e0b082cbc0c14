/**
 * The calendar grid as cell descriptors: seven weekday headers, one blank cell
 * per weekday before the first of the month, then one cell per day carrying
 * its date key, its events and, in admin mode, the actions the user can take.
 * `Grid` says what the grid is; `RenderCalendar` builds it cell by cell the way
 * the page does and is proved to produce `Grid`.
 */
module CalendarView {
  import opened Wrappers
  import opened Gregorian
  import opened DateKeys
  import opened Events

  /** The store operation a click (primary) or context-menu (secondary) action starts. */
  datatype Command =
    | EditEvent(date: string, index: nat)
    | DeleteEvent(date: string, index: nat)
    | EditPendingEvent(date: string, index: nat)
    | DeletePendingEvent(date: string, index: nat)
    | AddEvent(date: string)

  /** One event label of a day cell. */
  datatype Entry = Entry(text: string, pending: bool, onClick: Option<Command>, onContextMenu: Option<Command>)

  datatype Cell =
    | Header(name: string)
    | Blank
    | Day(day: nat, key: string, entries: seq<Entry>, add: Option<Command>)

  const WEEKDAYS: seq<string> := ["星期日", "星期一", "星期二", "星期三", "星期四", "星期五", "星期六"]

  /** The marker put in front of a pending event's description. */
  const DRAFT_MARK: string := "[待發佈] "

  function PublishedEntry(key: string, index: nat, e: Event, isAdmin: bool): Entry {
    Entry(e.description, false,
      if isAdmin then Some(EditEvent(key, index)) else None,
      if isAdmin then Some(DeleteEvent(key, index)) else None)
  }

  function PendingEntry(key: string, index: nat, e: Event): Entry {
    Entry(DRAFT_MARK + e.description, true, Some(EditPendingEvent(key, index)), Some(DeletePendingEvent(key, index)))
  }

  function PublishedEntries(key: string, list: seq<Event>, isAdmin: bool): seq<Entry> {
    seq(|list|, j requires 0 <= j < |list| => PublishedEntry(key, j, list[j], isAdmin))
  }

  function PendingEntries(key: string, list: seq<Event>): seq<Entry> {
    seq(|list|, j requires 0 <= j < |list| => PendingEntry(key, j, list[j]))
  }

  /** The cell of day `day`, whose events are filed under `key`. */
  function DayCell(key: string, day: nat, isAdmin: bool, events: EventMap, pending: EventMap): Cell {
    var shown := PublishedEntries(key, Lookup(events, key), isAdmin);
    var drafts := if isAdmin then PendingEntries(key, Lookup(pending, key)) else [];
    Day(day, key, shown + drafts, if isAdmin then Some(AddEvent(key)) else None)
  }

  /**
   * The year the host `Date` constructor uses: it reads a year from 0 to 99 as
   * 1900 plus that year. Only day counts and weekdays go through it; the date
   * keys use the year as given.
   */
  function HostYear(year: int): int {
    if 0 <= year <= 99 then 1900 + year else year
  }

  function MonthLength(year: int, month: Month): int {
    DaysInMonth(HostYear(year), month)
  }

  function LeadingBlanks(year: int, month: Month): int {
    FirstWeekday(HostYear(year), month)
  }

  /**
   * A two-digit year is read in the 1900s: February of year 0 has the 28 days of
   * February 1900, though year 0 itself is a leap year.
   */
  lemma TwoDigitYear()
    ensures MonthLength(0, FEBRUARY) == 28 && DaysInMonth(0, FEBRUARY) == 29
  {
  }

  function Headers(): seq<Cell> {
    seq(7, i requires 0 <= i < 7 => Header(WEEKDAYS[i]))
  }

  function Blanks(n: nat): seq<Cell> {
    seq(n, i => Blank)
  }

  function Days(year: int, month: Month, n: nat, isAdmin: bool, events: EventMap, pending: EventMap): seq<Cell> {
    seq(n, i requires 0 <= i < n => DayCell(DateKey(year, month + 1, i + 1), i + 1, isAdmin, events, pending))
  }

  /** The whole grid of `month` in `year`, as a guest (`isAdmin` false) or the operator sees it. */
  function Grid(month: Month, year: int, isAdmin: bool, events: EventMap, pending: EventMap): seq<Cell> {
    Headers() + Blanks(LeadingBlanks(year, month))
      + Days(year, month, MonthLength(year, month), isAdmin, events, pending)
  }

  /**
   * Builds the grid with the page's loops: the header cells, `firstDay` blank
   * cells, then for each day its published events, and in admin mode its
   * pending events and the add button.
   */
  method RenderCalendar(month: Month, year: int, isAdmin: bool, events: EventMap, pending: EventMap)
    returns (cells: seq<Cell>)
    ensures cells == Grid(month, year, isAdmin, events, pending)
  {
    var daysInMonth := MonthLength(year, month);
    var firstDay := LeadingBlanks(year, month);
    var headers := RenderHeaders();
    var blanks := RenderBlanks(firstDay);
    var days := RenderDays(year, month, daysInMonth, isAdmin, events, pending);
    cells := headers + blanks + days;
  }

  /** One header cell per weekday name. */
  method RenderHeaders() returns (cells: seq<Cell>)
    ensures cells == Headers()
  {
    cells := [];
    for i := 0 to |WEEKDAYS|
      invariant cells == Headers()[..i]
    {
      cells := cells + [Header(WEEKDAYS[i])];
    }
  }

  /** `n` blank cells. */
  method RenderBlanks(n: nat) returns (cells: seq<Cell>)
    ensures cells == Blanks(n)
  {
    cells := [];
    for i := 0 to n
      invariant cells == Blanks(i)
    {
      cells := cells + [Blank];
    }
  }

  /** The cells of days 1 .. n, each under its own date key. */
  method RenderDays(year: int, month: Month, n: nat, isAdmin: bool, events: EventMap, pending: EventMap)
    returns (cells: seq<Cell>)
    ensures cells == Days(year, month, n, isAdmin, events, pending)
  {
    cells := [];
    for i := 1 to n + 1
      invariant cells == Days(year, month, i - 1, isAdmin, events, pending)
    {
      var key := DateKey(year, month + 1, i);
      var day := RenderDay(key, i, isAdmin, events, pending);
      DaysSnoc(year, month, i - 1, isAdmin, events, pending);
      cells := cells + [day];
    }
  }

  /** The cells of days 1 .. n + 1 are those of days 1 .. n and then day n + 1. */
  lemma DaysSnoc(year: int, month: Month, n: nat, isAdmin: bool, events: EventMap, pending: EventMap)
    ensures Days(year, month, n + 1, isAdmin, events, pending)
      == Days(year, month, n, isAdmin, events, pending) + [DayCell(DateKey(year, month + 1, n + 1), n + 1, isAdmin, events, pending)]
  {
    var longer, shorter := Days(year, month, n + 1, isAdmin, events, pending), Days(year, month, n, isAdmin, events, pending);
    var last := DayCell(DateKey(year, month + 1, n + 1), n + 1, isAdmin, events, pending);
    assert |longer| == |shorter + [last]|;
    forall k | 0 <= k < n + 1 ensures longer[k] == (shorter + [last])[k] {
      if k < n {
        assert longer[k] == shorter[k];
      }
    }
  }

  /** One day cell: its published events, then in admin mode its drafts and the add button. */
  method RenderDay(key: string, day: nat, isAdmin: bool, events: EventMap, pending: EventMap)
    returns (cell: Cell)
    ensures cell == DayCell(key, day, isAdmin, events, pending)
  {
    var entries: seq<Entry> := [];
    if key in events {
      entries := RenderPublished(key, events[key], isAdmin);
    }
    var add: Option<Command> := None;
    if isAdmin {
      if key in pending {
        var drafts := RenderPending(key, pending[key]);
        entries := entries + drafts;
      }
      add := Some(AddEvent(key));
    }
    cell := Day(day, key, entries, add);
  }

  method RenderPublished(key: string, list: seq<Event>, isAdmin: bool) returns (entries: seq<Entry>)
    ensures entries == PublishedEntries(key, list, isAdmin)
  {
    entries := [];
    for j := 0 to |list|
      invariant entries == PublishedEntries(key, list[..j], isAdmin)
    {
      entries := entries + [PublishedEntry(key, j, list[j], isAdmin)];
    }
    assert list[..|list|] == list;
  }

  method RenderPending(key: string, list: seq<Event>) returns (entries: seq<Entry>)
    ensures entries == PendingEntries(key, list)
  {
    entries := [];
    for j := 0 to |list|
      invariant entries == PendingEntries(key, list[..j])
    {
      entries := entries + [PendingEntry(key, j, list[j])];
    }
    assert list[..|list|] == list;
  }

  /**
   * The grid has seven headers, between zero and six blanks and between 28 and 31 day
   * cells, so between 35 and 44 cells in all.
   */
  lemma GridLength(month: Month, year: int, isAdmin: bool, events: EventMap, pending: EventMap)
    ensures |Grid(month, year, isAdmin, events, pending)| == 7 + LeadingBlanks(year, month) + MonthLength(year, month)
    ensures 0 <= LeadingBlanks(year, month) <= 6 && 28 <= MonthLength(year, month) <= 31
    ensures 35 <= |Grid(month, year, isAdmin, events, pending)| <= 44
  {
    DaysInMonthRange(HostYear(year), month);
  }

  /** The grid opens with the seven weekday headers, then one blank per weekday before the first. */
  lemma GridPrefix(month: Month, year: int, isAdmin: bool, events: EventMap, pending: EventMap, i: nat)
    requires i < 7 + LeadingBlanks(year, month)
    ensures Grid(month, year, isAdmin, events, pending)[i] == if i < 7 then Header(WEEKDAYS[i]) else Blank
  {
    var blanks := LeadingBlanks(year, month);
    var h, b := Headers(), Blanks(blanks);
    var d := Days(year, month, MonthLength(year, month), isAdmin, events, pending);
    assert Grid(month, year, isAdmin, events, pending) == h + b + d;
    if i < 7 {
      assert (h + b + d)[i] == h[i];
    } else {
      assert (h + b + d)[i] == b[i - 7];
    }
  }

  /** Day `day` of the month is the cell right after the headers, the blanks and the days before it. */
  lemma GridDay(month: Month, year: int, isAdmin: bool, events: EventMap, pending: EventMap, day: nat)
    requires 1 <= day <= MonthLength(year, month)
    ensures 6 + LeadingBlanks(year, month) + day < |Grid(month, year, isAdmin, events, pending)|
    ensures Grid(month, year, isAdmin, events, pending)[6 + LeadingBlanks(year, month) + day]
      == DayCell(DateKey(year, month + 1, day), day, isAdmin, events, pending)
  {
    var blanks, n := LeadingBlanks(year, month), MonthLength(year, month);
    var h, b, d := Headers(), Blanks(blanks), Days(year, month, n, isAdmin, events, pending);
    assert Grid(month, year, isAdmin, events, pending) == h + b + d;
    DayOfDays(year, month, n, isAdmin, events, pending, day - 1);
    assert (h + b + d)[6 + blanks + day] == d[day - 1];
  }

  lemma DayOfDays(year: int, month: Month, n: nat, isAdmin: bool, events: EventMap, pending: EventMap, k: nat)
    requires k < n
    ensures Days(year, month, n, isAdmin, events, pending)[k] == DayCell(DateKey(year, month + 1, k + 1), k + 1, isAdmin, events, pending)
  {
  }

  /** March 2024: 31 day cells after five blanks, the 15th under "2024-3-15". */
  lemma GridMarch2024(isAdmin: bool, events: EventMap, pending: EventMap)
    ensures var g := Grid(2, 2024, isAdmin, events, pending);
      |g| == 7 + 5 + 31 && g[7 + 5 + 14].key == "2024-3-15"
  {
    March2024();
    assert HostYear(2024) == 2024;
    var blanks, n := LeadingBlanks(2024, 2), MonthLength(2024, 2);
    assert blanks == 5 && n == 31;
    var days := Days(2024, 2, n, isAdmin, events, pending);
    var g := Grid(2, 2024, isAdmin, events, pending);
    assert g == Headers() + Blanks(5) + days;
    assert |Headers()| == 7 && |Blanks(5)| == 5 && |days| == 31;
    assert g[7 + 5 + 14] == days[14] == DayCell(DateKey(2024, 3, 15), 15, isAdmin, events, pending);
    DateKeyExample();
  }

  /** A guest sees the published events of a day in list order, with no actions and no add button. */
  lemma {:induction false} GuestView(key: string, day: nat, events: EventMap, pending: EventMap)
    ensures var c, list := DayCell(key, day, false, events, pending), Lookup(events, key);
      && c.add == None
      && |c.entries| == |list|
      && forall j :: 0 <= j < |list| ==>
           c.entries[j] == Entry(list[j].description, false, None, None)
  {
  }

  /** In admin mode, published event `j` of a day is entry `j`, with both actions at index `j`. */
  lemma AdminPublished(key: string, day: nat, events: EventMap, pending: EventMap, j: nat)
    requires j < |Lookup(events, key)|
    ensures var c := DayCell(key, day, true, events, pending);
      j < |c.entries| &&
      c.entries[j] == Entry(Lookup(events, key)[j].description, false, Some(EditEvent(key, j)), Some(DeleteEvent(key, j)))
  {
    var published := PublishedEntries(key, Lookup(events, key), true);
    assert DayCell(key, day, true, events, pending).entries[j] == published[j];
  }

  /** In admin mode, draft `j` of a day follows the published entries, marked and with pending-store actions. */
  lemma AdminDraft(key: string, day: nat, events: EventMap, pending: EventMap, j: nat)
    requires j < |Lookup(pending, key)|
    ensures var c, n := DayCell(key, day, true, events, pending), |Lookup(events, key)|;
      n + j < |c.entries| &&
      c.entries[n + j] == Entry(DRAFT_MARK + Lookup(pending, key)[j].description, true,
        Some(EditPendingEvent(key, j)), Some(DeletePendingEvent(key, j)))
  {
    var n := |Lookup(events, key)|;
    var drafts := PendingEntries(key, Lookup(pending, key));
    assert DayCell(key, day, true, events, pending).entries[n + j] == drafts[j];
  }

  /**
   * The operator sees the published events, then the pending ones marked as
   * drafts; every event can be edited and deleted at its own position, and the
   * day has an add button.
   */
  lemma {:induction false} AdminView(key: string, day: nat, events: EventMap, pending: EventMap)
    ensures var c := DayCell(key, day, true, events, pending);
      var shown, drafts := Lookup(events, key), Lookup(pending, key);
      && c.add == Some(AddEvent(key))
      && |c.entries| == |shown| + |drafts|
      && (forall j :: 0 <= j < |shown| ==>
           c.entries[j] == Entry(shown[j].description, false, Some(EditEvent(key, j)), Some(DeleteEvent(key, j))))
      && (forall j :: 0 <= j < |drafts| ==>
           c.entries[|shown| + j] == Entry(DRAFT_MARK + drafts[j].description, true,
             Some(EditPendingEvent(key, j)), Some(DeletePendingEvent(key, j))))
  {
    forall j | 0 <= j < |Lookup(events, key)| {
      AdminPublished(key, day, events, pending, j);
    }
    forall j | 0 <= j < |Lookup(pending, key)| {
      AdminDraft(key, day, events, pending, j);
    }
  }

  /** A guest's grid does not depend on the pending store: drafts never show. */
  lemma GuestGridIgnoresPending(month: Month, year: int, events: EventMap, pending: EventMap)
    ensures Grid(month, year, false, events, pending) == Grid(month, year, false, events, map[])
  {
    var n := MonthLength(year, month);
    assert Days(year, month, n, false, events, pending) == Days(year, month, n, false, events, map[]);
  }

  /** The precondition the store operation behind a command places on the stores. */
  predicate Applicable(c: Command, events: EventMap, pending: EventMap) {
    match c
    case EditEvent(d, i) => d in events && i < |events[d]|
    case DeleteEvent(d, i) => d in events && i < |events[d]|
    case EditPendingEvent(d, i) => d in pending && i < |pending[d]|
    case DeletePendingEvent(d, i) => d in pending && i < |pending[d]|
    case AddEvent(_) => true
  }

  predicate CellCommandsApplicable(c: Cell, events: EventMap, pending: EventMap) {
    c.Day? ==>
      && (c.add.Some? ==> Applicable(c.add.value, events, pending))
      && forall e :: e in c.entries ==>
           && (e.onClick.Some? ==> Applicable(e.onClick.value, events, pending))
           && (e.onContextMenu.Some? ==> Applicable(e.onContextMenu.value, events, pending))
  }

  lemma DayCellCommandsApplicable(key: string, day: nat, isAdmin: bool, events: EventMap, pending: EventMap)
    requires WellFormed(events) && WellFormed(pending)
    ensures CellCommandsApplicable(DayCell(key, day, isAdmin, events, pending), events, pending)
  {
    var c := DayCell(key, day, isAdmin, events, pending);
    var shown, drafts := Lookup(events, key), Lookup(pending, key);
    var published := PublishedEntries(key, shown, isAdmin);
    LookupPresent(events, key);
    LookupPresent(pending, key);
    forall e | e in c.entries
      ensures (e.onClick.Some? ==> Applicable(e.onClick.value, events, pending))
      ensures (e.onContextMenu.Some? ==> Applicable(e.onContextMenu.value, events, pending))
    {
      var j :| 0 <= j < |c.entries| && c.entries[j] == e;
      if j < |shown| {
        assert e == published[j] == PublishedEntry(key, j, shown[j], isAdmin);
      } else {
        var i := j - |shown|;
        assert isAdmin && e == PendingEntries(key, drafts)[i] == PendingEntry(key, i, drafts[i]);
      }
    }
  }

  /**
   * Every action of a rendered grid names a date and an index that exist in
   * the store it acts on, so the edit and delete operations are only ever
   * started within their preconditions.
   */
  lemma GridCommandsApplicable(month: Month, year: int, isAdmin: bool, events: EventMap, pending: EventMap)
    requires WellFormed(events) && WellFormed(pending)
    ensures forall c :: c in Grid(month, year, isAdmin, events, pending) ==> CellCommandsApplicable(c, events, pending)
  {
    var blanks, n := LeadingBlanks(year, month), MonthLength(year, month);
    var h, b, d := Headers(), Blanks(blanks), Days(year, month, n, isAdmin, events, pending);
    var g := h + b + d;
    assert Grid(month, year, isAdmin, events, pending) == g;
    DaysCommandsApplicable(year, month, n, isAdmin, events, pending);
    forall i | 0 <= i < |g| ensures CellCommandsApplicable(g[i], events, pending) {
      if i >= 7 + blanks {
        assert g[i] == d[i - 7 - blanks];
      }
    }
  }

  /** Every action of the day cells meets the precondition of its store operation. */
  lemma DaysCommandsApplicable(year: int, month: Month, n: nat, isAdmin: bool, events: EventMap, pending: EventMap)
    requires WellFormed(events) && WellFormed(pending)
    ensures forall k :: 0 <= k < n ==> CellCommandsApplicable(Days(year, month, n, isAdmin, events, pending)[k], events, pending)
  {
    forall k | 0 <= k < n
      ensures CellCommandsApplicable(Days(year, month, n, isAdmin, events, pending)[k], events, pending)
    {
      DayCellCommandsApplicable(DateKey(year, month + 1, k + 1), k + 1, isAdmin, events, pending);
    }
  }

  /** Adding "Meeting" on 15 March 2024 files it as that date's only draft. */
  lemma MeetingDraft()
    ensures Append(map[], "2024-3-15", Event("Meeting")) == map["2024-3-15" := [Event("Meeting")]]
  {
    assert Lookup(map[], "2024-3-15") == [] && [] + [Event("Meeting")] == [Event("Meeting")];
  }

  /** Once published, a guest's grid shows "Meeting" on the 15th, without actions. */
  lemma MeetingShownToGuest()
    ensures var drafts := map["2024-3-15" := [Event("Meeting")]];
      var published := Publish(map[], drafts);
      && published == drafts
      && Grid(2, 2024, false, published, map[])[7 + 5 + 14]
         == Day(15, "2024-3-15", [Entry("Meeting", false, None, None)], None)
  {
    var drafts := map["2024-3-15" := [Event("Meeting")]];
    var published := Publish(map[], drafts);
    assert published.Keys == drafts.Keys;
    assert published["2024-3-15"] == [] + [Event("Meeting")] == [Event("Meeting")];
    GridMarch2024(false, published, map[]);
    var g := Grid(2, 2024, false, published, map[]);
    assert g[7 + 5 + 14] == DayCell(DateKey(2024, 3, 15), 15, false, published, map[]);
    DateKeyExample();
    assert PublishedEntries("2024-3-15", [Event("Meeting")], false) == [Entry("Meeting", false, None, None)];
  }
}
