/** The month grid that the browser's renderCalendar draws: whole weeks from
    the Sunday on or before the 1st of the shown month to the Saturday on or
    after its last day, each cell flagged other-month, today and selected-week,
    and filled with the schedule items that fall on it (addEventsToDay). */
module CalendarGrid {
  import opened Wrappers
  import opened CivilDate
  import opened Dataset

  /** One event shown in a day cell: the route badge, the (shortened) stop name and the time. */
  datatype Chip = Chip(routeId: string, stopLabel: string, time: string)

  /** What addEventsToDay adds to a cell: its event chips and the "+N more" number (0: no indicator). */
  datatype CellEvents = CellEvents(chips: seq<Chip>, more: nat)

  datatype Cell = Cell(date: Date, otherMonth: bool, isToday: bool, selectedWeek: bool, events: CellEvents)

  const NoEvents := CellEvents([], 0)

  /** The Sunday on or before the 1st of month m of year y (`calStart`). */
  function GridStart(y: int, m: int): (d: Date)
    requires 1 <= m <= 12
    ensures ValidDate(d) && Weekday(d) == 0
    ensures DayNumber(Date(y, m, 1)) - 6 <= DayNumber(d) <= DayNumber(Date(y, m, 1))
  {
    var first := Date(y, m, 1);
    WeekdayAfter(first, -Weekday(first));
    AddDays(first, -Weekday(first))
  }

  /** The Saturday on or after the last day of month m of year y (`calEnd`). */
  function GridEnd(y: int, m: int): (d: Date)
    requires 1 <= m <= 12
    ensures ValidDate(d) && Weekday(d) == 6
    ensures DayNumber(Date(y, m, DaysInMonth(y, m))) <= DayNumber(d) <= DayNumber(Date(y, m, DaysInMonth(y, m))) + 6
  {
    var last := Date(y, m, DaysInMonth(y, m));
    if Weekday(last) != 6 then
      WeekdayAfter(last, 6 - Weekday(last));
      AddDays(last, 6 - Weekday(last))
    else last
  }

  /** `totalDays = daysDiff + 1`: the number of cells, whole weeks, four to six of them. */
  function GridLength(y: int, m: int): (n: int)
    requires 1 <= m <= 12
    ensures n % 7 == 0 && 28 <= n <= 42
  {
    GridLengthBounds(y, m);
    DayNumber(GridEnd(y, m)) - DayNumber(GridStart(y, m)) + 1
  }

  lemma GridLengthBounds(y: int, m: int)
    requires 1 <= m <= 12
    ensures var n := DayNumber(GridEnd(y, m)) - DayNumber(GridStart(y, m)) + 1;
            n % 7 == 0 && 28 <= n <= 42
  {
    var first, last := Date(y, m, 1), Date(y, m, DaysInMonth(y, m));
    WeekSpan(DayNumber(GridStart(y, m)), DayNumber(GridEnd(y, m)), DayNumber(first), DayNumber(last));
  }

  /** From a Sunday s at most six days before f to a Saturday e at most six
      days after l, where l - f spans a month, is four to six whole weeks. */
  lemma WeekSpan(s: int, e: int, f: int, l: int)
    requires (s + 4) % 7 == 0 && (e + 4) % 7 == 6
    requires f - 6 <= s <= f && l <= e <= l + 6 && 27 <= l - f <= 30
    ensures (e - s + 1) % 7 == 0 && 28 <= e - s + 1 <= 42
  {
    var qs, qe := (s + 4) / 7, (e + 4) / 7;
    assert s + 4 == 7 * qs && e + 4 == 7 * qe + 6;
    assert e - s + 1 == 7 * (qe - qs + 1);
  }

  /** The date lies in the selected week [anchor, anchor + 6].  Without a valid
      start date every comparison is with NaN and nothing is in the week. */
  predicate InSelectedWeek(anchor: Option<Date>, date: Date)
    requires anchor.Some? ==> ValidDate(anchor.value)
    requires ValidDate(date)
  {
    anchor.Some? && DayNumber(anchor.value) <= DayNumber(date) <= DayNumber(anchor.value) + 6
  }

  /** A stop name longer than 20 characters is cut to 20 and followed by "...". */
  function StopLabel(name: string): (s: string)
    ensures |name| <= 20 ==> s == name
    ensures |name| > 20 ==> |s| == 23 && s[..20] == name[..20] && s[20..] == "..."
  {
    if |name| > 20 then name[..20] + "..." else name
  }

  function ChipOf(item: ScheduleItem): Chip {
    Chip(item.routeId, StopLabel(item.stopName), item.time)
  }

  /** One chip per item whose days include dayName, in item order. */
  function MatchingChips(items: seq<ScheduleItem>, dayName: string): seq<Chip> {
    if items == [] then []
    else
      var init, last := items[..|items| - 1], items[|items| - 1];
      MatchingChips(init, dayName) + (if dayName in last.days then [ChipOf(last)] else [])
  }

  /** Chips beyond the third are announced by "+N more". */
  function MoreCount(n: nat): nat {
    if n > 3 then n - 3 else 0
  }

  /** addEventsToDay: nothing without items or outside the selected week;
      otherwise the items scheduled on the date's weekday. */
  function EventsForDay(items: seq<ScheduleItem>, anchor: Option<Date>, date: Date): CellEvents
    requires anchor.Some? ==> ValidDate(anchor.value)
    requires ValidDate(date)
  {
    if items == [] then NoEvents
    else if anchor.Some? && !InSelectedWeek(anchor, date) then NoEvents
    else
      var chips := MatchingChips(items, DayNames[Weekday(date)]);
      CellEvents(chips, MoreCount(|chips|))
  }

  /** The cell for one date of the grid of month `month`. */
  function MakeCell(month: int, date: Date, today: Date, anchor: Option<Date>, items: seq<ScheduleItem>): Cell
    requires anchor.Some? ==> ValidDate(anchor.value)
    requires ValidDate(date)
  {
    Cell(date, date.month != month, date == today, InSelectedWeek(anchor, date),
         EventsForDay(items, anchor, date))
  }

  /** The cells of the grid for the month of `shown`, with the given start date,
      today's date and the complete schedule items. */
  function MonthGrid(shown: Date, anchor: Option<Date>, today: Date, items: seq<ScheduleItem>): (cells: seq<Cell>)
    requires ValidDate(shown) && (anchor.Some? ==> ValidDate(anchor.value))
    ensures |cells| == GridLength(shown.year, shown.month)
  {
    var start := GridStart(shown.year, shown.month);
    seq(GridLength(shown.year, shown.month),
        i requires 0 <= i < GridLength(shown.year, shown.month) =>
          MakeCell(shown.month, AddDays(start, i), today, anchor, items))
  }

  // ------------------------------------------------------------------ lemmas

  /** Cell i of the grid holds the date i days after the grid's start. */
  lemma GridCellDate(shown: Date, anchor: Option<Date>, today: Date, items: seq<ScheduleItem>, i: int)
    requires ValidDate(shown) && (anchor.Some? ==> ValidDate(anchor.value))
    requires 0 <= i < |MonthGrid(shown, anchor, today, items)|
    ensures MonthGrid(shown, anchor, today, items)[i].date == AddDays(GridStart(shown.year, shown.month), i)
  {
  }

  /** The grid's first cell is its Sunday start. */
  lemma GridFirstCell(shown: Date, anchor: Option<Date>, today: Date, items: seq<ScheduleItem>)
    requires ValidDate(shown) && (anchor.Some? ==> ValidDate(anchor.value))
    ensures MonthGrid(shown, anchor, today, items)[0].date == GridStart(shown.year, shown.month)
  {
    var start := GridStart(shown.year, shown.month);
    GridCellDate(shown, anchor, today, items, 0);
    DayNumberInjective(AddDays(start, 0), start);
  }

  /** The loop's last date, `totalDays - 1` days after `calStart`, is `calEnd`;
      by GridCellDate it is the date of the grid's last cell. */
  lemma GridLastCell(y: int, m: int)
    requires 1 <= m <= 12
    ensures AddDays(GridStart(y, m), GridLength(y, m) - 1) == GridEnd(y, m)
  {
    DayNumberInjective(AddDays(GridStart(y, m), GridLength(y, m) - 1), GridEnd(y, m));
  }

  /** A cell is other-month iff its month differs from the shown month, today
      iff its date is today, and selected-week iff its date is in the week of
      the start date. */
  lemma GridCellFlags(shown: Date, anchor: Option<Date>, today: Date, items: seq<ScheduleItem>, i: int)
    requires ValidDate(shown) && (anchor.Some? ==> ValidDate(anchor.value))
    requires 0 <= i < |MonthGrid(shown, anchor, today, items)|
    ensures var c := MonthGrid(shown, anchor, today, items)[i];
            && ValidDate(c.date)
            && (c.otherMonth <==> c.date.month != shown.month)
            && (c.isToday <==> c.date == today)
            && (c.selectedWeek <==> anchor.Some? && DayNumber(anchor.value) <= DayNumber(c.date) <= DayNumber(anchor.value) + 6)
            && c.events == EventsForDay(items, anchor, c.date)
  {
    GridCellDate(shown, anchor, today, items, i);
  }

  /** Each next cell of the grid is the next day. */
  lemma GridCellsConsecutive(shown: Date, anchor: Option<Date>, today: Date, items: seq<ScheduleItem>, i: int)
    requires ValidDate(shown) && (anchor.Some? ==> ValidDate(anchor.value))
    requires 0 <= i < |MonthGrid(shown, anchor, today, items)| - 1
    ensures MonthGrid(shown, anchor, today, items)[i + 1].date == NextDay(MonthGrid(shown, anchor, today, items)[i].date)
  {
    GridCellDate(shown, anchor, today, items, i);
    GridCellDate(shown, anchor, today, items, i + 1);
    AddDaysSucc(GridStart(shown.year, shown.month), i);
  }

  /** Every day of the shown month has a cell, and that cell is not other-month. */
  lemma GridCoversMonth(shown: Date, anchor: Option<Date>, today: Date, items: seq<ScheduleItem>, day: int)
    requires ValidDate(shown) && (anchor.Some? ==> ValidDate(anchor.value))
    requires 1 <= day <= DaysInMonth(shown.year, shown.month)
    ensures exists i :: 0 <= i < |MonthGrid(shown, anchor, today, items)|
                        && MonthGrid(shown, anchor, today, items)[i].date == Date(shown.year, shown.month, day)
                        && !MonthGrid(shown, anchor, today, items)[i].otherMonth
  {
    var cells := MonthGrid(shown, anchor, today, items);
    var start := GridStart(shown.year, shown.month);
    var target := Date(shown.year, shown.month, day);
    var i := DayNumber(target) - DayNumber(start);
    assert DayNumber(target) == DayNumber(Date(shown.year, shown.month, 1)) + day - 1;
    assert 0 <= i < |cells|;
    DayNumberInjective(AddDays(start, i), target);
    assert cells[i].date == target;
  }

  /** Distinct cells hold distinct dates, so at most one cell is flagged today. */
  lemma TodayAtMostOnce(shown: Date, anchor: Option<Date>, today: Date, items: seq<ScheduleItem>, i: int, j: int)
    requires ValidDate(shown) && (anchor.Some? ==> ValidDate(anchor.value))
    requires 0 <= i < |MonthGrid(shown, anchor, today, items)| && 0 <= j < |MonthGrid(shown, anchor, today, items)|
    requires MonthGrid(shown, anchor, today, items)[i].isToday && MonthGrid(shown, anchor, today, items)[j].isToday
    ensures i == j
  {
    var start := GridStart(shown.year, shown.month);
    assert AddDays(start, i) == today == AddDays(start, j);
  }

  /** A cell outside the selected week of a valid start date shows no events. */
  lemma NoEventsOutsideWeek(shown: Date, anchor: Option<Date>, today: Date, items: seq<ScheduleItem>, i: int)
    requires ValidDate(shown) && anchor.Some? && ValidDate(anchor.value)
    requires 0 <= i < |MonthGrid(shown, anchor, today, items)|
    requires !MonthGrid(shown, anchor, today, items)[i].selectedWeek
    ensures MonthGrid(shown, anchor, today, items)[i].events == NoEvents
  {
  }

  /** Number of cells flagged selected-week. */
  function CountSelected(cells: seq<Cell>): nat {
    if cells == [] then 0
    else CountSelected(cells[..|cells| - 1]) + (if cells[|cells| - 1].selectedWeek then 1 else 0)
  }

  /** How many of 0 .. k-1 lie in the window lo .. lo + 6. */
  function InWindow(k: int, lo: int): int {
    var hi := if k < lo + 7 then k else lo + 7;
    var low := if lo < 0 then 0 else lo;
    if hi > low then hi - low else 0
  }

  /** Cell i is in the selected week iff i lies in the window starting at the anchor's offset. */
  lemma {:induction false} CountSelectedPrefix(shown: Date, anchor: Option<Date>, today: Date, items: seq<ScheduleItem>, k: nat)
    requires ValidDate(shown) && anchor.Some? && ValidDate(anchor.value)
    requires k <= |MonthGrid(shown, anchor, today, items)|
    ensures CountSelected(MonthGrid(shown, anchor, today, items)[..k])
            == InWindow(k, DayNumber(anchor.value) - DayNumber(GridStart(shown.year, shown.month)))
  {
    var cells := MonthGrid(shown, anchor, today, items);
    if k > 0 {
      CountSelectedPrefix(shown, anchor, today, items, k - 1);
      assert cells[..k][..k - 1] == cells[..k - 1];
    }
  }

  /** At most seven cells are flagged selected-week, and exactly seven when the
      whole week [anchor, anchor + 6] lies inside the grid. */
  lemma SelectedWeekCount(shown: Date, anchor: Option<Date>, today: Date, items: seq<ScheduleItem>)
    requires ValidDate(shown) && anchor.Some? && ValidDate(anchor.value)
    ensures CountSelected(MonthGrid(shown, anchor, today, items)) <= 7
    ensures DayNumber(GridStart(shown.year, shown.month)) <= DayNumber(anchor.value)
            && DayNumber(anchor.value) + 6 <= DayNumber(GridEnd(shown.year, shown.month))
            ==> CountSelected(MonthGrid(shown, anchor, today, items)) == 7
  {
    var cells := MonthGrid(shown, anchor, today, items);
    CountSelectedPrefix(shown, anchor, today, items, |cells|);
    assert cells[..|cells|] == cells;
  }

  /** Without a valid start date no cell is flagged selected-week, yet every
      cell shows the items scheduled on its weekday. */
  lemma NoStartDateShowsEveryWeek(shown: Date, today: Date, items: seq<ScheduleItem>, i: int)
    requires ValidDate(shown) && items != []
    requires 0 <= i < |MonthGrid(shown, None, today, items)|
    ensures !MonthGrid(shown, None, today, items)[i].selectedWeek
    ensures MonthGrid(shown, None, today, items)[i].events.chips
            == MatchingChips(items, DayNames[Weekday(MonthGrid(shown, None, today, items)[i].date)])
  {
  }

  /** A chip appears for an item exactly when the day name is among its days:
      the chips are the matching items' chips, in item order. */
  lemma {:induction false} MatchingChipsAppend(a: seq<ScheduleItem>, b: seq<ScheduleItem>, dayName: string)
    ensures MatchingChips(a + b, dayName) == MatchingChips(a, dayName) + MatchingChips(b, dayName)
    decreases |b|
  {
    if b == [] {
      assert a + b == a;
    } else {
      var b' := b[..|b| - 1];
      MatchingChipsAppend(a, b', dayName);
      assert (a + b)[..|a + b| - 1] == a + b';
    }
  }

  /** Every chip belongs to an item scheduled on that day, and every such item has a chip. */
  lemma {:induction false} MatchingChipsMembers(items: seq<ScheduleItem>, dayName: string)
    ensures forall c :: c in MatchingChips(items, dayName) ==>
              exists k :: 0 <= k < |items| && dayName in items[k].days && c == ChipOf(items[k])
    ensures forall k :: 0 <= k < |items| && dayName in items[k].days ==>
              ChipOf(items[k]) in MatchingChips(items, dayName)
  {
    if items != [] {
      var init := items[..|items| - 1];
      MatchingChipsMembers(init, dayName);
      forall k | 0 <= k < |init| ensures init[k] == items[k] { }
    }
  }
}
