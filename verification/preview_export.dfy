/** The calendar preview in the browser and the calendar file from the server
    agree: inside the selected week, an item is shown on a date exactly when
    the export has an event of that item on that date. */
module PreviewExport {
  import opened Wrappers
  import opened CivilDate
  import opened Dataset
  import Server
  import CalendarGrid

  /** Two day numbers at most six apart with equal weekdays are equal. */
  lemma SameResidue(x: int, y: int)
    requires x % 7 == y % 7 && -6 <= x - y <= 6
    ensures x == y
  {
    var qx, qy := x / 7, y / 7;
    assert x - y == 7 * (qx - qy);
  }

  /** Within one week [anchor, anchor + 6] a weekday name names a single date. */
  lemma OneDatePerWeekday(anchor: Date, a: Date, b: Date)
    requires ValidDate(anchor) && ValidDate(a) && ValidDate(b)
    requires DayNumber(anchor) <= DayNumber(a) <= DayNumber(anchor) + 6
    requires DayNumber(anchor) <= DayNumber(b) <= DayNumber(anchor) + 6
    requires DayNames[Weekday(a)] == DayNames[Weekday(b)]
    ensures a == b
  {
    DayNamesDistinct();
    assert Weekday(a) == Weekday(b);
    SameResidue(DayNumber(a) + 4, DayNumber(b) + 4);
    DayNumberInjective(a, b);
  }

  /** Inside the selected week, a single item's cell shows its one chip iff
      the cell's weekday is among the item's days. */
  lemma SingleItemChips(item: ScheduleItem, anchor: Date, date: Date)
    requires ValidDate(anchor) && ValidDate(date)
    requires DayNumber(anchor) <= DayNumber(date) <= DayNumber(anchor) + 6
    ensures CalendarGrid.EventsForDay([item], Some(anchor), date).chips
            == if DayNames[Weekday(date)] in item.days then [CalendarGrid.ChipOf(item)] else []
  {
    assert [item][..0] == [];
    assert CalendarGrid.MatchingChips([], DayNames[Weekday(date)]) == [];
  }

  /** A day the item selects has its event on that day's date of the week. */
  lemma SelectedDayExported(item: ScheduleItem, anchor: Date, date: Date, j: int)
    requires ValidDate(anchor) && ValidDate(date) && Server.WellFormedItem(item)
    requires DayNumber(anchor) <= DayNumber(date) <= DayNumber(anchor) + 6
    requires 0 <= j < |item.days| && item.days[j] == DayNames[Weekday(date)]
    ensures |Server.ItemEvents(item, anchor)| == |item.days|
    ensures Server.ItemEvents(item, anchor)[j].start.date == date
  {
    Server.DayEventsAt(item, anchor, |item.days|, j);
    Server.MakeEventFacts(item, item.days[j], anchor);
    OneDatePerWeekday(anchor, Server.ItemEvents(item, anchor)[j].start.date, date);
  }

  /** An exported event falls on the weekday of the item's day it was made for. */
  lemma ExportedDaySelected(item: ScheduleItem, anchor: Date, j: int)
    requires ValidDate(anchor) && Server.WellFormedItem(item)
    requires 0 <= j < |Server.ItemEvents(item, anchor)|
    ensures ValidDate(Server.ItemEvents(item, anchor)[j].start.date)
    ensures DayNames[Weekday(Server.ItemEvents(item, anchor)[j].start.date)] in item.days
  {
    Server.DayEventsAt(item, anchor, |item.days|, j);
    Server.MakeEventFacts(item, item.days[j], anchor);
  }

  /** The date's weekday is among the item's days iff some exported event of the
      item starts on the date. */
  lemma ExportedOnDate(item: ScheduleItem, anchor: Date, date: Date)
    requires ValidDate(anchor) && ValidDate(date) && Server.WellFormedItem(item)
    requires DayNumber(anchor) <= DayNumber(date) <= DayNumber(anchor) + 6
    ensures DayNames[Weekday(date)] in item.days
            <==> exists j :: 0 <= j < |Server.ItemEvents(item, anchor)|
                             && Server.ItemEvents(item, anchor)[j].start.date == date
  {
    var name := DayNames[Weekday(date)];
    var events := Server.ItemEvents(item, anchor);
    if name in item.days {
      var j :| 0 <= j < |item.days| && item.days[j] == name;
      SelectedDayExported(item, anchor, date, j);
    }
    forall j | 0 <= j < |events| && events[j].start.date == date
      ensures name in item.days
    {
      ExportedDaySelected(item, anchor, j);
    }
  }

  /** For a date of the selected week, the preview shows the item iff one of the
      item's exported events starts on that date. */
  lemma PreviewMatchesExport(item: ScheduleItem, anchor: Date, date: Date)
    requires ValidDate(anchor) && ValidDate(date) && Server.WellFormedItem(item)
    requires DayNumber(anchor) <= DayNumber(date) <= DayNumber(anchor) + 6
    ensures CalendarGrid.EventsForDay([item], Some(anchor), date).chips != []
            <==> exists j :: 0 <= j < |Server.ItemEvents(item, anchor)|
                             && Server.ItemEvents(item, anchor)[j].start.date == date
  {
    SingleItemChips(item, anchor, date);
    ExportedOnDate(item, anchor, date);
  }
}
