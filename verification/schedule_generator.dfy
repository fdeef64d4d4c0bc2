/** The browser's ScheduleGenerator: the item forms in the container, the
    session counter, the shown month, the chosen start date and the generate
    button, with the handlers that change them and the read-outs (getItems,
    addEventsToDay, renderCalendar) that the preview and the export use. */
module ScheduleUI {
  import opened Wrappers
  import opened CivilDate
  import opened Dataset
  import opened TimeChoices
  import opened CalendarGrid

  /** A day toggle of an item form, named by its `data-day`. */
  datatype DayButton = DayButton(day: string, selected: bool, disabled: bool)

  /** One item form: its "Stop N" number, the values of its route, stop and
      time selects, the time options offered, and its day buttons in page order. */
  datatype ItemForm = ItemForm(number: int, route: string, stop: string, time: string,
                               timeOptions: seq<string>, buttons: seq<DayButton>)

  predicate IsWeekendDay(day: string) {
    day == "Saturday" || day == "Sunday"
  }

  predicate IsWeekdayDay(day: string) {
    day == "Monday" || day == "Tuesday" || day == "Wednesday" || day == "Thursday" || day == "Friday"
  }

  /** A disabled day button is never selected. */
  predicate ButtonsConsistent(buttons: seq<DayButton>) {
    forall k :: 0 <= k < |buttons| ==> buttons[k].disabled ==> !buttons[k].selected
  }

  /** The day buttons of a new form: every template day, enabled and not selected. */
  function FreshButtons(dayOrder: seq<string>): (bs: seq<DayButton>)
    ensures |bs| == |dayOrder| && ButtonsConsistent(bs)
    ensures forall k :: 0 <= k < |bs| ==> bs[k].day == dayOrder[k] && !bs[k].selected && !bs[k].disabled
  {
    seq(|dayOrder|, k requires 0 <= k < |dayOrder| => DayButton(dayOrder[k], false, false))
  }

  /** A button after a time is chosen: a weekend (weekday) button is enabled
      iff the time is in the weekend (weekday) list; a button that becomes
      disabled loses its selection, an enabled one keeps it; a button whose
      day is neither is untouched. */
  function AfterTimeChoice(b: DayButton, time: string, weekdayTimes: seq<string>, weekendTimes: seq<string>): (r: DayButton)
    ensures r.day == b.day
    ensures IsWeekendDay(b.day) ==> (r.disabled <==> time !in weekendTimes)
    ensures IsWeekdayDay(b.day) ==> (r.disabled <==> time !in weekdayTimes)
    ensures (IsWeekendDay(b.day) || IsWeekdayDay(b.day)) ==>
              (r.disabled ==> !r.selected) && (!r.disabled ==> r.selected == b.selected)
    ensures !IsWeekendDay(b.day) && !IsWeekdayDay(b.day) ==> r == b
  {
    if IsWeekendDay(b.day) then
      var available := time in weekendTimes;
      b.(disabled := !available, selected := b.selected && available)
    else if IsWeekdayDay(b.day) then
      var available := time in weekdayTimes;
      b.(disabled := !available, selected := b.selected && available)
    else b
  }

  /** The days of the selected buttons, in button order. */
  function SelectedDays(buttons: seq<DayButton>): seq<string> {
    if buttons == [] then []
    else
      var init, last := buttons[..|buttons| - 1], buttons[|buttons| - 1];
      SelectedDays(init) + (if last.selected then [last.day] else [])
  }

  /** A form getItems keeps: route, stop and time chosen and some day selected. */
  predicate Complete(f: ItemForm) {
    f.route != "" && f.stop != "" && f.time != "" && SelectedDays(f.buttons) != []
  }

  function ToItem(f: ItemForm): ScheduleItem {
    ScheduleItem(f.route, f.stop, f.time, SelectedDays(f.buttons))
  }

  /** The items read from the forms, in container order. */
  function Selections(forms: seq<ItemForm>): seq<ScheduleItem> {
    if forms == [] then []
    else
      var init, last := forms[..|forms| - 1], forms[|forms| - 1];
      Selections(init) + (if Complete(last) then [ToItem(last)] else [])
  }

  /** `Array.from(selectedDayButtons).map(btn => btn.dataset.day)`. */
  method CollectSelectedDays(buttons: seq<DayButton>) returns (days: seq<string>)
    ensures days == SelectedDays(buttons)
  {
    days := [];
    var k := 0;
    while k < |buttons|
      invariant 0 <= k <= |buttons|
      invariant days == SelectedDays(buttons[..k])
    {
      if buttons[k].selected {
        days := days + [buttons[k].day];
      }
      assert buttons[..k + 1][..k] == buttons[..k];
      k := k + 1;
    }
    assert buttons[..k] == buttons;
  }

  class ScheduleGenerator {
    /** The dataset, as loaded from the server. */
    const routes: Routes
    /** The `data-day` values of the item template's buttons, in page order. */
    const dayOrder: seq<string>
    var items: seq<ItemForm>
    var counter: int
    var currentMonth: Date
    /** The start-date input; None when it is empty or not a date. */
    var startDate: Option<Date>
    var generateDisabled: bool

    ghost predicate Valid()
      reads this
    {
      && ValidDate(currentMonth)
      && (startDate.Some? ==> ValidDate(startDate.value))
      && (forall id :: id in routes ==> "weekday" in routes[id].schedules && "weekend" in routes[id].schedules)
      && (forall k :: 0 <= k < |items| ==> items[k].route == "" || items[k].route in routes)
      && (forall k :: 0 <= k < |items| ==> ButtonsConsistent(items[k].buttons))
    }

    /** The page on load: no items, the counter at 0, today's month shown and
        today as the start date (setDefaultDate). */
    constructor(routes: Routes, dayOrder: seq<string>, today: Date, generateDisabled: bool)
      requires ValidDate(today)
      requires forall id :: id in routes ==> "weekday" in routes[id].schedules && "weekend" in routes[id].schedules
      ensures Valid()
      ensures this.routes == routes && this.dayOrder == dayOrder
      ensures items == [] && counter == 0 && currentMonth == today && startDate == Some(today)
      ensures this.generateDisabled == generateDisabled
    {
      this.routes := routes;
      this.dayOrder := dayOrder;
      items := [];
      counter := 0;
      currentMonth := today;
      startDate := Some(today);
      this.generateDisabled := generateDisabled;
    }

    /** The generate button is disabled exactly when there are no forms. */
    method UpdateGenerateBtn()
      modifies this
      ensures generateDisabled == (|items| == 0)
      ensures items == old(items) && counter == old(counter)
      ensures currentMonth == old(currentMonth) && startDate == old(startDate)
    {
      generateDisabled := |items| == 0;
    }

    /** A new blank form numbered with the incremented counter goes at the end. */
    method AddItem()
      requires Valid()
      modifies this
      ensures Valid()
      ensures counter == old(counter) + 1
      ensures items == old(items) + [ItemForm(counter, "", "", "", [], FreshButtons(dayOrder))]
      ensures !generateDisabled
      ensures currentMonth == old(currentMonth) && startDate == old(startDate)
    {
      counter := counter + 1;
      items := items + [ItemForm(counter, "", "", "", [], FreshButtons(dayOrder))];
      UpdateGenerateBtn();
    }

    /** Form i leaves the container; the counter is not decreased. */
    method RemoveItem(i: int)
      requires Valid() && 0 <= i < |items|
      modifies this
      ensures Valid()
      ensures items == old(items[..i] + items[i + 1..])
      ensures counter == old(counter)
      ensures generateDisabled == (|items| == 0)
      ensures currentMonth == old(currentMonth) && startDate == old(startDate)
    {
      items := items[..i] + items[i + 1..];
      UpdateGenerateBtn();
    }

    /** All forms go and numbering starts again. */
    method ClearAll()
      requires Valid()
      modifies this
      ensures Valid()
      ensures items == [] && counter == 0 && generateDisabled
      ensures currentMonth == old(currentMonth) && startDate == old(startDate)
    {
      items := [];
      counter := 0;
      UpdateGenerateBtn();
    }

    /** `setMonth(getMonth() - 1)`, with JavaScript's day overflow. */
    method PrevMonth()
      requires Valid()
      modifies this
      ensures Valid()
      ensures currentMonth == SetMonth(old(currentMonth), old(currentMonth).month - 2)
      ensures items == old(items) && counter == old(counter) && startDate == old(startDate)
      ensures generateDisabled == old(generateDisabled)
    {
      currentMonth := SetMonth(currentMonth, currentMonth.month - 2);
    }

    /** `setMonth(getMonth() + 1)`, with JavaScript's day overflow. */
    method NextMonth()
      requires Valid()
      modifies this
      ensures Valid()
      ensures currentMonth == SetMonth(old(currentMonth), old(currentMonth).month)
      ensures items == old(items) && counter == old(counter) && startDate == old(startDate)
      ensures generateDisabled == old(generateDisabled)
    {
      currentMonth := SetMonth(currentMonth, currentMonth.month);
    }

    /** A new value in the start-date input. */
    method SetStartDate(d: Option<Date>)
      requires Valid() && (d.Some? ==> ValidDate(d.value))
      modifies this
      ensures Valid()
      ensures startDate == d
      ensures items == old(items) && counter == old(counter) && currentMonth == old(currentMonth)
      ensures generateDisabled == old(generateDisabled)
    {
      startDate := d;
    }

    /** resetDays: every day button of form i is deselected; nothing else changes. */
    method ResetDays(i: int)
      requires Valid() && 0 <= i < |items|
      modifies this
      ensures Valid()
      ensures |items| == |old(items)|
      ensures forall k :: 0 <= k < |items| && k != i ==> items[k] == old(items[k])
      ensures items[i] == old(items[i]).(buttons := items[i].buttons)
      ensures |items[i].buttons| == |old(items[i].buttons)|
      ensures forall k :: 0 <= k < |items[i].buttons| ==>
                items[i].buttons[k] == old(items[i].buttons[k]).(selected := false)
      ensures counter == old(counter) && currentMonth == old(currentMonth) && startDate == old(startDate)
      ensures generateDisabled == old(generateDisabled)
    {
      var buttons := items[i].buttons;
      var k := 0;
      while k < |buttons|
        invariant 0 <= k <= |buttons| && |buttons| == |items[i].buttons|
        invariant forall m :: 0 <= m < k ==> buttons[m] == items[i].buttons[m].(selected := false)
        invariant forall m :: k <= m < |buttons| ==> buttons[m] == items[i].buttons[m]
      {
        buttons := buttons[k := buttons[k].(selected := false)];
        k := k + 1;
      }
      items := items[i := items[i].(buttons := buttons)];
    }

    /** A route chosen in form i: the stop and time are cleared, the time
        options emptied and the days deselected. */
    method OnRouteChange(i: int, route: string)
      requires Valid() && 0 <= i < |items|
      requires route == "" || route in routes
      modifies this
      ensures Valid()
      ensures |items| == |old(items)|
      ensures forall k :: 0 <= k < |items| && k != i ==> items[k] == old(items[k])
      ensures items[i].number == old(items[i].number)
      ensures items[i].route == route && items[i].stop == "" && items[i].time == "" && items[i].timeOptions == []
      ensures |items[i].buttons| == |old(items[i].buttons)|
      ensures forall k :: 0 <= k < |items[i].buttons| ==>
                items[i].buttons[k] == old(items[i].buttons[k]).(selected := false)
      ensures counter == old(counter) && currentMonth == old(currentMonth) && startDate == old(startDate)
      ensures generateDisabled == old(generateDisabled)
    {
      items := items[i := items[i].(route := route, stop := "", time := "", timeOptions := [])];
      ResetDays(i);
    }

    /** populateTimes: the time options of form i become the choice list of its
        stop, and the time select returns to its placeholder. */
    method PopulateTimes(i: int)
      requires Valid() && 0 <= i < |items| && items[i].route in routes
      modifies this
      ensures Valid()
      ensures |items| == |old(items)|
      ensures forall k :: 0 <= k < |items| && k != i ==> items[k] == old(items[k])
      ensures items[i] == old(items[i]).(time := "", timeOptions := TimeChoiceList(routes[old(items[i].route)], old(items[i].stop)))
      ensures counter == old(counter) && currentMonth == old(currentMonth) && startDate == old(startDate)
      ensures generateDisabled == old(generateDisabled)
    {
      var route := routes[items[i].route];
      var options: seq<string> := [];
      var found := FindStopIndex(route.stops, items[i].stop);
      if found.Some? {
        options := SortedTimeChoices(TimesAt(route, "weekday", found.value), TimesAt(route, "weekend", found.value));
      }
      items := items[i := items[i].(time := "", timeOptions := options)];
    }

    /** A stop chosen in form i: the days are deselected and, when both route
        and stop are set, the time options are filled anew. */
    method OnStopChange(i: int, stop: string)
      requires Valid() && 0 <= i < |items|
      modifies this
      ensures Valid()
      ensures |items| == |old(items)|
      ensures forall k :: 0 <= k < |items| && k != i ==> items[k] == old(items[k])
      ensures items[i].number == old(items[i].number) && items[i].route == old(items[i].route)
      ensures items[i].stop == stop
      ensures old(items[i].route) != "" && stop != "" ==>
                items[i].time == "" && items[i].timeOptions == TimeChoiceList(routes[items[i].route], stop)
      ensures old(items[i].route) == "" || stop == "" ==>
                items[i].time == old(items[i].time) && items[i].timeOptions == old(items[i].timeOptions)
      ensures |items[i].buttons| == |old(items[i].buttons)|
      ensures forall k :: 0 <= k < |items[i].buttons| ==>
                items[i].buttons[k] == old(items[i].buttons[k]).(selected := false)
      ensures counter == old(counter) && currentMonth == old(currentMonth) && startDate == old(startDate)
      ensures generateDisabled == old(generateDisabled)
    {
      items := items[i := items[i].(stop := stop)];
      ResetDays(i);
      if items[i].route != "" && stop != "" {
        PopulateTimes(i);
      }
    }

    /** A time chosen in form i: when route, stop and time are set and the stop
        is on the route, each day button is enabled or disabled by whether the
        time runs on that kind of day (AfterTimeChoice). */
    method OnTimeChange(i: int, time: string)
      requires Valid() && 0 <= i < |items|
      modifies this
      ensures Valid()
      ensures |items| == |old(items)|
      ensures forall k :: 0 <= k < |items| && k != i ==> items[k] == old(items[k])
      ensures items[i] == old(items[i]).(time := time, buttons := items[i].buttons)
      ensures |items[i].buttons| == |old(items[i].buttons)|
      ensures var f := old(items[i]);
              if time != "" && f.route != "" && f.stop != "" && FindStopIndex(routes[f.route].stops, f.stop).Some? then
                var idx := FindStopIndex(routes[f.route].stops, f.stop).value;
                forall k :: 0 <= k < |items[i].buttons| ==>
                  items[i].buttons[k] == AfterTimeChoice(f.buttons[k], time,
                    TimesAt(routes[f.route], "weekday", idx), TimesAt(routes[f.route], "weekend", idx))
              else items[i].buttons == f.buttons
      ensures counter == old(counter) && currentMonth == old(currentMonth) && startDate == old(startDate)
      ensures generateDisabled == old(generateDisabled)
    {
      items := items[i := items[i].(time := time)];
      var f := items[i];
      if time != "" && f.route != "" && f.stop != "" {
        var route := routes[f.route];
        var found := FindStopIndex(route.stops, f.stop);
        if found.Some? {
          var weekdayTimes := TimesAt(route, "weekday", found.value);
          var weekendTimes := TimesAt(route, "weekend", found.value);
          var buttons := f.buttons;
          var k := 0;
          while k < |buttons|
            invariant 0 <= k <= |buttons| && |buttons| == |f.buttons|
            invariant forall m :: 0 <= m < k ==> buttons[m] == AfterTimeChoice(f.buttons[m], time, weekdayTimes, weekendTimes)
            invariant forall m :: k <= m < |buttons| ==> buttons[m] == f.buttons[m]
          {
            buttons := buttons[k := AfterTimeChoice(buttons[k], time, weekdayTimes, weekendTimes)];
            k := k + 1;
          }
          assert ButtonsConsistent(buttons) by {
            forall m | 0 <= m < |buttons| ensures buttons[m].disabled ==> !buttons[m].selected {
              assert f.buttons[m].disabled ==> !f.buttons[m].selected;
            }
          }
          items := items[i := f.(buttons := buttons)];
        }
      }
    }

    /** A click on day button k of form i toggles it; a disabled button takes no clicks. */
    method OnDayClick(i: int, k: int)
      requires Valid() && 0 <= i < |items| && 0 <= k < |items[i].buttons|
      modifies this
      ensures Valid()
      ensures var b := old(items[i].buttons[k]);
              var b' := if b.disabled then b else b.(selected := !b.selected);
              items == old(items)[i := old(items[i]).(buttons := old(items[i].buttons)[k := b'])]
      ensures counter == old(counter) && currentMonth == old(currentMonth) && startDate == old(startDate)
      ensures generateDisabled == old(generateDisabled)
    {
      var b := items[i].buttons[k];
      if !b.disabled {
        items := items[i := items[i].(buttons := items[i].buttons[k := b.(selected := !b.selected)])];
      } else {
        assert items[i].buttons[k := b] == items[i].buttons;
        assert items[i := items[i]] == items;
      }
    }

    /** getItems: the complete forms, in container order, as schedule items. */
    method GetItems() returns (result: seq<ScheduleItem>)
      ensures result == Selections(items)
    {
      result := [];
      var k := 0;
      while k < |items|
        invariant 0 <= k <= |items|
        invariant result == Selections(items[..k])
      {
        var f := items[k];
        var days := CollectSelectedDays(f.buttons);
        if f.route != "" && f.stop != "" && f.time != "" && |days| > 0 {
          result := result + [ScheduleItem(f.route, f.stop, f.time, days)];
        }
        assert items[..k + 1][..k] == items[..k];
        k := k + 1;
      }
      assert items[..k] == items;
    }

    /** addEventsToDay for one date: the chips and "+N more" count of its cell. */
    method AddEventsToDay(date: Date) returns (events: CellEvents)
      requires Valid() && ValidDate(date)
      ensures events == EventsForDay(Selections(items), startDate, date)
    {
      var selected := GetItems();
      if |selected| == 0 {
        return NoEvents;
      }
      if startDate.Some? && !(DayNumber(startDate.value) <= DayNumber(date) <= DayNumber(startDate.value) + 6) {
        return NoEvents;
      }
      var dayName := DayNames[Weekday(date)];
      var chips: seq<Chip> := [];
      var k := 0;
      while k < |selected|
        invariant 0 <= k <= |selected|
        invariant chips == MatchingChips(selected[..k], dayName)
      {
        if dayName in selected[k].days {
          chips := chips + [ChipOf(selected[k])];
        }
        assert selected[..k + 1][..k] == selected[..k];
        k := k + 1;
      }
      assert selected[..k] == selected;
      events := CellEvents(chips, if |chips| > 3 then |chips| - 3 else 0);
    }

    /** renderCalendar: the cells of the grid of the shown month. */
    method RenderCalendar(today: Date) returns (cells: seq<Cell>)
      requires Valid()
      ensures cells == MonthGrid(currentMonth, startDate, today, Selections(items))
    {
      var start := GridStart(currentMonth.year, currentMonth.month);
      var total := GridLength(currentMonth.year, currentMonth.month);
      ghost var selections := Selections(items);
      cells := [];
      var i := 0;
      while i < total
        invariant 0 <= i <= total && |cells| == i
        invariant forall m :: 0 <= m < i ==>
                    cells[m] == MakeCell(currentMonth.month, AddDays(start, m), today, startDate, selections)
      {
        var date := AddDays(start, i);
        var events := AddEventsToDay(date);
        var weekFlag := startDate.Some? && DayNumber(startDate.value) <= DayNumber(date) <= DayNumber(startDate.value) + 6;
        var cell := Cell(date, date.month != currentMonth.month, date == today, weekFlag, events);
        assert cell == MakeCell(currentMonth.month, date, today, startDate, selections);
        cells := cells + [cell];
        i := i + 1;
      }
      MonthGridFromCells(currentMonth, startDate, today, selections, cells);
    }
  }

  /** A sequence holding the grid's cells one by one is the grid. */
  lemma MonthGridFromCells(shown: Date, anchor: Option<Date>, today: Date, items: seq<ScheduleItem>, cells: seq<Cell>)
    requires ValidDate(shown) && (anchor.Some? ==> ValidDate(anchor.value))
    requires |cells| == GridLength(shown.year, shown.month)
    requires forall m :: 0 <= m < |cells| ==>
               cells[m] == MakeCell(shown.month, AddDays(GridStart(shown.year, shown.month), m), today, anchor, items)
    ensures cells == MonthGrid(shown, anchor, today, items)
  {
  }

  /** A selected day of a form is one of its buttons' days. */
  lemma {:induction false} SelectedDaysFromButtons(buttons: seq<DayButton>)
    ensures forall d :: d in SelectedDays(buttons) <==> exists k :: 0 <= k < |buttons| && buttons[k].selected && buttons[k].day == d
  {
    if buttons != [] {
      var init := buttons[..|buttons| - 1];
      SelectedDaysFromButtons(init);
      forall k | 0 <= k < |init| ensures init[k] == buttons[k] { }
    }
  }

  /** No disabled button contributes a day: with consistent buttons, every
      selected day belongs to an enabled button. */
  lemma SelectedDaysEnabled(buttons: seq<DayButton>, d: string)
    requires ButtonsConsistent(buttons) && d in SelectedDays(buttons)
    ensures exists k :: 0 <= k < |buttons| && buttons[k].day == d && !buttons[k].disabled
  {
    SelectedDaysFromButtons(buttons);
  }

  /** Reading items distributes over the container: forms added later come later. */
  lemma {:induction false} SelectionsAppend(a: seq<ItemForm>, b: seq<ItemForm>)
    ensures Selections(a + b) == Selections(a) + Selections(b)
    decreases |b|
  {
    if b == [] {
      assert a + b == a;
    } else {
      var b', last := b[..|b| - 1], b[|b| - 1];
      var tail := if Complete(last) then [ToItem(last)] else [];
      SelectionsAppend(a, b');
      assert (a + b)[..|a + b| - 1] == a + b' && (a + b)[|a + b| - 1] == last;
      assert Selections(a + b) == Selections(a + b') + tail;
      assert Selections(b) == Selections(b') + tail;
    }
  }

  /** getItems keeps exactly the complete forms: every item comes from a
      complete form, and every complete form yields one. */
  lemma {:induction false} SelectionsMembers(forms: seq<ItemForm>)
    ensures |Selections(forms)| <= |forms|
    ensures forall x :: x in Selections(forms) ==> exists k :: 0 <= k < |forms| && Complete(forms[k]) && x == ToItem(forms[k])
    ensures forall k :: 0 <= k < |forms| && Complete(forms[k]) ==> ToItem(forms[k]) in Selections(forms)
  {
    if forms != [] {
      var init := forms[..|forms| - 1];
      SelectionsMembers(init);
      forall k | 0 <= k < |init| ensures init[k] == forms[k] { }
    }
  }

  /** Every item read has a route, a stop, a time and at least one day. */
  lemma {:induction false} SelectionsComplete(forms: seq<ItemForm>)
    ensures forall x :: x in Selections(forms) ==> x.routeId != "" && x.stopName != "" && x.time != "" && x.days != []
  {
    if forms != [] {
      SelectionsComplete(forms[..|forms| - 1]);
    }
  }
}
