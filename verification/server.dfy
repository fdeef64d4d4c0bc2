/** The JSON API of backend/server.js over the immutable route dataset, and the
    `/api/generate-ics` handler's projection of schedule items onto concrete
    event records. */
module Server {
  import opened Wrappers
  import opened CivilDate
  import opened TimeText
  import opened Dataset

  // ---------------------------------------------------------------- lookups

  /** GET /api/routes/:routeId */
  function GetRoute(routes: Routes, routeId: string): (r: Result<Route>)
    ensures r.Ok? <==> routeId in routes
    ensures r.Ok? ==> r.value == routes[routeId]
    ensures r.Err? ==> r.error == ApiError(404, "Route not found")
  {
    if routeId !in routes then Err(ApiError(404, "Route not found"))
    else Ok(routes[routeId])
  }

  /** Payload of GET /api/stops: one route's stops, or every route's stops by id. */
  datatype StopsPayload =
    | RouteStops(stops: seq<Stop>)
    | AllStops(byRoute: map<string, seq<Stop>>)

  /** The `allStops` dictionary: every route id mapped to that route's stops. */
  function AllStopsOf(routes: Routes): (m: map<string, seq<Stop>>)
    ensures m.Keys == routes.Keys
    ensures forall id :: id in m ==> m[id] == routes[id].stops
  {
    map id | id in routes :: routes[id].stops
  }

  /** The loop that fills `allStops`, one route id at a time. */
  method CollectAllStops(routes: Routes) returns (all: map<string, seq<Stop>>)
    ensures all == AllStopsOf(routes)
  {
    all := map[];
    var pending := routes.Keys;
    while pending != {}
      invariant pending <= routes.Keys
      invariant all.Keys == routes.Keys - pending
      invariant forall id :: id in all ==> all[id] == routes[id].stops
      decreases pending
    {
      var id :| id in pending;
      all := all[id := routes[id].stops];
      pending := pending - {id};
    }
  }

  /** GET /api/stops?routeId=..  An absent and an empty routeId are both
      falsy in the source, so both are the empty string here. */
  function GetStops(routes: Routes, routeId: string): (r: Result<StopsPayload>)
    ensures routeId == "" ==> r.Ok? && r.value.AllStops?
                              && r.value.byRoute.Keys == routes.Keys
                              && forall id :: id in routes ==> r.value.byRoute[id] == routes[id].stops
    ensures routeId != "" && routeId in routes ==> r == Ok(RouteStops(routes[routeId].stops))
    ensures routeId != "" && routeId !in routes ==> r == Err(ApiError(404, "Route not found"))
  {
    if routeId != "" then
      if routeId !in routes then Err(ApiError(404, "Route not found"))
      else Ok(RouteStops(routes[routeId].stops))
    else Ok(AllStops(AllStopsOf(routes)))
  }

  /** GET /api/schedule?routeId=..&dayType=..  Missing parameters are reported
      (400) before any lookup; an unknown route before an unknown day type. */
  function GetSchedule(routes: Routes, routeId: string, dayType: string): (r: Result<Schedule>)
    ensures (routeId == "" || dayType == "")
            <==> r == Err(ApiError(400, "Route ID and day type are required"))
    ensures routeId != "" && dayType != "" && routeId !in routes
            <==> r == Err(ApiError(404, "Route not found"))
    ensures routeId != "" && dayType != "" && routeId in routes && dayType !in routes[routeId].schedules
            <==> r == Err(ApiError(404, "Schedule not found"))
    ensures r.Ok? <==> routeId != "" && dayType != "" && routeId in routes
                       && dayType in routes[routeId].schedules
    ensures r.Ok? ==> r.value == routes[routeId].schedules[dayType]
  {
    if routeId == "" || dayType == "" then Err(ApiError(400, "Route ID and day type are required"))
    else if routeId !in routes then Err(ApiError(404, "Route not found"))
    else if dayType !in routes[routeId].schedules then Err(ApiError(404, "Schedule not found"))
    else Ok(routes[routeId].schedules[dayType])
  }

  /** In a well-formed dataset a schedule served for a route has one time list per stop. */
  lemma ScheduleMatchesStops(routes: Routes, routeId: string, dayType: string)
    requires WellFormedRoutes(routes)
    requires GetSchedule(routes, routeId, dayType).Ok?
    ensures |GetSchedule(routes, routeId, dayType).value.times| == |routes[routeId].stops|
  {
  }

  // ------------------------------------------------------------ day offsets

  /** getDayOffset: days from a start date whose weekday is startDay to the next
      (or same) day named dayName.  An unknown name has no entry in the day map
      and the source computes NaN; that is None here. */
  function GetDayOffset(dayName: string, startDay: int): (r: Option<int>)
    requires 0 <= startDay < 7
    ensures r.Some? <==> dayName in DayNames
    ensures r.Some? ==> 0 <= r.value <= 6 && (startDay + r.value) % 7 == DayIndex(dayName).value
    ensures r.Some? && DayIndex(dayName).value == startDay ==> r.value == 0
  {
    match DayIndex(dayName)
    case None => None
    case Some(targetDay) =>
      var offset := targetDay - startDay;
      Some(if offset < 0 then offset + 7 else offset)
  }

  /** The offset is the only number of days in 0..6 that reaches the target weekday. */
  lemma DayOffsetUnique(dayName: string, startDay: int, k: int)
    requires 0 <= startDay < 7 && 0 <= k < 7
    requires dayName in DayNames && (startDay + k) % 7 == DayIndex(dayName).value
    ensures GetDayOffset(dayName, startDay) == Some(k)
  {
  }

  // ----------------------------------------------------- generate-ics input

  /** `req.body.scheduleItems`: absent (or falsy), some other non-array value, or an array. */
  datatype ItemsField = ItemsMissing | ItemsNotArray | ItemsArray(items: seq<ScheduleItem>)

  /** `req.body.startDate`: absent, the empty string, or a date ("YYYY-MM-DD"). */
  datatype StartDateField = StartMissing | StartEmpty | StartGiven(date: Date)

  datatype GenerateRequest = GenerateRequest(scheduleItems: ItemsField, startDate: StartDateField)

  /** The input check of /api/generate-ics.  An empty items array passes. */
  function ValidateGenerateRequest(body: GenerateRequest): (r: Result<(seq<ScheduleItem>, Date)>)
    ensures r.Err? <==> !body.scheduleItems.ItemsArray? || !body.startDate.StartGiven?
    ensures r.Err? ==> r.error == ApiError(400, "Invalid request data")
    ensures r.Ok? ==> r.value == (body.scheduleItems.items, body.startDate.date)
  {
    match (body.scheduleItems, body.startDate)
    case (ItemsArray(items), StartGiven(d)) => Ok((items, d))
    case _ => Err(ApiError(400, "Invalid request data"))
  }

  /** An empty items array is not rejected by the input check. */
  lemma EmptyItemsAccepted(d: Date)
    ensures ValidateGenerateRequest(GenerateRequest(ItemsArray([]), StartGiven(d))) == Ok(([], d))
  {
  }

  // -------------------------------------------------------- event records

  datatype EventStart = EventStart(date: Date, hour: int, minute: int)

  /** The record handed to the iCalendar generator for one item and one day. */
  datatype Event = Event(
    start: EventStart,
    durationMinutes: int,
    title: string,
    description: string,
    location: string,
    status: string,
    busyStatus: string)

  /** Items whose time is a 24-hour "H:MM" string and whose days are weekday names. */
  predicate WellFormedItem(item: ScheduleItem) {
    ParseTime(item.time).Some? && forall j :: 0 <= j < |item.days| ==> item.days[j] in DayNames
  }

  predicate WellFormedItems(items: seq<ScheduleItem>) {
    forall k :: 0 <= k < |items| ==> WellFormedItem(items[k])
  }

  predicate EndsWith(s: string, suffix: string) {
    |suffix| <= |s| && s[|s| - |suffix|..] == suffix
  }

  lemma ConcatEndsWith(prefix: string, suffix: string)
    ensures EndsWith(prefix + suffix, suffix)
  {
    assert (prefix + suffix)[|prefix|..] == suffix;
  }

  /** The date of the day named dayName in the week that starts at anchor. */
  function EventDate(anchor: Date, dayName: string): (d: Date)
    requires ValidDate(anchor) && dayName in DayNames
    ensures ValidDate(d)
  {
    AddDays(anchor, GetDayOffset(dayName, Weekday(anchor)).value)
  }

  /** The projected date lies in [anchor, anchor + 6] and falls on the named weekday. */
  lemma EventDateFacts(anchor: Date, dayName: string)
    requires ValidDate(anchor) && dayName in DayNames
    ensures DayNumber(anchor) <= DayNumber(EventDate(anchor, dayName)) <= DayNumber(anchor) + 6
    ensures DayNames[Weekday(EventDate(anchor, dayName))] == dayName
  {
    WeekdayAfter(anchor, GetDayOffset(dayName, Weekday(anchor)).value);
  }

  /** The event for one selected day of one item. */
  function MakeEvent(item: ScheduleItem, dayName: string, anchor: Date): Event
    requires ValidDate(anchor) && dayName in DayNames && ParseTime(item.time).Some?
  {
    var t := ParseTime(item.time).value;
    Event(EventStart(EventDate(anchor, dayName), t.hour, t.minute), 5,
          "KV Go Bus - " + item.routeId, "Bus arrival at " + item.stopName,
          item.stopName, "CONFIRMED", "FREE")
  }

  /** An event lies in [anchor, anchor + 6] on the weekday it was made for, at the
      hour and minute of the item's time, lasts five minutes, is confirmed and
      free, is located at the item's stop and names the route in its title. */
  lemma MakeEventFacts(item: ScheduleItem, dayName: string, anchor: Date)
    requires ValidDate(anchor) && dayName in DayNames && ParseTime(item.time).Some?
    ensures var e := MakeEvent(item, dayName, anchor);
            && ValidDate(e.start.date)
            && DayNumber(anchor) <= DayNumber(e.start.date) <= DayNumber(anchor) + 6
            && DayNames[Weekday(e.start.date)] == dayName
            && e.start.hour == ParseTime(item.time).value.hour
            && e.start.minute == ParseTime(item.time).value.minute
            && e.durationMinutes == 5 && e.status == "CONFIRMED" && e.busyStatus == "FREE"
            && e.location == item.stopName
            && EndsWith(e.title, item.routeId)
  {
    EventDateFacts(anchor, dayName);
    ConcatEndsWith("KV Go Bus - ", item.routeId);
  }

  /** The events of the first n days of an item, in day order. */
  function DayEvents(item: ScheduleItem, anchor: Date, n: nat): (es: seq<Event>)
    requires ValidDate(anchor) && WellFormedItem(item) && n <= |item.days|
    ensures |es| == n
  {
    if n == 0 then [] else DayEvents(item, anchor, n - 1) + [MakeEvent(item, item.days[n - 1], anchor)]
  }

  lemma {:induction false} DayEventsAt(item: ScheduleItem, anchor: Date, n: nat, j: nat)
    requires ValidDate(anchor) && WellFormedItem(item) && j < n <= |item.days|
    ensures DayEvents(item, anchor, n)[j] == MakeEvent(item, item.days[j], anchor)
  {
    if j < n - 1 {
      DayEventsAt(item, anchor, n - 1, j);
    }
  }

  /** The events of one item, one per entry of its `days`, in that order. */
  function ItemEvents(item: ScheduleItem, anchor: Date): (es: seq<Event>)
    requires ValidDate(anchor) && WellFormedItem(item)
  {
    DayEvents(item, anchor, |item.days|)
  }

  /** The elements of the lists one after another. */
  function Concat<T>(lists: seq<seq<T>>): seq<T> {
    if lists == [] then [] else Concat(lists[..|lists| - 1]) + lists[|lists| - 1]
  }

  /** Concatenating one more list appends it. */
  lemma ConcatStep<T>(lists: seq<seq<T>>, k: nat)
    requires k < |lists|
    ensures Concat(lists[..k + 1]) == Concat(lists[..k]) + lists[k]
  {
    assert lists[..k + 1][..k] == lists[..k];
  }

  /** Element j of list k sits right after the elements of the lists before it. */
  lemma {:induction false} ConcatAt<T>(lists: seq<seq<T>>, k: nat, j: nat)
    requires k < |lists| && j < |lists[k]|
    ensures |Concat(lists[..k])| + j < |Concat(lists)|
    ensures Concat(lists)[|Concat(lists[..k])| + j] == lists[k][j]
    decreases |lists|
  {
    var init, last := lists[..|lists| - 1], |lists| - 1;
    assert Concat(lists) == Concat(init) + lists[last];
    if k < last {
      ConcatAt(init, k, j);
      assert init[..k] == lists[..k];
    } else {
      assert lists[..k] == init;
    }
  }

  /** Every element of the concatenation comes from one of the lists. */
  lemma {:induction false} ConcatSource<T>(lists: seq<seq<T>>, n: nat)
    requires n < |Concat(lists)|
    ensures exists k, j :: 0 <= k < |lists| && 0 <= j < |lists[k]| && Concat(lists)[n] == lists[k][j]
    decreases |lists|
  {
    var init, last := lists[..|lists| - 1], |lists| - 1;
    assert Concat(lists) == Concat(init) + lists[last];
    if n < |Concat(init)| {
      ConcatSource(init, n);
      var k, j :| 0 <= k < |init| && 0 <= j < |init[k]| && Concat(init)[n] == init[k][j];
      assert init[k] == lists[k];
    } else {
      assert Concat(lists)[n] == lists[last][n - |Concat(init)|];
    }
  }

  /** The events of each item, in item order. */
  function EventLists(items: seq<ScheduleItem>, anchor: Date): (lists: seq<seq<Event>>)
    requires ValidDate(anchor) && WellFormedItems(items)
  {
    seq(|items|, k requires 0 <= k < |items| => ItemEvents(items[k], anchor))
  }

  /** The events of all items: item order, then day order within an item. */
  function ProjectEvents(items: seq<ScheduleItem>, anchor: Date): seq<Event>
    requires ValidDate(anchor) && WellFormedItems(items)
  {
    Concat(EventLists(items, anchor))
  }

  /** An empty items array projects to no events at all. */
  lemma EmptyItemsNoEvents(anchor: Date)
    requires ValidDate(anchor)
    ensures ProjectEvents([], anchor) == []
  {
    assert EventLists([], anchor) == [];
  }

  /** Sum of |item.days| over the items. */
  function TotalDays(items: seq<ScheduleItem>): nat {
    if items == [] then 0 else TotalDays(items[..|items| - 1]) + |items[|items| - 1].days|
  }

  /** The handler's nested loops: for each item, for each of its days, push an event. */
  method BuildEvents(items: seq<ScheduleItem>, anchor: Date) returns (events: seq<Event>)
    requires ValidDate(anchor) && WellFormedItems(items)
    ensures events == ProjectEvents(items, anchor)
  {
    ghost var lists := EventLists(items, anchor);
    events := [];
    var i := 0;
    while i < |items|
      invariant 0 <= i <= |items|
      invariant events == Concat(lists[..i])
    {
      events := PushItemEvents(events, items[i], anchor);
      ConcatStep(lists, i);
      i := i + 1;
    }
    assert lists[..i] == lists;
  }

  /** The inner loop: one event pushed per day of the item, in day order. */
  method PushItemEvents(events: seq<Event>, item: ScheduleItem, anchor: Date) returns (out: seq<Event>)
    requires ValidDate(anchor) && WellFormedItem(item)
    ensures out == events + ItemEvents(item, anchor)
  {
    out := events;
    var j := 0;
    while j < |item.days|
      invariant 0 <= j <= |item.days|
      invariant out == events + DayEvents(item, anchor, j)
    {
      var e := MakeEvent(item, item.days[j], anchor);
      assert DayEvents(item, anchor, j + 1) == DayEvents(item, anchor, j) + [e];
      out := out + [e];
      j := j + 1;
    }
  }

  /** The events of a prefix of the items are a prefix of the events. */
  lemma EventListsPrefix(items: seq<ScheduleItem>, anchor: Date, k: nat)
    requires ValidDate(anchor) && WellFormedItems(items) && k <= |items|
    ensures EventLists(items[..k], anchor) == EventLists(items, anchor)[..k]
  {
  }

  /** One event per (item, day) pair: no pairs are merged or dropped. */
  lemma {:induction false} ProjectEventsLength(items: seq<ScheduleItem>, anchor: Date)
    requires ValidDate(anchor) && WellFormedItems(items)
    ensures |ProjectEvents(items, anchor)| == TotalDays(items)
  {
    if items != [] {
      var init, last := items[..|items| - 1], |items| - 1;
      ProjectEventsLength(init, anchor);
      EventListsPrefix(items, anchor, last);
      ConcatStep(EventLists(items, anchor), last);
      assert EventLists(items, anchor)[..last + 1] == EventLists(items, anchor);
    }
  }

  /** Event number TotalDays(items[..k]) + j is the event of item k's j-th day:
      item order first, then day order. */
  lemma ProjectEventsAt(items: seq<ScheduleItem>, anchor: Date, k: nat, j: nat)
    requires ValidDate(anchor) && WellFormedItems(items)
    requires k < |items| && j < |items[k].days|
    ensures TotalDays(items[..k]) + j < |ProjectEvents(items, anchor)|
    ensures ProjectEvents(items, anchor)[TotalDays(items[..k]) + j]
            == MakeEvent(items[k], items[k].days[j], anchor)
  {
    var lists := EventLists(items, anchor);
    ConcatAt(lists, k, j);
    EventListsPrefix(items, anchor, k);
    ProjectEventsLength(items[..k], anchor);
    DayEventsAt(items[k], anchor, |items[k].days|, j);
  }

  /** Every projected event comes from some item k and its j-th day. */
  lemma ProjectedEventSource(items: seq<ScheduleItem>, anchor: Date, n: nat)
    requires ValidDate(anchor) && WellFormedItems(items)
    requires n < |ProjectEvents(items, anchor)|
    ensures exists k, j :: 0 <= k < |items| && 0 <= j < |items[k].days|
                           && ProjectEvents(items, anchor)[n] == MakeEvent(items[k], items[k].days[j], anchor)
  {
    var lists := EventLists(items, anchor);
    ConcatSource(lists, n);
    var k, j :| 0 <= k < |lists| && 0 <= j < |lists[k]| && Concat(lists)[n] == lists[k][j];
    DayEventsAt(items[k], anchor, |items[k].days|, j);
  }

  /** Every projected event falls in [anchor, anchor + 6], on a weekday named by its
      item, at the item's time, for five minutes, at the item's stop. */
  lemma ProjectedEventFacts(items: seq<ScheduleItem>, anchor: Date, n: nat)
    requires ValidDate(anchor) && WellFormedItems(items)
    requires n < |ProjectEvents(items, anchor)|
    ensures var e := ProjectEvents(items, anchor)[n];
            && ValidDate(e.start.date)
            && DayNumber(anchor) <= DayNumber(e.start.date) <= DayNumber(anchor) + 6
            && e.durationMinutes == 5 && e.status == "CONFIRMED" && e.busyStatus == "FREE"
            && exists k :: 0 <= k < |items|
                 && DayNames[Weekday(e.start.date)] in items[k].days
                 && e.location == items[k].stopName
                 && e.start.hour == ParseTime(items[k].time).value.hour
                 && e.start.minute == ParseTime(items[k].time).value.minute
  {
    ProjectedEventSource(items, anchor, n);
    var k, j :| 0 <= k < |items| && 0 <= j < |items[k].days|
                && ProjectEvents(items, anchor)[n] == MakeEvent(items[k], items[k].days[j], anchor);
    MakeEventFacts(items[k], items[k].days[j], anchor);
  }

  /** Wednesday of the week anchored at Monday 2024-06-10 is 2024-06-12. */
  lemma WednesdayOfWeek20240610()
    ensures ValidDate(Date(2024, 6, 10))
    ensures EventDate(Date(2024, 6, 10), "Wednesday") == Date(2024, 6, 12)
  {
    var anchor := Date(2024, 6, 10);
    Weekday20240610();
    assert DayIndex("Wednesday") == Some(3);
    assert GetDayOffset("Wednesday", 1) == Some(2);
    assert DayNumber(Date(2024, 6, 12)) == DayNumber(anchor) + 2;
    DayNumberInjective(EventDate(anchor, "Wednesday"), Date(2024, 6, 12));
  }

  /** Anchor 2024-06-10 (a Monday) and one item at 08:15 on Wednesday give exactly
      one event, on 2024-06-12 at 08:15. */
  lemma WednesdayScenario()
    ensures var item := ScheduleItem("Go1", "Main St", "08:15", ["Wednesday"]);
            && WellFormedItems([item])
            && ProjectEvents([item], Date(2024, 6, 10))
               == [Event(EventStart(Date(2024, 6, 12), 8, 15), 5, "KV Go Bus - Go1",
                         "Bus arrival at Main St", "Main St", "CONFIRMED", "FREE")]
  {
    var item := ScheduleItem("Go1", "Main St", "08:15", ["Wednesday"]);
    ParseFormatTime(TimeOfDay(8, 15));
    assert FormatTime(TimeOfDay(8, 15)) == "08:15";
    WednesdayOfWeek20240610();
    var e := MakeEvent(item, "Wednesday", Date(2024, 6, 10));
    assert e == Event(EventStart(Date(2024, 6, 12), 8, 15), 5, "KV Go Bus - Go1",
                      "Bus arrival at Main St", "Main St", "CONFIRMED", "FREE");
    assert DayEvents(item, Date(2024, 6, 10), 0) == [];
    assert ItemEvents(item, Date(2024, 6, 10)) == [e];
    var lists := EventLists([item], Date(2024, 6, 10));
    assert lists == [[e]];
    assert lists[..0] == [];
    assert Concat(lists) == Concat(lists[..0]) + [e];
  }

  // ----------------------------------------------------- generate-ics handler

  /** A successful response: the events, the calendar text, and its headers. */
  datatype IcsDownload = IcsDownload(events: seq<Event>, calendar: string, contentType: string, filename: string)

  /** What the projection needs of a body that passes the input check; a body
      that fails it is answered with 400 whatever it holds. */
  predicate WellFormedRequest(body: GenerateRequest) {
    body.scheduleItems.ItemsArray? && body.startDate.StartGiven?
    ==> WellFormedItems(body.scheduleItems.items) && ValidDate(body.startDate.date)
  }

  /** POST /api/generate-ics.  `createEvents` belongs to the ics package and is
      not part of this model: its outcome on the projected events is the
      parameter `calendar` (None when it reports an error). */
  method GenerateIcs(body: GenerateRequest, calendar: Option<string>) returns (r: Result<IcsDownload>)
    requires WellFormedRequest(body)
    ensures ValidateGenerateRequest(body).Err? ==> r == Err(ApiError(400, "Invalid request data"))
    ensures ValidateGenerateRequest(body).Ok? && calendar.None?
            ==> r == Err(ApiError(500, "Failed to generate ICS file"))
    ensures r.Ok? <==> ValidateGenerateRequest(body).Ok? && calendar.Some?
    ensures r.Ok? ==> r.value.events == ProjectEvents(body.scheduleItems.items, body.startDate.date)
                      && r.value.calendar == calendar.value
                      && r.value.contentType == "text/calendar"
                      && r.value.filename == "kv-go-schedule.ics"
  {
    var checked := ValidateGenerateRequest(body);
    if checked.Err? {
      return Err(checked.error);
    }
    var (items, anchor) := checked.value;
    var events := BuildEvents(items, anchor);
    if calendar.None? {
      return Err(ApiError(500, "Failed to generate ICS file"));
    }
    r := Ok(IcsDownload(events, calendar.value, "text/calendar", "kv-go-schedule.ics"));
  }
}
