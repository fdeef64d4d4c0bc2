# KV Go schedule calendar: a Dafny model

The KV Go bus schedule tool lets a user pick bus stops and times on the
Go1 and Go2 routes. The browser (`frontend/script.js`, class
`ScheduleGenerator`) keeps one form per selection. Each form holds:
- a route, a stop and a time;
- seven day toggles.

The browser draws a month calendar. Inside the week that begins on the
chosen start date, it shows the selected items on their weekdays. The
server (`backend/server.js`) does two jobs:
- it serves the static route dataset as JSON;
- it turns the selections into calendar events for that week. Each event
  lands on the next (or same) date, from the start date on, that has the
  selected weekday.

This project models those two cores in Dafny and proves what they promise.
The modules follow the program's structure:

| module | file | what it models |
|---|---|---|
| `Wrappers` | `wrappers.dfy` | `Option`, `Result` and the HTTP error (status and message) |
| `CivilDate` | `civil_date.dfy` | civil dates, day numbers and weekdays; JS `setDate`/`setMonth` and moment `add(k, 'days')` as operations on civil dates |
| `TimeText` | `time_text.dfy` | `"HH:MM"` times: the server's `split(':').map(Number)` and the browser's `parseInt(t.replace(':', ''))` sort key |
| `Dataset` | `dataset.dfy` | routes, stops, per-stop time lists, schedule items, `findIndex` |
| `Server` | `server.dfy` | the GET handlers, `getDayOffset`, the input check of `/api/generate-ics` and its projection of items onto events (the nested `forEach` loops as methods) |
| `TimeChoices` | `time_choices.dfy` | `populateTimes`' list of times: deduplication (`new Set`), then an in-place sort on an array |
| `CalendarGrid` | `calendar_grid.dfy` | the month grid of `renderCalendar` and the chips of `addEventsToDay`, as functions of the state |
| `ScheduleUI` | `schedule_generator.dfy` | the `ScheduleGenerator` class: its fields, its state-changing handlers and its read-outs |
| `PreviewExport` | `preview_export.dfy` | the agreement between the browser preview and the server's export |

The main results are these:
- The server projects every (item, day) pair onto exactly one event. The
  events come in item order and then day order. Each one lies in
  `[start, start + 6]`, on its weekday, at the item's time.
- The preview and the export agree. Inside the selected week, a cell
  shows an item exactly when the export has an event of that item on
  that date (`PreviewExport.PreviewMatchesExport`).
- The grid of a month is four to six whole weeks, from a Sunday to a
  Saturday. It covers the month and steps one day per cell. It flags at
  most one cell as today, and at most seven cells as the selected week.
- The offered times have no duplicates. They are exactly the stop's
  weekday and weekend times, ascending by the browser's sort key. For
  `"HH:MM"` times that order is chronological.
- Every handler of the class keeps the class invariant. For example, a
  disabled day button is never selected.
- Every handler states its whole new state. `getItems` returns exactly
  the complete forms, in container order.

Notes on the model:
- The server accepts an empty `scheduleItems` array. The check at
  `backend/server.js:73` only rejects a missing or non-array value, so an
  empty array passes the check (`Server.EmptyItemsAccepted`) and an empty
  event list goes to `createEvents` (`Server.EmptyItemsNoEvents`); the
  response is whatever that call returns. Only
  the browser refuses to send an empty list (`frontend/script.js:526`).
- Moving to the next or previous month follows JavaScript's day overflow.
  On January 31st, "next month" shows March, because `setMonth(1)` gives
  March 3rd in a common year (`CivilDate.NextMonthSkipsFebruary`).
- Without a valid start date, the browser's week comparisons are with
  NaN. Then no cell is flagged as the selected week, yet every cell shows
  the items of its weekday (`CalendarGrid.NoStartDateShowsEveryWeek`).

## Model

| member | source | states |
|---|---|---|
| `CivilDate.DayIndex` | backend/server.js:126-136 | a name has a day number iff it is one of the seven weekday names, and that number indexes the name in Sunday..Saturday order |
| `CivilDate.Weekday` | frontend/script.js:101 | `getDay()`: the weekday of a date is in 0..6 |
| `CivilDate.NextDay` | frontend/script.js:113-114 | the day after a date is a valid date whose day number is one more |
| `CivilDate.AddDays` | backend/server.js:85 | shifting a date by k days gives the valid date whose day number is k more |
| `CivilDate.AddDaysSucc` | frontend/script.js:112-114 | shifting by i + 1 days is the day after shifting by i days |
| `CivilDate.WeekdayAfter` | backend/server.js:85 | after shifting by k days the weekday has advanced by k mod 7 |
| `CivilDate.DayNumberInjective` | frontend/script.js:125-127 | two valid dates with equal day numbers are equal, so comparing times compares dates |
| `CivilDate.SameDayNumberIff` | frontend/script.js:131 | two valid dates are equal iff their day numbers are equal |
| `CivilDate.SetMonth` | frontend/script.js:207 | `setMonth` always yields a valid date (which date: `SetMonthKeepsDay` and `SetMonthOverflow`) |
| `CivilDate.SetMonthKeepsDay` | frontend/script.js:212 | when the target month is long enough, `setMonth` keeps the day of month, with the year rolling over for a month index outside 0..11 |
| `CivilDate.SetMonthOverflow` | frontend/script.js:212 | when the target month is too short, the surplus days, one to three of them, spill into the following month; the target month is never December, so the year never changes |
| `CivilDate.JanuaryLastToMarch` | frontend/script.js:212 | in a common year, `setMonth(1)` on January 31st gives March 3rd |
| `CivilDate.NextMonthSkipsFebruary` | frontend/script.js:211-214 | "next month" from 2025-01-31 shows March 2025 |
| `CivilDate.NextPrevMonthRoundTrip` | frontend/script.js:206-214 | "next month" then "previous month" returns to the same date when the day is at most 28 |
| `CivilDate.Weekday20240610` | backend/server.js:137 | 2024-06-10 is a Monday |
| `TimeText.FirstColon` | backend/server.js:87 | the first colon's position, with no colon before it; None iff there is no colon |
| `TimeText.ParseTime` | backend/server.js:87 | a parsed time has an hour in 0..23 and a minute in 0..59 |
| `TimeText.ParseFormatTime` | backend/server.js:87 | reading the hour and minute of an `"HH:MM"` text gives them back |
| `TimeText.FirstColonAfter` | backend/server.js:87 | when the text before a colon holds no colon, `split(':')` cuts at that colon |
| `TimeText.ParseTimeDigits` | backend/server.js:87 | any non-empty digit strings around the colon, padded or not (`"8:15"`), are read as that hour and minute |
| `TimeText.RemoveFirstColon` | frontend/script.js:389 | `replace(':', '')` removes exactly the first colon and keeps everything else in order; without a colon the string is unchanged |
| `TimeText.DigitPrefixLength` | frontend/script.js:389 | `parseInt` reads the longest all-digit prefix |
| `TimeText.TimeKeyOfFormatted` | frontend/script.js:389-390 | the sort key of `"HH:MM"` is 100 * HH + MM |
| `TimeText.TimeKeyChronological` | frontend/script.js:388-392 | for `"HH:MM"` times, a smaller sort key means an earlier time, and conversely |
| `Dataset.FindStopIndex` | frontend/script.js:381 | `findIndex`: the first stop with the name; None iff no stop has it |
| `Server.GetRoute` | backend/server.js:20-29 | the route iff the id is a key, else 404 "Route not found" |
| `Server.AllStopsOf` | backend/server.js:41-45 | the map of every route id to that route's stops, with the same keys as the dataset |
| `Server.CollectAllStops` | backend/server.js:41-45 | the `forEach` loop builds exactly that map |
| `Server.GetStops` | backend/server.js:31-47 | no route id: every route's stops; a known id: its stops; an unknown id: 404 |
| `Server.GetSchedule` | backend/server.js:49-67 | 400 iff a parameter is missing; then 404 for an unknown route, then 404 for an unknown day type; otherwise that schedule (each error iff its condition) |
| `Server.ScheduleMatchesStops` | backend/server.js:61-66 | in a well-formed dataset a served schedule has one time list per stop |
| `Server.GetDayOffset` | backend/server.js:125-145 | a known day name gives an offset in 0..6 that moves the start weekday onto the target weekday, 0 on the same weekday; an unknown name gives none |
| `Server.DayOffsetUnique` | backend/server.js:139-142 | the offset is the only number in 0..6 that reaches the target weekday |
| `Server.ValidateGenerateRequest` | backend/server.js:73-75 | 400 "Invalid request data" iff the items are not an array or the start date is missing; otherwise the items and the date |
| `Server.EmptyItemsAccepted` | backend/server.js:73 | an empty items array passes the check |
| `Server.EmptyItemsNoEvents` | backend/server.js:77-108 | an empty items array projects to no events |
| `Server.EventDateFacts` | backend/server.js:84-85 | an event date lies in [start, start + 6] on the named weekday |
| `Server.MakeEventFacts` | backend/server.js:84-104 | an event is in the week, on its weekday, at the item's hour and minute, lasts 5 minutes, is CONFIRMED and FREE, is at the stop, and its title ends with the route id |
| `Server.DayEventsAt` | backend/server.js:83-107 | the j-th pushed event of an item is the event for its j-th day |
| `Server.PushItemEvents` | backend/server.js:83-107 | the inner loop appends exactly the item's events to the list |
| `Server.BuildEvents` | backend/server.js:77-108 | the nested loops produce exactly the projection of all items |
| `Server.ConcatAt` | backend/server.js:80-107 | element j of list k follows the elements of the lists before it |
| `Server.ConcatSource` | backend/server.js:80-107 | every element of the concatenation comes from one of the lists |
| `Server.ProjectEventsLength` | backend/server.js:80-108 | exactly one event per (item, day) pair: the number of events is the total number of days |
| `Server.ProjectEventsAt` | backend/server.js:80-108 | the event at position TotalDays(items[..k]) + j is the event of item k's j-th day (item order, then day order) |
| `Server.ProjectedEventSource` | backend/server.js:80-108 | every event comes from some item and one of its days |
| `Server.ProjectedEventFacts` | backend/server.js:80-108 | every event is in [start, start + 6], lasts 5 minutes, and is on a weekday, at a time and at a stop of one item |
| `Server.WednesdayOfWeek20240610` | backend/server.js:84-85 | Wednesday of the week starting Monday 2024-06-10 is 2024-06-12 |
| `Server.WednesdayScenario` | backend/server.js:77-108 | one Wednesday 08:15 item with start 2024-06-10 gives exactly one event, on 2024-06-12 at 08:15 |
| `Server.GenerateIcs` | backend/server.js:69-123 | 400 for invalid input, 500 when the calendar cannot be generated, otherwise the projected events served as `text/calendar` named `kv-go-schedule.ics` |
| `TimeChoices.DedupSpec` | frontend/script.js:387 | `new Set` keeps every time once and nothing else |
| `TimeChoices.InsertPermutes` | frontend/script.js:388-392 | one insertion step only adds the inserted element |
| `TimeChoices.InsertSorted` | frontend/script.js:388-392 | one insertion step keeps the list ascending by key |
| `TimeChoices.SortByKeyPermutes` | frontend/script.js:388-392 | the sort rearranges its input (same multiset) |
| `TimeChoices.SortByKeySorted` | frontend/script.js:388-392 | the sort's result is ascending by key |
| `TimeChoices.PermutationNoDuplicates` | frontend/script.js:387-388 | sorting a duplicate-free list keeps it duplicate-free |
| `TimeChoices.TimeChoiceListSpec` | frontend/script.js:376-401 | the offered times have no duplicates, ascend by sort key, are empty for an unknown stop, and are exactly the stop's weekday and weekend times |
| `TimeChoices.SortedTimeChoices` | frontend/script.js:384-392 | the dedup loop and the in-place sort compute the specified choice list |
| `TimeChoices.InsertionSort` | frontend/script.js:388-392 | the array afterwards holds its old contents sorted stably by the key |
| `TimeChoices.InsertNext` | frontend/script.js:388-392 | the inner loop places a[i] into the sorted prefix and leaves the rest alone |
| `TimeChoices.InsertAt` | frontend/script.js:388-392 | an element is inserted after the last element whose key is at most its own |
| `CalendarGrid.GridStart` | frontend/script.js:100-101 | `calStart` is a Sunday, at most six days before the 1st of the month |
| `CalendarGrid.GridEnd` | frontend/script.js:103-107 | `calEnd` is a Saturday, at most six days after the month's last day |
| `CalendarGrid.GridLength` | frontend/script.js:109-110 | `totalDays` is a multiple of 7 between 28 and 42 |
| `CalendarGrid.WeekSpan` | frontend/script.js:109-110 | from a Sunday to a Saturday around one month is four to six whole weeks |
| `CalendarGrid.StopLabel` | frontend/script.js:170-171 | names up to 20 characters are kept; longer ones become their first 20 characters and "..." |
| `CalendarGrid.MonthGrid` | frontend/script.js:112-142 | the grid has `totalDays` cells |
| `CalendarGrid.GridCellDate` | frontend/script.js:112-114 | cell i holds the date i days after `calStart` |
| `CalendarGrid.GridFirstCell` | frontend/script.js:100-101 | the first cell is `calStart` |
| `CalendarGrid.GridLastCell` | frontend/script.js:103-114 | `calStart` plus `totalDays - 1` days is `calEnd`, the date of the grid's last cell |
| `CalendarGrid.GridCellFlags` | frontend/script.js:119-140 | each cell is marked other-month iff its month differs from the shown one, today iff its date is today, selected-week iff it lies in the seven days from the start date; its events are those of `addEventsToDay` |
| `CalendarGrid.GridCellsConsecutive` | frontend/script.js:112-114 | each next cell holds the next day |
| `CalendarGrid.GridCoversMonth` | frontend/script.js:92-121 | every day of the shown month has a cell, and that cell is not other-month |
| `CalendarGrid.TodayAtMostOnce` | frontend/script.js:123-129 | at most one cell is flagged today |
| `CalendarGrid.NoEventsOutsideWeek` | frontend/script.js:149-156 | with a valid start date, a cell outside the selected week shows no events |
| `CalendarGrid.CountSelectedPrefix` | frontend/script.js:131-133 | the selected-week cells among the first k are those in the anchor's seven-day window |
| `CalendarGrid.SelectedWeekCount` | frontend/script.js:95-98 | at most seven cells are selected-week, and exactly seven when the week lies inside the grid |
| `CalendarGrid.NoStartDateShowsEveryWeek` | frontend/script.js:149-163 | without a valid start date no cell is selected-week, yet every cell shows the items of its weekday |
| `CalendarGrid.MatchingChipsAppend` | frontend/script.js:162-191 | the chips for two runs of items are the chips of each run, in order |
| `CalendarGrid.MatchingChipsMembers` | frontend/script.js:162-191 | a chip appears for an item iff the day name is among its days |
| `ScheduleUI.FreshButtons` | frontend/script.js:226-251 | a new form has one enabled, unselected button per template day, in template order |
| `ScheduleUI.AfterTimeChoice` | frontend/script.js:333-356 | a weekend (weekday) button is disabled iff the time is missing from the weekend (weekday) list; a disabled button is deselected, an enabled one keeps its state; any other day is untouched |
| `ScheduleUI.CollectSelectedDays` | frontend/script.js:584-587 | the days of the selected buttons, in button order |
| `ScheduleUI.ScheduleGenerator.constructor` | frontend/script.js:2-13 | no forms, counter 0, today's month shown, today as the start date (`setDefaultDate`) |
| `ScheduleUI.ScheduleGenerator.UpdateGenerateBtn` | frontend/script.js:429-432 | the generate button is disabled iff there are no forms; nothing else changes |
| `ScheduleUI.ScheduleGenerator.AddItem` | frontend/script.js:216-224 | the counter goes up by one and a blank form with that number is appended; the button is enabled |
| `ScheduleUI.ScheduleGenerator.RemoveItem` | frontend/script.js:416-420 | exactly form i is removed; the counter is unchanged |
| `ScheduleUI.ScheduleGenerator.ClearAll` | frontend/script.js:422-427 | no forms, counter 0, button disabled |
| `ScheduleUI.ScheduleGenerator.PrevMonth` | frontend/script.js:206-209 | the shown month becomes `setMonth(getMonth() - 1)` of the old one; nothing else changes |
| `ScheduleUI.ScheduleGenerator.NextMonth` | frontend/script.js:211-214 | the shown month becomes `setMonth(getMonth() + 1)` of the old one; nothing else changes |
| `ScheduleUI.ScheduleGenerator.SetStartDate` | frontend/script.js:38 | only the start date changes |
| `ScheduleUI.ScheduleGenerator.ResetDays` | frontend/script.js:369-374 | every day button of form i is deselected and nothing else changes |
| `ScheduleUI.ScheduleGenerator.OnRouteChange` | frontend/script.js:267-284 | the route is set; the stop, the time and the time options are cleared; the days are deselected; the other forms are untouched |
| `ScheduleUI.ScheduleGenerator.PopulateTimes` | frontend/script.js:376-401 | the time options become the stop's choice list and the time returns to the placeholder |
| `ScheduleUI.ScheduleGenerator.OnStopChange` | frontend/script.js:299-314 | the stop is set and the days are deselected; the time options are refilled iff route and stop are both set |
| `ScheduleUI.ScheduleGenerator.OnTimeChange` | frontend/script.js:316-362 | the time is set; with route, stop and time set and the stop on the route, every button follows AfterTimeChoice, otherwise the buttons are unchanged |
| `ScheduleUI.ScheduleGenerator.OnDayClick` | frontend/script.js:364-367 | exactly button k of form i toggles its selection, unless it is disabled |
| `ScheduleUI.ScheduleGenerator.GetItems` | frontend/script.js:576-599 | the loop returns the items of the complete forms, in container order |
| `ScheduleUI.ScheduleGenerator.AddEventsToDay` | frontend/script.js:145-204 | the chips and "+N more" count of a date are those of the specified cell contents |
| `ScheduleUI.ScheduleGenerator.RenderCalendar` | frontend/script.js:73-143 | the rendered cells are exactly the month grid of the current state |
| `ScheduleUI.SelectedDaysFromButtons` | frontend/script.js:584-587 | a day is read iff some selected button carries it |
| `ScheduleUI.SelectedDaysEnabled` | frontend/script.js:345-355 | with the class invariant, every day read belongs to an enabled button |
| `ScheduleUI.SelectionsAppend` | frontend/script.js:576-599 | reading a longer container appends the new forms' items after the old ones |
| `ScheduleUI.SelectionsMembers` | frontend/script.js:576-599 | no more items than forms; every item comes from a complete form; every complete form yields its item |
| `ScheduleUI.SelectionsComplete` | frontend/script.js:586 | every item read has a route, a stop, a time and at least one day |
| `PreviewExport.OneDatePerWeekday` | backend/server.js:139-142 | within one week a weekday name names a single date |
| `PreviewExport.SingleItemChips` | frontend/script.js:156-163 | inside the selected week a single item shows one chip iff the date's weekday is among its days |
| `PreviewExport.SelectedDayExported` | backend/server.js:83-85 | the event of a selected day falls on that day's date in the week |
| `PreviewExport.ExportedDaySelected` | backend/server.js:83-85 | every exported event falls on a weekday the item selects |
| `PreviewExport.ExportedOnDate` | backend/server.js:80-108 | a date of the week has an exported event iff its weekday is one of the item's days |
| `PreviewExport.PreviewMatchesExport` | frontend/script.js:145-163 | inside the selected week, the preview shows an item on a date iff the export has an event of that item on that date |

## Left out

- Express, the HTTP transport, CORS, static files and the `fs` load of `routes.json` are not modelled. The dataset is a parameter. `GET /api/routes` returns it unchanged.
- The `ics` package's `createEvents` is not part of this model. Its outcome on the projected events is the `calendar` parameter of `Server.GenerateIcs`. The `try`/`catch` 500 fallback is not modelled, because no modelled step throws.
- moment-timezone is not modelled: the America/Halifax zone, daylight saving, time-of-day arithmetic and the parsing of the `startDate` string. The request carries the start date as a civil date.
- `Server.MakeEvent` and the projection assume 24-hour times of digits around one colon (`TimeText.ParseTimeDigits`) and the seven day names. What moment and `Number` do with other strings (NaN offsets, NaN hours) is not modelled.
- `TimeText.TimeKey` reads a string without leading digits as 0. The source's `parseInt` gives NaN there, and the sort's comparator then returns NaN. The model assumes that every time in the dataset starts with a digit.
- `TimeChoices.InsertionSort`: `Array.prototype.sort` is library code. It is modelled as a stable insertion sort, which is how modern engines order equal keys.
- `fetch`, `async`/`await`, `loadRoutes`' error path and `showMessage` with its timer are not modelled. The class receives the loaded routes in its constructor.
- The browser's `generateICS` is not modelled: its checks for items and start date, the request and the download. The server side of the request is modelled.
- The DOM is not modelled as such. Forms, selects and buttons are values in the class's `items` field. The template's day order and the initial state of the generate button are constructor parameters.
- Left out as presentation only: `toLocaleDateString` (the month title and the long weekday name, which is `DayNames` of the weekday here), class names, the chip tooltip text, `showStops`, `showTimes`, `closeModal`, `populateRoutes`, `populateStops` and `toggleItem`.
- Each handler ends with `renderCalendar`. That re-render is not kept as state. `ScheduleGenerator.RenderCalendar` returns the cells for the current state, and `today` is a parameter instead of the clock.
- `ScheduleUI.ScheduleGenerator.OnDayClick` leaves a disabled button unchanged, because a disabled button receives no click events in the DOM.
- `ScheduleUI.ScheduleGenerator.OnRouteChange` and `ScheduleUI.ScheduleGenerator.PopulateTimes` take route ids from the dataset's keys. JavaScript object lookups would also find prototype keys such as `"toString"`.
- `Server.GetRoute`, `Server.GetStops` and `Server.GetSchedule` look route ids and day types up among the dataset's own keys. The source indexes plain JavaScript objects, so inherited keys such as `"constructor"`, `"toString"` or `"__proto__"` also count as found there, and the source answers them with 200 instead of 404.
- `ScheduleUI.ScheduleGenerator.constructor` and `TimeChoices.TimeChoiceList` require every route to have both a `"weekday"` and a `"weekend"` schedule. For a route without one, the source throws a TypeError reading `route.schedules.weekday.times` (frontend/script.js:339-342, 384-385); that failure is not modelled.
- `CalendarGrid.StopLabel` counts Unicode scalar values. The source's `length` and `substring` count UTF-16 code units, so a name with characters outside the Basic Multilingual Plane is cut at a different place there.
- Concurrency is not modelled. Each handler runs to completion before the next one starts.
