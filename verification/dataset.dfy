/** The static route dataset: routes keyed by id, each with its ordered stops
    and, per day type ("weekday", "weekend"), one time list per stop index. */
module Dataset {
  import opened Wrappers

  datatype Stop = Stop(name: string, description: string)

  /** `times[i]` lists the "HH:MM" times at stop index i. */
  datatype Schedule = Schedule(times: seq<seq<string>>)

  datatype Route = Route(description: string, stops: seq<Stop>, schedules: map<string, Schedule>)

  type Routes = map<string, Route>

  /** One user selection as the browser sends it to the server. */
  datatype ScheduleItem = ScheduleItem(routeId: string, stopName: string, time: string, days: seq<string>)

  /** Every schedule of the route has exactly one time list per stop. */
  predicate WellFormedRoute(r: Route) {
    forall dayType :: dayType in r.schedules ==> |r.schedules[dayType].times| == |r.stops|
  }

  predicate WellFormedRoutes(routes: Routes) {
    forall id :: id in routes ==> WellFormedRoute(routes[id])
  }

  /** `stops.findIndex(stop => stop.name === name)`: the first index whose stop
      has that name, None (the source's -1) when no stop has it. */
  function FindStopIndex(stops: seq<Stop>, name: string): (r: Option<nat>)
    ensures r.Some? ==> r.value < |stops| && stops[r.value].name == name
    ensures r.Some? ==> forall j :: 0 <= j < r.value ==> stops[j].name != name
    ensures r.None? <==> forall j :: 0 <= j < |stops| ==> stops[j].name != name
  {
    if stops == [] then None
    else if stops[0].name == name then Some(0)
    else match FindStopIndex(stops[1..], name)
      case None => None
      case Some(i) => Some(i + 1)
  }

  /** `route.schedules[dayType].times[index] || []`: the time list at a stop
      index, empty when the index has no list. */
  function TimesAt(r: Route, dayType: string, index: nat): seq<string>
    requires dayType in r.schedules
  {
    var times := r.schedules[dayType].times;
    if index < |times| then times[index] else []
  }
}
