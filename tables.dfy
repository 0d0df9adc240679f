/** The two tables of the route database, `end_stations` and `routes`, as values,
    together with the station lookup and the effect of adding one route. */
module RouteTables {

  datatype Option<T> = None | Some(value: T)

  /** A row of `end_stations`: surrogate key and display title. */
  datatype Station = Station(id: int, title: string)

  /** A row of `routes`: surrogate key, free-text start name, end station
      (a reference to `end_stations.station_id`) and route number. */
  datatype Route = Route(id: int, start: string, stationId: int, number: int)

  /** A record returned by the readers: start name, end station title, number. */
  datatype Record = Record(start: string, end: string, number: int)

  /** The contents of both tables plus the two AUTOINCREMENT counters:
      the next key each table hands out. */
  datatype Tables = Tables(stations: seq<Station>, routes: seq<Route>,
                           nextStationId: int, nextRouteId: int)

  /** Freshly created tables: no rows, and AUTOINCREMENT starts at 1. */
  const Empty: Tables := Tables([], [], 1, 1)

  // ---------------------------------------------------------------------------
  // Invariants of the tables

  /** Station keys are positive, strictly increasing in table order, and below
      the counter, so the next key handed out is fresh. */
  predicate StationKeys(t: Tables) {
    0 < t.nextStationId &&
    (forall i :: 0 <= i < |t.stations| ==> 0 < t.stations[i].id < t.nextStationId) &&
    (forall i, j :: 0 <= i < j < |t.stations| ==> t.stations[i].id < t.stations[j].id)
  }

  /** The same for route keys. */
  predicate RouteKeys(t: Tables) {
    0 < t.nextRouteId &&
    (forall i :: 0 <= i < |t.routes| ==> 0 < t.routes[i].id < t.nextRouteId) &&
    (forall i, j :: 0 <= i < j < |t.routes| ==> t.routes[i].id < t.routes[j].id)
  }

  /** No two stations share a title (end stations are deduplicated). */
  predicate TitlesUnique(stations: seq<Station>) {
    forall i, j :: 0 <= i < j < |stations| ==> stations[i].title != stations[j].title
  }

  predicate HasStation(stations: seq<Station>, id: int) {
    exists j :: 0 <= j < |stations| && stations[j].id == id
  }

  /** Referential integrity: every route's end station exists. */
  predicate ReferencesResolve(t: Tables) {
    forall i :: 0 <= i < |t.routes| ==> HasStation(t.stations, t.routes[i].stationId)
  }

  predicate Valid(t: Tables) {
    StationKeys(t) && RouteKeys(t) && TitlesUnique(t.stations) && ReferencesResolve(t)
  }

  lemma EmptyValid()
    ensures Valid(Empty) && Empty.stations == [] && Empty.routes == []
  {
  }

  // ---------------------------------------------------------------------------
  // Lookup of a station by exact title (`SELECT station_id ... WHERE
  // station_title = ?` followed by `fetchone`): the first matching row.

  function FindStation(stations: seq<Station>, title: string): (r: Option<nat>)
    ensures r.Some? ==> r.value < |stations| && stations[r.value].title == title
    ensures r.Some? ==> forall j :: 0 <= j < r.value ==> stations[j].title != title
    ensures r.None? <==> forall j :: 0 <= j < |stations| ==> stations[j].title != title
  {
    if stations == [] then None
    else if stations[0].title == title then Some(0)
    else match FindStation(stations[1..], title)
      case None => None
      case Some(k) => Some(k + 1)
  }

  // ---------------------------------------------------------------------------
  // add_route on values

  /** The tables after adding the route (start, end, number): the end station
      is looked up by title and inserted with the next key when absent, then
      one route row referencing it is appended. */
  function AddRoute(t: Tables, start: string, end: string, number: int): (r: Tables)
  {
    match FindStation(t.stations, end)
    case None =>
      Tables(t.stations + [Station(t.nextStationId, end)],
             t.routes + [Route(t.nextRouteId, start, t.nextStationId, number)],
             t.nextStationId + 1, t.nextRouteId + 1)
    case Some(k) =>
      Tables(t.stations,
             t.routes + [Route(t.nextRouteId, start, t.stations[k].id, number)],
             t.nextStationId, t.nextRouteId + 1)
  }

  /** When no station is titled `end`, exactly one station with that title and
      a key no existing station has is appended, and the new route references it. */
  lemma AddRouteNewStation(t: Tables, start: string, end: string, number: int)
    requires StationKeys(t)
    requires forall j :: 0 <= j < |t.stations| ==> t.stations[j].title != end
    ensures var r := AddRoute(t, start, end, number);
      |r.stations| == |t.stations| + 1 &&
      r.stations[..|t.stations|] == t.stations &&
      r.stations[|t.stations|].title == end &&
      (forall j :: 0 <= j < |t.stations| ==> t.stations[j].id != r.stations[|t.stations|].id) &&
      r.routes[|t.routes|].stationId == r.stations[|t.stations|].id
  {
  }

  /** When a station is titled `end`, no station row is added and the new
      route references that station's key. */
  lemma AddRouteExistingStation(t: Tables, start: string, end: string, number: int, k: nat)
    requires TitlesUnique(t.stations)
    requires k < |t.stations| && t.stations[k].title == end
    ensures var r := AddRoute(t, start, end, number);
      r.stations == t.stations &&
      r.routes[|t.routes|].stationId == t.stations[k].id
  {
  }

  /** add_route appends exactly one route (start, the end station's key, number)
      with a fresh key, keeps earlier routes, and keeps the existing station rows
      as a prefix. The new route's station is titled `end`. */
  lemma AddRouteAppendsOneRoute(t: Tables, start: string, end: string, number: int)
    requires Valid(t)
    ensures var r := AddRoute(t, start, end, number);
      |r.routes| == |t.routes| + 1 &&
      r.routes[..|t.routes|] == t.routes &&
      r.routes[|t.routes|].start == start &&
      r.routes[|t.routes|].number == number &&
      (forall i :: 0 <= i < |t.routes| ==> t.routes[i].id != r.routes[|t.routes|].id) &&
      |t.stations| <= |r.stations| &&
      r.stations[..|t.stations|] == t.stations &&
      (forall j :: 0 <= j < |r.stations| && r.stations[j].id == r.routes[|t.routes|].stationId
         ==> r.stations[j].title == end)
  {
  }

  /** add_route preserves every invariant: fresh keys, deduplicated titles and
      referential integrity. */
  lemma AddRoutePreservesValid(t: Tables, start: string, end: string, number: int)
    requires Valid(t)
    ensures Valid(AddRoute(t, start, end, number))
  {
    AddRouteKeepsKeys(t, start, end, number);
    AddRouteKeepsTitlesUnique(t, start, end, number);
    AddRouteKeepsReferences(t, start, end, number);
  }

  lemma AddRouteKeepsKeys(t: Tables, start: string, end: string, number: int)
    requires StationKeys(t) && RouteKeys(t)
    ensures StationKeys(AddRoute(t, start, end, number)) && RouteKeys(AddRoute(t, start, end, number))
  {
  }

  lemma AddRouteKeepsTitlesUnique(t: Tables, start: string, end: string, number: int)
    requires TitlesUnique(t.stations)
    ensures TitlesUnique(AddRoute(t, start, end, number).stations)
  {
  }

  lemma AddRouteKeepsReferences(t: Tables, start: string, end: string, number: int)
    requires StationKeys(t) && ReferencesResolve(t)
    ensures ReferencesResolve(AddRoute(t, start, end, number))
  {
    var r := AddRoute(t, start, end, number);
    forall i | 0 <= i < |r.routes|
      ensures HasStation(r.stations, r.routes[i].stationId)
    {
      if i < |t.routes| {
        assert HasStation(t.stations, t.routes[i].stationId);
        var j :| 0 <= j < |t.stations| && t.stations[j].id == t.routes[i].stationId;
        assert r.stations[j] == t.stations[j];
      } else {
        match FindStation(t.stations, end)
        case None => assert r.stations[|t.stations|].id == r.routes[i].stationId;
        case Some(k) => assert r.stations[k].id == r.routes[i].stationId;
      }
    }
  }

  /** The number of stations titled `title`. */
  function CountTitle(stations: seq<Station>, title: string): (n: nat)
    ensures n <= |stations|
    ensures n == 0 <==> forall j :: 0 <= j < |stations| ==> stations[j].title != title
  {
    if stations == [] then 0
    else CountTitle(stations[..|stations| - 1], title)
         + (if stations[|stations| - 1].title == title then 1 else 0)
  }

  /** In a table with unique titles, a title occurs at most once. */
  lemma {:induction false} UniqueTitleCount(stations: seq<Station>, title: string)
    requires TitlesUnique(stations)
    ensures CountTitle(stations, title) <= 1
  {
    if stations != [] {
      var init := stations[..|stations| - 1];
      assert TitlesUnique(init) by {
        forall i, j | 0 <= i < j < |init| ensures init[i].title != init[j].title {
          assert init[i] == stations[i] && init[j] == stations[j];
        }
      }
      UniqueTitleCount(init, title);
      if stations[|stations| - 1].title == title {
        forall j | 0 <= j < |init| ensures init[j].title != title {
          assert init[j] == stations[j];
        }
      }
    }
  }

  /** After add_route, exactly one station carries the title `end`. */
  lemma AddRouteLeavesOneStation(t: Tables, start: string, end: string, number: int)
    requires Valid(t)
    ensures CountTitle(AddRoute(t, start, end, number).stations, end) == 1
  {
    var r := AddRoute(t, start, end, number);
    AddRoutePreservesValid(t, start, end, number);
    UniqueTitleCount(r.stations, end);
    match FindStation(t.stations, end)
    case None => assert r.stations[|t.stations|].title == end;
    case Some(k) => assert r.stations[k].title == end;
  }
}
