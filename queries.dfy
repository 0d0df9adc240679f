/** The two readers: `select_all`, the inner join of `routes` with
    `end_stations` on the station key, and `select_routes`, the same join with
    the condition `start_name = s OR station_title = s`. Rows come out with
    routes as the outer loop, in route insertion order, and for each route the
    matching stations in station order. */
module Queries {
  import opened RouteTables

  /** The joined records of one route: one per station row whose key it references. */
  function RowsFor(stations: seq<Station>, r: Route): (rs: seq<Record>)
  {
    if stations == [] then []
    else RowsFor(stations[..|stations| - 1], r)
         + (if stations[|stations| - 1].id == r.stationId
            then [Record(r.start, stations[|stations| - 1].title, r.number)] else [])
  }

  /** `SELECT start_name, station_title, route_number FROM routes INNER JOIN end_stations ...` */
  function Join(stations: seq<Station>, routes: seq<Route>): (rs: seq<Record>)
  {
    if routes == [] then []
    else Join(stations, routes[..|routes| - 1]) + RowsFor(stations, routes[|routes| - 1])
  }

  function SelectAll(t: Tables): (rs: seq<Record>)
  {
    Join(t.stations, t.routes)
  }

  /** The condition of `select_routes`: exact, case-sensitive equality with
      either the start name or the end station's title. */
  predicate Matches(rec: Record, s: string)
  {
    rec.start == s || rec.end == s
  }

  /** The joined records of one route that satisfy the WHERE condition. */
  function RowsWhere(stations: seq<Station>, r: Route, s: string): (rs: seq<Record>)
  {
    if stations == [] then []
    else RowsWhere(stations[..|stations| - 1], r, s)
         + (if stations[|stations| - 1].id == r.stationId
               && (r.start == s || stations[|stations| - 1].title == s)
            then [Record(r.start, stations[|stations| - 1].title, r.number)] else [])
  }

  /** `... INNER JOIN end_stations ON ... WHERE routes.start_name = ? OR end_stations.station_title = ?` */
  function JoinWhere(stations: seq<Station>, routes: seq<Route>, s: string): (rs: seq<Record>)
  {
    if routes == [] then []
    else JoinWhere(stations, routes[..|routes| - 1], s) + RowsWhere(stations, routes[|routes| - 1], s)
  }

  function SelectRoutes(t: Tables, s: string): (rs: seq<Record>)
  {
    JoinWhere(t.stations, t.routes, s)
  }

  /** The records of `recs` that match `s`, in their original order. */
  function Filter(recs: seq<Record>, s: string): (r: seq<Record>)
    ensures |r| <= |recs|
    ensures forall i :: 0 <= i < |r| ==> Matches(r[i], s) && r[i] in recs
  {
    if recs == [] then []
    else Filter(recs[..|recs| - 1], s) + (if Matches(recs[|recs| - 1], s) then [recs[|recs| - 1]] else [])
  }

  // ---------------------------------------------------------------------------
  // select_routes is select_all filtered

  lemma {:induction false} FilterAppend(a: seq<Record>, b: seq<Record>, s: string)
    ensures Filter(a + b, s) == Filter(a, s) + Filter(b, s)
  {
    if b != [] {
      var b' := b[..|b| - 1];
      assert (a + b)[..|a + b| - 1] == a + b';
      FilterAppend(a, b', s);
      assert Filter(b, s) == Filter(b', s) + (if Matches(b[|b| - 1], s) then [b[|b| - 1]] else []);
    } else {
      assert a + b == a;
    }
  }

  lemma {:induction false} RowsWhereIsFilter(stations: seq<Station>, r: Route, s: string)
    ensures RowsWhere(stations, r, s) == Filter(RowsFor(stations, r), s)
  {
    if stations != [] {
      var init := stations[..|stations| - 1];
      var last := stations[|stations| - 1];
      var tail := if last.id == r.stationId then [Record(r.start, last.title, r.number)] else [];
      RowsWhereIsFilter(init, r, s);
      FilterAppend(RowsFor(init, r), tail, s);
      if tail != [] {
        assert tail[..0] == [];
      }
    }
  }

  /** select_routes(s) returns exactly the records of select_all that have
      start or end equal to s, in the same relative order. */
  lemma {:induction false} JoinWhereIsFilter(stations: seq<Station>, routes: seq<Route>, s: string)
    ensures JoinWhere(stations, routes, s) == Filter(Join(stations, routes), s)
  {
    if routes != [] {
      var init := routes[..|routes| - 1];
      var last := routes[|routes| - 1];
      JoinWhereIsFilter(stations, init, s);
      RowsWhereIsFilter(stations, last, s);
      FilterAppend(Join(stations, init), RowsFor(stations, last), s);
    }
  }

  lemma SelectRoutesIsFilter(t: Tables, s: string)
    ensures SelectRoutes(t, s) == Filter(SelectAll(t), s)
  {
    JoinWhereIsFilter(t.stations, t.routes, s);
  }

  // ---------------------------------------------------------------------------
  // select_all: one record per route, in route order

  /** With distinct station keys, a route joins with no station it does not
      reference and exactly once with the one it does. */
  lemma {:induction false} RowsForReferenced(stations: seq<Station>, r: Route, k: nat)
    requires forall i, j :: 0 <= i < j < |stations| ==> stations[i].id < stations[j].id
    requires k < |stations| && stations[k].id == r.stationId
    ensures RowsFor(stations, r) == [Record(r.start, stations[k].title, r.number)]
  {
    var init := stations[..|stations| - 1];
    if k == |stations| - 1 {
      RowsForUnreferenced(init, r);
    } else {
      RowsForReferenced(init, r, k);
    }
  }

  lemma {:induction false} RowsForUnreferenced(stations: seq<Station>, r: Route)
    requires forall j :: 0 <= j < |stations| ==> stations[j].id != r.stationId
    ensures RowsFor(stations, r) == []
  {
    if stations != [] {
      RowsForUnreferenced(stations[..|stations| - 1], r);
    }
  }

  /** In valid tables, select_all yields one record per route, in route order,
      carrying the route's start and number and its end station's title. */
  lemma {:induction false} SelectAllRecords(t: Tables)
    requires Valid(t)
    ensures |SelectAll(t)| == |t.routes|
    ensures forall i, j :: 0 <= i < |t.routes| && 0 <= j < |t.stations| && t.stations[j].id == t.routes[i].stationId
                       ==> SelectAll(t)[i] == Record(t.routes[i].start, t.stations[j].title, t.routes[i].number)
  {
    JoinRecords(t.stations, t.routes);
  }

  lemma {:induction false} JoinRecords(stations: seq<Station>, routes: seq<Route>)
    requires forall i, j :: 0 <= i < j < |stations| ==> stations[i].id < stations[j].id
    requires forall i :: 0 <= i < |routes| ==> HasStation(stations, routes[i].stationId)
    ensures |Join(stations, routes)| == |routes|
    ensures forall i, j :: 0 <= i < |routes| && 0 <= j < |stations| && stations[j].id == routes[i].stationId
                       ==> Join(stations, routes)[i] == Record(routes[i].start, stations[j].title, routes[i].number)
  {
    if routes != [] {
      var init := routes[..|routes| - 1];
      var last := routes[|routes| - 1];
      assert HasStation(stations, last.stationId);
      var k :| 0 <= k < |stations| && stations[k].id == last.stationId;
      RowsForReferenced(stations, last, k);
      JoinRecords(stations, init);
      forall i, j | 0 <= i < |routes| && 0 <= j < |stations| && stations[j].id == routes[i].stationId
        ensures Join(stations, routes)[i] == Record(routes[i].start, stations[j].title, routes[i].number)
      {
        if i == |routes| - 1 {
          assert j == k;
        } else {
          assert routes[i] == init[i];
        }
      }
    }
  }

  /** A station whose key no route references leaves the join unchanged. */
  lemma {:induction false} JoinExtraStation(stations: seq<Station>, routes: seq<Route>, x: Station)
    requires forall i :: 0 <= i < |routes| ==> routes[i].stationId != x.id
    ensures Join(stations + [x], routes) == Join(stations, routes)
  {
    if routes != [] {
      var init := routes[..|routes| - 1];
      var last := routes[|routes| - 1];
      JoinExtraStation(stations, init, x);
      assert (stations + [x])[..|stations + [x]| - 1] == stations;
    }
  }

  /** After add_route(start, end, number), select_all returns what it returned
      before followed by exactly the record (start, end, number). */
  lemma SelectAllAfterAddRoute(t: Tables, start: string, end: string, number: int)
    requires Valid(t)
    ensures SelectAll(AddRoute(t, start, end, number)) == SelectAll(t) + [Record(start, end, number)]
  {
    var r := AddRoute(t, start, end, number);
    var route := r.routes[|t.routes|];
    assert r.routes[..|r.routes| - 1] == t.routes;
    AddRoutePreservesValid(t, start, end, number);
    match FindStation(t.stations, end)
    case None =>
      var x := Station(t.nextStationId, end);
      JoinExtraStation(t.stations, t.routes, x);
      RowsForReferenced(r.stations, route, |t.stations|);
    case Some(k) =>
      RowsForReferenced(t.stations, route, k);
  }
}
