/** The route database as a mutable object: the two tables, whether they have
    been created yet, and the operations of the program's data-access layer
    (`create_db`, `add_route`, `select_all`, `select_routes`). */
module Store {
  import opened RouteTables
  import Queries

  /** Failures the sqlite3 layer raises in these operations. */
  datatype DbError =
    | NoSuchTable      // a statement ran against a database whose tables were never created
    | IntegerOverflow  // the driver cannot bind a route number outside SQLite's 64-bit INTEGER

  datatype Outcome = Done | Failed(error: DbError)

  datatype Result<T> = Ok(value: T) | Err(error: DbError)

  /** The range of SQLite's INTEGER storage class (signed 64 bits). */
  const MinInteger: int := -0x8000_0000_0000_0000
  const MaxInteger: int := 0x7fff_ffff_ffff_ffff

  class RouteDatabase {
    var hasTables: bool
    var stations: seq<Station>
    var routes: seq<Route>
    var nextStationId: int
    var nextRouteId: int

    /** The contents of both tables. */
    function State(): (t: Tables)
      reads this
    {
      Tables(stations, routes, nextStationId, nextRouteId)
    }

    ghost predicate Valid()
      reads this
    {
      RouteTables.Valid(State()) && (!hasTables ==> State() == Empty)
    }

    /** A database file that exists but holds no tables yet. */
    constructor ()
      ensures Valid() && !hasTables
    {
      hasTables := false;
      stations, routes := [], [];
      nextStationId, nextRouteId := 1, 1;
    }

    /** `create_db`: both tables are created if absent; existing rows are never
        touched, so calling it again changes nothing. */
    method CreateDb()
      requires Valid()
      modifies this
      ensures Valid() && hasTables
      ensures State() == old(State())
      ensures !old(hasTables) ==> State() == Empty
    {
      hasTables := true;
    }

    /** `add_route`: look up the end station by title, insert it with a fresh
        key when absent, then append one route row that references it. A
        failure leaves both tables as they were (nothing is committed). */
    method AddRoute(start: string, end: string, number: int) returns (outcome: Outcome)
      requires Valid()
      modifies this
      ensures Valid() && hasTables == old(hasTables)
      ensures outcome == if !old(hasTables) then Failed(NoSuchTable)
                         else if number < MinInteger || MaxInteger < number then Failed(IntegerOverflow)
                         else Done
      ensures outcome.Done? ==> State() == RouteTables.AddRoute(old(State()), start, end, number)
      ensures outcome.Failed? ==> State() == old(State())
    {
      if !hasTables {
        return Failed(NoSuchTable);
      }
      if number < MinInteger || MaxInteger < number {
        return Failed(IntegerOverflow);
      }
      ghost var before := State();
      var row := FindStation(stations, end);
      var stationId: int;
      if row.None? {
        stationId := nextStationId;
        stations := stations + [Station(stationId, end)];
        nextStationId := nextStationId + 1;
      } else {
        stationId := stations[row.value].id;
      }
      routes := routes + [Route(nextRouteId, start, stationId, number)];
      nextRouteId := nextRouteId + 1;
      assert State() == RouteTables.AddRoute(before, start, end, number);
      AddRoutePreservesValid(before, start, end, number);
      outcome := Done;
    }

    /** `select_all`: every route joined with its end station, in route order. */
    method SelectAll() returns (result: Result<seq<Record>>)
      requires Valid()
      ensures !hasTables ==> result == Err(NoSuchTable)
      ensures hasTables ==> result.Ok? && |result.value| == |routes|
      ensures hasTables ==> forall i, j :: 0 <= i < |routes| && 0 <= j < |stations| && stations[j].id == routes[i].stationId
                                       ==> result.value[i] == Record(routes[i].start, stations[j].title, routes[i].number)
    {
      if !hasTables {
        return Err(NoSuchTable);
      }
      Queries.SelectAllRecords(State());
      result := Ok(Queries.SelectAll(State()));
    }

    /** `select_routes`: the records of `select_all` whose start or end equals
        `station`, in the same order. */
    method SelectRoutes(station: string) returns (result: Result<seq<Record>>)
      requires Valid()
      ensures !hasTables ==> result == Err(NoSuchTable)
      ensures hasTables ==> result == Ok(Queries.Filter(Queries.SelectAll(State()), station))
    {
      if !hasTables {
        return Err(NoSuchTable);
      }
      Queries.SelectRoutesIsFilter(State(), station);
      result := Ok(Queries.SelectRoutes(State(), station));
    }
  }
}
