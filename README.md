# Bus route store — a Dafny model

The program is a small command-line tool that records bus routes in an SQLite
database. A route has a start name, an end station and a route number. The
database has two tables:

- `end_stations(station_id, station_title)`: end stations, deduplicated by exact title;
- `routes(route_id, start_name, station_id, route_number)`: one row per route,
  whose `station_id` references an end station.

Start names are stored as free text. End stations are looked up, and inserted
only when absent. This model keeps that asymmetry.

The model puts the two tables in memory as sequences, with the two
AUTOINCREMENT counters as integers. It covers these parts:

- `RouteTables` (tables.dfy): the rows, and the invariants of the tables.
  Keys are positive, strictly increasing and below their counter. Station
  titles are unique. Every route references an existing station. The module
  also holds the station lookup by title (`fetchone` returns the first
  matching row) and `add_route` as a function on table values, with lemmas
  about what it adds and what it keeps.
- `Queries` (queries.dfy): `select_all` is the inner join of routes with
  stations. `select_routes` is the same join with the condition
  `start_name = s OR station_title = s`. Each is defined the way the SQL reads.
  Lemmas prove that `select_routes` is `select_all` filtered, that the join has
  one record per route, and what `add_route` does to the join.
- `Store` (store.dfy): the database as a class `RouteDatabase`, with methods
  `CreateDb`, `AddRoute`, `SelectAll` and `SelectRoutes`. A flag records
  whether the tables exist. The methods return the errors the sqlite3 layer
  raises as values: "no such table" from SQLite before `create_db` has run, and
  the driver's overflow error when it binds a route number outside SQLite's
  signed 64-bit INTEGER range.
- `Display` (display.dfy): `display_routes`, as a method whose loop emits the
  line structure of the printed table.
- `Scenarios` (scenarios.dfy): the unit-test scenarios of
  `code/ind_tests.py`, plus the shared-end-station scenario and intermediate
  steps, as lemmas about the values and as client methods that drive the class.

Rows come back in route insertion order. For each route, the matching
stations come in station order. The source issues the join without an ORDER
BY clause, so SQLite does not guarantee any order. The model fixes insertion
order because the unit tests assert it.

## Model

| member | source | states |
|---|---|---|
| RouteTables.EmptyValid | code/ind.py:51-70 | freshly created tables are empty and satisfy every invariant (keys, unique titles, references) |
| RouteTables.FindStation | code/ind.py:83-89 | the lookup by exact title gives the index of the first station with that title, and gives None exactly when no station has it |
| RouteTables.AddRouteNewStation | code/ind.py:89-97 | with no station titled `end`, exactly one station titled `end` is appended. Its key differs from every existing station key, and the new route references it |
| RouteTables.AddRouteExistingStation | code/ind.py:89-99 | with a station titled `end` (titles unique), no station row is added and the new route references that station's key |
| RouteTables.AddRouteAppendsOneRoute | code/ind.py:101-107 | add_route appends exactly one route with the given start and number and a fresh key. Earlier routes and station rows are unchanged, and the new route's station is titled `end` |
| RouteTables.AddRoutePreservesValid | code/ind.py:83-107 | add_route preserves fresh keys, unique station titles and referential integrity (every route's station exists) |
| RouteTables.AddRouteLeavesOneStation | code/ind.py:83-99 | after add_route, exactly one station carries the title `end` |
| Queries.SelectRoutesIsFilter | code/ind.py:147-167 | select_routes(s) equals select_all filtered to records with start or end equal to s, with relative order kept |
| Queries.SelectAllRecords | code/ind.py:118-136 | in valid tables, select_all has one record per route, in route order, carrying the route's start and number and the title of the station it references |
| Queries.SelectAllAfterAddRoute | code/ind.py:74-136 | after add_route(start, end, number), select_all is the old result followed by exactly the record (start, end, number) |
| Store.RouteDatabase.constructor | code/ind.py:48 | opening a new database file gives a database with no tables, in a valid state |
| Store.RouteDatabase.CreateDb | code/ind.py:44-71 | both tables exist afterwards. Existing rows and counters are unchanged, so a second call changes nothing. A database that had no tables now has empty ones |
| Store.RouteDatabase.AddRoute | code/ind.py:74-109 | without tables, fails with NoSuchTable. A route number outside the 64-bit range fails with IntegerOverflow. A failure leaves the tables unchanged. Otherwise the new tables are the add_route function of the old ones, and the invariants still hold |
| Store.RouteDatabase.SelectAll | code/ind.py:112-136 | without tables, fails with NoSuchTable. Otherwise returns one record per route, in route order, with the referenced station's title as `end` |
| Store.RouteDatabase.SelectRoutes | code/ind.py:139-167 | without tables, fails with NoSuchTable. Otherwise returns select_all filtered by start or end equal to the given name |
| Display.DisplayRoutes | code/ind.py:14-41 | an empty list gives exactly one message line. n > 0 records give 3 + 2n lines: border, header, border, then for each record i a row numbered i + 1 followed by a border |
| Scenarios.SharedEndStation | code/ind.py:83-99 | adding ("A","X",1) then ("B","X",2) leaves exactly one station "X", referenced by both routes |
| Scenarios.AddOneRoute | code/ind_tests.py:71-91 | adding ("Stavropol","Krasnodar",1) to fresh tables gives exactly that one joined record |
| Scenarios.SelectAllTwoRoutes | code/ind_tests.py:132-143 | after adding ("A","B",1) and ("C","D",2), select_all is exactly those two records, in that order |
| Scenarios.SelectAllThreeRoutes | code/ind_tests.py:120-122 | an intermediate step toward the selection scenario: after the three additions A→B/1, B→C/2 and C→D/3, select_all is those three records, in insertion order |
| Scenarios.SelectRoutesThroughB | code/ind_tests.py:118-130 | after the same three additions, selecting "B" gives A→B/1 and B→C/2, in that order |

## Left out

- The `sqlite3` connections, cursors, `commit` and `close` are not modelled. The model keeps only the table state they change. In the source, a failed `add_route` leaves an uncommitted transaction that is never persisted. The model returns the failure with the state unchanged.
- Store.RouteDatabase.AddRoute checks the 64-bit range of the route number before the station lookup. In the source, the overflow is raised when the route insert binds its parameters, after any station insert. That insert is never committed, so the persisted state is the same.
- SQL text, the on-disk schema and the `sqlite_master` catalogue check of the tests are not modelled. Schema presence is a single flag, because the two `CREATE TABLE IF NOT EXISTS` statements always run together.
- `main`, argparse dispatch, `--version` and the `--db` default under the home directory are not modelled. They are command-line plumbing and environment access.
- Display.DisplayRoutes: column padding, centering and the characters of each line are not modelled. A line is a value: message, border, header, or a row with its index and record. The record type has fixed fields, so the `.get` defaults of the source never apply.
- Concurrent writers are not modelled. The program runs one operation per process, and the unique-title invariant is stated for sequential calls only. Two racing writers could in fact insert the same title twice.
- AUTOINCREMENT exhaustion is not modelled. Counters are unbounded integers, while SQLite fails once a key would pass 2^63 - 1.
- The `NOT NULL` column constraints are not modelled. Names are Dafny strings, which cannot be null.
- The join's row order is fixed to route insertion order, as explained above. SQLite does not promise it without an ORDER BY.
