/** The concrete scenarios of the repository's unit tests, stated on the model. */
module Scenarios {
  import opened RouteTables
  import opened Queries
  import Store
  import Display

  /** Adding ("A","X",1) and then ("B","X",2) leaves exactly one station "X",
      and both routes reference it. */
  lemma SharedEndStation()
    ensures var t := AddRoute(AddRoute(Empty, "A", "X", 1), "B", "X", 2);
      |t.stations| == 1 && t.stations[0].title == "X" &&
      CountTitle(t.stations, "X") == 1 &&
      |t.routes| == 2 &&
      t.routes[0].stationId == t.stations[0].id && t.routes[1].stationId == t.stations[0].id
  {
  }

  /** Adding ("Stavropol","Krasnodar",1) to fresh tables gives a join whose
      only record carries exactly those three values. */
  lemma AddOneRoute()
    ensures SelectAll(AddRoute(Empty, "Stavropol", "Krasnodar", 1)) == [Record("Stavropol", "Krasnodar", 1)]
  {
    EmptyValid();
    SelectAllAfterAddRoute(Empty, "Stavropol", "Krasnodar", 1);
  }

  /** After adding ("A","B",1) and ("C","D",2), select_all returns exactly
      those two records, in insertion order. */
  lemma SelectAllTwoRoutes()
    ensures SelectAll(AddRoute(AddRoute(Empty, "A", "B", 1), "C", "D", 2))
            == [Record("A", "B", 1), Record("C", "D", 2)]
  {
    var t1 := AddRoute(Empty, "A", "B", 1);
    EmptyValid();
    SelectAllAfterAddRoute(Empty, "A", "B", 1);
    AddRoutePreservesValid(Empty, "A", "B", 1);
    SelectAllAfterAddRoute(t1, "C", "D", 2);
  }

  /** The tables after adding A->B/1, and then B->C/2, to fresh tables. */
  const AfterAB: Tables := Tables([Station(1, "B")], [Route(1, "A", 1, 1)], 2, 2)
  const AfterBC: Tables :=
    Tables([Station(1, "B"), Station(2, "C")], [Route(1, "A", 1, 1), Route(2, "B", 2, 2)], 3, 3)

  lemma AddFirstRoute()
    ensures AddRoute(Empty, "A", "B", 1) == AfterAB
    ensures Valid(AfterAB) && SelectAll(AfterAB) == [Record("A", "B", 1)]
  {
    SelectAllAfterAddRoute(Empty, "A", "B", 1);
  }

  lemma AddSecondRoute()
    requires Valid(AfterAB) && SelectAll(AfterAB) == [Record("A", "B", 1)]
    ensures AddRoute(AfterAB, "B", "C", 2) == AfterBC
    ensures Valid(AfterBC) && SelectAll(AfterBC) == [Record("A", "B", 1), Record("B", "C", 2)]
  {
    assert FindStation(AfterAB.stations, "C") == None;
    AddRoutePreservesValid(AfterAB, "B", "C", 2);
    SelectAllAfterAddRoute(AfterAB, "B", "C", 2);
  }

  /** After adding A->B/1, B->C/2 and C->D/3, select_all returns the three
      records in insertion order. */
  lemma SelectAllThreeRoutes()
    ensures SelectAll(AddRoute(AddRoute(AddRoute(Empty, "A", "B", 1), "B", "C", 2), "C", "D", 3))
            == [Record("A", "B", 1), Record("B", "C", 2), Record("C", "D", 3)]
  {
    AddFirstRoute();
    AddSecondRoute();
    SelectAllAfterAddRoute(AfterBC, "C", "D", 3);
  }

  /** After adding A->B/1, B->C/2 and C->D/3, selecting "B" returns A->B/1
      and B->C/2, in that order. */
  lemma SelectRoutesThroughB()
    ensures SelectRoutes(AddRoute(AddRoute(AddRoute(Empty, "A", "B", 1), "B", "C", 2), "C", "D", 3), "B")
            == [Record("A", "B", 1), Record("B", "C", 2)]
  {
    var t3 := AddRoute(AddRoute(AddRoute(Empty, "A", "B", 1), "B", "C", 2), "C", "D", 3);
    var all := [Record("A", "B", 1), Record("B", "C", 2), Record("C", "D", 3)];
    SelectAllThreeRoutes();
    SelectRoutesIsFilter(t3, "B");
    assert all[..1] == [Record("A", "B", 1)] && all[..1][..0] == [];
    assert Filter(all[..1], "B") == [Record("A", "B", 1)];
    assert all[..2][..1] == all[..1];
    assert Filter(all[..2], "B") == [Record("A", "B", 1), Record("B", "C", 2)];
    assert all[..2] == all[..|all| - 1];
  }

  /** A fresh database file: the readers fail until `create_db` has run; after
      it, select_all is empty and the printer shows only the message. */
  method EmptyDatabaseSession()
  {
    var db := new Store.RouteDatabase();
    var early := db.SelectAll();
    assert early == Store.Err(Store.NoSuchTable);
    db.CreateDb();
    var none := db.SelectAll();
    assert none == Store.Ok([]);
    var lines := Display.DisplayRoutes(none.value);
    assert lines == [Display.EmptyMessage];
  }

  /** The selection scenario driven through the database object; running
      `create_db` again afterwards changes nothing. */
  method SelectSession()
  {
    var db := new Store.RouteDatabase();
    db.CreateDb();
    ghost var t1 := AddRoute(Empty, "A", "B", 1);
    ghost var t2 := AddRoute(t1, "B", "C", 2);
    ghost var t3 := AddRoute(t2, "C", "D", 3);
    var o1 := db.AddRoute("A", "B", 1);
    var o2 := db.AddRoute("B", "C", 2);
    var o3 := db.AddRoute("C", "D", 3);
    assert db.State() == t3;
    SelectRoutesThroughB();
    SelectRoutesIsFilter(t3, "B");
    var selected := db.SelectRoutes("B");
    assert selected == Store.Ok([Record("A", "B", 1), Record("B", "C", 2)]);
    db.CreateDb();
    var again := db.SelectRoutes("B");
    assert again == selected;
  }

  /** Printing the two selected records: seven lines, rows numbered 1 and 2. */
  method DisplayTwoRecords()
  {
    var recs := [Record("A", "B", 1), Record("B", "C", 2)];
    var lines := Display.DisplayRoutes(recs);
    assert recs[0] == Record("A", "B", 1) && recs[1] == Record("B", "C", 2);
    assert |lines| == 7;
    assert lines[3] == Display.Row(1, Record("A", "B", 1)) && lines[5] == Display.Row(2, Record("B", "C", 2));
  }
}
