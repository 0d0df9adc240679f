/** `display_routes`: the line structure of the printed table. */
module Display {
  import opened RouteTables

  /** One printed line. The column padding and centering of the header and row
      lines is not modelled; a row line carries its 1-based position and record. */
  datatype Line =
    | EmptyMessage          // the "list is empty" message
    | Border                // +------+-----...-+
    | Header                // the column titles
    | Row(index: nat, record: Record)

  /** An empty list prints only the message; otherwise a border, the header and
      a border, then each record's row followed by a border, numbered from 1. */
  method DisplayRoutes(records: seq<Record>) returns (lines: seq<Line>)
    ensures records == [] ==> lines == [EmptyMessage]
    ensures records != [] ==> |lines| == 3 + 2 * |records| && lines[..3] == [Border, Header, Border]
    ensures records != [] ==> forall i :: 0 <= i < |records| ==>
                                lines[3 + 2 * i] == Row(i + 1, records[i]) && lines[4 + 2 * i] == Border
  {
    if records == [] {
      lines := [EmptyMessage];
      return;
    }
    lines := [Border, Header, Border];
    for i := 0 to |records|
      invariant |lines| == 3 + 2 * i && lines[..3] == [Border, Header, Border]
      invariant forall k :: 0 <= k < i ==> lines[3 + 2 * k] == Row(k + 1, records[k]) && lines[4 + 2 * k] == Border
    {
      lines := lines + [Row(i + 1, records[i]), Border];
    }
  }
}
