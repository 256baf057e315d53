/** Layout tables: recognising them, and pulling their content out into a
    plain div. */
module TableReduction {
  import opened Wrappers
  import opened Dom

  datatype Cell = Cell(children: seq<Node>)
  datatype Row = Row(cells: seq<Cell>)
  datatype Table = Table(rows: seq<Row>)

  /** IsLayoutTable: one row, or at most three rows whose first row has a
      single cell. A table without rows reaches the index of its first row,
      which throws. */
  function IsLayoutTable(t: Table): (r: Outcome<bool>)
    ensures r.Throws? <==> t.rows == []
    ensures !r.Null?
    ensures r == Value(true) ==> 1 <= |t.rows| <= 3
  {
    if |t.rows| == 1 then Value(true)
    else if |t.rows| == 0 then Throws
    else if |t.rows| <= 3 && |t.rows[0].cells| == 1 then Value(true)
    else Value(false)
  }

  /** The heuristic spelled out case by case. */
  lemma LayoutTableCases(t: Table)
    ensures t.rows == [] ==> IsLayoutTable(t) == Throws
    ensures |t.rows| == 1 ==> IsLayoutTable(t) == Value(true)
    ensures |t.rows| >= 4 ==> IsLayoutTable(t) == Value(false)
    ensures |t.rows| > 1 ==> IsLayoutTable(t) == Value(|t.rows| <= 3 && |t.rows[0].cells| == 1)
  {
  }

  /** The children of the cells of one row, cell by cell. */
  function RowNodes(cells: seq<Cell>): seq<Node>
  {
    if cells == [] then [] else RowNodes(cells[..|cells| - 1]) + cells[|cells| - 1].children
  }

  /** The children of every cell, in row-major order. */
  function Flatten(rows: seq<Row>): seq<Node>
  {
    if rows == [] then [] else Flatten(rows[..|rows| - 1]) + RowNodes(rows[|rows| - 1].cells)
  }

  function CellCount(cells: seq<Cell>): nat {
    if cells == [] then 0 else CellCount(cells[..|cells| - 1]) + |cells[|cells| - 1].children|
  }

  /** The sum, over every cell, of its number of children. */
  function ChildCount(rows: seq<Row>): nat {
    if rows == [] then 0 else ChildCount(rows[..|rows| - 1]) + CellCount(rows[|rows| - 1].cells)
  }

  lemma {:induction false} RowNodesCount(cells: seq<Cell>)
    ensures |RowNodes(cells)| == CellCount(cells)
    decreases |cells|
  {
    if cells != [] {
      RowNodesCount(cells[..|cells| - 1]);
    }
  }

  /** The div holds as many nodes as the cells have children. */
  lemma {:induction false} FlattenCount(rows: seq<Row>)
    ensures |Flatten(rows)| == ChildCount(rows)
    decreases |rows|
  {
    if rows != [] {
      FlattenCount(rows[..|rows| - 1]);
      RowNodesCount(rows[|rows| - 1].cells);
    }
  }

  lemma {:induction false} RowNodesMembers(cells: seq<Cell>, x: Node)
    ensures x in RowNodes(cells) <==> exists j :: 0 <= j < |cells| && x in cells[j].children
    decreases |cells|
  {
    if cells != [] {
      var init := cells[..|cells| - 1];
      RowNodesMembers(init, x);
      if x in RowNodes(cells) {
        if x !in RowNodes(init) {
          assert x in cells[|cells| - 1].children;
        } else {
          var j :| 0 <= j < |init| && x in init[j].children;
          assert x in cells[j].children;
        }
      }
      if exists j :: 0 <= j < |cells| && x in cells[j].children {
        var j :| 0 <= j < |cells| && x in cells[j].children;
        if j < |init| {
          assert x in init[j].children;
        }
      }
    }
  }

  /** A node is in the div exactly when it is a child of some cell. */
  lemma {:induction false} FlattenMembers(rows: seq<Row>, x: Node)
    ensures x in Flatten(rows) <==>
      exists i, j :: 0 <= i < |rows| && 0 <= j < |rows[i].cells| && x in rows[i].cells[j].children
    decreases |rows|
  {
    if rows != [] {
      var init := rows[..|rows| - 1];
      var last := rows[|rows| - 1];
      FlattenMembers(init, x);
      RowNodesMembers(last.cells, x);
      assert Flatten(rows) == Flatten(init) + RowNodes(last.cells);
      if x in Flatten(rows) {
        if x in RowNodes(last.cells) {
          var j :| 0 <= j < |last.cells| && x in last.cells[j].children;
          assert 0 <= |rows| - 1 < |rows| && x in rows[|rows| - 1].cells[j].children;
        } else {
          var i, j :| 0 <= i < |init| && 0 <= j < |init[i].cells| && x in init[i].cells[j].children;
          assert rows[i] == init[i];
        }
      }
      if exists i, j :: 0 <= i < |rows| && 0 <= j < |rows[i].cells| && x in rows[i].cells[j].children {
        var i, j :| 0 <= i < |rows| && 0 <= j < |rows[i].cells| && x in rows[i].cells[j].children;
        if i < |init| {
          assert rows[i] == init[i];
        } else {
          assert rows[i] == last;
        }
      }
    }
  }

  /** Flattening tables one after the other is flattening their rows
      together. */
  lemma {:induction false} FlattenAppend(a: seq<Row>, b: seq<Row>)
    ensures Flatten(a + b) == Flatten(a) + Flatten(b)
    decreases |b|
  {
    if b != [] {
      var init := b[..|b| - 1];
      assert (a + b)[..|a + b| - 1] == a + init;
      assert (a + b)[|a + b| - 1] == b[|b| - 1];
      FlattenAppend(a, init);
    } else {
      assert a + b == a;
    }
  }

  class TableReducer {
    /** Every node pulled out so far; never cleared. */
    var nodes: seq<Node>

    constructor ()
      ensures nodes == []
    {
      nodes := [];
    }

    /** ConvertTable: the div holds everything gathered by this reducer, so
        on a fresh reducer the table's cell children in row-major order. */
    method ConvertTable(table: Table) returns (div: Node)
      modifies this
      ensures nodes == old(nodes) + Flatten(table.rows)
      ensures div == Element("div", map[], nodes)
    {
      var i := 0;
      while i < |table.rows|
        invariant 0 <= i <= |table.rows|
        invariant nodes == old(nodes) + Flatten(table.rows[..i])
      {
        var row := table.rows[i];
        var j := 0;
        while j < |row.cells|
          invariant 0 <= j <= |row.cells|
          invariant nodes == old(nodes) + Flatten(table.rows[..i]) + RowNodes(row.cells[..j])
        {
          ReduceCell(row.cells[j]);
          assert row.cells[..j + 1][..j] == row.cells[..j];
          j := j + 1;
        }
        assert row.cells[..j] == row.cells;
        assert table.rows[..i + 1][..i] == table.rows[..i];
        i := i + 1;
      }
      assert table.rows[..i] == table.rows;
      div := Element("div", map[], nodes);
    }

    /** ReduceCell: the cell's children join the gathered nodes. */
    method ReduceCell(cell: Cell)
      modifies this
      ensures nodes == old(nodes) + cell.children
    {
      nodes := nodes + cell.children;
    }
  }
}
