/**
 * The disk usage table: the fetched text is cut into lines, lines are taken
 * in order up to the first empty one, and each is split on tabs into five
 * fields placed at fixed columns, one line per row below the table's top row.
 */
module DiskTable {
  import opened Screen
  import opened Text

  /** Columns of the five fields of a disk line. */
  function FieldCol(j: nat): int
    requires j < 5
  {
    [3, 15, 25, 35, 45][j]
  }

  /**
   * The result of placing the table: the cells and the final line counter
   * (one more than the number of lines placed), or the 1-based number of the
   * first line that has fewer than five fields, which ends the program.
   */
  datatype Placement = Placed(cells: seq<Cell>, contline: nat) | MissingField(line: nat)

  /** Index of the first empty line, or the number of lines when none is empty. */
  function FirstEmpty(lines: seq<string>): (n: nat)
    ensures n <= |lines|
    ensures forall k :: 0 <= k < n ==> lines[k] != ""
    ensures n < |lines| ==> lines[n] == ""
  {
    if lines == [] || lines[0] == "" then 0 else 1 + FirstEmpty(lines[1..])
  }

  /** The fields of a disk line. */
  function Fields(line: string): seq<string>
  {
    Split(line, '\t')
  }

  predicate Complete(line: string)
  {
    |Fields(line)| >= 5
  }

  /** The five cells of a complete line at `row`. */
  function LineCells(line: string, row: int): (cells: seq<Cell>)
    requires Complete(line)
    ensures |cells| == 5
    ensures forall j :: 0 <= j < 5 ==> cells[j] == Cell(row, FieldCol(j), Fields(line)[j], Plain)
  {
    var f := Fields(line);
    [ Cell(row, 3, f[0], Plain), Cell(row, 15, f[1], Plain), Cell(row, 25, f[2], Plain),
      Cell(row, 35, f[3], Plain), Cell(row, 45, f[4], Plain) ]
  }

  /** The cells of complete lines, the k-th of them on row `first + k`. */
  function TableCells(lines: seq<string>, first: int): (cells: seq<Cell>)
    requires forall k :: 0 <= k < |lines| ==> Complete(lines[k])
  {
    if lines == [] then []
    else TableCells(lines[..|lines| - 1], first) + LineCells(lines[|lines| - 1], first + |lines| - 1)
  }

  /** Placing one more line appends that line's five cells. */
  lemma TableCellsSnoc(lines: seq<string>, i: nat, first: int)
    requires i < |lines| && forall k :: 0 <= k <= i ==> Complete(lines[k])
    ensures TableCells(lines[..i + 1], first) == TableCells(lines[..i], first) + LineCells(lines[i], first + i)
  {
    assert lines[..i + 1][..i] == lines[..i];
  }

  /** The cell of field `j` of line `k` is the `5 * k + j`-th cell, at row `first + k`. */
  lemma {:induction false} TableCellAt(lines: seq<string>, first: int, k: nat, j: nat)
    requires forall m :: 0 <= m < |lines| ==> Complete(lines[m])
    requires k < |lines| && j < 5
    ensures |TableCells(lines, first)| == 5 * |lines|
    ensures TableCells(lines, first)[5 * k + j] == Cell(first + k, FieldCol(j), Fields(lines[k])[j], Plain)
  {
    var init := lines[..|lines| - 1];
    if k < |lines| - 1 {
      TableCellAt(init, first, k, j);
    } else if |lines| > 1 {
      TableCellAt(init, first, 0, 0);
    }
    if |lines| == 1 {
      assert init == [];
    }
  }

  /** Index of the first incomplete line, or the number of lines when all are complete. */
  function FirstIncomplete(lines: seq<string>): (n: nat)
    ensures n <= |lines|
    ensures forall k :: 0 <= k < n ==> Complete(lines[k])
    ensures n < |lines| ==> !Complete(lines[n])
  {
    if lines == [] || !Complete(lines[0]) then 0 else 1 + FirstIncomplete(lines[1..])
  }

  /**
   * What placing the table of `lines` below row `top` yields: the lines before
   * the first empty one, each on its own row, or the number of the first of
   * them that lacks a field.
   */
  function Expected(lines: seq<string>, top: int): (p: Placement)
    ensures p.Placed? ==> p.contline == FirstEmpty(lines) + 1
    ensures p.MissingField? ==> 1 <= p.line <= FirstEmpty(lines)
  {
    var shown := lines[..FirstEmpty(lines)];
    var bad := FirstIncomplete(shown);
    if bad == |shown| then Placed(TableCells(shown, top + 1), |shown| + 1)
    else MissingField(bad + 1)
  }

  /**
   * The drawing loop: walks the lines of `disk`, stops at the first empty
   * one, and places each line's fields on row `top + contline`, with
   * `contline` counting from 1. A line with fewer than five fields stops the
   * walk with an error.
   */
  method PlaceTable(disk: string, top: int) returns (p: Placement)
    ensures p == Expected(Split(disk, '\n'), top)
  {
    var lines := Split(disk, '\n');
    var cells := [];
    var contline := 1;
    var i := 0;
    while i < |lines|
      invariant Scanned(lines, top, i, cells) && contline == i + 1
    {
      var line := lines[i];
      if line == "" {
        break;
      }
      var aux := Split(line, '\t');
      if |aux| < 5 {
        StopAtShortLine(lines, top, i, cells);
        return MissingField(contline);
      }
      ghost var before := cells;
      cells := cells + [ Cell(top + contline, 3, aux[0], Plain), Cell(top + contline, 15, aux[1], Plain),
                         Cell(top + contline, 25, aux[2], Plain), Cell(top + contline, 35, aux[3], Plain),
                         Cell(top + contline, 45, aux[4], Plain) ];
      assert cells == before + LineCells(line, top + 1 + i);
      ScanOneMore(lines, top, i, before);
      contline := contline + 1;
      i := i + 1;
    }
    StopAtEnd(lines, top, i, cells);
    p := Placed(cells, contline);
  }

  /** The loop's invariant: the first `i` lines are shown and complete, and `cells` holds their cells. */
  ghost predicate Scanned(lines: seq<string>, top: int, i: nat, cells: seq<Cell>)
  {
    var shown := lines[..FirstEmpty(lines)];
    i <= FirstIncomplete(shown) && cells == TableCells(shown[..i], top + 1)
  }

  lemma ScanOneMore(lines: seq<string>, top: int, i: nat, cells: seq<Cell>)
    requires Scanned(lines, top, i, cells)
    requires i < |lines| && lines[i] != "" && Complete(lines[i])
    ensures Scanned(lines, top, i + 1, cells + LineCells(lines[i], top + 1 + i))
  {
    var shown := lines[..FirstEmpty(lines)];
    assert i < FirstEmpty(lines);
    assert shown[i] == lines[i];
    assert i < FirstIncomplete(shown);
    TableCellsSnoc(shown, i, top + 1);
  }

  lemma StopAtShortLine(lines: seq<string>, top: int, i: nat, cells: seq<Cell>)
    requires Scanned(lines, top, i, cells)
    requires i < |lines| && lines[i] != "" && !Complete(lines[i])
    ensures Expected(lines, top) == MissingField(i + 1)
  {
    var shown := lines[..FirstEmpty(lines)];
    assert i < FirstEmpty(lines);
    assert shown[i] == lines[i];
  }

  lemma StopAtEnd(lines: seq<string>, top: int, i: nat, cells: seq<Cell>)
    requires Scanned(lines, top, i, cells)
    requires i <= |lines| && (i == |lines| || lines[i] == "")
    ensures Expected(lines, top) == Placed(cells, i + 1)
  {
    var shown := lines[..FirstEmpty(lines)];
    assert i == FirstEmpty(lines);
    assert shown[..i] == shown;
  }

  /**
   * Meaning of the placement: it succeeds exactly when every line before the
   * first empty one has five fields, and then the k-th such line (counting
   * from 0) puts field j at row `top + 1 + k`, column `FieldCol(j)`, with
   * nothing else placed; otherwise it names the first line that falls short.
   */
  lemma PlacementMeaning(lines: seq<string>, top: int)
    ensures var n := FirstEmpty(lines);
      Expected(lines, top).Placed? <==> forall k :: 0 <= k < n ==> Complete(lines[k])
    ensures var n := FirstEmpty(lines);
      Expected(lines, top).MissingField? ==>
        var l := Expected(lines, top).line;
        1 <= l <= n && !Complete(lines[l - 1]) && forall k :: 0 <= k < l - 1 ==> Complete(lines[k])
    ensures var n := FirstEmpty(lines);
      Expected(lines, top).Placed? ==>
        var cells := Expected(lines, top).cells;
        Expected(lines, top).contline == n + 1 && |cells| == 5 * n
        && forall k, j :: 0 <= k < n && 0 <= j < 5 ==>
             cells[5 * k + j] == Cell(top + 1 + k, FieldCol(j), Fields(lines[k])[j], Plain)
  {
    var n := FirstEmpty(lines);
    var shown := lines[..n];
    assert forall k :: 0 <= k < n ==> shown[k] == lines[k];
    if Expected(lines, top).Placed? {
      if n > 0 {
        TableCellAt(shown, top + 1, 0, 0);
      }
      PlacedCells(lines, top);
    }
  }

  /** The cells of a successful placement, field by field. */
  lemma PlacedCells(lines: seq<string>, top: int)
    requires Expected(lines, top).Placed?
    ensures var n := FirstEmpty(lines);
      var cells := Expected(lines, top).cells;
      |cells| == 5 * n &&
      forall k, j :: 0 <= k < n && 0 <= j < 5 ==>
        cells[5 * k + j] == Cell(top + 1 + k, FieldCol(j), Fields(lines[k])[j], Plain)
  {
    var n := FirstEmpty(lines);
    var shown := lines[..n];
    assert Expected(lines, top).cells == TableCells(shown, top + 1);
    if n > 0 {
      TableCellAt(shown, top + 1, 0, 0);
    }
    forall k, j | 0 <= k < n && 0 <= j < 5
      ensures TableCells(shown, top + 1)[5 * k + j] == Cell(top + 1 + k, FieldCol(j), Fields(lines[k])[j], Plain)
    {
      assert shown[k] == lines[k];
      TableCellAt(shown, top + 1, k, j);
    }
  }

  /** A table text that ends in a newline (or is empty) is placed up to that newline. */
  lemma {:induction false} JoinedLinesPlaced(rows: seq<string>)
    requires forall k :: 0 <= k < |rows| ==> rows[k] != "" && '\n' !in rows[k]
    ensures FirstEmpty(Split(Join(rows + [""], '\n'), '\n')) == |rows|
  {
    SplitJoin(rows + [""], '\n');
    var lines := rows + [""];
    assert lines[|rows|] == "";
    assert forall k :: 0 <= k < |rows| ==> lines[k] == rows[k];
  }
}
