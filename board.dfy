/** The column-major board layout of the solver header: cell (column, row) of a board with
    `rows` rows is at index column * rows + row, and the lines Solve visits are the columns,
    then the rows. */
module Board {
  import opened Propagation

  function Max(a: nat, b: nat): nat {
    if a > b then a else b
  }

  /** Index of cell (column, row). */
  function CellIndex(column: nat, row: nat, rows: nat): nat {
    column * rows + row
  }

  /** Every cell of a columns x rows board has an index below columns * rows. */
  lemma CellIndexInRange(column: nat, row: nat, columns: nat, rows: nat)
    requires column < columns && row < rows
    ensures CellIndex(column, row, rows) < columns * rows
  {
    assert column * rows + rows == (column + 1) * rows;
    assert (column + 1) * rows <= columns * rows;
  }

  lemma MulMono(a: nat, b: nat, k: nat)
    ensures a <= b ==> a * k <= b * k
  {
  }

  /** Distinct cells have distinct indices, and every index is some cell's: the layout is
      a bijection between cells and 0 .. columns * rows - 1. */
  lemma CellIndexBijective(columns: nat, rows: nat, c1: nat, r1: nat, c2: nat, r2: nat, i: nat)
    requires r1 < rows && r2 < rows
    ensures CellIndex(c1, r1, rows) == CellIndex(c2, r2, rows) ==> c1 == c2 && r1 == r2
    ensures i < columns * rows ==> i / rows < columns && CellIndex(i / rows, i % rows, rows) == i
  {
    MulMono(c1 + 1, c2, rows);
    MulMono(c2 + 1, c1, rows);
    assert (c1 + 1) * rows == c1 * rows + rows;
    assert (c2 + 1) * rows == c2 * rows + rows;
    MulMono(columns, i / rows, rows);
  }

  /** The cells of column u, top to bottom. */
  function ColumnCells(u: nat, rows: nat): (cells: seq<nat>)
    ensures |cells| == rows
  {
    seq(rows, v requires 0 <= v < rows => CellIndex(u, v, rows))
  }

  /** The cells of row v, left to right. */
  function RowCells(v: nat, columns: nat, rows: nat): (cells: seq<nat>)
    ensures |cells| == columns
  {
    seq(columns, u requires 0 <= u < columns => CellIndex(u, v, rows))
  }

  /** The first n columns as lines, with their hints. */
  function ColumnLines(n: nat, rows: nat, uPoint: seq<nat>, uVolt: seq<nat>): (lines: seq<Line>)
    requires n <= |uPoint| && n <= |uVolt|
    ensures |lines| == n
  {
    if n == 0 then []
    else ColumnLines(n - 1, rows, uPoint, uVolt) + [Line(ColumnCells(n - 1, rows), uPoint[n - 1], uVolt[n - 1])]
  }

  /** The first n rows as lines, with their hints. */
  function RowLines(n: nat, columns: nat, rows: nat, vPoint: seq<nat>, vVolt: seq<nat>): (lines: seq<Line>)
    requires n <= |vPoint| && n <= |vVolt|
    ensures |lines| == n
  {
    if n == 0 then []
    else RowLines(n - 1, columns, rows, vPoint, vVolt) + [Line(RowCells(n - 1, columns, rows), vPoint[n - 1], vVolt[n - 1])]
  }

  lemma {:induction false} ColumnLinesAt(n: nat, rows: nat, uPoint: seq<nat>, uVolt: seq<nat>, u: nat)
    requires n <= |uPoint| && n <= |uVolt| && u < n
    ensures ColumnLines(n, rows, uPoint, uVolt)[u] == Line(ColumnCells(u, rows), uPoint[u], uVolt[u])
  {
    if u < n - 1 {
      ColumnLinesAt(n - 1, rows, uPoint, uVolt, u);
    }
  }

  lemma {:induction false} RowLinesAt(n: nat, columns: nat, rows: nat, vPoint: seq<nat>, vVolt: seq<nat>, v: nat)
    requires n <= |vPoint| && n <= |vVolt| && v < n
    ensures RowLines(n, columns, rows, vPoint, vVolt)[v] == Line(RowCells(v, columns, rows), vPoint[v], vVolt[v])
  {
    if v < n - 1 {
      RowLinesAt(n - 1, columns, rows, vPoint, vVolt, v);
    }
  }

  /** The lines one Solve visits: every column with its hints, then every row with its. */
  function BoardLines(columns: nat, rows: nat, uPoint: seq<nat>, vPoint: seq<nat>, uVolt: seq<nat>, vVolt: seq<nat>)
      : (lines: seq<Line>)
    requires |uPoint| == columns && |uVolt| == columns && |vPoint| == rows && |vVolt| == rows
    ensures |lines| == columns + rows
  {
    ColumnLines(columns, rows, uPoint, uVolt) + RowLines(rows, columns, rows, vPoint, vVolt)
  }

  /** Line u of the pass is column u with its hints. */
  lemma BoardLinesColumn(columns: nat, rows: nat, uPoint: seq<nat>, vPoint: seq<nat>, uVolt: seq<nat>, vVolt: seq<nat>, u: nat)
    requires |uPoint| == columns && |uVolt| == columns && |vPoint| == rows && |vVolt| == rows && u < columns
    ensures BoardLines(columns, rows, uPoint, vPoint, uVolt, vVolt)[u] == Line(ColumnCells(u, rows), uPoint[u], uVolt[u])
  {
    ColumnLinesAt(columns, rows, uPoint, uVolt, u);
  }

  /** Line columns + v of the pass is row v with its hints. */
  lemma BoardLinesRow(columns: nat, rows: nat, uPoint: seq<nat>, vPoint: seq<nat>, uVolt: seq<nat>, vVolt: seq<nat>, v: nat)
    requires |uPoint| == columns && |uVolt| == columns && |vPoint| == rows && |vVolt| == rows && v < rows
    ensures BoardLines(columns, rows, uPoint, vPoint, uVolt, vVolt)[columns + v] == Line(RowCells(v, columns, rows), vPoint[v], vVolt[v])
  {
    RowLinesAt(rows, columns, rows, vPoint, vVolt, v);
  }

  /** Every cell any line of the pass names lies on the board. */
  lemma BoardLinesInBoard(columns: nat, rows: nat, uPoint: seq<nat>, vPoint: seq<nat>, uVolt: seq<nat>, vVolt: seq<nat>)
    requires |uPoint| == columns && |uVolt| == columns && |vPoint| == rows && |vVolt| == rows
    ensures LinesInBoard(BoardLines(columns, rows, uPoint, vPoint, uVolt, vVolt), columns * rows)
  {
    var lines := BoardLines(columns, rows, uPoint, vPoint, uVolt, vVolt);
    forall k, i | 0 <= k < |lines| && 0 <= i < |lines[k].cells| ensures lines[k].cells[i] < columns * rows {
      if k < columns {
        BoardLinesColumn(columns, rows, uPoint, vPoint, uVolt, vVolt, k);
        CellIndexInRange(k, i, columns, rows);
      } else {
        BoardLinesRow(columns, rows, uPoint, vPoint, uVolt, vVolt, k - columns);
        CellIndexInRange(i, k - columns, columns, rows);
      }
    }
  }

  /** Tables up to the longer side cover every line of the pass; a side of length zero
      makes every line of the other kind empty. */
  lemma BoardLinesFit(columns: nat, rows: nat, uPoint: seq<nat>, vPoint: seq<nat>, uVolt: seq<nat>, vVolt: seq<nat>, n: nat)
    requires |uPoint| == columns && |uVolt| == columns && |vPoint| == rows && |vVolt| == rows
    requires columns > 0 ==> rows <= n
    requires rows > 0 ==> columns <= n
    ensures LinesFit(BoardLines(columns, rows, uPoint, vPoint, uVolt, vVolt), n)
  {
    var lines := BoardLines(columns, rows, uPoint, vPoint, uVolt, vVolt);
    forall k | 0 <= k < |lines| ensures |lines[k].cells| <= n {
      if k < columns {
        BoardLinesColumn(columns, rows, uPoint, vPoint, uVolt, vVolt, k);
      } else {
        BoardLinesRow(columns, rows, uPoint, vPoint, uVolt, vVolt, k - columns);
      }
    }
  }

  /** The body of one solving pass (Solver.cpp lines 259-469) over a column-major board:
      every column, then every row, each line narrowed in place through the lookup tables,
      stopping at the first contradiction. The result and the new board are those of Sweep. */
  method SolvePass(board: array<bv8>, columns: nat, rows: nat, uPoint: seq<nat>, vPoint: seq<nat>,
                   uVolt: seq<nat>, vVolt: seq<nat>, lookups: seq<seq<bv8>>)
      returns (r: SolveResult)
    requires |uPoint| == columns && |uVolt| == columns && |vPoint| == rows && |vVolt| == rows
    requires board.Length == columns * rows && Tables(lookups)
    requires LinesFit(BoardLines(columns, rows, uPoint, vPoint, uVolt, vVolt), |lookups|)
    modifies board
    ensures LinesInBoard(BoardLines(columns, rows, uPoint, vPoint, uVolt, vVolt), columns * rows)
    ensures Swept(r, board[..]) == Sweep(old(board[..]), BoardLines(columns, rows, uPoint, vPoint, uVolt, vVolt), false)
  {
    ghost var lines := BoardLines(columns, rows, uPoint, vPoint, uVolt, vVolt);
    BoardLinesInBoard(columns, rows, uPoint, vPoint, uVolt, vVolt);
    var contradiction, isAnythingChanged := SolveColumns(board, columns, rows, uPoint, vPoint, uVolt, vVolt, lookups, lines);
    if contradiction {
      return Contradiction;
    }
    contradiction, isAnythingChanged := SolveRows(board, columns, rows, uPoint, vPoint, uVolt, vVolt, lookups, lines, isAnythingChanged);
    if contradiction {
      return Contradiction;
    }
    r := if isAnythingChanged then Changed else NoChange;
  }

  /** The columns of a pass (Solver.cpp lines 262-358): the pass over the old board is the
      contradiction, or the pass over the rows of the new board. */
  method SolveColumns(board: array<bv8>, columns: nat, rows: nat, uPoint: seq<nat>, vPoint: seq<nat>,
                      uVolt: seq<nat>, vVolt: seq<nat>, lookups: seq<seq<bv8>>, ghost lines: seq<Line>)
      returns (contradiction: bool, isAnythingChanged: bool)
    requires |uPoint| == columns && |uVolt| == columns && |vPoint| == rows && |vVolt| == rows
    requires lines == BoardLines(columns, rows, uPoint, vPoint, uVolt, vVolt)
    requires board.Length == columns * rows && Tables(lookups)
    requires LinesInBoard(lines, board.Length) && LinesFit(lines, |lookups|)
    modifies board
    ensures LinesInBoard(lines[columns..], board.Length)
    ensures contradiction ==> Sweep(old(board[..]), lines, false) == Swept(Contradiction, board[..])
    ensures !contradiction ==> Sweep(old(board[..]), lines, false) == Sweep(board[..], lines[columns..], isAnythingChanged)
  {
    ghost var start := board[..];
    isAnythingChanged := false;
    for u := 0 to columns
      invariant LinesInBoard(lines[u..], board.Length)
      invariant Sweep(board[..], lines[u..], isAnythingChanged) == Sweep(start, lines, false)
    {
      BoardLinesColumn(columns, rows, uPoint, vPoint, uVolt, vVolt, u);
      var line := Line(ColumnCells(u, rows), uPoint[u], uVolt[u]);
      contradiction, isAnythingChanged := SolveLineOfPass(board, line, lookups, lines, u, isAnythingChanged);
      if contradiction {
        return;
      }
    }
    contradiction := false;
  }

  /** The rows of a pass (Solver.cpp lines 360-466): the pass over the rows of the old
      board is the contradiction, or ends with the new board and whether anything changed. */
  method SolveRows(board: array<bv8>, columns: nat, rows: nat, uPoint: seq<nat>, vPoint: seq<nat>,
                   uVolt: seq<nat>, vVolt: seq<nat>, lookups: seq<seq<bv8>>, ghost lines: seq<Line>, changed: bool)
      returns (contradiction: bool, isAnythingChanged: bool)
    requires |uPoint| == columns && |uVolt| == columns && |vPoint| == rows && |vVolt| == rows
    requires lines == BoardLines(columns, rows, uPoint, vPoint, uVolt, vVolt)
    requires board.Length == columns * rows && Tables(lookups)
    requires LinesInBoard(lines, board.Length) && LinesFit(lines, |lookups|)
    requires LinesInBoard(lines[columns..], board.Length)
    modifies board
    ensures contradiction ==> Sweep(old(board[..]), lines[columns..], changed) == Swept(Contradiction, board[..])
    ensures !contradiction ==> Sweep(old(board[..]), lines[columns..], changed)
                               == Swept(if isAnythingChanged then Changed else NoChange, board[..])
  {
    ghost var start := board[..];
    ghost var rowLines := lines[columns..];
    assert LinesFit(rowLines, |lookups|);
    isAnythingChanged := changed;
    for v := 0 to rows
      invariant LinesInBoard(rowLines[v..], board.Length)
      invariant Sweep(board[..], rowLines[v..], isAnythingChanged) == Sweep(start, rowLines, changed)
    {
      BoardLinesRow(columns, rows, uPoint, vPoint, uVolt, vVolt, v);
      assert rowLines[v] == lines[columns + v];
      var line := Line(RowCells(v, columns, rows), vPoint[v], vVolt[v]);
      contradiction, isAnythingChanged := SolveLineOfPass(board, line, lookups, rowLines, v, isAnythingChanged);
      if contradiction {
        return;
      }
    }
    SweepDone(board[..], rowLines[rows..], isAnythingChanged);
    contradiction := false;
  }
}
