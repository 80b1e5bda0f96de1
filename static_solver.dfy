/** The earlier single-pass solver of VFSolver.cpp: a free function that builds the lookup
    tables, sweeps every column and then every row of a caller's board once, in place, and
    draws the board; and the scenario its main function runs on a 5 x 5 board. */
module StaticSolver {
  import opened Memo
  import opened Lookup
  import opened Propagation
  import opened Board

  /** One call of the static Solve (VFSolver.cpp lines 17-323) on a column-major board of
      uSize columns and vSize rows. An empty board is left alone. Otherwise the tables for
      line lengths 1 .. max(uSize, vSize) are built by the same builder as the solver
      object's, and the columns and then the rows are swept once: the board ends as Sweep
      leaves it, so the rows see what the columns narrowed.
      GUARD: the source keeps its missing counts unsigned and never checks them, so a line
      whose confirmed cells overshoot a target, or whose counts have no slot in the table,
      makes it read outside the table; and a line whose entry leaves an unconfirmed cell with
      no value gets that empty memo written back. The model stops the sweep at such a line
      and reports completed == false; this is exactly where Sweep reports a contradiction. */
  method Solve(uSize: nat, vSize: nat, uPoint: seq<nat>, vPoint: seq<nat>, uVolt: seq<nat>, vVolt: seq<nat>,
               memos: array<bv8>)
      returns (completed: bool)
    requires |uPoint| == uSize && |uVolt| == uSize && |vPoint| == vSize && |vVolt| == vSize
    requires memos.Length == uSize * vSize
    modifies memos
    ensures uSize == 0 || vSize == 0 ==> completed && memos[..] == old(memos[..])
    ensures LinesInBoard(BoardLines(uSize, vSize, uPoint, vPoint, uVolt, vVolt), uSize * vSize)
    ensures uSize > 0 && vSize > 0 ==>
      var s := Sweep(old(memos[..]), BoardLines(uSize, vSize, uPoint, vPoint, uVolt, vVolt), false);
      && memos[..] == s.board
      && (completed <==> s.result != Contradiction)
  {
    BoardLinesInBoard(uSize, vSize, uPoint, vPoint, uVolt, vVolt);
    completed := true;
    if uSize > 0 && vSize > 0 {
      var lookups := CreateLookupArrays(Max(uSize, vSize));
      BoardLinesFit(uSize, vSize, uPoint, vPoint, uVolt, vVolt, |lookups|);
      var r := SolvePass(memos, uSize, vSize, uPoint, vPoint, uVolt, vVolt, lookups);
      completed := r != Contradiction;
    }
  }

  /** A sweep, completed or stopped, keeps every confirmed cell as it was. */
  lemma SolveKeepsConfirmed(b: seq<bv8>, lines: seq<Line>)
    requires LinesInBoard(lines, |b|)
    ensures forall i :: 0 <= i < |b| && b[i] & MEMO_CONF != 0 ==> Sweep(b, lines, false).board[i] == b[i]
  {
    forall i | 0 <= i < |b| && b[i] & MEMO_CONF != 0 ensures Sweep(b, lines, false).board[i] == b[i] {
      assert NoWider(Sweep(b, lines, false).board[i], b[i]);
    }
  }

  /** The bottom row of main's 5 x 5 board confirmed by hand as 1, 2, 1, 1, 2
      (VFSolver.cpp lines 338-342). */
  function HandConfirmed(b: seq<bv8>): (r: seq<bv8>)
    requires |b| == 25
    ensures |r| == 25
  {
    b[0 * 5 + 4 := MEMO_1 | MEMO_CONF][1 * 5 + 4 := MEMO_2 | MEMO_CONF][2 * 5 + 4 := MEMO_1 | MEMO_CONF]
     [3 * 5 + 4 := MEMO_1 | MEMO_CONF][4 * 5 + 4 := MEMO_2 | MEMO_CONF]
  }

  /** Confirming a value by hand only takes value bits away from a cell that had all four. */
  lemma HandConfirmedRefines(solved: seq<bv8>)
    requires |solved| == 25 && Refines(solved, seq(25, _ => MEMO_ALL))
    ensures Refines(HandConfirmed(solved), seq(25, _ => MEMO_ALL))
  {
    var start, confirmed := seq(25, _ => MEMO_ALL), HandConfirmed(solved);
    forall i | 0 <= i < 25 ensures NoWider(confirmed[i], start[i]) {
      if i != 4 && i != 9 && i != 14 && i != 19 && i != 24 {
        assert confirmed[i] == solved[i] && NoWider(solved[i], start[i]);
      }
    }
  }

  /** What main's second solve keeps: whatever the first solve made of the all-ones board,
      a solve of it with the bottom row confirmed by hand keeps those five cells, and the
      board it leaves has only lost value bits. */
  lemma SecondSolveKeepsHandConfirmed(solved: seq<bv8>, lines: seq<Line>)
    requires |solved| == 25 && LinesInBoard(lines, 25) && Refines(solved, seq(25, _ => MEMO_ALL))
    ensures var final := Sweep(HandConfirmed(solved), lines, false).board;
      && |final| == 25
      && final[0 * 5 + 4] == MEMO_1 | MEMO_CONF && final[1 * 5 + 4] == MEMO_2 | MEMO_CONF
      && final[2 * 5 + 4] == MEMO_1 | MEMO_CONF && final[3 * 5 + 4] == MEMO_1 | MEMO_CONF
      && final[4 * 5 + 4] == MEMO_2 | MEMO_CONF
      && Refines(final, seq(25, _ => MEMO_ALL))
  {
    var confirmed := HandConfirmed(solved);
    HandConfirmedRefines(solved);
    SolveKeepsConfirmed(confirmed, lines);
    RefinesTrans(Sweep(confirmed, lines, false).board, confirmed, seq(25, _ => MEMO_ALL));
  }

  /** A board whose row 4 holds 1, 2, 1, 1, 2, all confirmed, meets row 4's hints in main
      (7 points, no volt): the row lacks nothing, so a line step over it is skipped. */
  lemma HandConfirmedRowMeetsHints(b: seq<bv8>)
    requires |b| == 25
    requires b[0 * 5 + 4] == MEMO_1 | MEMO_CONF && b[1 * 5 + 4] == MEMO_2 | MEMO_CONF
    requires b[2 * 5 + 4] == MEMO_1 | MEMO_CONF && b[3 * 5 + 4] == MEMO_1 | MEMO_CONF
    requires b[4 * 5 + 4] == MEMO_2 | MEMO_CONF
    ensures InBoard(RowCells(4, 5, 5), 25)
    ensures MissingOf(b, Line(RowCells(4, 5, 5), 7, 0)) == Missing(0, 0, 0)
    ensures SolveLine(b, Line(RowCells(4, 5, 5), 7, 0)).Skipped?
  {
    assert RowCells(4, 5, 5) == [4, 9, 14, 19, 24];
    RowFourTally(b);
  }

  lemma RowFourTally(b: seq<bv8>)
    requires |b| == 25
    requires b[4] == MEMO_1 | MEMO_CONF && b[9] == MEMO_2 | MEMO_CONF && b[14] == MEMO_1 | MEMO_CONF
    requires b[19] == MEMO_1 | MEMO_CONF && b[24] == MEMO_2 | MEMO_CONF
    ensures LineTally(b, [4, 9, 14, 19, 24]) == Tally(5, 7, 0)
  {
    assert [4, 9, 14, 19, 24][..4] == [4, 9, 14, 19] && [4, 9, 14, 19][..3] == [4, 9, 14];
    assert [4, 9, 14][..2] == [4, 9] && [4, 9][..1] == [4] && [4][..0] == [];
    assert CellPoints(MEMO_1 | MEMO_CONF) == 1 && CellVolts(MEMO_1 | MEMO_CONF) == 0;
    assert CellPoints(MEMO_2 | MEMO_CONF) == 2 && CellVolts(MEMO_2 | MEMO_CONF) == 0;
    assert LineTally(b, [4]) == Tally(1, 1, 0);
    assert LineTally(b, [4, 9]) == Tally(2, 3, 0);
    assert LineTally(b, [4, 9, 14]) == Tally(3, 4, 0);
    assert LineTally(b, [4, 9, 14, 19]) == Tally(4, 5, 0);
  }

  /** The scenario of main (VFSolver.cpp lines 325-347): a 5 x 5 board with every cell at
      all four value bits is solved; then the bottom row (row 4) is confirmed by hand as
      1, 2, 1, 1, 2 and the board is solved again. The second solve leaves those five cells
      as confirmed, so row 4 meets its hints of 7 points and no volt and a further pass
      skips it; every cell only ever loses value bits. */
  method Scenario() returns (memos: array<bv8>)
    ensures memos.Length == 25
    ensures memos[0 * 5 + 4] == MEMO_1 | MEMO_CONF && memos[1 * 5 + 4] == MEMO_2 | MEMO_CONF
    ensures memos[2 * 5 + 4] == MEMO_1 | MEMO_CONF && memos[3 * 5 + 4] == MEMO_1 | MEMO_CONF
    ensures memos[4 * 5 + 4] == MEMO_2 | MEMO_CONF
    ensures InBoard(RowCells(4, 5, 5), 25)
    ensures MissingOf(memos[..], Line(RowCells(4, 5, 5), 7, 0)) == Missing(0, 0, 0)
    ensures Refines(memos[..], seq(25, _ => MEMO_ALL))
  {
    var uPoints, vPoints := [4, 4, 7, 4, 5], [5, 5, 4, 3, 7];
    var uVolts, vVolts := [1, 2, 1, 1, 2], [1, 2, 2, 2, 0];
    memos := new bv8[5 * 5](_ => MEMO_1 | MEMO_2 | MEMO_3 | MEMO_VOLT);
    assert memos[..] == seq(25, _ => MEMO_ALL);

    var firstCompleted := Solve(5, 5, uPoints, vPoints, uVolts, vVolts, memos);
    ghost var solved := memos[..];

    memos[0 * 5 + 4] := MEMO_1 | MEMO_CONF;
    memos[1 * 5 + 4] := MEMO_2 | MEMO_CONF;
    memos[2 * 5 + 4] := MEMO_1 | MEMO_CONF;
    memos[3 * 5 + 4] := MEMO_1 | MEMO_CONF;
    memos[4 * 5 + 4] := MEMO_2 | MEMO_CONF;
    assert memos[..] == HandConfirmed(solved);

    var secondCompleted := Solve(5, 5, uPoints, vPoints, uVolts, vVolts, memos);
    SecondSolveKeepsHandConfirmed(solved, BoardLines(5, 5, uPoints, vPoints, uVolts, vVolts));
    HandConfirmedRowMeetsHints(memos[..]);
  }
}
