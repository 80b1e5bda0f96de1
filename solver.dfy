/** The solver object of VF/Solver.cpp: an authoritative board of memos, a working copy that
    the stability loop narrows and may roll back, the user-confirmation flags, the hints of
    every column and row, and the last decision the user made. */
module VoltorbSolver {
  import opened Memo
  import opened Fillings
  import opened Lookup
  import opened Propagation
  import opened Board

  datatype Option<T> = None | Some(value: T)

  /** A memo the user set: the cell and the value chosen (m_LastUserColumn, m_LastUserRow,
      m_LastUserMemo). No decision yet is None, where the source stores -1. */
  datatype Decision = Decision(column: nat, row: nat, memo: MemoType)

  /** How the stability loop ends. Fatal is the exit(0) of the source; Diverges is a
      contradiction that survives the rollback, on which the source loops forever. */
  datatype Outcome = Stable(rolledBack: bool) | Fatal | Diverges

  /** The result of the stability loop: how it ends and the authoritative board it leaves. */
  datatype Stabilized = Stabilized(outcome: Outcome, board: seq<bv8>)

  /** The stability loop may undo the last decision: one is recorded and it is not MEMO_CONF. */
  predicate CanRollBack(last: Option<Decision>) {
    last.Some? && last.value.memo != MEMO_CONF
  }

  /** The loop rolled the last decision back on the way to this outcome. */
  predicate RolledBack(outcome: Outcome) {
    outcome == Stable(true) || outcome == Diverges
  }

  function DecisionCell(d: Decision, rows: nat): nat {
    CellIndex(d.column, d.row, rows)
  }

  /** The authoritative board with the decided cell given every value but the chosen one. */
  function RollbackBoard(b: seq<bv8>, d: Decision, rows: nat): seq<bv8>
    requires DecisionCell(d, rows) < |b|
  {
    b[DecisionCell(d, rows) := MEMO_ALL ^ d.memo]
  }

  /** Every cell that is not user-confirmed back to all four value bits. */
  function ResetBoard(b: seq<bv8>, userConf: seq<bool>): seq<bv8>
    requires |userConf| == |b|
  {
    seq(|b|, i requires 0 <= i < |b| => if userConf[i] then b[i] else MEMO_ALL)
  }

  /** ResetBoard applied to the cells below n only. */
  ghost function ResetUpTo(b: seq<bv8>, userConf: seq<bool>, n: nat): seq<bv8>
    requires |userConf| == |b|
  {
    seq(|b|, i requires 0 <= i < |b| => if i < n && !userConf[i] then MEMO_ALL else b[i])
  }

  lemma ResetStep(b: seq<bv8>, userConf: seq<bool>, n: nat)
    requires |userConf| == |b| && n < |b|
    ensures ResetUpTo(b, userConf, n + 1)
         == ResetUpTo(b, userConf, n)[n := if userConf[n] then b[n] else MEMO_ALL]
  {
  }

  lemma ResetUpToAll(b: seq<bv8>, userConf: seq<bool>)
    requires |userConf| == |b|
    ensures ResetUpTo(b, userConf, |b|) == ResetBoard(b, userConf)
  {
  }

  /** What SolveUntilStable (Solver.cpp lines 224-257) makes of authoritative board b: settle
      a copy; commit it if it settles; on a contradiction roll the last decision back and
      settle again; with nothing to roll back, stop fatally. A stable outcome leaves a board
      no pass changes, obtained from b, or from the rolled-back b, by narrowing alone; any
      other outcome leaves b as it was. */
  function Stabilize(b: seq<bv8>, lines: seq<Line>, last: Option<Decision>, rows: nat): (s: Stabilized)
    requires LinesInBoard(lines, |b|)
    requires last.Some? ==> DecisionCell(last.value, rows) < |b|
    ensures |s.board| == |b|
    ensures s.outcome.Stable? ==> Sweep(s.board, lines, false) == Swept(NoChange, s.board)
    ensures s.outcome == Stable(false) ==> Refines(s.board, b)
    ensures RolledBack(s.outcome) ==> CanRollBack(last)
    ensures s.outcome == Stable(true) ==> Refines(s.board, RollbackBoard(b, last.value, rows))
    ensures !s.outcome.Stable? ==> s.board == b
  {
    var first := Settle(b, lines);
    if first.result == NoChange then
      Stabilized(Stable(false), first.board)
    else if !CanRollBack(last) then
      Stabilized(Fatal, b)
    else
      var second := Settle(RollbackBoard(b, last.value, rows), lines);
      if second.result == NoChange then Stabilized(Stable(true), second.board)
      else Stabilized(Diverges, b)
  }

  /** A stable outcome without rollback keeps every confirmed cell. */
  lemma StabilizeKeepsConfirmed(b: seq<bv8>, lines: seq<Line>, last: Option<Decision>, rows: nat, i: int)
    requires LinesInBoard(lines, |b|)
    requires last.Some? ==> DecisionCell(last.value, rows) < |b|
    requires 0 <= i < |b| && b[i] & MEMO_CONF != 0
    requires Stabilize(b, lines, last, rows).outcome == Stable(false)
    ensures Stabilize(b, lines, last, rows).board[i] == b[i]
  {
    var s := Stabilize(b, lines, last, rows);
    assert NoWider(s.board[i], b[i]);
  }

  /** After a rollback the decided cell no longer holds the value the user chose. */
  lemma StabilizeExcludesChoice(b: seq<bv8>, lines: seq<Line>, last: Option<Decision>, rows: nat)
    requires LinesInBoard(lines, |b|)
    requires last.Some? ==> DecisionCell(last.value, rows) < |b|
    requires Stabilize(b, lines, last, rows).outcome == Stable(true)
    ensures Stabilize(b, lines, last, rows).board[DecisionCell(last.value, rows)] & last.value.memo == 0
  {
    var s := Stabilize(b, lines, last, rows);
    var c := DecisionCell(last.value, rows);
    assert NoWider(s.board[c], RollbackBoard(b, last.value, rows)[c]);
  }

  /** The stability loop keeps every solution: when the board admits a placement that meets
      every line's hints, the loop commits without a rollback, on a board that still admits
      it. So a rollback, a fatal stop or divergence happens only when no such placement fits
      the board and the hints. */
  lemma StabilizeKeepsSolution(b: seq<bv8>, lines: seq<Line>, last: Option<Decision>, rows: nat, g: seq<int>)
    requires LinesInBoard(lines, |b|)
    requires last.Some? ==> DecisionCell(last.value, rows) < |b|
    requires Admits(b, g) && Meets(lines, g)
    ensures Stabilize(b, lines, last, rows).outcome == Stable(false)
    ensures Admits(Stabilize(b, lines, last, rows).board, g)
  {
    SettleKeepsSolution(b, lines, g);
  }

  /** A stable board stabilizes to itself: running the loop again on it commits at once and
      changes nothing. */
  lemma StabilizeIdempotent(b: seq<bv8>, lines: seq<Line>, last: Option<Decision>, rows: nat)
    requires LinesInBoard(lines, |b|)
    requires last.Some? ==> DecisionCell(last.value, rows) < |b|
    requires Stabilize(b, lines, last, rows).outcome.Stable?
    ensures var s := Stabilize(b, lines, last, rows);
      Stabilize(s.board, lines, last, rows) == Stabilized(Stable(false), s.board)
  {
    var s := Stabilize(b, lines, last, rows);
    assert Settle(s.board, lines) == Swept(NoChange, s.board);
  }

  /** The hints of one line of length len are legal: at most len volts, and the other
      len - volts fields can make up exactly the point hint with values 1..3.
      (SetHints in Solver.cpp lines 94-103, with the volt bound made explicit.) */
  predicate HintLegal(len: nat, points: nat, volts: nat) {
    volts <= len && len <= points + volts && points <= 3 * (len - volts)
  }

  /** A line's hints are legal exactly when the line can be completed: some placement of
      the volts and some filling of the remaining fields meets both hints. Legal hints are
      also exactly the pairs that have a slot in the lookup table for len fields. */
  lemma HintLegalMeansCompletable(len: nat, points: nat, volts: nat)
    ensures HintLegal(len, points, volts) <==> volts <= len && Fillable(len - volts, points)
    ensures HintLegal(len, points, volts) <==> InTable(len, volts, points)
  {
    if volts <= len {
      FillableRange(len - volts, points);
    }
  }

  predicate HintsLegal(columns: nat, rows: nat, uPoint: seq<nat>, vPoint: seq<nat>, uVolt: seq<nat>, vVolt: seq<nat>)
    requires |uPoint| == columns && |uVolt| == columns && |vPoint| == rows && |vVolt| == rows
  {
    (forall u :: 0 <= u < columns ==> HintLegal(rows, uPoint[u], uVolt[u]))
    && (forall v :: 0 <= v < rows ==> HintLegal(columns, vPoint[v], vVolt[v]))
  }

  /** The SetHints test over the lines of one direction, each len fields long (Solver.cpp
      lines 94-103, one loop): the first line whose hints are not legal stops the scan. */
  method LinesLegal(len: nat, points: seq<nat>, volts: seq<nat>) returns (ok: bool)
    requires |points| == |volts|
    ensures ok <==> forall k :: 0 <= k < |points| ==> HintLegal(len, points[k], volts[k])
  {
    for k := 0 to |points|
      invariant forall j :: 0 <= j < k ==> HintLegal(len, points[j], volts[j])
    {
      if volts[k] > len || points[k] + volts[k] < len || points[k] > (len - volts[k]) * 3 {
        return false;
      }
    }
    return true;
  }

  /** The SetHints test exactly as written, in 32-bit unsigned arithmetic: the volt bound is
      not checked, and rows - volts wraps when volts exceeds the line length. */
  predicate HintLegalAsWritten(len: nat, points: nat, volts: nat) {
    !((points + volts) % U32 < len || points > ((len - volts) % U32 * 3) % U32)
  }

  /** The written test accepts a line of 5 fields with 6 volts and no points, which no board
      can meet; Solve then reads the lookup table outside its bounds. */
  lemma HintLegalAsWrittenAcceptsTooManyVolts()
    ensures HintLegalAsWritten(5, 0, 6) && !HintLegal(5, 0, 6)
  {
  }

  /** Where the volt hint is within the line and nothing overflows, the written test and
      HintLegal agree. */
  lemma HintLegalAsWrittenInRange(len: nat, points: nat, volts: nat)
    requires volts <= len < 0x1000_0000 && points < 0x1000_0000
    ensures HintLegalAsWritten(len, points, volts) <==> HintLegal(len, points, volts)
  {
    assert (points + volts) % U32 == points + volts;
    assert (len - volts) % U32 == len - volts;
    assert ((len - volts) * 3) % U32 == (len - volts) * 3;
  }

  class Solver {
    const columns: nat
    const rows: nat

    /** Point and volt hints of every column (u) and row (v). */
    var uPoint: seq<nat>
    var vPoint: seq<nat>
    var uVolt: seq<nat>
    var vVolt: seq<nat>

    /** Column-major board of the last legal solution. */
    const memos: array<bv8>
    /** Column-major working copy that Solve narrows and a contradiction resets. */
    const memosTemp: array<bv8>
    /** Column-major flags of the cells the user confirmed. */
    const userConf: array<bool>

    /** The lookup tables for line lengths 1 .. max(columns, rows). */
    const lookups: seq<seq<bv8>>
    const isLookupInitialized: bool

    var lastUser: Option<Decision>

    /** The legal board, the working copy and the user flags hold one entry per cell and
        are three distinct arrays. */
    ghost predicate BoardsShaped()
      reads this
    {
      && memos.Length == columns * rows && memosTemp.Length == columns * rows
      && userConf.Length == columns * rows && memos != memosTemp
      && userConf as object != memos && userConf as object != memosTemp
    }

    /** One point hint and one volt hint per column and per row. */
    ghost predicate HintsShaped()
      reads this
    {
      |uPoint| == columns && |uVolt| == columns && |vPoint| == rows && |vVolt| == rows
    }

    /** The lookup tables cover every line length exactly when the board is not empty. */
    ghost predicate LookupsReady()
      reads this
    {
      && Tables(lookups) && (columns > 0 && rows > 0 ==> |lookups| == Max(columns, rows))
      && isLookupInitialized == (columns > 0 && rows > 0)
    }

    ghost predicate Valid()
      reads this
    {
      && BoardsShaped() && HintsShaped() && LookupsReady()
      && (lastUser.Some? ==> lastUser.value.column < columns && lastUser.value.row < rows
                             && DecisionCell(lastUser.value, rows) < columns * rows)
    }

    /** The lines one Solve visits, with the current hints. */
    ghost function Lines(): (lines: seq<Line>)
      reads this
      requires HintsShaped()
      ensures LinesInBoard(lines, columns * rows)
    {
      BoardLinesInBoard(columns, rows, uPoint, vPoint, uVolt, vVolt);
      BoardLines(columns, rows, uPoint, vPoint, uVolt, vVolt)
    }

    /** A fresh solver (Solver.cpp lines 11-27): hints zero, every cell all four value bits
      and not user-confirmed, no decision recorded, and the lookup tables built when the
      board has at least one column and one row. */
    constructor(rows: nat, columns: nat)
      ensures Valid() && this.rows == rows && this.columns == columns
      ensures fresh(memos) && fresh(memosTemp) && fresh(userConf)
      ensures memos[..] == seq(columns * rows, _ => MEMO_ALL)
      ensures memosTemp[..] == seq(columns * rows, _ => MEMO_ALL)
      ensures userConf[..] == seq(columns * rows, _ => false)
      ensures uPoint == seq(columns, _ => 0) && uVolt == seq(columns, _ => 0)
      ensures vPoint == seq(rows, _ => 0) && vVolt == seq(rows, _ => 0)
      ensures lastUser == None && isLookupInitialized == (columns > 0 && rows > 0)
    {
      this.columns := columns;
      this.rows := rows;
      uPoint := seq(columns, _ => 0);
      vPoint := seq(rows, _ => 0);
      uVolt := seq(columns, _ => 0);
      vVolt := seq(rows, _ => 0);
      memos := new bv8[columns * rows](_ => 0);
      memosTemp := new bv8[columns * rows](_ => 0);
      userConf := new bool[columns * rows](_ => false);
      lastUser := None;
      var tables := [];
      if columns > 0 && rows > 0 {
        tables := CreateLookupArrays(Max(columns, rows));
      }
      lookups := tables;
      isLookupInitialized := columns > 0 && rows > 0;
      new;
      ResetMemos();
    }

    function GetColumnCount(): (r: nat)
      reads this
      ensures r == columns
    {
      columns
    }

    function GetRowCount(): (r: nat)
      reads this
      ensures r == rows
    {
      rows
    }

    /** The memo of cell (column, row), stored column-major. */
    function GetMemo(column: nat, row: nat): (r: bv8)
      reads this, memos
      requires Valid() && column < columns && row < rows
      ensures CellIndex(column, row, rows) < memos.Length && r == memos[CellIndex(column, row, rows)]
    {
      CellIndexInRange(column, row, columns, rows);
      memos[column * rows + row]
    }

    /** Whether the user confirmed cell (column, row). */
    function IsMemoUserConfirmed(column: nat, row: nat): (r: bool)
      reads this, userConf
      requires Valid() && column < columns && row < rows
      ensures CellIndex(column, row, rows) < userConf.Length && r == userConf[CellIndex(column, row, rows)]
    {
      CellIndexInRange(column, row, columns, rows);
      userConf[column * rows + row]
    }

    /** Resets every cell that is not user-confirmed to all four value bits, in both boards
        (Solver.cpp lines 209-222); user-confirmed cells keep their memos. */
    method ResetMemos()
      requires BoardsShaped()
      modifies memos, memosTemp
      ensures memos[..] == ResetBoard(old(memos[..]), userConf[..])
      ensures memosTemp[..] == ResetBoard(old(memosTemp[..]), userConf[..])
    {
      ghost var m0, t0, conf := memos[..], memosTemp[..], userConf[..];
      for u := 0 to columns
        invariant userConf[..] == conf
        invariant memos[..] == ResetUpTo(m0, conf, u * rows)
        invariant memosTemp[..] == ResetUpTo(t0, conf, u * rows)
      {
        for v := 0 to rows
          invariant userConf[..] == conf
          invariant memos[..] == ResetUpTo(m0, conf, u * rows + v)
          invariant memosTemp[..] == ResetUpTo(t0, conf, u * rows + v)
        {
          CellIndexInRange(u, v, columns, rows);
          ResetStep(m0, conf, u * rows + v);
          ResetStep(t0, conf, u * rows + v);
          if !userConf[u * rows + v] {
            memos[u * rows + v] := MEMO_1 | MEMO_2 | MEMO_3 | MEMO_VOLT;
            memosTemp[u * rows + v] := MEMO_1 | MEMO_2 | MEMO_3 | MEMO_VOLT;
          }
        }
        assert u * rows + rows == (u + 1) * rows;
      }
      assert userConf[..] == conf;
      ResetUpToAll(m0, conf);
      ResetUpToAll(t0, conf);
    }

    /** One solving pass over the working copy (Solver.cpp lines 259-469): every column, then
        every row, stopping at the first contradiction; the result and the working copy are
        those of Sweep. */
    method Solve() returns (r: SolveResult)
      requires BoardsShaped() && HintsShaped() && LookupsReady()
      modifies memosTemp
      ensures Swept(r, memosTemp[..]) == Sweep(old(memosTemp[..]), Lines(), false)
    {
      BoardLinesFit(columns, rows, uPoint, vPoint, uVolt, vVolt, |lookups|);
      r := SolvePass(memosTemp, columns, rows, uPoint, vPoint, uVolt, vVolt, lookups);
    }

    /** Commits the working copy as the new legal solution (Solver.cpp lines 471-475). */
    method CommitTemporarySolution()
      requires BoardsShaped()
      modifies memos
      ensures memos[..] == memosTemp[..]
    {
      if columns > 0 && rows > 0 {
        forall i | 0 <= i < memos.Length {
          memos[i] := memosTemp[i];
        }
      }
    }

    /** The stability loop (Solver.cpp lines 224-257): copy the legal board into the working
        copy, pass until nothing changes and commit; on a contradiction reset the working copy
        to the legal board with the last decided cell given every value but the chosen one,
        and clear that cell's user flag. The result is Stabilize's. */
    method SolveUntilStable() returns (outcome: Outcome)
      requires Valid()
      modifies memos, memosTemp, userConf
      ensures var s := Stabilize(old(memos[..]), Lines(), lastUser, rows);
        outcome == s.outcome && memos[..] == s.board
      ensures outcome.Stable? ==> memosTemp[..] == memos[..]
      ensures userConf[..] == if RolledBack(outcome)
        then old(userConf[..])[DecisionCell(lastUser.value, rows) := false] else old(userConf[..])
    {
      ghost var lines := Lines();
      ghost var start := memos[..];
      CopyLegalToTemp();
      var rolledBack := false;
      ghost var from := start;
      while true
        invariant memos[..] == start && |memosTemp[..]| == |start| && |from| == |start|
        invariant Settle(memosTemp[..], lines) == Settle(from, lines)
        invariant !rolledBack ==> from == start && userConf[..] == old(userConf[..])
        invariant rolledBack ==>
          && CanRollBack(lastUser) && Settle(start, lines).result == Contradiction
          && from == RollbackBoard(start, lastUser.value, rows)
          && userConf[..] == old(userConf[..])[DecisionCell(lastUser.value, rows) := false]
        decreases if rolledBack then 0 else 1, BoardRank(memosTemp[..])
      {
        ghost var b := memosTemp[..];
        var r := Solve();
        SettleStep(b, lines, r, memosTemp[..]);
        if r == NoChange {
          CommitTemporarySolution();
          return Stable(rolledBack);
        } else if r == Changed {
          continue;
        }
        if CanRollBack(lastUser) {
          if rolledBack {
            return Diverges;
          }
          RollBackLastDecision();
          rolledBack := true;
          from := RollbackBoard(start, lastUser.value, rows);
        } else {
          return Fatal;
        }
      }
    }

    /** The copy of the legal board into the working copy that starts the stability loop
        (Solver.cpp line 227). */
    method CopyLegalToTemp()
      requires BoardsShaped()
      modifies memosTemp
      ensures memosTemp[..] == memos[..]
    {
      forall i | 0 <= i < memosTemp.Length {
        memosTemp[i] := memos[i];
      }
    }

    /** The rollback of the stability loop (Solver.cpp lines 241-247): the working copy is
        the legal board again, the last decided cell holds every value but the chosen one,
        and that cell is no longer user-confirmed. */
    method RollBackLastDecision()
      requires BoardsShaped() && CanRollBack(lastUser) && DecisionCell(lastUser.value, rows) < columns * rows
      modifies memosTemp, userConf
      ensures memosTemp[..] == RollbackBoard(memos[..], lastUser.value, rows)
      ensures userConf[..] == old(userConf[..])[DecisionCell(lastUser.value, rows) := false]
    {
      var c := lastUser.value.column * rows + lastUser.value.row;
      CopyLegalToTemp();
      memosTemp[c] := (MEMO_1 | MEMO_2 | MEMO_3 | MEMO_VOLT) ^ lastUser.value.memo;
      userConf[c] := false;
    }

    /** Sets and confirms a memo, records it as the last decision, and solves
        (Solver.cpp lines 62-75). The cell ends confirmed with the chosen value unless the
        loop had to roll the decision back, in which case the value is excluded. */
    method SetMemo(column: nat, row: nat, memo: MemoType) returns (result: bv8, outcome: Outcome)
      requires Valid() && column < columns && row < rows
      modifies this, memos, memosTemp, userConf
      ensures Valid()
      ensures uPoint == old(uPoint) && vPoint == old(vPoint) && uVolt == old(uVolt) && vVolt == old(vVolt)
      ensures lastUser == Some(Decision(column, row, memo))
      ensures var c := CellIndex(column, row, rows);
        && c < memos.Length
        && var s := Stabilize(old(memos[..])[c := memo | MEMO_CONF], Lines(), lastUser, rows);
        && outcome == s.outcome && memos[..] == s.board && result == memos[c]
        && userConf[..] == old(userConf[..])[c := !RolledBack(outcome)]
      ensures outcome == Stable(false) ==> result == memo | MEMO_CONF
      ensures outcome == Stable(true) ==> result & memo == 0
    {
      CellIndexInRange(column, row, columns, rows);
      var c := column * rows + row;
      assert c == CellIndex(column, row, rows);
      memos[c] := memo | MEMO_CONF;
      ghost var start := memos[..];
      assert start == old(memos[..])[c := memo | MEMO_CONF];
      userConf[c] := true;
      lastUser := Some(Decision(column, row, memo));
      ghost var lines := Lines();
      outcome := SolveUntilStable();
      assert lines == Lines();
      result := memos[c];
      if outcome == Stable(false) {
        StabilizeKeepsConfirmed(start, lines, lastUser, rows, c);
      } else if outcome == Stable(true) {
        StabilizeExcludesChoice(start, lines, lastUser, rows);
      }
    }

    /** Clears a memo back to all four value bits, drops its user flag, resets every cell the
        user has not confirmed, and solves (Solver.cpp lines 77-85). */
    method UnsetMemo(column: nat, row: nat) returns (result: bv8, outcome: Outcome)
      requires Valid() && column < columns && row < rows
      modifies memos, memosTemp, userConf
      ensures var c := CellIndex(column, row, rows);
        && c < memos.Length
        && var conf := old(userConf[..])[c := false];
        && var s := Stabilize(ResetBoard(old(memos[..])[c := MEMO_ALL], conf), Lines(), lastUser, rows);
        && outcome == s.outcome && memos[..] == s.board && result == memos[c]
        && userConf[..] == if RolledBack(outcome) then conf[DecisionCell(lastUser.value, rows) := false] else conf
    {
      CellIndexInRange(column, row, columns, rows);
      var c := column * rows + row;
      memos[c] := MEMO_1 | MEMO_2 | MEMO_3 | MEMO_VOLT;
      userConf[c] := false;
      ResetMemos();
      outcome := SolveUntilStable();
      result := memos[c];
    }

    /** Sets the hints (Solver.cpp lines 92-116). Illegal hints are refused and change
        nothing; legal ones replace the hints, reset every cell the user has not confirmed,
        and solve. */
    method SetHints(uPoint': seq<nat>, vPoint': seq<nat>, uVolt': seq<nat>, vVolt': seq<nat>)
        returns (legal: bool, outcome: Option<Outcome>)
      requires Valid()
      requires |uPoint'| == columns && |uVolt'| == columns && |vPoint'| == rows && |vVolt'| == rows
      modifies this, memos, memosTemp, userConf
      ensures Valid() && lastUser == old(lastUser)
      ensures legal <==> HintsLegal(columns, rows, uPoint', vPoint', uVolt', vVolt')
      ensures !legal ==> && outcome == None
                         && uPoint == old(uPoint) && vPoint == old(vPoint) && uVolt == old(uVolt) && vVolt == old(vVolt)
                         && memos[..] == old(memos[..]) && memosTemp[..] == old(memosTemp[..])
                         && userConf[..] == old(userConf[..])
      ensures legal ==> && uPoint == uPoint' && vPoint == vPoint' && uVolt == uVolt' && vVolt == vVolt'
                        && outcome.Some?
                        && var s := Stabilize(ResetBoard(old(memos[..]), old(userConf[..])), Lines(), lastUser, rows);
                        && outcome.value == s.outcome && memos[..] == s.board
                        && userConf[..] == if RolledBack(outcome.value)
                             then old(userConf[..])[DecisionCell(lastUser.value, rows) := false] else old(userConf[..])
    {
      var ok := LinesLegal(rows, uPoint', uVolt');
      if !ok {
        return false, None;
      }
      ok := LinesLegal(columns, vPoint', vVolt');
      if !ok {
        return false, None;
      }
      uPoint := uPoint';
      vPoint := vPoint';
      uVolt := uVolt';
      vVolt := vVolt';
      ResetMemos();
      var o := SolveUntilStable();
      return true, Some(o);
    }
  }
}
