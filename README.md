# Voltorb Flip solver, modelled in Dafny

The Voltorb Flip solver takes a board of face-down cards, any number of columns by any
number of rows (the game, and the scenario of `VFSolver.cpp`'s `main`, use 5 x 5). Each
card is a 1, 2, 3 or a volt. The board's sides give, for every column and every row, the sum of its points
and the number of its volts. The solver keeps one memo per cell. A memo is a byte of
MEMO_TYPE bits: which of 1, 2, 3 and volt the cell could still be, plus a confirmed bit.

Solving works one line at a time. The confirmed cells of a line are counted. What the line
still lacks (unknown fields, missing points, missing volts) selects one entry of a
precomputed lookup table. That entry is the union of the values that can still appear,
and every unconfirmed cell is intersected with it. A cell left with one value becomes
confirmed. The line step, a pass over all lines and the stability loop are proved sound:
a placement of cards on the whole board that the memos allow and that meets every hint is
never ruled out. Such a board is never called a contradiction, so the loop commits it
without a rollback.

The model covers:

- **Memo** (`memo.dfy`): the MEMO_TYPE bits of `VF/Solver.h`, the one-cell narrowing step,
  and the order in which narrowing moves a cell.
- **Fillings** and **Lookup** (`fillings.dfy`, `lookup.dfy`): `CreateLookupArrays`. It
  builds one table per line length L, with (L + 1)² one-byte slots, one per pair of
  missing volts B and missing points P. Each slot is filled by enumerating every way the
  L - B point fields can hold values 1..3 summing to P. The builder is modelled as the
  imperative loops it is, over its `points` buffer. It is proved to fill slot
  (B, P) with exactly the values some such filling uses, plus MEMO_VOLT when B > 0. The
  lookup index arithmetic of `Solve` is proved to land on that slot.
- **Propagation** and **Board** (`propagation.dfy`, `board.dfy`): one line of a pass, and
  one pass over all columns and then all rows, column-major. Each is a specification
  function on board values (`SolveLine`, `Sweep`) and an in-place method on an array
  proved equal to it. `Settle` repeats passes until nothing changes.
- **VoltorbSolver** (`solver.dfy`): the `Solver` class of `VF/Solver.cpp`. It holds the
  legal board, the working copy, the user-confirmation flags, the hints and the last user
  decision. It models the constructor, the getters, `ResetMemos`, `Solve`,
  `CommitTemporarySolution`, `SolveUntilStable` (with its rollback of the last decision),
  `SetMemo`, `UnsetMemo` and `SetHints`. `Stabilize` is the value-level meaning of the
  stability loop.
- **StaticSolver** (`static_solver.dfy`): the earlier free function `Solve` of
  `VFSolver.cpp`, which sweeps a caller's board once in place, and the scenario of its
  `main`.

## Model

| member | source | states |
|---|---|---|
| Memo.MemoBitsLayout | VF/Solver.h:8-15 | The five memo bits are distinct single bits; the confirmed bit is no value bit; MEMO_ALL is the union of the four value bits. |
| Memo.Narrow | VF/Solver.cpp:342-351 | A confirmed cell is kept. Otherwise the cell keeps exactly the bits it shares with the entry, and becomes confirmed exactly when one value remains. |
| Memo.NarrowFacts | VF/Solver.cpp:339-358 | Narrowing with a lookup entry never adds a value to a cell, and narrowing twice with the same entry changes nothing more. |
| Memo.NoWiderOrder | VF/Solver.cpp:339-358 | The narrowing order on cells is reflexive, transitive and antisymmetric; a proper narrowing lowers the cell's rank. |
| Fillings.EntryBits | VF/Solver.cpp:139-173 | A table entry has MEMO_VOLT exactly when volts are missing, never the confirmed bit, and value k exactly when k can appear in some filling of the point fields. |
| Fillings.ValueBitsMeaning | VF/Solver.cpp:139-193 | Value bit k of the closed form is set exactly when some filling of n fields with values 1..3 summing to p uses k. |
| Fillings.FillableRange | VF/Solver.cpp:139 | n fields can be filled to sum p exactly when n <= p <= 3n, the range the builder's loop visits. |
| Fillings.GreedyIsFilling | VF/Solver.cpp:144-157 | The buffer reached from all ones by bumping the last entry below 3 is a filling with the expected total. |
| Fillings.GreedyMask | VF/Solver.cpp:149-166 | The first filling the enumeration records already holds every usable 1 and 3, and a 2 when its bump count is odd. |
| Lookup.TableSize | VF/Solver.cpp:125-133 | The point ranges of volt counts 0..L laid end to end take exactly (L + 1)² slots. |
| Lookup.SlotInRange | VF/Solver.cpp:132-196 | The slot of every (B, P) lies inside B's own range and inside the table. |
| Lookup.SlotInjective | VF/Solver.cpp:132-196 | Distinct (B, P) pairs get distinct slots. |
| Lookup.SlotsCover | VF/Solver.cpp:132-196 | Every slot belongs to some (B, P), so the builder leaves no slot unvisited. |
| Lookup.LookupIndex | VF/Solver.cpp:327-333 | For counts that have a slot, the solver's index loop computes exactly that slot, inside the table. |
| Lookup.LookupIndexAsWritten | VF/Solver.cpp:327-333 | The index as written, every step modulo 2^32, is a 32-bit value. |
| Lookup.LookupIndexAsWrittenOverruns | VF/Solver.cpp:327-335 | One unknown field with two volts missing gives index 5, past the end of a four-slot table. |
| Lookup.LookupIndexAsWrittenAliases | VF/Solver.cpp:327-335 | One unknown field with four points missing gives index 3, the slot of (one volt, no points), whose entry is MEMO_VOLT. |
| Lookup.LookupIndexAsWrittenInTable | VF/Solver.cpp:327-333 | For counts with a slot in a table of fewer than 2^15 fields, the written index is the slot. |
| Lookup.TransferFacts | VF/Solver.cpp:176-186 | A transfer keeps the buffer a filling of the same total and lowers its sum of squares, so the enumeration ends. |
| Lookup.BumpLast | VF/Solver.cpp:151-157 | The last entry below 3 is raised by one and every later entry is 3; with every entry 3 nothing changes. |
| Lookup.TallyPoints | VF/Solver.cpp:160-166 | The loop returns the buffer's total and the OR of its value bits. |
| Lookup.Transfer | VF/Solver.cpp:175-190 | A transfer is found exactly when some entry exceeds an earlier one by more than 1. It is the first in offset-then-back-to-front order, and moves one point; otherwise the buffer is unchanged. |
| Lookup.RecordLast | VF/Solver.cpp:171-192 | When no transfer is left, what was recorded is exactly the set of usable values. |
| Lookup.Enumerate | VF/Solver.cpp:144-193 | The enumeration of one (B, P) returns exactly the value bits of the fillings of the point fields summing to P. |
| Lookup.EnumerateStep | VF/Solver.cpp:147-193 | One pass of the enumeration loop either finishes with exactly the usable values or keeps the loop invariant and lowers its measure. |
| Lookup.BumpGreedy | VF/Solver.cpp:149-158 | A bump on a buffer short of the target moves to the next greedy buffer, one point closer. |
| Lookup.RecordAndTransfer | VF/Solver.cpp:171-192 | Recording ORs the buffer's value bits in; a transfer keeps the invariant with a smaller buffer measure, and no transfer means the record is complete. |
| Lookup.BuildTable | VF/Solver.cpp:124-200 | The table for L unknown fields is (L + 1)² long, and slot Slot(L, B, P) holds Entry(L, B, P) for every (B, P). |
| Lookup.FillVoltCount | VF/Solver.cpp:133-200 | One volt count's slots are filled with their entries and the index moves to the next volt count's range. |
| Lookup.FillSlot | VF/Solver.cpp:139-197 | One slot gets its entry, and earlier slots keep theirs. |
| Lookup.CreateLookupArrays | VF/Solver.cpp:118-207 | Table i is the lookup table for i + 1 unknown fields, for every line length up to the longer board side. |
| Propagation.RefinesRank | VF/Solver.cpp:224-235 | Narrowing a board never raises its rank and lowers it when any cell changes, so the passes between rollbacks end. |
| Propagation.LineTally | VF/Solver.cpp:279-312 | The confirmed count is bounded by the line length, and so are its points and volts. It equals the length exactly when every cell is confirmed. |
| Propagation.NarrowLineCells | VF/Solver.cpp:339-358 | Narrowing a line sets each of its cells to Narrow(old, entry), keeps every other cell, and only narrows the board. |
| Propagation.SolveLineAsWritten | VF/Solver.cpp:315-358 | The line step as written for emptied cells (it writes an emptied memo back, and keeps the out-of-table guard): a line is skipped exactly when all its cells are confirmed; a narrowed board only narrows the old one. |
| Propagation.EmptiedMaskAsWritten | VF/Solver.cpp:339-357 | On a one-cell line that needs 3 points, the step as written narrows an unconfirmed cell that cannot be a 3 to the empty memo, and narrows the empty memo to itself. SolveLine calls that line a contradiction. |
| Propagation.SolveLine | VF/Solver.cpp:315-358 | A line is skipped exactly when all its cells are confirmed; a narrowed board only narrows the old one. |
| Propagation.SolveLineOutcome | VF/Solver.cpp:315-358 | Skipped exactly when nothing is unknown. Contradicted exactly when a target is overshot, the counts have no slot, or the entry would leave an unconfirmed cell with no value. Otherwise each cell of the line is narrowed with the entry for what it lacks and the rest is kept. |
| Propagation.SolveLineNarrows | VF/Solver.cpp:315-358 | A line with unknown fields, counts within the table and an entry that empties no cell is narrowed with that entry. |
| Propagation.CardsFitEntry | VF/Solver.cpp:139-193 | The entry for any run of cards (its length, volts and points) has a table slot and holds every card of the run. |
| Propagation.CompletionFitsEntry | VF/Solver.cpp:279-335 | When cards complete a line with unknown fields, the missing counts are non-negative and have a slot, and the entry holds the card of every unconfirmed cell. |
| Propagation.NarrowKeepsCard | VF/Solver.cpp:342-351 | Narrowing a cell whose card the entry allows keeps that card, leaves the cell non-empty, and confirms it only as that card. |
| Propagation.NarrowLineKeepsCompletion | VF/Solver.cpp:339-358 | Narrowing a completed line with an entry that holds every unconfirmed cell's card leaves a board that the same cards still complete. |
| Propagation.SolveLineKeepsCompletions | VF/Solver.cpp:315-358 | The line step is sound: if some cards meet the line's hints, its memos and its confirmed cells, the line is no contradiction and the narrowed board still admits those cards. |
| Propagation.GuardMeansNoFilling | VF/Solver.cpp:315-335 | Counts without a slot have no completion: too many volts missing, or no filling of the point fields meets the points. |
| Propagation.Sweep | VF/Solver.cpp:259-469 | A pass only narrows the board. Unless it hits a contradiction, it reports CHANGED exactly when some cell changed. |
| Propagation.SweepStep | VF/Solver.cpp:259-469 | A pass over a non-empty list of lines is the first line's outcome followed by the pass over the rest. |
| Propagation.Settle | VF/Solver.cpp:224-235 | Repeated passes end in NO_CHANGE or a contradiction. A settled board is a fixed point of a pass and only narrows the start board. |
| Propagation.NoChangeIsFixedPoint | VF/Solver.cpp:463-468 | A pass that reports NO_CHANGE leaves the board as it was. |
| Propagation.SettleStep | VF/Solver.cpp:229-236 | A changing pass keeps where the board settles and lowers its rank. A pass that changes nothing has settled. A contradiction is where settling ends. |
| Propagation.LineKeepsSolution | VF/Solver.cpp:315-358 | If the board admits a placement of the whole board that meets the line's hints, the line is no contradiction, and the narrowed board still admits that placement. |
| Propagation.SweepKeepsSolution | VF/Solver.cpp:259-469 | If the board admits a placement that meets every line's hints, a pass reports no contradiction, and the board it leaves still admits that placement. |
| Propagation.SettleKeepsSolution | VF/Solver.cpp:224-235 | Under the same condition, settling ends in NO_CHANGE on a board that still admits the placement. |
| Propagation.SettleKeepsConfirmed | VF/Solver.cpp:280-281 | Confirmed cells survive any number of passes unchanged. |
| Propagation.TallyLine | VF/Solver.cpp:275-312 | The in-place tally equals LineTally. |
| Propagation.NarrowBits | VF/Solver.cpp:344-351 | The solver's inline single-value test agrees with Narrow. |
| Propagation.NarrowCells | VF/Solver.cpp:338-358 | The board ends as NarrowLine says, and changed reports whether any cell changed. |
| Propagation.NarrowCell | VF/Solver.cpp:340-357 | One cell ends at Narrow(old, entry), and the others are unchanged. It reports whether the cell changed. |
| Propagation.FindEmptied | VF/Solver.cpp:339-345 | Reports exactly whether the entry would leave some unconfirmed cell of the line with no value. |
| Propagation.SolveLineInPlace | VF/Solver.cpp:268-358 | The in-place line step reports a contradiction exactly when SolveLine does, leaves the board SolveLine gives, and reports whether anything changed. |
| Propagation.SolveLineOfPass | VF/Solver.cpp:263-364 | One line of a pass in place: the pass from line k on is this line's contradiction, or the pass from line k + 1 on over the new board. |
| Board.CellIndexInRange | VF/Solver.cpp:57-60 | Every cell of a columns x rows board has a column-major index below columns * rows. |
| Board.CellIndexBijective | VF/Solver.h:77-78 | The column-major layout is a bijection between cells and 0 .. columns * rows - 1. |
| Board.BoardLinesColumn | VF/Solver.cpp:263-270 | Line u of a pass is column u with its hints. |
| Board.BoardLinesRow | VF/Solver.cpp:366-373 | Line columns + v of a pass is row v with its hints. |
| Board.BoardLinesInBoard | VF/Solver.cpp:262-466 | Every cell a line of the pass names lies on the board. |
| Board.SolvePass | VF/Solver.cpp:259-469 | One pass over the board in place returns and leaves exactly what Sweep gives. |
| Board.SolveColumns | VF/Solver.cpp:263-364 | The column half of a pass: a contradiction is Sweep's; otherwise what remains of Sweep is the pass over the rows. |
| Board.SolveRows | VF/Solver.cpp:366-466 | The row half of a pass ends where Sweep ends. |
| VoltorbSolver.Stabilize | VF/Solver.cpp:224-257 | A stable outcome leaves a board that no pass changes and that only narrows the start board, or the rolled-back board after a rollback. A rollback needs a recorded decision. Any other outcome keeps the board. |
| VoltorbSolver.StabilizeKeepsConfirmed | VF/Solver.cpp:62-73 | Without a rollback, a confirmed cell keeps its memo through the stability loop. |
| VoltorbSolver.StabilizeKeepsSolution | VF/Solver.cpp:224-257 | If the board admits a placement that meets every hint, the loop commits without a rollback, on a board that still admits it. So a rollback or a fatal stop means no such placement exists. |
| VoltorbSolver.StabilizeIdempotent | VF/Solver.cpp:224-257 | Stabilizing a stable board again commits at once and leaves it as it is. |
| VoltorbSolver.StabilizeExcludesChoice | VF/Solver.cpp:240-247 | After a rollback, the decided cell no longer holds the value the user chose. |
| VoltorbSolver.HintLegalMeansCompletable | VF/Solver.cpp:94-103 | Legal hints are exactly those that some placement of the volts and filling of the other fields meets, and exactly those with a table slot. |
| VoltorbSolver.HintLegalAsWrittenAcceptsTooManyVolts | VF/Solver.cpp:94-103 | The test as written, in 32-bit arithmetic, accepts five fields with six volts and no points, which no line can meet. |
| VoltorbSolver.LinesLegal | VF/Solver.cpp:94-103 | The scan over one direction's lines answers true exactly when every line's hints are legal. |
| VoltorbSolver.HintLegalAsWrittenInRange | VF/Solver.cpp:94-103 | With the volts within the line and no overflow, the written test and HintLegal agree. |
| VoltorbSolver.Solver.constructor | VF/Solver.cpp:11-26 | A new solver has zero hints, every cell at all four values and unconfirmed, and no decision. Its tables are built exactly when both sides are non-empty. |
| VoltorbSolver.Solver.GetColumnCount | VF/Solver.cpp:47-50 | Returns the column count. |
| VoltorbSolver.Solver.GetRowCount | VF/Solver.cpp:52-55 | Returns the row count. |
| VoltorbSolver.Solver.GetMemo | VF/Solver.cpp:57-60 | Returns the legal board's memo of (column, row), whose index lies on the board. |
| VoltorbSolver.Solver.IsMemoUserConfirmed | VF/Solver.cpp:87-90 | Returns the user flag of (column, row). |
| VoltorbSolver.Solver.ResetMemos | VF/Solver.cpp:209-222 | In both boards, every cell the user has not confirmed is back at all four values and every user-confirmed cell is kept. |
| VoltorbSolver.Solver.Solve | VF/Solver.cpp:259-469 | One pass over the working copy with the current hints: result and board are Sweep's. |
| VoltorbSolver.Solver.CommitTemporarySolution | VF/Solver.cpp:471-475 | The legal board becomes the working copy. |
| VoltorbSolver.Solver.SolveUntilStable | VF/Solver.cpp:224-257 | The outcome and the legal board are Stabilize's. A stable end leaves both boards equal. The user flag of the decided cell is cleared exactly when the loop rolled back. |
| VoltorbSolver.Solver.CopyLegalToTemp | VF/Solver.cpp:226-227 | The working copy becomes the legal board. |
| VoltorbSolver.Solver.RollBackLastDecision | VF/Solver.cpp:240-247 | The working copy is the legal board with the decided cell at every value but the chosen one, and that cell's user flag is cleared. |
| VoltorbSolver.Solver.SetMemo | VF/Solver.cpp:62-74 | The decision is recorded and the cell confirmed; the board is what the stability loop makes of it. A stable end leaves the chosen value confirmed, and a rollback excludes it. The hints are kept. |
| VoltorbSolver.Solver.UnsetMemo | VF/Solver.cpp:76-85 | The cell is cleared and unflagged, every unconfirmed cell is reset, and the board is what the stability loop makes of that. |
| VoltorbSolver.Solver.SetHints | VF/Solver.cpp:92-116 | Hints are accepted exactly when every line's are legal. Refused hints change nothing. Accepted ones replace the hints, reset the unconfirmed cells and run the stability loop; the user flag of the decided cell is cleared exactly when that loop rolled back. |
| StaticSolver.Solve | VFSolver.cpp:17-192 | An empty board is left alone. Otherwise the board ends as one Sweep over the columns and then the rows leaves it, and the call completes exactly when Sweep meets no contradiction. |
| StaticSolver.SolveKeepsConfirmed | VFSolver.cpp:120-121 | A sweep keeps every confirmed cell as it was. |
| StaticSolver.HandConfirmedRefines | VFSolver.cpp:338-342 | Confirming the bottom row by hand only removes values from an all-values board. |
| StaticSolver.SecondSolveKeepsHandConfirmed | VFSolver.cpp:338-344 | After the second solve the five hand-confirmed cells are unchanged and the board only narrows the starting one. |
| StaticSolver.HandConfirmedRowMeetsHints | VFSolver.cpp:328-342 | Row 4 confirmed as 1, 2, 1, 1, 2 meets main's row-4 hints of 7 points and no volt, so it lacks nothing and a line step skips it. |
| StaticSolver.Scenario | VFSolver.cpp:325-347 | After main's two solves the bottom row still holds 1, 2, 1, 1, 2 confirmed, it meets its hints of 7 points and no volt, and every cell has only lost values. |

## Left out

- Printing: `PrintBoard` and the drawing step of the static `Solve` only write to the console.
- Memory: allocation, the destructor, the null-pointer checks and failed allocations are
  not modelled. The constructor's test that every buffer exists is reduced to the test that
  the board has both a column and a row.
- The `poss1Count` .. `possVoltCount` tallies are computed by the source and never read.
  They are not modelled.
- The lookup tables are built as arrays and then kept as immutable sequences of bytes,
  since nothing writes them after construction.
- The declarations in `VF/Solver.h` that `VF/Solver.cpp` never defines or uses (`SolveAll`,
  `SolveLookupRecurse`, `Solve(index, isColumn)`, `m_LookupCounts`,
  `m_PossibilitiesTemp*`, `m_LookupTemp`, `MemoCounts`) are not part of this model.
- Propagation.SolveLine: when the missing counts have no slot in the table, the source reads
  outside the table or aliases another slot. The model reports a contradiction there (see
  Findings). `SolveLineAsWritten`, `SolveLineInPlace` and `StaticSolver.Solve` share this
  guard.
- Propagation.SolveLine: when the entry would leave an unconfirmed cell with no value, the
  source writes the empty memo back and goes on. The model reports a contradiction there
  (see Findings). `SolveLineInPlace` (through `FindEmptied`) and `StaticSolver.Solve` share
  this guard.
- StaticSolver.Solve: the source keeps its missing counts unsigned and never checks them. It
  goes on to the remaining lines after an out-of-table read. The model stops the pass at
  that line and returns `completed == false`. The source's function returns nothing, and
  `completed` exists only to report this.
- StaticSolver.Solve: the source writes every unconfirmed cell back unconditionally, where
  the solver object writes only changed cells. The board is the same either way, so both
  share one model of the pass.
- VoltorbSolver.Solver.SolveUntilStable: when a rollback is followed by another
  contradiction, the source rolls back to the same state again and loops forever. The
  model returns `Diverges` instead.
- VoltorbSolver.Solver.SolveUntilStable: `exit(0)` on a contradiction with no decision to
  undo ends the process. The model returns `Fatal` with the legal board unchanged.
- VoltorbSolver.Solver.Solve: it delegates to `Board.SolvePass`, whose column and row halves
  are the helper methods `SolveColumns` and `SolveRows`. The two halves of the source are
  the same code over columns and rows.
- Integer widths: hints, counts and indices are unbounded naturals. Only the 32-bit lookup
  index (`LookupIndexAsWritten`) and the hint test (`HintLegalAsWritten`) are modelled with
  wrap-around, for the findings below. Boards larger than 2^32 cells are not considered.
- The last user decision is an `Option<Decision>`; the source's -1 column and row sentinels
  become `None`.

## Findings

| source | as written | input that shows it | evidently intended | confidence | as-written member | corrected member |
|---|---|---|---|---|---|---|
| VF/Solver.cpp:327-335 | The lookup index is computed without checking that the missing volts fit the unknown fields or that the missing points lie in the fillable range. | One unknown field, two volts missing: index 5 in a 4-slot table. One unknown field, four points missing: index 3, which reads MEMO_VOLT. | Counts without a slot are a contradiction, like overshooting a target. | not executed | Lookup.LookupIndexAsWrittenAliases | Propagation.GuardMeansNoFilling |
| VF/Solver.cpp:339-357 | Narrowing writes the intersection of a memo and the entry back even when it is empty, and reports no contradiction. An empty memo is narrowed to itself, so the stability loop commits a board with a cell that can hold nothing. | One unknown cell that can only be a 1 or a 2, on a line that still needs 3 points and no volt. | A cell left with no value is a contradiction, and the loop rolls back or stops. | not executed | Propagation.EmptiedMaskAsWritten | Propagation.SolveLineKeepsCompletions |
| VF/Solver.cpp:94-103 | The hint test never checks that a line's volts are at most its length, and `m_Rows - uVolt[u]` wraps in unsigned arithmetic. | A line of 5 fields with 6 volts and 0 points is accepted. | Refuse a volt hint larger than the line, so that legal hints are exactly the completable ones. | not executed | VoltorbSolver.HintLegalAsWrittenAcceptsTooManyVolts | VoltorbSolver.HintLegalMeansCompletable |
