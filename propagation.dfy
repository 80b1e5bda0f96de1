/** Line propagation: one pass of the solver over the columns and rows of a board, first as
    specification functions on board values, then as the in-place method that both solvers
    run for each line. */
module Propagation {
  import opened Memo
  import opened Fillings
  import opened Lookup

  /** A line of the board: the indices of its cells in the column-major board, and its
      target point sum and volt count. */
  datatype Line = Line(cells: seq<nat>, points: nat, volts: nat)

  /** What the confirmed cells of a line account for. */
  datatype Tally = Tally(fields: nat, points: nat, volts: nat)

  /** What a line still lacks once its confirmed cells are counted (may be negative). */
  datatype Missing = Missing(fields: int, points: int, volts: int)

  /** The outcome of one line: nothing unknown, a contradiction, or the narrowed board. */
  datatype LineOutcome = Skipped | Contradicted | Narrowed(board: seq<bv8>)

  /** SOLVE_RESULT of the solver header. */
  datatype SolveResult = NoChange | Changed | Contradiction

  /** A pass's result together with the working board it leaves. */
  datatype Swept = Swept(result: SolveResult, board: seq<bv8>)

  ghost predicate InBoard(cells: seq<nat>, size: nat) {
    forall i :: 0 <= i < |cells| ==> cells[i] < size
  }

  ghost predicate LinesInBoard(lines: seq<Line>, size: nat) {
    forall k :: 0 <= k < |lines| ==> InBoard(lines[k].cells, size)
  }

  /** Every line is at most n cells long: tables for lengths 1 .. n cover all of them. */
  ghost predicate LinesFit(lines: seq<Line>, n: nat) {
    forall k :: 0 <= k < |lines| ==> |lines[k].cells| <= n
  }

  // ---------------------------------------------------------------------------------
  // Boards ordered by narrowing

  /** Board a is board b with every cell narrowed or kept. */
  ghost predicate Refines(a: seq<bv8>, b: seq<bv8>) {
    |a| == |b| && forall i {:trigger NoWider(a[i], b[i])} :: 0 <= i < |a| ==> NoWider(a[i], b[i])
  }

  /** Sum of the cell ranks: every proper narrowing of a board lowers it. */
  function BoardRank(b: seq<bv8>): nat {
    if b == [] then 0 else BoardRank(b[..|b| - 1]) + Rank(b[|b| - 1])
  }

  lemma RefinesTrans(a: seq<bv8>, b: seq<bv8>, c: seq<bv8>)
    requires Refines(a, b) && Refines(b, c)
    ensures Refines(a, c)
  {
    forall i | 0 <= i < |a| ensures NoWider(a[i], c[i]) {
      NoWiderOrder(a[i], b[i], c[i]);
    }
  }

  /** Once a board has moved away from b by narrowing, further narrowing never brings it back. */
  lemma RefinesNoReturn(a: seq<bv8>, b: seq<bv8>, c: seq<bv8>)
    requires Refines(a, b) && Refines(b, c) && b != c
    ensures a != c
  {
    var i :| 0 <= i < |b| && b[i] != c[i];
    NoWiderOrder(b[i], c[i], c[i]);
    NoWiderOrder(a[i], b[i], c[i]);
    assert Rank(a[i]) < Rank(c[i]);
  }

  /** A board's rank never grows under narrowing and drops when any cell changes. */
  lemma {:induction false} RefinesRank(a: seq<bv8>, b: seq<bv8>)
    requires Refines(a, b)
    ensures BoardRank(a) <= BoardRank(b)
    ensures a != b ==> BoardRank(a) < BoardRank(b)
  {
    if a != [] {
      var n := |a| - 1;
      assert Refines(a[..n], b[..n]);
      RefinesRank(a[..n], b[..n]);
      NoWiderOrder(a[n], b[n], b[n]);
      if a != b && a[..n] == b[..n] {
        assert a == a[..n] + [a[n]] && b == b[..n] + [b[n]];
      }
    }
  }

  // ---------------------------------------------------------------------------------
  // One line

  /** Points of a confirmed cell: 1, 2 or 3 for a single value bit, nothing otherwise. */
  function CellPoints(m: bv8): nat {
    var v := m & MEMO_ALL;
    if v == MEMO_1 then 1 else if v == MEMO_2 then 2 else if v == MEMO_3 then 3 else 0
  }

  /** Volts of a confirmed cell: 1 when it is a volt. */
  function CellVolts(m: bv8): nat {
    if m & MEMO_ALL == MEMO_VOLT then 1 else 0
  }

  /** The confirmed fields of a line and the points and volts they hold (Solver.cpp
      lines 279-312), counted from the front. A line has a field still unknown exactly
      when some cell of it is unconfirmed. */
  function LineTally(b: seq<bv8>, cells: seq<nat>): (t: Tally)
    requires InBoard(cells, |b|)
    ensures t.fields <= |cells| && t.volts <= t.fields && t.points <= 3 * t.fields
    ensures t.fields == |cells| <==> forall i :: 0 <= i < |cells| ==> b[cells[i]] & MEMO_CONF != 0
  {
    if cells == [] then Tally(0, 0, 0)
    else
      var init := cells[..|cells| - 1];
      var t := LineTally(b, init);
      var m := b[cells[|cells| - 1]];
      assert forall i :: 0 <= i < |init| ==> init[i] == cells[i];
      if m & MEMO_CONF == 0 then t
      else Tally(t.fields + 1, t.points + CellPoints(m), t.volts + CellVolts(m))
  }

  function MissingOf(b: seq<bv8>, line: Line): Missing
    requires InBoard(line.cells, |b|)
  {
    var t := LineTally(b, line.cells);
    Missing(|line.cells| - t.fields, line.points - t.points, line.volts - t.volts)
  }

  /** Every listed cell narrowed with entry e, in order (Solver.cpp lines 339-358). */
  function NarrowLine(b: seq<bv8>, cells: seq<nat>, e: bv8): (r: seq<bv8>)
    requires InBoard(cells, |b|)
    ensures |r| == |b|
  {
    if cells == [] then b
    else
      var c := NarrowLine(b, cells[..|cells| - 1], e);
      var x := cells[|cells| - 1];
      c[x := Narrow(c[x], e)]
  }

  /** Narrowing a line touches only its cells, and leaves each of them at Narrow(old, e)
      however often it is listed. */
  lemma {:induction false} NarrowLineCells(b: seq<bv8>, cells: seq<nat>, e: bv8)
    requires InBoard(cells, |b|) && e & MEMO_CONF == 0
    ensures forall i :: 0 <= i < |b| && i !in cells ==> NarrowLine(b, cells, e)[i] == b[i]
    ensures forall i :: i in cells ==> NarrowLine(b, cells, e)[i] == Narrow(b[i], e)
    ensures Refines(NarrowLine(b, cells, e), b)
  {
    if cells != [] {
      var init := cells[..|cells| - 1];
      var x := cells[|cells| - 1];
      NarrowLineCells(b, init, e);
      NarrowFacts(b[x], e);
      assert cells == init + [x];
      forall i | 0 <= i < |b| ensures NoWider(NarrowLine(b, cells, e)[i], b[i]) {
        NarrowFacts(b[i], e);
        NoWiderOrder(b[i], b[i], b[i]);
      }
    }
  }

  /** Narrowing memo m with entry e leaves an unconfirmed cell with no value. */
  predicate Emptied(m: bv8, e: bv8) {
    m & MEMO_CONF == 0 && m & e == 0
  }

  /** Narrowing with entry e would leave some unconfirmed cell of the line with no value. */
  predicate Empties(b: seq<bv8>, cells: seq<nat>, e: bv8)
    requires InBoard(cells, |b|)
  {
    exists i :: 0 <= i < |cells| && Emptied(b[cells[i]], e)
  }

  /** The line step as the source writes it as far as emptied cells go (Solver.cpp lines
      315-358): a line with no unknown field is skipped; confirmed points or volts beyond
      the target are a contradiction; otherwise every unconfirmed cell is narrowed with the
      table entry for what the line still lacks, even when that leaves a cell with no value
      (see EmptiedMaskAsWritten). Counts with no slot in the table are a contradiction, as
      in SolveLine. */
  function SolveLineAsWritten(b: seq<bv8>, line: Line): (r: LineOutcome)
    requires InBoard(line.cells, |b|)
    ensures r.Skipped? <==> forall i :: 0 <= i < |line.cells| ==> b[line.cells[i]] & MEMO_CONF != 0
    ensures r.Narrowed? ==> Refines(r.board, b)
  {
    var m := MissingOf(b, line);
    if m.fields == 0 then Skipped
    else if m.points < 0 || m.volts < 0 then Contradicted
    else if !InTable(m.fields, m.volts, m.points) then Contradicted
    else
      var e := Entry(m.fields, m.volts, m.points);
      EntryBits(m.fields, m.volts, m.points);
      NarrowLineCells(b, line.cells, e);
      Narrowed(NarrowLine(b, line.cells, e))
  }

  /** Solve for one line (Solver.cpp lines 315-358 for a column, 418-461 for a row): a line
      with no unknown field is skipped; confirmed points or volts beyond the target are a
      contradiction; otherwise every unconfirmed cell is narrowed with the table entry for
      what the line still lacks.
      GUARD: when the missing counts have no slot in the table, the source computes an index
      outside it; here the line is a contradiction instead, which is what it is, since no
      filling of the unknown fields then exists (see GuardMeansNoFilling).
      GUARD: when the entry would leave an unconfirmed cell with no value, the source writes
      the empty memo back and carries on; here the line is a contradiction, since no
      completion of the line then exists (see SolveLineKeepsCompletions). */
  function SolveLine(b: seq<bv8>, line: Line): (r: LineOutcome)
    requires InBoard(line.cells, |b|)
    ensures r.Skipped? <==> forall i :: 0 <= i < |line.cells| ==> b[line.cells[i]] & MEMO_CONF != 0
    ensures r.Narrowed? ==> Refines(r.board, b)
  {
    var m := MissingOf(b, line);
    match SolveLineAsWritten(b, line)
    case Narrowed(c) =>
      if Empties(b, line.cells, Entry(m.fields, m.volts, m.points)) then Contradicted else Narrowed(c)
    case o => o
  }

  /** On a one-cell line that needs 3 points, an unconfirmed cell that cannot be a 3 (a cell
      that can only be a 1 or a 2, say) is narrowed to an empty memo by the line step as
      written. The empty memo is such a cell too, so the next pass leaves it as it is, and
      the stability loop commits a board with an empty cell. SolveLine reports the
      contradiction instead. */
  lemma EmptiedMaskAsWritten(x: bv8)
    requires x & MEMO_CONF == 0 && x & MEMO_3 == 0
    ensures SolveLineAsWritten([x], Line([0], 3, 0)) == Narrowed([0])
    ensures SolveLine([x], Line([0], 3, 0)) == Contradicted
  {
    var b, line := [x], Line([0], 3, 0);
    assert [0][..0] == [];
    assert MissingOf(b, line) == Missing(1, 3, 0);
    assert InTable(1, 0, 3) && Entry(1, 0, 3) == MEMO_3;
    assert Narrow(x, MEMO_3) == 0;
    assert NarrowLine(b, line.cells, MEMO_3) == [0];
    assert Empties(b, line.cells, MEMO_3) by {
      assert Emptied(b[line.cells[0]], MEMO_3);
    }
    SolveLineOutcome(b, line);
  }

  /** The three outcomes of a line, in terms of what it lacks: Skipped exactly when nothing
      is unknown, Contradicted exactly when the confirmed cells overshoot a target, leave
      counts no filling can meet, or leave a cell no value of the entry fits; otherwise each
      unconfirmed cell is narrowed with the entry for (unknown fields, missing volts,
      missing points) and every other cell kept. */
  lemma SolveLineOutcome(b: seq<bv8>, line: Line)
    requires InBoard(line.cells, |b|)
    ensures var m := MissingOf(b, line);
      && (SolveLine(b, line).Skipped? <==> m.fields == 0)
      && (SolveLine(b, line).Contradicted? <==>
            m.fields > 0 && (m.points < 0 || m.volts < 0 || !InTable(m.fields, m.volts, m.points)
                             || Empties(b, line.cells, Entry(m.fields, m.volts, m.points))))
      && (SolveLine(b, line).Narrowed? ==>
            InTable(m.fields, m.volts, m.points)
            && forall i :: 0 <= i < |b| ==>
                 SolveLine(b, line).board[i]
                 == if i in line.cells then Narrow(b[i], Entry(m.fields, m.volts, m.points)) else b[i])
  {
    var m := MissingOf(b, line);
    if SolveLine(b, line).Narrowed? {
      var e := Entry(m.fields, m.volts, m.points);
      EntryBits(m.fields, m.volts, m.points);
      NarrowLineCells(b, line.cells, e);
    }
  }

  /** When the guard in SolveLine fires, the line really has no completion: either it
      lacks more volts than it has unknown fields, or s, like every other sequence, is no
      filling of the remaining point fields with values 1..3 summing to the missing points. */
  lemma GuardMeansNoFilling(m: Missing, s: seq<int>)
    requires m.fields > 0 && m.points >= 0 && m.volts >= 0 && !InTable(m.fields, m.volts, m.points)
    ensures m.volts > m.fields || !IsFilling(s, m.fields - m.volts, m.points)
  {
    if m.volts <= m.fields && IsFilling(s, m.fields - m.volts, m.points) {
      SumBounds(s);
    }
  }

  // ---------------------------------------------------------------------------------
  // Soundness of the line step

  /** The memo bit of a card: 0 stands for a volt, 1..3 for points. */
  function CardBit(x: int): bv8 {
    if x == 0 then MEMO_VOLT else ValueBit(x)
  }

  /** Number of volts (zeros) among the cards. */
  function Zeros(s: seq<int>): nat {
    if s == [] then 0 else Zeros(s[..|s| - 1]) + (if s[|s| - 1] == 0 then 1 else 0)
  }

  /** The point cards among the cards, in order. */
  function PointCards(s: seq<int>): seq<int> {
    if s == [] then [] else PointCards(s[..|s| - 1]) + (if s[|s| - 1] == 0 then [] else [s[|s| - 1]])
  }

  /** Every entry is a card: 0 (a volt) or 1..3. */
  ghost predicate Cards(s: seq<int>) {
    forall i :: 0 <= i < |s| ==> 0 <= s[i] <= 3
  }

  /** Memo m admits card v: it allows v, and holds v alone once confirmed. */
  predicate CellAdmits(m: bv8, v: int) {
    0 <= v <= 3 && m & CardBit(v) != 0 && (m & MEMO_CONF != 0 ==> m & MEMO_ALL == CardBit(v))
  }

  /** Each cell of a line admits its card in vals. */
  ghost predicate AllAdmit(b: seq<bv8>, cells: seq<nat>, vals: seq<int>)
    requires InBoard(cells, |b|) && |vals| == |cells|
  {
    forall i :: 0 <= i < |vals| ==> CellAdmits(b[cells[i]], vals[i])
  }

  /** vals puts a card on every cell of the line that the cell's memo admits, and meets the
      line's points and volts. */
  ghost predicate Completes(b: seq<bv8>, line: Line, vals: seq<int>)
    requires InBoard(line.cells, |b|)
  {
    && |vals| == |line.cells|
    && AllAdmit(b, line.cells, vals)
    && Sum(vals) == line.points && Zeros(vals) == line.volts
  }

  /** The cards on the unconfirmed cells of the line, in order. */
  ghost function UnconfirmedCards(b: seq<bv8>, cells: seq<nat>, vals: seq<int>): (u: seq<int>)
    requires InBoard(cells, |b|) && |vals| == |cells|
  {
    if cells == [] then []
    else
      var n := |cells| - 1;
      assert forall i :: 0 <= i < n ==> cells[..n][i] == cells[i];
      UnconfirmedCards(b, cells[..n], vals[..n]) + UnconfirmedCard(b[cells[n]], vals[n])
  }

  /** The card v of a cell with memo m, when the cell is still unconfirmed. */
  function UnconfirmedCard(m: bv8, v: int): (u: seq<int>)
    ensures u == [v] <==> m & MEMO_CONF == 0
    ensures u == [] <==> m & MEMO_CONF != 0
  {
    if m & MEMO_CONF == 0 then [v] else []
  }

  /** A confirmed cell holding card v counts v points, and one volt when v is a volt. */
  lemma ConfirmedCard(m: bv8, v: int)
    requires CellAdmits(m, v) && m & MEMO_CONF != 0
    ensures CellPoints(m) == v && CellVolts(m) == if v == 0 then 1 else 0
  {
  }

  /** AllAdmit over a line gives AllAdmit over all its cells but the last, and the last. */
  lemma AllAdmitStep(b: seq<bv8>, cells: seq<nat>, vals: seq<int>)
    requires InBoard(cells, |b|) && |vals| == |cells| > 0 && AllAdmit(b, cells, vals)
    ensures var n := |cells| - 1;
      && InBoard(cells[..n], |b|)
      && AllAdmit(b, cells[..n], vals[..n])
      && CellAdmits(b[cells[n]], vals[n])
  {
    var n := |cells| - 1;
    var c0, v0 := cells[..n], vals[..n];
    assert forall i :: 0 <= i < n ==> c0[i] == cells[i] && v0[i] == vals[i];
    assert InBoard(c0, |b|);
  }

  /** The last cell of a line adds its card v either to the confirmed tally or to the
      unconfirmed cards, never to both. */
  lemma LastCellSplits(x: bv8, v: int, t0: Tally, u0: seq<int>)
    requires CellAdmits(x, v)
    ensures var t := if x & MEMO_CONF == 0 then t0 else Tally(t0.fields + 1, t0.points + CellPoints(x), t0.volts + CellVolts(x));
      && t.points + Sum(u0 + UnconfirmedCard(x, v)) == t0.points + Sum(u0) + v
      && t.volts + Zeros(u0 + UnconfirmedCard(x, v)) == t0.volts + Zeros(u0) + (if v == 0 then 1 else 0)
  {
    if x & MEMO_CONF == 0 {
      assert (u0 + [v])[..|u0|] == u0;
    } else {
      ConfirmedCard(x, v);
      assert u0 + [] == u0;
    }
  }

  /** LineTally over a line, from LineTally over all its cells but the last. */
  lemma TallyStep(b: seq<bv8>, cells: seq<nat>)
    requires InBoard(cells, |b|) && |cells| > 0
    ensures var n := |cells| - 1;
      && InBoard(cells[..n], |b|)
      && LineTally(b, cells) == (
           var t := LineTally(b, cells[..n]);
           var m := b[cells[n]];
           if m & MEMO_CONF == 0 then t else Tally(t.fields + 1, t.points + CellPoints(m), t.volts + CellVolts(m)))
  {
    var n := |cells| - 1;
    var c0 := cells[..n];
    assert forall i :: 0 <= i < n ==> c0[i] == cells[i];
    assert InBoard(c0, |b|);
  }

  /** UnconfirmedCards over a line, from UnconfirmedCards over all its cells but the last. */
  lemma UnconfirmedStep(b: seq<bv8>, cells: seq<nat>, vals: seq<int>)
    requires InBoard(cells, |b|) && |vals| == |cells| > 0
    ensures var n := |cells| - 1;
      && InBoard(cells[..n], |b|)
      && UnconfirmedCards(b, cells, vals) ==
           UnconfirmedCards(b, cells[..n], vals[..n]) + UnconfirmedCard(b[cells[n]], vals[n])
  {
    var n := |cells| - 1;
    var c0 := cells[..n];
    assert forall i :: 0 <= i < n ==> c0[i] == cells[i];
    assert InBoard(c0, |b|);
  }

  /** The unconfirmed cells of a line are the fields LineTally does not count. */
  lemma {:induction false} UnconfirmedCount(b: seq<bv8>, cells: seq<nat>, vals: seq<int>)
    requires InBoard(cells, |b|) && |vals| == |cells|
    ensures |UnconfirmedCards(b, cells, vals)| == |cells| - LineTally(b, cells).fields
  {
    if cells != [] {
      var n := |cells| - 1;
      TallyStep(b, cells);
      UnconfirmedStep(b, cells, vals);
      UnconfirmedCount(b, cells[..n], vals[..n]);
    }
  }


  /** The points of the confirmed cells (LineTally) and the cards on the unconfirmed ones
      make up all the cards of the line. */
  lemma {:induction false} SplitPoints(b: seq<bv8>, cells: seq<nat>, vals: seq<int>)
    requires InBoard(cells, |b|) && |vals| == |cells|
    requires AllAdmit(b, cells, vals)
    ensures Sum(vals) == LineTally(b, cells).points + Sum(UnconfirmedCards(b, cells, vals))
  {
    if cells != [] {
      var n := |cells| - 1;
      var c0, v0 := cells[..n], vals[..n];
      AllAdmitStep(b, cells, vals);
      SplitPoints(b, c0, v0);
      TallyStep(b, cells);
      UnconfirmedStep(b, cells, vals);
      var t0, u0 := LineTally(b, c0), UnconfirmedCards(b, c0, v0);
      var x, v := b[cells[n]], vals[n];
      assert Sum(vals) == Sum(v0) + v;
      LastCellSplits(x, v, t0, u0);
    }
  }


  /** The volts of the confirmed cells (LineTally) and the volts on the unconfirmed ones
      make up all the volts of the line. */
  lemma {:induction false} SplitVolts(b: seq<bv8>, cells: seq<nat>, vals: seq<int>)
    requires InBoard(cells, |b|) && |vals| == |cells|
    requires AllAdmit(b, cells, vals)
    ensures Zeros(vals) == LineTally(b, cells).volts + Zeros(UnconfirmedCards(b, cells, vals))
  {
    if cells != [] {
      var n := |cells| - 1;
      var c0, v0 := cells[..n], vals[..n];
      AllAdmitStep(b, cells, vals);
      SplitVolts(b, c0, v0);
      TallyStep(b, cells);
      UnconfirmedStep(b, cells, vals);
      var t0, u0 := LineTally(b, c0), UnconfirmedCards(b, c0, v0);
      var x, v := b[cells[n]], vals[n];
      assert Zeros(vals) == Zeros(v0) + (if v == 0 then 1 else 0);
      LastCellSplits(x, v, t0, u0);
    }
  }

  /** The card on every unconfirmed cell is among UnconfirmedCards, and each of them is a card. */
  lemma {:induction false} UnconfirmedCardsHold(b: seq<bv8>, cells: seq<nat>, vals: seq<int>)
    requires InBoard(cells, |b|) && |vals| == |cells|
    requires Cards(vals)
    ensures forall i :: 0 <= i < |cells| && b[cells[i]] & MEMO_CONF == 0 ==> vals[i] in UnconfirmedCards(b, cells, vals)
    ensures Cards(UnconfirmedCards(b, cells, vals))
  {
    if cells != [] {
      var n := |cells| - 1;
      var c0, v0 := cells[..n], vals[..n];
      assert forall i :: 0 <= i < n ==> c0[i] == cells[i] && v0[i] == vals[i];
      UnconfirmedCardsHold(b, c0, v0);
      UnconfirmedStep(b, cells, vals);
    }
  }

  /** The point cards of a run of cards: as many as the cards that are not volts, with the
      same sum, and each in 1..3. */
  lemma {:induction false} PointCardsFacts(u: seq<int>)
    requires Cards(u)
    ensures |PointCards(u)| + Zeros(u) == |u| && Sum(PointCards(u)) == Sum(u) && InRange(PointCards(u))
  {
    if u != [] {
      var n := |u| - 1;
      var u0, x := u[..n], u[n];
      assert forall i :: 0 <= i < n ==> u0[i] == u[i];
      PointCardsFacts(u0);
      var p0 := PointCards(u0);
      assert Zeros(u) == Zeros(u0) + (if x == 0 then 1 else 0) && Sum(u) == Sum(u0) + x;
      if x != 0 {
        var p := p0 + [x];
        assert PointCards(u) == p;
        assert p[..|p0|] == p0;
        assert Sum(p) == Sum(p0) + x;
        assert forall i :: 0 <= i < |p0| ==> p[i] == p0[i];
      } else {
        assert PointCards(u) == p0 + [] == p0;
      }
    }
  }

  /** Every point card of a run is among its point cards, and a run holding a volt counts one. */
  lemma {:induction false} PointCardsHold(u: seq<int>)
    ensures forall x :: x in u && x != 0 ==> x in PointCards(u)
    ensures 0 in u ==> Zeros(u) > 0
  {
    if u != [] {
      var n := |u| - 1;
      var u0 := u[..n];
      assert u == u0 + [u[n]];
      PointCardsHold(u0);
    }
  }

  /** A memo with a single value that holds card v holds nothing else. */
  lemma SingleValueIsCard(x: bv8, v: int)
    requires 0 <= v <= 3 && IsSingleValue(x) && x & CardBit(v) != 0
    ensures x == CardBit(v)
  {
  }

  /** The entry for a run of cards (its length, its volts, its points) holds the bit of each
      card of the run. */
  lemma CardFitsEntry(u: seq<int>, x: int)
    requires Cards(u) && x in u
    ensures Entry(|u|, Zeros(u), Sum(u)) & CardBit(x) != 0
  {
    PointCardsHold(u);
    EntryBits(|u|, Zeros(u), Sum(u));
    if x != 0 {
      PointCardsFacts(u);
      var p := PointCards(u);
      var j :| 0 <= j < |p| && p[j] == x;
      FillingValueUsable(p, |u| - Zeros(u), Sum(u), j);
    }
  }

  /** The entry for a run of cards has a slot in the table and holds the bit of every card
      of the run. */
  lemma CardsFitEntry(u: seq<int>)
    requires |u| > 0 && Cards(u)
    ensures InTable(|u|, Zeros(u), Sum(u))
    ensures forall x :: x in u ==> Entry(|u|, Zeros(u), Sum(u)) & CardBit(x) != 0
  {
    PointCardsFacts(u);
    SumBounds(PointCards(u));
    forall x | x in u ensures Entry(|u|, Zeros(u), Sum(u)) & CardBit(x) != 0 {
      CardFitsEntry(u, x);
    }
  }

  /** What a completed line lacks is what the cards on its unconfirmed cells make up. */
  lemma MissingIsUnconfirmed(b: seq<bv8>, line: Line, vals: seq<int>)
    requires InBoard(line.cells, |b|) && Completes(b, line, vals)
    ensures var m, u := MissingOf(b, line), UnconfirmedCards(b, line.cells, vals);
      m == Missing(|u|, Sum(u), Zeros(u))
  {
    UnconfirmedCount(b, line.cells, vals);
    SplitPoints(b, line.cells, vals);
    SplitVolts(b, line.cells, vals);
  }

  /** When a placement of cards completes a line with unknown fields, the counts the line
      lacks have a slot in the table and its entry holds every card on an unconfirmed cell. */
  lemma CompletionFitsEntry(b: seq<bv8>, line: Line, vals: seq<int>)
    requires InBoard(line.cells, |b|) && Completes(b, line, vals)
    requires MissingOf(b, line).fields > 0
    ensures var m := MissingOf(b, line);
      && m.points >= 0 && m.volts >= 0 && InTable(m.fields, m.volts, m.points)
      && forall i :: 0 <= i < |vals| && b[line.cells[i]] & MEMO_CONF == 0 ==>
           Entry(m.fields, m.volts, m.points) & CardBit(vals[i]) != 0
  {
    MissingIsUnconfirmed(b, line, vals);
    assert Cards(vals);
    UnconfirmedCardsHold(b, line.cells, vals);
    CardsFitEntry(UnconfirmedCards(b, line.cells, vals));
  }

  /** Narrowing a memo that admits card v, with an entry that allows v whenever the memo is
      unconfirmed, leaves a value in the memo and a memo that still admits v. */
  lemma NarrowKeepsCard(x: bv8, e: bv8, v: int)
    requires CellAdmits(x, v) && e & MEMO_CONF == 0
    requires x & MEMO_CONF == 0 ==> e & CardBit(v) != 0
    ensures !Emptied(x, e)
    ensures CellAdmits(Narrow(x, e), v)
  {
    if x & MEMO_CONF == 0 && Narrow(x, e) & MEMO_CONF != 0 {
      SingleValueIsCard(x & e, v);
    }
  }

  /** An entry that holds the card of every unconfirmed cell of a completed line empties
      none of them. */
  lemma CompletionNotEmptied(b: seq<bv8>, line: Line, vals: seq<int>, e: bv8)
    requires InBoard(line.cells, |b|) && Completes(b, line, vals) && e & MEMO_CONF == 0
    requires forall i :: 0 <= i < |vals| && b[line.cells[i]] & MEMO_CONF == 0 ==> e & CardBit(vals[i]) != 0
    ensures !Empties(b, line.cells, e)
  {
    forall i | 0 <= i < |vals| ensures !Emptied(b[line.cells[i]], e) {
      NarrowKeepsCard(b[line.cells[i]], e, vals[i]);
    }
  }

  /** Narrowing a completed line with an entry that holds the card of every unconfirmed cell
      leaves a board that still admits the completion. */
  lemma NarrowLineKeepsCompletion(b: seq<bv8>, line: Line, vals: seq<int>, e: bv8)
    requires InBoard(line.cells, |b|) && Completes(b, line, vals) && e & MEMO_CONF == 0
    requires forall i :: 0 <= i < |vals| && b[line.cells[i]] & MEMO_CONF == 0 ==> e & CardBit(vals[i]) != 0
    ensures Completes(NarrowLine(b, line.cells, e), line, vals)
  {
    var c := NarrowLine(b, line.cells, e);
    forall i | 0 <= i < |vals| ensures CellAdmits(c[line.cells[i]], vals[i]) {
      NarrowLineAt(b, line.cells, e, i);
      NarrowKeepsCard(b[line.cells[i]], e, vals[i]);
    }
    assert AllAdmit(c, line.cells, vals);
  }

  lemma NarrowLineAt(b: seq<bv8>, cells: seq<nat>, e: bv8, i: int)
    requires InBoard(cells, |b|) && e & MEMO_CONF == 0 && 0 <= i < |cells|
    ensures NarrowLine(b, cells, e)[cells[i]] == Narrow(b[cells[i]], e)
  {
    NarrowLineCells(b, cells, e);
    assert cells[i] in cells;
  }

  /** The line step is sound: when some placement of cards completes the line on board b,
      the line is no contradiction, and the board it narrows to still admits that placement,
      so narrowing never removes a card a completion of the line uses. */
  lemma SolveLineKeepsCompletions(b: seq<bv8>, line: Line, vals: seq<int>)
    requires InBoard(line.cells, |b|) && Completes(b, line, vals)
    ensures !SolveLine(b, line).Contradicted?
    ensures SolveLine(b, line).Narrowed? ==> Completes(SolveLine(b, line).board, line, vals)
  {
    var m := MissingOf(b, line);
    if m.fields > 0 {
      CompletionFitsEntry(b, line, vals);
      var e := Entry(m.fields, m.volts, m.points);
      EntryBits(m.fields, m.volts, m.points);
      CompletionNotEmptied(b, line, vals, e);
      NarrowLineKeepsCompletion(b, line, vals, e);
      SolveLineNarrows(b, line);
    }
  }

  /** A line with unknown fields whose missing counts have a slot in the table and whose
      entry empties no cell is narrowed with that entry. */
  lemma SolveLineNarrows(b: seq<bv8>, line: Line)
    requires InBoard(line.cells, |b|)
    requires var m := MissingOf(b, line);
      && m.fields > 0 && m.points >= 0 && m.volts >= 0 && InTable(m.fields, m.volts, m.points)
      && !Empties(b, line.cells, Entry(m.fields, m.volts, m.points))
    ensures var m := MissingOf(b, line);
      SolveLine(b, line) == Narrowed(NarrowLine(b, line.cells, Entry(m.fields, m.volts, m.points)))
  {
  }

  // ---------------------------------------------------------------------------------
  // A pass over all lines

  lemma LinesTail(lines: seq<Line>, size: nat)
    requires LinesInBoard(lines, size) && lines != []
    ensures InBoard(lines[0].cells, size) && LinesInBoard(lines[1..], size)
  {
    assert forall k :: 0 <= k < |lines| - 1 ==> lines[1..][k] == lines[k + 1];
  }

  /** One call of Solve (Solver.cpp lines 259-469): the lines in order, each on the board
      the previous ones left, stopping at the first contradiction. The result is CHANGED
      exactly when some cell of the working board changed, and the pass only narrows. */
  function Sweep(b: seq<bv8>, lines: seq<Line>, changed: bool): (s: Swept)
    requires LinesInBoard(lines, |b|)
    ensures Refines(s.board, b)
    ensures s.result != Contradiction ==> (s.result == Changed <==> changed || s.board != b)
    decreases |lines|
  {
    if lines == [] then
      NoWiderOrder(0, 0, 0);
      assert Refines(b, b) by {
        forall i | 0 <= i < |b| ensures NoWider(b[i], b[i]) { NoWiderOrder(b[i], b[i], b[i]); }
      }
      Swept(if changed then Changed else NoChange, b)
    else
      LinesTail(lines, |b|);
      match SolveLine(b, lines[0])
      case Skipped =>
        Sweep(b, lines[1..], changed)
      case Contradicted =>
        assert Refines(b, b) by {
          forall i | 0 <= i < |b| ensures NoWider(b[i], b[i]) { NoWiderOrder(b[i], b[i], b[i]); }
        }
        Swept(Contradiction, b)
      case Narrowed(c) =>
        var s := Sweep(c, lines[1..], changed || c != b);
        RefinesTrans(s.board, c, b);
        if c != b then RefinesNoReturn(s.board, c, b); s else s
  }

  /** A pass over a non-empty list of lines is the first line's outcome followed by the
      pass over the rest. */
  lemma SweepStep(b: seq<bv8>, lines: seq<Line>, changed: bool, next: seq<bv8>, contradiction: bool, lineChanged: bool)
    requires LinesInBoard(lines, |b|) && lines != []
    requires var o := SolveLine(b, lines[0]);
      && (contradiction <==> o.Contradicted?)
      && next == (if o.Narrowed? then o.board else b)
      && (lineChanged <==> next != b)
    ensures LinesInBoard(lines[1..], |next|)
    ensures contradiction ==> Sweep(b, lines, changed) == Swept(Contradiction, next)
    ensures !contradiction ==> Sweep(b, lines, changed) == Sweep(next, lines[1..], changed || lineChanged)
  {
    LinesTail(lines, |b|);
  }

  /** Repeated passes until one changes nothing or hits a contradiction: what the stability
      loop computes on the working board between two rollbacks (Solver.cpp lines 224-235).
      A settled board is a fixed point of a pass, and only narrows the board it started from. */
  function Settle(b: seq<bv8>, lines: seq<Line>): (s: Swept)
    requires LinesInBoard(lines, |b|)
    ensures s.result != Changed && Refines(s.board, b)
    ensures s.result == NoChange ==> Sweep(s.board, lines, false) == s
    decreases BoardRank(b)
  {
    var s := Sweep(b, lines, false);
    if s.result == Changed then
      RefinesRank(s.board, b);
      var r := Settle(s.board, lines);
      RefinesTrans(r.board, s.board, b);
      r
    else
      s
  }

  /** A pass that reports NO_CHANGE leaves the board exactly as it was. */
  lemma NoChangeIsFixedPoint(b: seq<bv8>, lines: seq<Line>)
    requires LinesInBoard(lines, |b|) && Sweep(b, lines, false).result == NoChange
    ensures Sweep(b, lines, false).board == b
  {
  }

  /** How one pass moves the stability loop: a changing pass leaves a board that settles
      the same way and has a lower rank, a pass that changes nothing has settled the board,
      and a contradiction is the contradiction settling ends in. */
  lemma SettleStep(b: seq<bv8>, lines: seq<Line>, r: SolveResult, next: seq<bv8>)
    requires LinesInBoard(lines, |b|) && Swept(r, next) == Sweep(b, lines, false)
    ensures |next| == |b|
    ensures r == Changed ==> Settle(next, lines) == Settle(b, lines) && BoardRank(next) < BoardRank(b)
    ensures r == NoChange ==> next == b && Settle(b, lines) == Swept(NoChange, b)
    ensures r == Contradiction ==> Settle(b, lines).result == Contradiction
  {
    if r == Changed {
      RefinesRank(next, b);
    }
  }

  /** Confirmed cells survive any number of passes unchanged. */
  lemma SettleKeepsConfirmed(b: seq<bv8>, lines: seq<Line>, i: int)
    requires LinesInBoard(lines, |b|) && 0 <= i < |b| && b[i] & MEMO_CONF != 0
    ensures Settle(b, lines).board[i] == b[i]
    ensures Sweep(b, lines, false).board[i] == b[i]
  {
    var settled, swept := Settle(b, lines), Sweep(b, lines, false);
    assert NoWider(settled.board[i], b[i]);
    assert NoWider(swept.board[i], b[i]);
  }

  // ---------------------------------------------------------------------------------
  // Soundness of the passes

  /** The cards a whole-board placement g puts on the cells of a line, in order. */
  function LineVals(cells: seq<nat>, g: seq<int>): (v: seq<int>)
    requires InBoard(cells, |g|)
    ensures |v| == |cells| && forall i :: 0 <= i < |cells| ==> v[i] == g[cells[i]]
  {
    seq(|cells|, i requires 0 <= i < |cells| => g[cells[i]])
  }

  /** Board b admits the placement g: every cell's memo allows g's card there, and a
      confirmed cell holds exactly that card. */
  ghost predicate Admits(b: seq<bv8>, g: seq<int>) {
    |g| == |b| && forall c :: 0 <= c < |b| ==> CellAdmits(b[c], g[c])
  }

  /** The placement g meets the points and volts hints of every line. */
  ghost predicate Meets(lines: seq<Line>, g: seq<int>)
    requires LinesInBoard(lines, |g|)
  {
    forall k :: 0 <= k < |lines| ==>
      Sum(LineVals(lines[k].cells, g)) == lines[k].points && Zeros(LineVals(lines[k].cells, g)) == lines[k].volts
  }

  /** The line step never rules out a placement of the whole board that the board admits
      and that meets the line's hints: no contradiction, and the narrowed board admits it. */
  lemma LineKeepsSolution(b: seq<bv8>, line: Line, g: seq<int>)
    requires InBoard(line.cells, |b|) && Admits(b, g)
    requires Sum(LineVals(line.cells, g)) == line.points && Zeros(LineVals(line.cells, g)) == line.volts
    ensures !SolveLine(b, line).Contradicted?
    ensures SolveLine(b, line).Narrowed? ==> Admits(SolveLine(b, line).board, g)
  {
    var vals := LineVals(line.cells, g);
    assert AllAdmit(b, line.cells, vals) by {
      forall i | 0 <= i < |vals| ensures CellAdmits(b[line.cells[i]], vals[i]) {
        assert vals[i] == g[line.cells[i]];
      }
    }
    SolveLineKeepsCompletions(b, line, vals);
    if SolveLine(b, line).Narrowed? {
      var c := SolveLine(b, line).board;
      SolveLineOutcome(b, line);
      forall x | 0 <= x < |c| ensures CellAdmits(c[x], g[x]) {
        if x in line.cells {
          var j :| 0 <= j < |line.cells| && line.cells[j] == x;
          assert CellAdmits(c[line.cells[j]], vals[j]);
        } else {
          assert c[x] == b[x];
        }
      }
    }
  }

  /** A pass keeps every solution: if the board admits a placement that meets every line's
      hints, the pass reports no contradiction and the board it leaves still admits it. */
  lemma {:induction false} SweepKeepsSolution(b: seq<bv8>, lines: seq<Line>, changed: bool, g: seq<int>)
    requires LinesInBoard(lines, |b|) && Admits(b, g) && Meets(lines, g)
    ensures Sweep(b, lines, changed).result != Contradiction
    ensures Admits(Sweep(b, lines, changed).board, g)
    decreases |lines|
  {
    if lines != [] {
      LinesTail(lines, |b|);
      assert forall k :: 0 <= k < |lines| - 1 ==> lines[1..][k] == lines[k + 1];
      assert Meets(lines[1..], g);
      LineKeepsSolution(b, lines[0], g);
      match SolveLine(b, lines[0])
      case Skipped =>
        SweepKeepsSolution(b, lines[1..], changed, g);
      case Narrowed(c) =>
        SweepKeepsSolution(c, lines[1..], changed || c != b, g);
    }
  }

  /** Settling keeps every solution: a board that admits a placement meeting every line's
      hints settles with NO_CHANGE on a board that still admits it. */
  lemma {:induction false} SettleKeepsSolution(b: seq<bv8>, lines: seq<Line>, g: seq<int>)
    requires LinesInBoard(lines, |b|) && Admits(b, g) && Meets(lines, g)
    ensures Settle(b, lines).result == NoChange
    ensures Admits(Settle(b, lines).board, g)
    decreases BoardRank(b)
  {
    var s := Sweep(b, lines, false);
    SweepKeepsSolution(b, lines, false, g);
    if s.result == Changed {
      RefinesRank(s.board, b);
      SettleKeepsSolution(s.board, lines, g);
    }
  }

  // ---------------------------------------------------------------------------------
  // The in-place line step

  /** The lookup tables for line lengths 1..|lookups|. */
  ghost predicate Tables(lookups: seq<seq<bv8>>) {
    forall i :: 0 <= i < |lookups| ==> IsTable(i + 1, lookups[i])
  }

  /** Counts the confirmed fields of a line and their points and volts (Solver.cpp lines
      279-312 for a column, 382-415 for a row). */
  method TallyLine(board: array<bv8>, cells: seq<nat>) returns (t: Tally)
    requires InBoard(cells, board.Length)
    ensures t == LineTally(board[..], cells)
  {
    var confFieldCount, confPointCount, confVoltCount := 0, 0, 0;
    for j := 0 to |cells|
      invariant Tally(confFieldCount, confPointCount, confVoltCount) == LineTally(board[..], cells[..j])
    {
      assert cells[..j + 1][..j] == cells[..j];
      var memo := board[cells[j]];
      if memo & MEMO_CONF != 0 {
        confFieldCount := confFieldCount + 1;
        var v := memo & (MEMO_1 | MEMO_2 | MEMO_3 | MEMO_VOLT);
        if v == MEMO_1 {
          confPointCount := confPointCount + 1;
        } else if v == MEMO_2 {
          confPointCount := confPointCount + 2;
        } else if v == MEMO_3 {
          confPointCount := confPointCount + 3;
        } else if v == MEMO_VOLT {
          confVoltCount := confVoltCount + 1;
        }
      }
    }
    assert cells[..|cells|] == cells;
    t := Tally(confFieldCount, confPointCount, confVoltCount);
  }

  /** Writing a properly narrowed value into a board that refines b leaves a board that
      differs from b. */
  lemma NarrowStepChanges(prev: seq<bv8>, b: seq<bv8>, x: int, v: bv8)
    requires Refines(prev, b) && 0 <= x < |prev| && NoWider(v, prev[x]) && v != prev[x]
    ensures prev[x := v] != b
  {
    var next := prev[x := v];
    if prev != b {
      forall i | 0 <= i < |next| ensures NoWider(next[i], prev[i]) {
        NoWiderOrder(prev[i], prev[i], prev[i]);
      }
      RefinesNoReturn(next, prev, b);
    }
  }

  /** The solver's inline test for a single remaining value agrees with Narrow. */
  lemma NarrowBits(m: bv8, e: bv8)
    requires m & MEMO_CONF == 0
    ensures var n := m & e;
      (if (n ^ MEMO_1) == 0 || (n ^ MEMO_2) == 0 || (n ^ MEMO_3) == 0 || (n ^ MEMO_VOLT) == 0
       then n | MEMO_CONF else n) == Narrow(m, e)
  {
  }

  /** One step of the narrowing loop: the board after cells[..j] gets cell cells[j] narrowed,
      which is the board after cells[..j + 1]; if that changes the cell, the board now
      differs from b. */
  lemma NarrowStep(b: seq<bv8>, cells: seq<nat>, j: int, e: bv8, prev: seq<bv8>)
    requires InBoard(cells, |b|) && 0 <= j < |cells| && e & MEMO_CONF == 0
    requires prev == NarrowLine(b, cells[..j], e)
    ensures prev[cells[j] := Narrow(prev[cells[j]], e)] == NarrowLine(b, cells[..j + 1], e)
    ensures Narrow(prev[cells[j]], e) != prev[cells[j]] ==> prev[cells[j] := Narrow(prev[cells[j]], e)] != b
  {
    assert cells[..j + 1][..j] == cells[..j];
    var x := cells[j];
    NarrowLineCells(b, cells[..j], e);
    NarrowFacts(prev[x], e);
    if Narrow(prev[x], e) != prev[x] {
      NarrowStepChanges(prev, b, x, Narrow(prev[x], e));
    }
  }

  /** Narrows every unconfirmed cell of a line with the entry, confirming single values, and
      writes back the cells that change (Solver.cpp lines 339-358 for a column, 442-461 for
      a row). changed reports whether any cell changed. */
  method NarrowCells(board: array<bv8>, cells: seq<nat>, possibility: bv8) returns (changed: bool)
    requires InBoard(cells, board.Length) && possibility & MEMO_CONF == 0
    modifies board
    ensures board[..] == NarrowLine(old(board[..]), cells, possibility)
    ensures changed <==> board[..] != old(board[..])
  {
    ghost var b := board[..];
    changed := false;
    for j := 0 to |cells|
      invariant board[..] == NarrowLine(b, cells[..j], possibility)
      invariant changed <==> board[..] != b
    {
      NarrowStep(b, cells, j, possibility, board[..]);
      var cellChanged := NarrowCell(board, cells[j], possibility);
      if cellChanged {
        changed := true;
      }
    }
    assert cells[..|cells|] == cells;
  }

  /** Narrows one cell and writes it back only when it changes (the body of the loops at
      Solver.cpp lines 341-357 and 444-460). */
  method NarrowCell(board: array<bv8>, x: nat, possibility: bv8) returns (cellChanged: bool)
    requires x < board.Length && possibility & MEMO_CONF == 0
    modifies board
    ensures board[..] == old(board[..])[x := Narrow(old(board[x]), possibility)]
    ensures cellChanged <==> Narrow(old(board[x]), possibility) != old(board[x])
  {
    cellChanged := false;
    ghost var narrowed := Narrow(board[x], possibility);
    var memo := board[x];
    if memo & MEMO_CONF == 0 {
      memo := memo & possibility;
      if (memo ^ MEMO_1) == 0 || (memo ^ MEMO_2) == 0 || (memo ^ MEMO_3) == 0 || (memo ^ MEMO_VOLT) == 0 {
        memo := memo | MEMO_CONF;
      }
      NarrowBits(board[x], possibility);
      assert memo == narrowed;
      if memo != board[x] {
        board[x] := memo;
        cellChanged := true;
      }
    }
    assert board[..] == old(board[..])[x := narrowed];
  }

  /** Tallies, looks up and narrows one line of board in place (Solver.cpp lines 268-358
      for a column, 371-461 for a row; VFSolver.cpp lines 104-190 and 196-282): the board
      ends as SolveLine says, and changed reports whether any cell changed. */
  method SolveLineInPlace(board: array<bv8>, line: Line, lookups: seq<seq<bv8>>)
      returns (contradiction: bool, changed: bool)
    requires InBoard(line.cells, board.Length) && Tables(lookups) && |line.cells| <= |lookups|
    modifies board
    ensures var o := SolveLine(old(board[..]), line);
      && (contradiction <==> o.Contradicted?)
      && board[..] == (if o.Narrowed? then o.board else old(board[..]))
    ensures changed <==> board[..] != old(board[..])
  {
    ghost var b := board[..];
    SolveLineOutcome(b, line);
    var t := TallyLine(board, line.cells);
    var missingFields := |line.cells| - t.fields;
    if missingFields == 0 {
      return false, false;
    }
    var missingPoints := line.points - t.points;
    var missingVolts := line.volts - t.volts;
    assert MissingOf(b, line) == Missing(missingFields, missingPoints, missingVolts);
    if missingPoints < 0 || missingVolts < 0 {
      return true, false;
    }
    if !InTable(missingFields, missingVolts, missingPoints) {
      // GUARD: see SolveLine.
      return true, false;
    }
    var possIndex := LookupIndex(missingFields, missingVolts, missingPoints);
    var possibility := lookups[missingFields - 1][possIndex];
    assert possibility == Entry(missingFields, missingVolts, missingPoints);
    EntryBits(missingFields, missingVolts, missingPoints);
    var emptied := FindEmptied(board, line.cells, possibility);
    if emptied {
      // GUARD: see SolveLine.
      return true, false;
    }
    SolveLineNarrows(b, line);
    contradiction := false;
    changed := NarrowCells(board, line.cells, possibility);
  }

  /** GUARD (see SolveLine): looks for an unconfirmed cell of the line that the entry
      would leave with no value. */
  method FindEmptied(board: array<bv8>, cells: seq<nat>, possibility: bv8) returns (emptied: bool)
    requires InBoard(cells, board.Length)
    ensures emptied <==> Empties(board[..], cells, possibility)
  {
    ghost var b := board[..];
    for j := 0 to |cells|
      invariant forall i :: 0 <= i < j ==> !Emptied(b[cells[i]], possibility)
    {
      var memo := board[cells[j]];
      assert memo == b[cells[j]];
      if Emptied(memo, possibility) {
        return true;
      }
    }
    emptied := false;
  }

  /** A pass with no lines left reports whether anything changed and keeps the board. */
  lemma SweepDone(b: seq<bv8>, lines: seq<Line>, changed: bool)
    requires lines == []
    ensures Sweep(b, lines, changed) == Swept(if changed then Changed else NoChange, b)
  {
  }

  /** One line of a pass, in place: line k of the pass; the pass from line k on over the
      old board is the contradiction, or the pass from line k + 1 on over the new board. */
  method SolveLineOfPass(board: array<bv8>, line: Line, lookups: seq<seq<bv8>>, ghost lines: seq<Line>, ghost k: nat, changed: bool)
      returns (contradiction: bool, changed': bool)
    requires LinesInBoard(lines, board.Length) && k < |lines| && lines[k] == line
    requires Tables(lookups) && LinesFit(lines, |lookups|)
    modifies board
    ensures LinesInBoard(lines[k..], board.Length) && LinesInBoard(lines[k + 1..], board.Length)
    ensures contradiction ==> Sweep(old(board[..]), lines[k..], changed) == Swept(Contradiction, board[..])
    ensures !contradiction ==> Sweep(old(board[..]), lines[k..], changed) == Sweep(board[..], lines[k + 1..], changed')
  {
    ghost var b := board[..];
    LinesSuffix(lines, k, board.Length);
    LinesSuffix(lines, k + 1, board.Length);
    assert lines[k..][0] == line && lines[k..][1..] == lines[k + 1..];
    var lineChanged;
    contradiction, lineChanged := SolveLineInPlace(board, line, lookups);
    SweepStep(b, lines[k..], changed, board[..], contradiction, lineChanged);
    changed' := changed || lineChanged;
  }

  lemma LinesSuffix(lines: seq<Line>, k: nat, size: nat)
    requires LinesInBoard(lines, size) && k <= |lines|
    ensures LinesInBoard(lines[k..], size)
  {
    assert forall j :: 0 <= j < |lines| - k ==> lines[k..][j] == lines[k + j];
  }
}
