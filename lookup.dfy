/** The lookup builder (CreateLookupArrays) and the slot arithmetic shared with the solver.
    For L unknown fields the table holds (L + 1)^2 one-byte entries, one per volt count B
    in 0..L and missing point total P in L - B .. 3(L - B), laid out volt count by volt count. */
module Lookup {
  import opened Memo
  import opened Fillings

  /** First slot of volt count B in the table for L unknown fields: the point ranges of the
      volt counts before it, each 2(L - b) + 1 long, laid end to end. */
  function SlotBase(L: int, B: nat): int {
    if B == 0 then 0 else SlotBase(L, B - 1) + 2 * (L - (B - 1)) + 1
  }

  /** Slot of (B, P) in the table for L unknown fields. */
  function Slot(L: int, B: nat, P: int): int {
    SlotBase(L, B) + P - (L - B)
  }

  /** (B, P) has a slot in the table for L unknown fields. */
  predicate InTable(L: int, B: int, P: int) {
    0 <= B <= L && L - B <= P <= 3 * (L - B)
  }

  /** t is the lookup table for L unknown fields. */
  ghost predicate IsTable(L: nat, t: seq<bv8>) {
    |t| == (L + 1) * (L + 1) &&
    forall B: nat, P :: InTable(L, B, P) ==> 0 <= Slot(L, B, P) < |t| && t[Slot(L, B, P)] == Entry(L, B, P)
  }

  // ---------------------------------------------------------------------------------
  // Slot arithmetic

  /** Closed form of SlotBase: the volt counts 0..B-1 take B(2L + 2 - B) slots, so all L + 1
      volt counts take exactly (L + 1)^2. */
  lemma {:induction false} SlotBaseClosed(L: int, B: nat)
    ensures SlotBase(L, B) == B * (2 * L + 2 - B)
  {
    if B > 0 {
      SlotBaseClosed(L, B - 1);
    }
  }

  lemma TableSize(L: nat)
    ensures SlotBase(L, L + 1) == (L + 1) * (L + 1)
  {
    SlotBaseClosed(L, L + 1);
  }

  lemma {:induction false} SlotBaseMono(L: int, b: nat, c: nat)
    requires b < c <= L + 1
    ensures SlotBase(L, b) + 2 * (L - b) + 1 <= SlotBase(L, c)
  {
    if b < c - 1 {
      SlotBaseMono(L, b, c - 1);
    }
  }

  /** The slot of every (B, P) in the table lies in B's own range and inside the table. */
  lemma SlotInRange(L: nat, B: nat, P: int)
    requires InTable(L, B, P)
    ensures SlotBase(L, B) <= Slot(L, B, P) < SlotBase(L, B + 1)
    ensures 0 <= Slot(L, B, P) < (L + 1) * (L + 1)
  {
    TableSize(L);
    if B > 0 {
      SlotBaseMono(L, 0, B);
    }
    if B + 1 < L + 1 {
      SlotBaseMono(L, B + 1, L + 1);
    }
  }

  /** Distinct (B, P) pairs get distinct slots. */
  lemma SlotInjective(L: nat, B1: nat, P1: int, B2: nat, P2: int)
    requires InTable(L, B1, P1) && InTable(L, B2, P2)
    requires Slot(L, B1, P1) == Slot(L, B2, P2)
    ensures B1 == B2 && P1 == P2
  {
    SlotInRange(L, B1, P1);
    SlotInRange(L, B2, P2);
    if B1 < B2 {
      SlotBaseMono(L, B1, B2);
    } else if B2 < B1 {
      SlotBaseMono(L, B2, B1);
    }
  }

  /** Every slot of the table belongs to some (B, P): the builder leaves no slot unvisited. */
  lemma SlotsCover(L: nat, k: int)
    requires 0 <= k < (L + 1) * (L + 1)
    ensures exists B: nat, P :: InTable(L, B, P) && Slot(L, B, P) == k
  {
    TableSize(L);
    var B := CoveringVoltCount(L, k, L + 1);
    assert InTable(L, B, k - SlotBase(L, B) + (L - B));
  }

  lemma {:induction false} CoveringVoltCount(L: nat, k: int, c: nat) returns (B: nat)
    requires 0 <= k < SlotBase(L, c) && c <= L + 1
    ensures B < c && SlotBase(L, B) <= k < SlotBase(L, B + 1)
  {
    assert c > 0;
    if k >= SlotBase(L, c - 1) {
      B := c - 1;
    } else {
      B := CoveringVoltCount(L, k, c - 1);
    }
  }

  /** The lookup index computation of the solver (Solver.cpp lines 327-333): the point
      ranges of the volt counts below missingVolts, then the offset of missingPoints. */
  method LookupIndex(missingFields: nat, missingVolts: nat, missingPoints: nat) returns (possIndex: nat)
    requires InTable(missingFields, missingVolts, missingPoints)
    ensures possIndex == Slot(missingFields, missingVolts, missingPoints)
    ensures possIndex < (missingFields + 1) * (missingFields + 1)
  {
    possIndex := 0;
    var voltCount := 0;
    while voltCount < missingVolts
      invariant voltCount <= missingVolts
      invariant possIndex == SlotBase(missingFields, voltCount)
    {
      var pointFields := missingFields - voltCount;
      possIndex := possIndex + (pointFields * 3 - pointFields * 1 + 1);
      voltCount := voltCount + 1;
    }
    possIndex := possIndex + (missingPoints - (missingFields - missingVolts) * 1);
    SlotInRange(missingFields, missingVolts, missingPoints);
  }

  const U32: int := 0x1_0000_0000

  /** SlotBase as the solver computes it (Solver.cpp lines 327-332), in 32-bit unsigned
      arithmetic: the point field count L - b wraps once b exceeds L. */
  function SlotBaseAsWritten(L: nat, B: nat): (r: nat)
    ensures r < U32
  {
    if B == 0 then 0
    else
      var pointFields := (L - (B - 1)) % U32;
      (SlotBaseAsWritten(L, B - 1) + (pointFields * 3 - pointFields * 1 + 1) % U32) % U32
  }

  /** The lookup index exactly as written (Solver.cpp lines 327-333), for missing counts the
      solver has already found non-negative but never compares with the line length or the
      point range: every step is taken modulo 2^32. */
  function LookupIndexAsWritten(L: nat, B: nat, P: nat): (r: nat)
    ensures r < U32
  {
    (SlotBaseAsWritten(L, B) + (P - (L - B) % U32) % U32) % U32
  }

  /** On a line of one unknown field with two volts missing, the written index is 5, past
      the end of the four-entry table. */
  lemma LookupIndexAsWrittenOverruns()
    ensures !InTable(1, 2, 0) && LookupIndexAsWritten(1, 2, 0) == 5 >= (1 + 1) * (1 + 1)
  {
  }

  /** On a line of one unknown field with four points missing, the written index is 3: the
      slot of one volt and no points, whose entry says the field is a volt. The solver would
      mark the field as a volt rather than find the line contradictory. */
  lemma LookupIndexAsWrittenAliases()
    ensures !InTable(1, 0, 4) && InTable(1, 1, 0)
    ensures LookupIndexAsWritten(1, 0, 4) == Slot(1, 1, 0) == 3
    ensures Entry(1, 1, 0) == MEMO_VOLT
  {
  }

  /** For counts that have a slot in a table of fewer than 2^15 fields, the written index
      is the slot: the finding above is only about counts outside the table. */
  lemma LookupIndexAsWrittenInTable(L: nat, B: nat, P: nat)
    requires InTable(L, B, P) && L < 0x8000
    ensures LookupIndexAsWritten(L, B, P) == Slot(L, B, P)
  {
    SlotBaseAsWrittenAgrees(L, B);
    var base, offset := SlotBase(L, B), P - (L - B);
    assert base + offset < 0x4000_0000 by {
      SlotBaseMono(L, B, L + 1);
      SmallTable(L);
    }
    U32Id(L - B);
    U32Id(offset);
    U32Id(base + offset);
  }

  lemma {:induction false} SlotBaseAsWrittenAgrees(L: nat, B: nat)
    requires B <= L < 0x8000
    ensures SlotBaseAsWritten(L, B) == SlotBase(L, B)
  {
    if B > 0 {
      SlotBaseAsWrittenAgrees(L, B - 1);
      SlotBaseMono(L, B - 1, L + 1);
      SmallTable(L);
      var pointFields := L - (B - 1);
      U32Id(pointFields);
      U32Id(pointFields * 3 - pointFields * 1 + 1);
      U32Id(SlotBase(L, B));
    }
  }

  lemma U32Id(x: int)
    requires 0 <= x < U32
    ensures x % U32 == x
  {
  }

  lemma SmallTable(L: nat)
    requires L < 0x8000
    ensures SlotBase(L, L + 1) <= 0x4000_0000
  {
    TableSize(L);
    MulBelow(L + 1, 0x8000);
  }

  lemma MulBelow(a: nat, c: nat)
    requires a <= c
    ensures a * a <= c * c
  {
    assert a * a <= a * c;
  }

  // ---------------------------------------------------------------------------------
  // The points buffer

  /** Gap between entry k and the entry o places before it. */
  function Gap(s: seq<int>, o: int, k: int): int
    requires 0 <= o <= k < |s|
  {
    s[k] - s[k - o]
  }

  /** The entry at k can give one point to the entry o places before it. */
  predicate CanTransfer(s: seq<int>, o: int, k: int) {
    1 <= o <= k < |s| && Gap(s, o, k) > 1
  }

  /** No transfer is possible: the enumeration of this (L, B, P) ends. */
  ghost predicate NoTransfer(s: seq<int>) {
    forall o, k :: 1 <= o <= k < |s| ==> Gap(s, o, k) <= 1
  }

  /** The buffer after moving one point from entry k to entry k - o. */
  function Moved(s: seq<int>, o: int, k: int): seq<int>
    requires 1 <= o <= k < |s|
  {
    s[k := s[k] - 1][k - o := s[k - o] + 1]
  }

  /** A transfer keeps the buffer a filling of the same total and strictly lowers the
      sum of squares, so the enumeration of each (L, B, P) terminates. */
  lemma TransferFacts(s: seq<int>, o: int, k: int)
    requires InRange(s) && CanTransfer(s, o, k)
    ensures InRange(Moved(s, o, k))
    ensures Sum(Moved(s, o, k)) == Sum(s)
    ensures SumSq(Moved(s, o, k)) < SumSq(s)
  {
    var t := s[k := s[k] - 1];
    SumUpdate(s, k, s[k] - 1);
    SumUpdate(t, k - o, s[k - o] + 1);
  }

  /** A transfer on a buffer of ones and threes creates a two. */
  lemma TransferMakesTwo(s: seq<int>, o: int, k: int)
    requires CanTransfer(s, o, k)
    requires forall i :: 0 <= i < |s| ==> s[i] == 1 || s[i] == 3
    ensures 2 in Moved(s, o, k)
  {
    assert Moved(s, o, k)[k - o] == 2;
  }

  /** Bumps the last entry below 3 (Solver.cpp lines 151-157). j is the bumped index, or
      -1 when every entry is 3 and nothing changes. */
  method BumpLast(points: array<int>) returns (ghost j: int)
    modifies points
    ensures -1 <= j < points.Length
    ensures forall k :: j < k < points.Length ==> old(points[..])[k] == 3
    ensures j == -1 ==> points[..] == old(points[..])
    ensures j >= 0 ==> old(points[..])[j] != 3 && points[..] == old(points[..])[j := old(points[j]) + 1]
  {
    var i := points.Length - 1;
    while i >= 0
      invariant -1 <= i < points.Length
      invariant forall k :: i < k < points.Length ==> points[k] == 3
      invariant points[..] == old(points[..])
    {
      if points[i] == 3 {
        i := i - 1;
        continue;
      }
      points[i] := points[i] + 1;
      return i;
    }
    j := -1;
  }

  /** Recomputes the buffer's total and the OR of its value bits (Solver.cpp lines 160-166). */
  method TallyPoints(points: array<int>) returns (pointTotal: int, possibility: bv8)
    ensures pointTotal == Sum(points[..])
    ensures possibility == ValueMask(points[..])
  {
    pointTotal, possibility := 0, 0;
    for j := 0 to points.Length
      invariant pointTotal == Sum(points[..j])
      invariant possibility == ValueMask(points[..j])
    {
      assert points[..j + 1][..j] == points[..j];
      pointTotal := pointTotal + points[j];
      possibility := possibility | (if points[j] == 1 then MEMO_1 else if points[j] == 2 then MEMO_2 else MEMO_3);
    }
    assert points[..points.Length] == points[..];
  }

  /** Looks for the next filling (Solver.cpp lines 175-190): offsets from 1 up, and for each
      offset indices from the back, the first entry more than one above the entry offset
      places before it gives that entry one point. */
  method Transfer(points: array<int>) returns (found: bool, ghost off: int, ghost j: int)
    modifies points
    ensures found ==> CanTransfer(old(points[..]), off, j) && points[..] == Moved(old(points[..]), off, j)
    ensures found ==> forall o, k :: 1 <= o < off && o <= k < points.Length ==> Gap(old(points[..]), o, k) <= 1
    ensures found ==> forall k :: j < k < points.Length ==> Gap(old(points[..]), off, k) <= 1
    ensures !found ==> points[..] == old(points[..]) && NoTransfer(points[..])
  {
    var n := points.Length;
    var indexOffset := 1;
    while indexOffset < n
      invariant 1 <= indexOffset
      invariant n > 0 ==> indexOffset <= n
      invariant points[..] == old(points[..])
      invariant forall o, k :: 1 <= o < indexOffset && o <= k < n ==> Gap(points[..], o, k) <= 1
    {
      var i := n - 1;
      while i > indexOffset - 1
        invariant indexOffset - 1 <= i <= n - 1
        invariant forall k :: i < k < n ==> Gap(points[..], indexOffset, k) <= 1
      {
        if points[i] > points[i - indexOffset] + 1 {
          assert Gap(points[..], indexOffset, i) > 1;
          points[i] := points[i] - 1;
          points[i - indexOffset] := points[i - indexOffset] + 1;
          return true, indexOffset, i;
        }
        i := i - 1;
      }
      indexOffset := indexOffset + 1;
    }
    found, off, j := false, 0, 0;
  }

  /** What the enumeration has recorded so far covers ValueBits(n, p): found holds no bit
      outside it, holds its 1 and 3 bits, and its 2 bit unless the current buffer has a 2
      still to be recorded. */
  ghost predicate Covered(found: bv8, s: seq<int>, n: int, p: int) {
    found & !ValueBits(n, p) == 0
    && found & (MEMO_1 | MEMO_3) == ValueBits(n, p) & (MEMO_1 | MEMO_3)
    && (Usable(n, p, 2) ==> found & MEMO_2 != 0 || 2 in s)
  }

  /** Recording a filling, then transferring: the record covers ValueBits(n, p) for the
      moved buffer, which is again a filling with the same total and a smaller sum of
      squares. The first filling recorded is the greedy one. */
  lemma RecordThenTransfer(started: bool, found: bv8, s: seq<int>, P: int, t: nat, o: int, k: int)
    requires Enumerating(s, P, P, found, started, t) && CanTransfer(s, o, k)
    ensures Enumerating(Moved(s, o, k), P, P, found | ValueMask(s), true, t)
    ensures SumSq(Moved(s, o, k)) < SumSq(s)
  {
    var n := |s|;
    var f := found | ValueMask(s);
    TransferFacts(s, o, k);
    FillingMaskSound(s, n, P);
    ValueMaskHas(s, 2);
    ValueMaskHas(s, 1);
    if !started {
      GreedyMask(n, t);
      if Usable(n, P, 2) && f & MEMO_2 == 0 {
        GreedyEvenEnds(n, t);
        TransferMakesTwo(s, o, k);
      }
    }
  }

  /** Recording a filling and then trying a transfer: see RecordThenTransfer and
      RecordLast. */
  lemma RecordStep(started: bool, found: bv8, possibility: bv8, s: seq<int>, s': seq<int>, P: int, t: nat, moved: bool, o: int, k: int)
    requires Enumerating(s, P, P, found, started, t) && possibility == ValueMask(s)
    requires moved ==> CanTransfer(s, o, k) && s' == Moved(s, o, k)
    requires !moved ==> NoTransfer(s) && s' == s
    ensures moved ==> Enumerating(s', P, P, found | possibility, true, t) && SumSq(s') < SumSq(s)
    ensures !moved ==> found | possibility == ValueBits(|s|, P)
  {
    if moved {
      RecordThenTransfer(started, found, s, P, t, o, k);
    } else {
      RecordLast(started, found, s, P, t);
    }
  }

  /** Recording the last filling, after which no transfer is possible, completes the
      record: it is then exactly ValueBits(n, p). */
  lemma RecordLast(started: bool, found: bv8, s: seq<int>, P: int, t: nat)
    requires Enumerating(s, P, P, found, started, t) && NoTransfer(s)
    ensures found | ValueMask(s) == ValueBits(|s|, P)
  {
    var n := |s|;
    FillingMaskSound(s, n, P);
    ValueMaskHas(s, 2);
    ValueMaskHas(s, 1);
    if !started {
      GreedyMask(n, t);
      if Usable(n, P, 2) && t % 2 == 0 {
        GreedyCanTransfer(n, t);
        assert false;
      }
    }
  }

  /** The greedy buffer with an even, interior t still allows a transfer: its last entry is
      a 3 and its first a 1. */
  lemma GreedyCanTransfer(n: nat, t: nat)
    requires 2 <= t <= 2 * n - 2 && t % 2 == 0
    ensures CanTransfer(Greedy(n, t), n - 1, n - 1)
  {
    GreedyEvenEnds(n, t);
  }

  /** Bumping the last entry below 3 of the greedy buffer for t gives the one for t + 1. */
  lemma BumpedGreedy(pre: seq<int>, post: seq<int>, n: nat, t: nat, j: int)
    requires t < 2 * n && pre == Greedy(n, t)
    requires -1 <= j < n && forall k :: j < k < n ==> pre[k] == 3
    requires j == -1 ==> post == pre
    requires j >= 0 ==> pre[j] != 3 && post == pre[j := pre[j] + 1]
    ensures post == Greedy(n, t + 1) && IsFilling(post, n, n + t + 1)
  {
    GreedyAt(n, t, n - t / 2 - 1);
    GreedyBump(n, t, j);
    GreedyIsFilling(n, t + 1);
  }

  /** Enumerates the fillings of points.Length fields summing to missingPoints
      (Solver.cpp lines 144-193) and returns the OR of the value bits of every filling it
      visits: exactly the values that some filling uses. */
  method Enumerate(points: array<int>, missingPoints: int) returns (found: bv8)
    requires points.Length <= missingPoints <= 3 * points.Length
    modifies points
    ensures found == ValueBits(points.Length, missingPoints)
  {
    var n, P := points.Length, missingPoints;
    forall k | 0 <= k < n {
      points[k] := 1;
    }
    GreedyStart(n);
    GreedyIsFilling(n, 0);
    assert points[..] == Greedy(n, 0);
    var pointTotal := n;
    found := 0;
    ghost var started := false;
    ghost var t: nat := 0;
    while true
      invariant Enumerating(points[..], P, pointTotal, found, started, t)
      decreases P - pointTotal, SumSq(points[..])
    {
      var done;
      pointTotal, found, done, started, t := EnumerateStep(points, P, pointTotal, found, started, t);
      if done {
        break;
      }
    }
  }

  /** The state of the enumeration loop: the buffer is a filling of its length with total
      pointTotal; before the first recorded filling it is greedy, afterwards every value
      of a filling not yet visited is already recorded. */
  ghost predicate Enumerating(s: seq<int>, P: int, pointTotal: int, found: bv8, started: bool, t: nat) {
    var n := |s|;
    InRange(s) && pointTotal == Sum(s) && n <= pointTotal <= P <= 3 * n
    && (!started ==> found == 0 && pointTotal == n + t && t <= 2 * n && s == Greedy(n, t))
    && (started ==> pointTotal == P && Covered(found, s, n, P))
  }

  /** One pass of the enumeration loop (Solver.cpp lines 152-192): bump the buffer while
      its total is short of the target; at the target, record it and transfer. The pass
      either finishes with every usable value recorded or lowers the loop's measure. */
  method EnumerateStep(points: array<int>, P: int, pointTotal: int, found: bv8, ghost started: bool, ghost t: nat)
      returns (pointTotal': int, found': bv8, done: bool, ghost started': bool, ghost t': nat)
    requires Enumerating(points[..], P, pointTotal, found, started, t)
    modifies points
    ensures done ==> found' == ValueBits(points.Length, P)
    ensures !done ==> Enumerating(points[..], P, pointTotal', found', started', t')
    ensures !done ==> (P - pointTotal' < P - pointTotal
                       || (pointTotal' == pointTotal && SumSq(points[..]) < SumSq(old(points[..]))))
  {
    started', t', found', done := started, t, found, false;
    if pointTotal < P {
      BumpGreedy(points, P, pointTotal, found, t);
      t' := t + 1;
    }
    var possibility;
    pointTotal', possibility := TallyPoints(points);
    if pointTotal' == P {
      var moved;
      found', moved := RecordAndTransfer(points, found, possibility, started, t', P);
      done := !moved;
      started' := true;
    }
  }

  /** The bump step on a greedy buffer short of the target: it moves on to the next
      greedy buffer, one point closer to the target. */
  method BumpGreedy(points: array<int>, P: int, pointTotal: int, found: bv8, ghost t: nat)
    requires Enumerating(points[..], P, pointTotal, found, false, t) && pointTotal < P
    modifies points
    ensures Enumerating(points[..], P, pointTotal + 1, found, false, t + 1)
  {
    ghost var pre := points[..];
    ghost var j := BumpLast(points);
    BumpedGreedy(pre, points[..], points.Length, t, j);
  }

  /** One filling with the right total (Solver.cpp lines 171-192): record its value bits,
      then look for the next filling by a transfer. */
  method RecordAndTransfer(points: array<int>, found: bv8, possibility: bv8, ghost started: bool, ghost t: nat, ghost P: int)
      returns (recorded: bv8, moved: bool)
    requires Enumerating(points[..], P, P, found, started, t) && possibility == ValueMask(points[..])
    modifies points
    ensures recorded == found | possibility
    ensures moved ==> Enumerating(points[..], P, P, recorded, true, t)
    ensures moved ==> SumSq(points[..]) < SumSq(old(points[..]))
    ensures !moved ==> recorded == ValueBits(points.Length, P)
  {
    ghost var before := points[..];
    recorded := found | possibility;
    ghost var off, j;
    moved, off, j := Transfer(points);
    RecordStep(started, found, possibility, before, points[..], P, t, moved, off, j);
  }

  // ---------------------------------------------------------------------------------
  // The tables

  /** The slots of the pairs visited before (B, P) -- every smaller volt count, and the
      smaller point totals of B -- all lie below Slot(L, B, P). */
  lemma EarlierSlot(L: nat, B1: nat, P1: int, B: nat, P: int)
    requires InTable(L, B1, P1) && InTable(L, B, P)
    requires B1 < B || (B1 == B && P1 < P)
    ensures Slot(L, B1, P1) < Slot(L, B, P)
  {
    SlotInRange(L, B1, P1);
    if B1 + 1 < B {
      SlotBaseMono(L, B1 + 1, B);
    }
  }

  /** The entries of the pairs visited before (B, P) are in place and the slots from
      Slot(L, B, P) on are still zero. */
  ghost predicate FilledUpTo(L: nat, t: seq<bv8>, B: nat, P: int, next: int) {
    |t| == (L + 1) * (L + 1) && 0 <= next <= |t|
    && (forall B1: nat, P1 :: InTable(L, B1, P1) && (B1 < B || (B1 == B && P1 < P)) ==>
          0 <= Slot(L, B1, P1) < |t| && t[Slot(L, B1, P1)] == Entry(L, B1, P1))
    && (forall k :: next <= k < |t| ==> t[k] == 0)
  }

  /** A slot that starts at zero, gains MEMO_VOLT when volts are missing and then the
      value bits of the fillings holds the table entry. */
  lemma EntryAssembled(v: bv8, L: int, B: int, P: int, possibility: bv8)
    requires v == if B > 0 then 0 | MEMO_VOLT else 0
    requires possibility == ValueBits(L - B, P)
    ensures v | possibility == Entry(L, B, P)
  {
  }

  /** Builds the table for missingFields unknown fields (Solver.cpp lines 124-203): volt
      count by volt count, point total by point total, each slot gets MEMO_VOLT when volts
      are missing and the value bits of every filling of the point fields. */
  method BuildTable(missingFields: nat) returns (table: array<bv8>)
    ensures fresh(table)
    ensures IsTable(missingFields, table[..])
  {
    var L := missingFields;
    var possibilities := (L + 1) * (L + 1);
    table := new bv8[possibilities](_ => 0);
    var possIndex := 0;
    for voltCount := 0 to L + 1
      invariant possIndex == SlotBase(L, voltCount)
      invariant FilledUpTo(L, table[..], voltCount, 0, possIndex)
    {
      possIndex := FillVoltCount(table, L, voltCount, possIndex);
    }
    TableSize(L);
    forall B: nat, P | InTable(L, B, P) ensures 0 <= Slot(L, B, P) < |table[..]| {
      SlotInRange(L, B, P);
    }
  }

  /** The slots of one volt count (Solver.cpp lines 135-200): a fresh points buffer for
      its point fields, then one slot per missing point total. */
  method FillVoltCount(table: array<bv8>, L: nat, voltCount: nat, possIndex: int) returns (next: int)
    requires voltCount <= L && possIndex == SlotBase(L, voltCount)
    requires FilledUpTo(L, table[..], voltCount, 0, possIndex)
    modifies table
    ensures next == SlotBase(L, voltCount + 1)
    ensures FilledUpTo(L, table[..], voltCount + 1, 0, next)
  {
    var pointFields := L - voltCount;
    var points := new int[pointFields];
    next := possIndex;
    for missingPoints := pointFields * 1 to pointFields * 3 + 1
      invariant next == SlotBase(L, voltCount) + missingPoints - pointFields
      invariant FilledUpTo(L, table[..], voltCount, missingPoints, next)
    {
      FillSlot(table, points, L, voltCount, missingPoints, next);
      next := next + 1;
    }
  }

  /** One slot (Solver.cpp lines 141-197): MEMO_VOLT when volts are missing, then the value
      bits of every filling the enumeration visits. */
  method FillSlot(table: array<bv8>, points: array<int>, L: nat, voltCount: nat, missingPoints: int, possIndex: int)
    requires points.Length == L - voltCount && InTable(L, voltCount, missingPoints)
    requires possIndex == Slot(L, voltCount, missingPoints)
    requires FilledUpTo(L, table[..], voltCount, missingPoints, possIndex)
    modifies table, points
    ensures FilledUpTo(L, table[..], voltCount, missingPoints + 1, possIndex + 1)
  {
    SlotInRange(L, voltCount, missingPoints);
    ghost var before := table[..];
    if voltCount > 0 {
      table[possIndex] := table[possIndex] | MEMO_VOLT;
    }
    var possibility := Enumerate(points, missingPoints);
    EntryAssembled(table[possIndex], L, voltCount, missingPoints, possibility);
    table[possIndex] := table[possIndex] | possibility;
    forall B1: nat, P1 | InTable(L, B1, P1) && (B1 < voltCount || (B1 == voltCount && P1 < missingPoints))
      ensures table[Slot(L, B1, P1)] == before[Slot(L, B1, P1)]
    {
      EarlierSlot(L, B1, P1, voltCount, missingPoints);
    }
  }

  /** The lookup tables for every line length 1..maxLength (Solver.cpp lines 118-207):
      entry i is the table for i + 1 unknown fields. */
  method CreateLookupArrays(maxLength: nat) returns (lookups: seq<seq<bv8>>)
    ensures |lookups| == maxLength
    ensures forall i :: 0 <= i < maxLength ==> IsTable(i + 1, lookups[i])
  {
    lookups := [];
    for i := 0 to maxLength
      invariant |lookups| == i
      invariant forall k :: 0 <= k < i ==> IsTable(k + 1, lookups[k])
    {
      var missingFields := i + 1;
      var table := BuildTable(missingFields);
      lookups := lookups + [table[..]];
    }
  }
}
