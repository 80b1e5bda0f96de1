/** Cell memos of the Voltorb Flip board: the MEMO_TYPE bits of the solver header. */
module Memo {

  /** Field could be a 1. */
  const MEMO_1: bv8 := 0x01
  /** Field could be a 2. */
  const MEMO_2: bv8 := 0x02
  /** Field could be a 3. */
  const MEMO_3: bv8 := 0x04
  /** Field could be a volt. */
  const MEMO_VOLT: bv8 := 0x08
  /** Field is confirmed. */
  const MEMO_CONF: bv8 := 0x10
  /** All four value bits: MEMO_1 | MEMO_2 | MEMO_3 | MEMO_VOLT, the memo of a blank cell. */
  const MEMO_ALL: bv8 := 0x0F

  /** The argument type of SetMemo: one of the five enumerators of MEMO_TYPE. */
  type MemoType = m: bv8 | m == MEMO_1 || m == MEMO_2 || m == MEMO_3 || m == MEMO_VOLT || m == MEMO_CONF
    witness MEMO_1

  predicate SingleBit(b: bv8) {
    b != 0 && b & (b - 1) == 0
  }

  /** The five memo bits are distinct single bits, the confirmed bit is not a value bit,
      and MEMO_ALL is exactly the union of the four value bits. */
  lemma MemoBitsLayout()
    ensures SingleBit(MEMO_1) && SingleBit(MEMO_2) && SingleBit(MEMO_3)
    ensures SingleBit(MEMO_VOLT) && SingleBit(MEMO_CONF)
    ensures MEMO_1 & MEMO_2 == 0 && MEMO_1 & MEMO_3 == 0 && MEMO_1 & MEMO_VOLT == 0
    ensures MEMO_2 & MEMO_3 == 0 && MEMO_2 & MEMO_VOLT == 0 && MEMO_3 & MEMO_VOLT == 0
    ensures MEMO_CONF & MEMO_ALL == 0
    ensures MEMO_ALL == MEMO_1 | MEMO_2 | MEMO_3 | MEMO_VOLT
  {
  }

  /** Number of the four value bits set in m. */
  function ValueCount(m: bv8): nat {
    (if m & MEMO_1 != 0 then 1 else 0) + (if m & MEMO_2 != 0 then 1 else 0)
    + (if m & MEMO_3 != 0 then 1 else 0) + (if m & MEMO_VOLT != 0 then 1 else 0)
  }

  /** m names exactly one value and carries no other bit. */
  predicate IsSingleValue(m: bv8) {
    m & !MEMO_ALL == 0 && ValueCount(m) == 1
  }

  /** The narrowing step the solver applies to one cell of a line: a confirmed cell is
      skipped; otherwise the memo is intersected with the line's lookup entry, and it is
      marked confirmed when exactly one value remains. */
  function Narrow(m: bv8, entry: bv8): (r: bv8)
    ensures m & MEMO_CONF != 0 ==> r == m
    ensures m & MEMO_CONF == 0 ==> r & !MEMO_CONF == m & entry & !MEMO_CONF
    ensures m & MEMO_CONF == 0 && entry & MEMO_CONF == 0 ==>
              (r & MEMO_CONF != 0 <==> IsSingleValue(m & entry))
  {
    if m & MEMO_CONF != 0 then m
    else
      var n := m & entry;
      if n == MEMO_1 || n == MEMO_2 || n == MEMO_3 || n == MEMO_VOLT then n | MEMO_CONF else n
  }

  /** a is b, or b is unconfirmed and a keeps no bit (other than the confirmed bit) that b lacks.
      This is the order in which propagation moves a cell. */
  predicate NoWider(a: bv8, b: bv8) {
    a & !b & !MEMO_CONF == 0 && (b & MEMO_CONF != 0 ==> a == b)
  }

  /** Bits other than MEMO_CONF that are set, plus one while the cell is unconfirmed.
      Every proper narrowing lowers it. */
  function Rank(m: bv8): nat {
    (if m & 0x01 != 0 then 1 else 0) + (if m & 0x02 != 0 then 1 else 0)
    + (if m & 0x04 != 0 then 1 else 0) + (if m & 0x08 != 0 then 1 else 0)
    + (if m & 0x20 != 0 then 1 else 0) + (if m & 0x40 != 0 then 1 else 0)
    + (if m & 0x80 != 0 then 1 else 0) + (if m & MEMO_CONF == 0 then 1 else 0)
  }

  /** Narrowing with an entry that has no confirmed bit never widens a cell, and is idempotent. */
  lemma NarrowFacts(m: bv8, entry: bv8)
    requires entry & MEMO_CONF == 0
    ensures NoWider(Narrow(m, entry), m)
    ensures Narrow(Narrow(m, entry), entry) == Narrow(m, entry)
  {
  }

  lemma NoWiderOrder(a: bv8, b: bv8, c: bv8)
    ensures NoWider(a, a)
    ensures NoWider(a, b) && NoWider(b, c) ==> NoWider(a, c)
    ensures NoWider(a, b) && NoWider(b, a) ==> a == b
    ensures NoWider(a, b) ==> Rank(a) <= Rank(b)
    ensures NoWider(a, b) && a != b ==> Rank(a) < Rank(b)
  {
  }
}
