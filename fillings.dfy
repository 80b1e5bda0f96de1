/** Fillings of a line's point fields: the combinatorics behind the lookup tables.
    A filling of n point fields is a sequence of n values from {1, 2, 3}; the builder's
    `points` buffer holds one at a time. */
module Fillings {
  import opened Memo

  /** Sum of a points buffer (summed from the front, as the builder's tally loop does). */
  function Sum(s: seq<int>): int {
    if s == [] then 0 else Sum(s[..|s| - 1]) + s[|s| - 1]
  }

  /** Sum of squares of a points buffer: the measure every transfer lowers. */
  function SumSq(s: seq<int>): nat {
    if s == [] then 0 else SumSq(s[..|s| - 1]) + s[|s| - 1] * s[|s| - 1]
  }

  ghost predicate InRange(s: seq<int>) {
    forall i :: 0 <= i < |s| ==> 1 <= s[i] <= 3
  }

  /** s fills n point fields with values from {1, 2, 3} summing to p. */
  ghost predicate IsFilling(s: seq<int>, n: int, p: int) {
    |s| == n && InRange(s) && Sum(s) == p
  }

  /** The value bit the builder records for one field: 1, 2, and everything else as 3. */
  function ValueBit(x: int): bv8 {
    if x == 1 then MEMO_1 else if x == 2 then MEMO_2 else MEMO_3
  }

  /** The OR of the value bits of a points buffer (the builder's `possibility`). */
  function ValueMask(s: seq<int>): bv8 {
    if s == [] then 0 else ValueMask(s[..|s| - 1]) | ValueBit(s[|s| - 1])
  }

  /** Closed form: value k can take a place in some filling of n fields summing to p
      exactly when the other n - 1 fields can make up p - k. */
  predicate Usable(n: int, p: int, k: int) {
    n >= 1 && n - 1 <= p - k <= 3 * (n - 1)
  }

  /** The value bits usable in a filling of n fields summing to p. */
  function ValueBits(n: int, p: int): bv8 {
    (if Usable(n, p, 1) then MEMO_1 else 0)
    | (if Usable(n, p, 2) then MEMO_2 else 0)
    | (if Usable(n, p, 3) then MEMO_3 else 0)
  }

  /** The lookup entry for L unknown fields of which B are volts, missing P points. */
  function Entry(L: int, B: int, P: int): bv8 {
    (if B > 0 then MEMO_VOLT else 0) | ValueBits(L - B, P)
  }

  /** An entry holds MEMO_VOLT exactly when volts are missing, never MEMO_CONF, and a value
      bit exactly when that value can appear in some filling of the point fields. */
  lemma EntryBits(L: int, B: int, P: int)
    ensures Entry(L, B, P) & MEMO_VOLT != 0 <==> B > 0
    ensures Entry(L, B, P) & MEMO_CONF == 0
    ensures Entry(L, B, P) & !MEMO_ALL == 0
    ensures forall k :: 1 <= k <= 3 ==> (Entry(L, B, P) & ValueBit(k) != 0 <==> Usable(L - B, P, k))
  {
  }

  // ---------------------------------------------------------------------------------
  // Sums

  lemma {:induction false} SumUpdate(s: seq<int>, i: int, x: int)
    requires 0 <= i < |s|
    ensures Sum(s[i := x]) == Sum(s) - s[i] + x
    ensures SumSq(s[i := x]) == SumSq(s) - s[i] * s[i] + x * x
  {
    var t := s[i := x];
    if i < |s| - 1 {
      assert t[..|t| - 1] == s[..|s| - 1][i := x];
      SumUpdate(s[..|s| - 1], i, x);
    } else {
      assert t[..|t| - 1] == s[..|s| - 1];
    }
  }

  lemma {:induction false} SumConcat(a: seq<int>, b: seq<int>)
    ensures Sum(a + b) == Sum(a) + Sum(b)
  {
    if b != [] {
      assert (a + b)[..|a + b| - 1] == a + b[..|b| - 1];
      SumConcat(a, b[..|b| - 1]);
    } else {
      assert a + b == a;
    }
  }

  lemma {:induction false} SumConst(c: int, k: nat)
    ensures Sum(seq(k, _ => c)) == c * k
  {
    if k > 0 {
      assert seq(k, _ => c)[..k - 1] == seq(k - 1, _ => c);
      SumConst(c, k - 1);
    }
  }

  /** A filling of n fields sums to between n and 3n. */
  lemma {:induction false} SumBounds(s: seq<int>)
    requires InRange(s)
    ensures |s| <= Sum(s) <= 3 * |s|
  {
    if s != [] {
      SumBounds(s[..|s| - 1]);
    }
  }

  // ---------------------------------------------------------------------------------
  // Value masks

  /** The mask of a buffer holds the bit of value k exactly when k occurs in it,
      and holds nothing beyond MEMO_1 | MEMO_2 | MEMO_3. */
  lemma {:induction false} ValueMaskHas(s: seq<int>, k: int)
    requires InRange(s) && 1 <= k <= 3
    ensures ValueMask(s) & ValueBit(k) != 0 <==> k in s
    ensures ValueMask(s) & !0x07 == 0
  {
    if s != [] {
      var init := s[..|s| - 1];
      ValueMaskHas(init, k);
      assert s == init + [s[|s| - 1]];
      assert k in s <==> k in init || k == s[|s| - 1];
    }
  }

  /** Every value of a filling satisfies the closed form. */
  lemma FillingValueUsable(s: seq<int>, n: int, p: int, i: int)
    requires IsFilling(s, n, p) && 0 <= i < |s|
    ensures Usable(n, p, s[i])
  {
    SumUpdate(s, i, 1);
    SumUpdate(s, i, 3);
    SumBounds(s[i := 1]);
    SumBounds(s[i := 3]);
  }

  /** The mask of any filling lies within ValueBits: the builder never records a value that
      no filling can use. */
  lemma FillingMaskSound(s: seq<int>, n: int, p: int)
    requires IsFilling(s, n, p)
    ensures ValueMask(s) & !ValueBits(n, p) == 0
  {
    forall k | 1 <= k <= 3
      ensures ValueMask(s) & ValueBit(k) != 0 ==> Usable(n, p, k)
    {
      ValueMaskHas(s, k);
      if k in s {
        var i :| 0 <= i < |s| && s[i] == k;
        FillingValueUsable(s, n, p, i);
      }
    }
    ValueMaskHas(s, 1);
  }

  // ---------------------------------------------------------------------------------
  // The greedy filling: ones, then at most one two, then threes

  /** The buffer the builder reaches from all ones after t bumps of the last entry below 3. */
  function Greedy(n: nat, t: nat): (g: seq<int>)
    requires t <= 2 * n
    ensures |g| == n
  {
    seq(n - t / 2 - t % 2, _ => 1) + seq(t % 2, _ => 2) + seq(t / 2, _ => 3)
  }

  lemma GreedyAt(n: nat, t: nat, i: int)
    requires t <= 2 * n && 0 <= i < n
    ensures Greedy(n, t)[i] == if i < n - t / 2 - t % 2 then 1 else if i < n - t / 2 then 2 else 3
  {
  }

  /** The greedy buffer is a filling of n fields summing to n + t. */
  lemma GreedyIsFilling(n: nat, t: nat)
    requires t <= 2 * n
    ensures IsFilling(Greedy(n, t), n, n + t)
  {
    var a, b, c := seq(n - t / 2 - t % 2, _ => 1), seq(t % 2, _ => 2), seq(t / 2, _ => 3);
    SumConcat(a + b, c);
    SumConcat(a, b);
    SumConst(1, |a|);
    SumConst(2, |b|);
    SumConst(3, |c|);
    forall i | 0 <= i < n ensures 1 <= Greedy(n, t)[i] <= 3 {
      GreedyAt(n, t, i);
    }
  }

  lemma GreedyStart(n: nat)
    ensures Greedy(n, 0) == seq(n, _ => 1)
  {
  }

  /** Bumping the last entry below 3 of Greedy(n, t) gives Greedy(n, t + 1). */
  lemma GreedyBump(n: nat, t: nat, j: int)
    requires t < 2 * n && 0 <= j < n
    requires Greedy(n, t)[j] != 3
    requires forall k :: j < k < n ==> Greedy(n, t)[k] == 3
    ensures Greedy(n, t)[j := Greedy(n, t)[j] + 1] == Greedy(n, t + 1)
  {
    var g, h := Greedy(n, t), Greedy(n, t + 1);
    GreedyAt(n, t, j);
    if j + 1 < n { GreedyAt(n, t, j + 1); }
    forall i | 0 <= i < n ensures g[j := g[j] + 1][i] == h[i] {
      GreedyAt(n, t, i);
      GreedyAt(n, t + 1, i);
    }
  }

  /** The greedy buffer holds a 1 and a 3 whenever the closed form allows them, and a 2
      when t is odd. */
  lemma GreedyMask(n: nat, t: nat)
    requires t <= 2 * n
    ensures ValueMask(Greedy(n, t)) & MEMO_1 == ValueBits(n, n + t) & MEMO_1
    ensures ValueMask(Greedy(n, t)) & MEMO_3 == ValueBits(n, n + t) & MEMO_3
    ensures t % 2 == 1 ==> ValueMask(Greedy(n, t)) & MEMO_2 != 0
  {
    var g := Greedy(n, t);
    GreedyIsFilling(n, t);
    FillingMaskSound(g, n, n + t);
    ValueMaskHas(g, 1);
    ValueMaskHas(g, 2);
    ValueMaskHas(g, 3);
    if Usable(n, n + t, 1) {
      GreedyAt(n, t, 0);
    }
    if Usable(n, n + t, 3) {
      GreedyAt(n, t, n - 1);
    }
    if t % 2 == 1 {
      GreedyAt(n, t, n - t / 2 - 1);
    }
  }

  /** A greedy buffer with an even, interior t holds a 1 at the front and a 3 at the back. */
  lemma GreedyEvenEnds(n: nat, t: nat)
    requires 2 <= t <= 2 * n - 2 && t % 2 == 0
    ensures Greedy(n, t)[0] == 1 && Greedy(n, t)[n - 1] == 3
    ensures forall i :: 0 <= i < n ==> Greedy(n, t)[i] == 1 || Greedy(n, t)[i] == 3
  {
    GreedyAt(n, t, 0);
    GreedyAt(n, t, n - 1);
    forall i | 0 <= i < n ensures Greedy(n, t)[i] == 1 || Greedy(n, t)[i] == 3 {
      GreedyAt(n, t, i);
    }
  }

  // ---------------------------------------------------------------------------------
  // Meaning of ValueBits

  /** Value bit k of ValueBits(n, p) is set exactly when some filling of n fields summing
      to p uses k. */
  lemma ValueBitsMeaning(n: nat, p: int, k: int)
    requires 1 <= k <= 3
    ensures ValueBits(n, p) & ValueBit(k) != 0 <==> exists s :: IsFilling(s, n, p) && k in s
  {
    if ValueBits(n, p) & ValueBit(k) != 0 {
      assert Usable(n, p, k);
      var t := p - k - (n - 1);
      GreedyIsFilling(n - 1, t);
      var s := [k] + Greedy(n - 1, t);
      SumConcat([k], Greedy(n - 1, t));
      assert Sum([k]) == k by { assert [k][..0] == []; }
      assert s[0] == k;
      assert IsFilling(s, n, p);
    }
    if s :| IsFilling(s, n, p) && k in s {
      var i :| 0 <= i < |s| && s[i] == k;
      FillingValueUsable(s, n, p, i);
    }
  }

  /** Some filling of n fields sums to p. */
  ghost predicate Fillable(n: int, p: int) {
    exists s :: IsFilling(s, n, p)
  }

  /** n fields can be filled to sum p exactly when n <= p <= 3n. */
  lemma FillableRange(n: nat, p: int)
    ensures Fillable(n, p) <==> n <= p <= 3 * n
  {
    if n <= p <= 3 * n {
      GreedyIsFilling(n, p - n);
    }
    if s :| IsFilling(s, n, p) {
      SumBounds(s);
    }
  }
}
