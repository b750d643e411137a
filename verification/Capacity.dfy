/** Size, capacity and copying cost of DualDynamicArray, apart from what it stores. */
module Capacity {
  const MIN_DDA_SIZE: nat := 16

  /** copied counts the elements that reallocations have copied, per array, since construction. */
  datatype Extent = Extent(size: nat, cap: nat, copied: nat)

  const FRESH: Extent := Extent(0, MIN_DDA_SIZE, 0)

  function Grow(e: Extent): Extent {
    if e.size + 1 > e.cap then Extent(e.size, 2 * e.cap, e.copied + e.size) else e
  }

  function Shrink(e: Extent): Extent {
    if e.size == e.cap / 2 && e.size > 16 then Extent(e.size, e.cap / 2, e.copied + e.size) else e
  }

  function AfterAdd(e: Extent): Extent { var g := Grow(e); g.(size := g.size + 1) }

  /** Removal of a present key. */
  function AfterRemove(e: Extent): Extent
    requires e.size > 0
  {
    Shrink(e.(size := e.size - 1))
  }

  /** Effect of a list of operations: true adds, false removes a present key (nothing to do when empty). */
  function After(e: Extent, ops: seq<bool>): Extent {
    if ops == [] then e
    else
      var b := After(e, ops[..|ops| - 1]);
      if ops[|ops| - 1] then AfterAdd(b) else if b.size > 0 then AfterRemove(b) else b
  }

  // ---------- The capacity invariant ----------

  function Pow2(k: nat): (p: nat)
    ensures p >= 1
  {
    if k == 0 then 1 else 2 * Pow2(k - 1)
  }

  predicate Legal(cap: nat, k: nat) { cap == 16 * Pow2(k) }

  ghost predicate CapInv(e: Extent) {
    && (exists k: nat :: Legal(e.cap, k))
    && e.size <= e.cap
    && (e.cap <= 32 || e.cap < 2 * e.size)
  }

  lemma HalfIsLegal(cap: nat, k: nat)
    requires Legal(cap, k) && cap > 16
    ensures k > 0 && Legal(cap / 2, k - 1) && cap % 2 == 0 && Legal(2 * cap, k + 1)
  {
  }

  lemma CapInvAdd(e: Extent)
    requires CapInv(e)
    ensures CapInv(AfterAdd(e))
  {
    var k: nat :| Legal(e.cap, k);
    assert Legal(2 * e.cap, k + 1);
  }

  lemma CapInvRemove(e: Extent)
    requires CapInv(e) && e.size > 0
    ensures CapInv(AfterRemove(e))
    ensures e.cap >= 32 ==> AfterRemove(e).cap >= 32
  {
    var k: nat :| Legal(e.cap, k);
    if e.cap > 16 {
      HalfIsLegal(e.cap, k);
      if k > 1 { HalfIsLegal(e.cap / 2, k - 1); }
    }
  }

  /** Holds after every sequence of adds and removes. */
  lemma {:induction false} CapInvAlways(ops: seq<bool>)
    ensures CapInv(After(FRESH, ops))
  {
    if ops == [] {
      assert Legal(16, 0);
    } else {
      CapInvAlways(ops[..|ops| - 1]);
      var b := After(FRESH, ops[..|ops| - 1]);
      CapInvAdd(b);
      if b.size > 0 { CapInvRemove(b); }
    }
  }

  lemma {:induction false} Pow2Gap(j: nat, k: nat)
    requires j < k
    ensures 2 * Pow2(j) <= Pow2(k)
  {
    if j + 1 < k { Pow2Gap(j, k - 1); }
  }

  /** Above 16 elements the history does not matter: the capacity is a function of the size. */
  lemma CapIsFunctionOfSize(ops1: seq<bool>, ops2: seq<bool>)
    requires After(FRESH, ops1).size == After(FRESH, ops2).size > 16
    ensures After(FRESH, ops1).cap == After(FRESH, ops2).cap
  {
    CapInvAlways(ops1);
    CapInvAlways(ops2);
    var a, b := After(FRESH, ops1), After(FRESH, ops2);
    var j: nat :| Legal(a.cap, j);
    var k: nat :| Legal(b.cap, k);
    if j < k { Pow2Gap(j, k); } else if k < j { Pow2Gap(k, j); }
  }

  /** Up to 16 elements it does matter: the array remembers having held more than 16. */
  lemma {:induction false} CapNeverReturnsTo16(ops: seq<bool>, more: seq<bool>)
    requires After(FRESH, ops).cap >= 32
    ensures After(After(FRESH, ops), more).cap >= 32
  {
    CapInvAfter(ops, more);
  }

  lemma {:induction false} CapInvAfter(ops: seq<bool>, more: seq<bool>)
    ensures CapInv(After(After(FRESH, ops), more))
    ensures After(FRESH, ops).cap >= 32 ==> After(After(FRESH, ops), more).cap >= 32
  {
    CapInvAlways(ops);
    if more != [] {
      CapInvAfter(ops, more[..|more| - 1]);
      var b := After(After(FRESH, ops), more[..|more| - 1]);
      CapInvAdd(b);
      if b.size > 0 { CapInvRemove(b); }
    }
  }

  // ---------- What reallocation costs ----------

  function Adds(n: nat): (ops: seq<bool>) { seq(n, _ => true) }

  lemma {:induction false} AddsOnly(n: nat)
    ensures var e := After(FRESH, Adds(n));
            e.size == n <= e.cap && e.copied == e.cap - 16 && (e.cap == 16 || n > e.cap / 2)
  {
    if n > 0 {
      AddsOnly(n - 1);
      assert Adds(n)[..n - 1] == Adds(n - 1);
    }
  }

  /** Amortized constant: n adds to a fresh array copy fewer than 2n elements of each array. */
  lemma GrowingIsLinear(n: nat)
    requires n > 0
    ensures After(FRESH, Adds(n)).copied < 2 * n
  {
    AddsOnly(n);
  }

  /** m times add, then remove. */
  function AddRemove(m: nat): (ops: seq<bool>)
    ensures |ops| == 2 * m
  {
    if m == 0 then [] else AddRemove(m - 1) + [true, false]
  }

  lemma AfterSnoc(e: Extent, ops: seq<bool>, op: bool)
    ensures var b := After(e, ops);
            After(e, ops + [op]) == if op then AfterAdd(b) else if b.size > 0 then AfterRemove(b) else b
  {
    assert (ops + [op])[..|ops|] == ops;
  }

  /** Not so for a mix: at a full array every add/remove pair reallocates twice, and this never stops. */
  lemma {:induction false} FullArrayThrashes(e: Extent, m: nat)
    requires CapInv(e) && e.size == e.cap >= 32
    ensures After(e, AddRemove(m)) == Extent(e.size, e.cap, e.copied + 2 * e.cap * m)
  {
    if m == 0 {
      assert 2 * e.cap * m == 0;
    } else {
      var b := After(e, AddRemove(m - 1));
      FullArrayThrashes(e, m - 1);
      PairThrashes(b);
      AfterPair(e, m);
      Distribute(2 * e.cap, m);
    }
  }

  lemma Distribute(c: nat, m: nat)
    requires m > 0
    ensures c * m == c * (m - 1) + c
  {
  }

  lemma AfterPair(e: Extent, m: nat)
    requires m > 0
    ensures After(e, AddRemove(m)) == AfterRemove(AfterAdd(After(e, AddRemove(m - 1))))
  {
    var ops := AddRemove(m - 1);
    AfterSnoc(e, ops, true);
    AfterSnoc(e, ops + [true], false);
    assert ops + [true] + [false] == AddRemove(m);
  }

  lemma PairThrashes(e: Extent)
    requires e.size == e.cap >= 32
    ensures AfterRemove(AfterAdd(e)) == Extent(e.size, e.cap, e.copied + 2 * e.cap)
  {
  }

  /** Such full arrays are reached: 32 * 2^k adds fill one. */
  lemma {:induction false} FullArraysAreReached(k: nat)
    ensures var n := 32 * Pow2(k);
            After(FRESH, Adds(n)).size == After(FRESH, Adds(n)).cap == n
  {
    var n := 32 * Pow2(k);
    AddsOnly(n);
    CapInvAlways(Adds(n));
    assert n == 16 * Pow2(k + 1);
    LegalIsUnique(After(FRESH, Adds(n)).cap, n, k + 1);
  }

  lemma LegalIsUnique(cap: nat, n: nat, k: nat)
    requires (exists j: nat :: Legal(cap, j)) && Legal(n, k) && cap / 2 < n <= cap
    ensures cap == n
  {
    var j: nat :| Legal(cap, j);
    if j < k { Pow2Gap(j, k); } else if k < j { Pow2Gap(k, j); }
  }
}
