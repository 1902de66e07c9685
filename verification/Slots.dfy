/**
 The search for a free conversation id above a tunnel id, in wrapping 32-bit arithmetic.
 The search bound T+10 is inclusive, so the search ends at T+11 when eleven ids are taken; the guard that
 should report exhaustion compares with T+100 instead.
 */
module Slots {
  import opened Arith
  import opened Basics

  /** The id j places above T, wrapping. */
  function IdAt(T: u32, j: nat): u32 {
    (T + j) % U32_RANGE
  }

  /**
   How many ids the loop may look at: its bound T+10 wraps too, and when it is the largest id it never stops the loop.
   */
  function Limit(T: u32): nat {
    if T + 11 < U32_RANGE then 11 else if T + 11 == U32_RANGE then U32_RANGE else 0
  }

  function FirstFree(T: u32, used: set<u32>, j: nat): (k: nat)
    requires j <= Limit(T)
    ensures j <= k <= Limit(T)
    ensures forall i :: j <= i < k ==> IdAt(T, i) in used
    ensures k < Limit(T) ==> IdAt(T, k) !in used
    decreases Limit(T) - j
  {
    if j == Limit(T) || IdAt(T, j) !in used then j else FirstFree(T, used, j + 1)
  }

  /** Where the search ends, or None when the guard fires. */
  function Slot(T: u32, used: set<u32>): Option<u32> {
    var c := IdAt(T, FirstFree(T, used, 0));
    if c == IdAt(T, 100) then None else Some(c)
  }

  /**
   For a tunnel id that leaves room above it, the search yields the lowest id from T on that is not in use,
   capped at T+11, and the guard never fires.
   */
  lemma SlotIsLowestFree(T: u32, used: set<u32>)
    requires T + 11 < U32_RANGE
    ensures Slot(T, used).Some?
    ensures var c := Slot(T, used).value;
            && T <= c <= T + 11
            && (forall d {:trigger d in used} :: T <= d < c ==> d in used)
            && (c <= T + 10 ==> c !in used)
  {
    var k := FirstFree(T, used, 0);
    forall d: u32 | T <= d < T + k
      ensures d in used
    {
      assert IdAt(T, d - T) == d;
    }
  }

  /** Near the top of the id space the bound wraps below T: the search looks at nothing and returns T, in use or not. */
  lemma SlotNearTheTop(T: u32, used: set<u32>)
    requires T + 11 > U32_RANGE
    ensures Slot(T, used) == Some(T)
  {
  }

  // ----- how far from T an id can be -----

  /**
   How many ids connects can use: twelve where there is room above T; one where the bound wraps; and for the one T
   in between a hundred, because there the guard does work and T+100 is never given out.
   */
  function Places(T: u32): nat {
    if T + 11 < U32_RANGE then 12 else if T + 11 == U32_RANGE then 100 else 1
  }

  function Offset(T: u32, c: u32): nat {
    if T <= c then c - T else c - T + U32_RANGE
  }

  lemma IdAtOffset(T: u32, c: u32)
    ensures Offset(T, c) < U32_RANGE && IdAt(T, Offset(T, c)) == c
  {
  }

  lemma OffsetOfIdAt(T: u32, j: nat)
    requires j < U32_RANGE
    ensures Offset(T, IdAt(T, j)) == j
    ensures IdAt(T, j) == if T + j < U32_RANGE then T + j else T + j - U32_RANGE
  {
  }

  /** A set of ids none of which is n or more places above T has at most n members. */
  lemma {:induction false} OffsetCard(T: u32, ids: set<u32>, n: nat)
    requires n <= U32_RANGE && forall c :: c in ids ==> Offset(T, c) < n
    ensures |ids| <= n
  {
    if n > 0 {
      var last := IdAt(T, n - 1);
      forall c | c in ids - {last}
        ensures Offset(T, c) < n - 1
      {
        IdAtOffset(T, c);
      }
      OffsetCard(T, ids - {last}, n - 1);
    } else if c :| c in ids {
      assert false;
    }
  }

  lemma {:induction false} WindowCard(T: u32, used: set<u32>, k: nat)
    requires k <= U32_RANGE
    requires forall i :: 0 <= i < k ==> IdAt(T, i) in used
    ensures |used| >= k
  {
    if k > 0 {
      var last := IdAt(T, k - 1);
      forall i | 0 <= i < k - 1
        ensures IdAt(T, i) in used - {last}
      {
        assert IdAt(T, i) != last;
      }
      WindowCard(T, used - {last}, k - 1);
    }
  }

  lemma IdAtNext(T: u32, j: nat)
    ensures IdAt(IdAt(T, j), 1) == IdAt(T, j + 1)
  {
    var q, x := (T + j) / U32_RANGE, IdAt(T, j);
    assert T + j == q * U32_RANGE + x;
    if x + 1 < U32_RANGE {
      DivModUnique(T + j + 1, U32_RANGE, q, x + 1);
    } else {
      DivModUnique(T + j + 1, U32_RANGE, q + 1, 0);
    }
  }

  /** The loop condition, in wrapping arithmetic, holds for exactly the first Limit(T) places. */
  lemma BoundIsLimit(T: u32, j: nat)
    requires j <= Limit(T) && j < U32_RANGE
    ensures IdAt(T, j) <= IdAt(T, 10) <==> j < Limit(T)
  {
  }

  /** The search loop of client_connect_server; it ends because the table cannot hold every 32-bit id. */
  method Search(T: u32, used: set<u32>) returns (avail: u32)
    requires |used| < U32_RANGE
    ensures avail == IdAt(T, FirstFree(T, used, 0))
  {
    var bound := IdAt(T, 10);
    avail := T;
    ghost var steps: nat := 0;
    while avail <= bound
      invariant steps <= Limit(T) && avail == IdAt(T, steps)
      invariant FirstFree(T, used, steps) == FirstFree(T, used, 0)
      invariant forall i :: 0 <= i < steps ==> IdAt(T, i) in used
      invariant steps < U32_RANGE
      decreases Limit(T) - steps
    {
      BoundIsLimit(T, steps);
      if avail !in used {
        return;
      }
      WindowCard(T, used, steps + 1);
      IdAtNext(T, steps);
      avail := IdAt(avail, 1);
      steps := steps + 1;
    }
    BoundIsLimit(T, steps);
  }

  method FindSlot(T: u32, used: set<u32>) returns (r: Option<u32>)
    requires |used| < U32_RANGE
    ensures r == Slot(T, used)
  {
    var avail := Search(T, used);
    if avail == IdAt(T, 100) {
      return None;
    }
    return Some(avail);
  }
}
