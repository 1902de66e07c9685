/**
 How evenly round robin spreads packets. A run is a sequence of picks, each from whatever table there is at the
 time and in whatever order it is ranged, and of cursor resets, which every table change brings. The tunnel loop
 picks without the lock, so its pick may fall apart into a look at the table and a later settling on the entry found;
 what comes in between are resets and, right after a closing, the pick for its LINKDOWN.
 */
module RoundRobin {
  import opened Basics
  import opened ConnTable

  datatype Turn = Pick(conns: Conns, c: u32) | Reset | Look(conns: Conns, c: u32) | Settle

  /** The entry the tunnel loop has found and not settled on yet. */
  function Pending(run: seq<Turn>): Option<u32> {
    if run == [] then None
    else match run[|run| - 1]
      case Look(_, c) => Some(c)
      case Settle => None
      case _ => Pending(run[..|run| - 1])
  }

  /** The link the last turn of the run decides for. */
  function Chosen(run: seq<Turn>): Option<u32> {
    if run == [] then None
    else match run[|run| - 1]
      case Pick(_, c) => Some(c)
      case Settle => Pending(run[..|run| - 1])
      case _ => None
  }

  function Cursor(run: seq<Turn>): u32 {
    if run == [] then 0
    else match run[|run| - 1]
      case Pick(_, c) => c
      case Reset => 0
      case Look(_, _) => Cursor(run[..|run| - 1])
      case Settle => if Chosen(run).Some? then Chosen(run).value else 0
  }

  /** One the chooser can make, from at least two entries, all alive. */
  ghost predicate LegalPick(conns: Conns, cursor: u32, c: u32) {
    && |conns.Keys| >= 2
    && (forall d :: d in conns ==> conns[d].alive)
    && RoundRobinPick(Table(conns, {}, cursor), c)
  }

  ghost predicate Legal(run: seq<Turn>) {
    run == [] ||
    var before := run[..|run| - 1];
    && Legal(before)
    && match run[|run| - 1]
       case Pick(conns, c) =>
         LegalPick(conns, Cursor(before), c) && (Pending(before).Some? ==> before[|before| - 1].Reset?)
       case Look(conns, c) => LegalPick(conns, Cursor(before), c) && Pending(before).None?
       case Settle => Pending(before).Some?
       case Reset => true
  }

  function Picks(run: seq<Turn>): nat {
    if run == [] then 0 else Picks(run[..|run| - 1]) + (if Chosen(run).Some? then 1 else 0)
  }

  function Resets(run: seq<Turn>): nat {
    if run == [] then 0 else Resets(run[..|run| - 1]) + (if run[|run| - 1].Reset? then 1 else 0)
  }

  function PicksOf(run: seq<Turn>, x: u32): nat {
    if run == [] then 0 else PicksOf(run[..|run| - 1], x) + (if Chosen(run) == Some(x) then 1 else 0)
  }

  /** With two entries alive, the link used last is never picked next. */
  lemma NeverTheLastOne(t: Table, c: u32)
    requires |t.conns.Keys| >= 2 && RoundRobinPick(t, c)
    requires forall d :: d in t.conns ==> t.conns[d].alive
    ensures c != t.cursor
  {
    if forall d :: d in t.conns.Keys ==> d == t.cursor {
      SubsetCard(t.conns.Keys, {t.cursor});
      assert false;
    }
    var d :| d in t.conns.Keys && d != t.cursor;
    assert t.conns[d].alive;
  }

  /** An entry found while the cursor was elsewhere leaves room for one more pick of it, a reset for yet another. */
  lemma {:induction false} ShareInvariant(run: seq<Turn>, x: u32)
    requires Legal(run)
    ensures 2 * PicksOf(run, x) <= Picks(run) + Resets(run) + (if Cursor(run) == x then 1 else 0)
    ensures Pending(run) == Some(x) ==>
      2 * PicksOf(run, x) + (if run[|run| - 1].Reset? then 1 else 0) <= Picks(run) + Resets(run)
  {
    if run != [] {
      var before, last := run[..|run| - 1], run[|run| - 1];
      ShareInvariant(before, x);
      if last.Pick? || last.Look? {
        NeverTheLastOne(Table(last.conns, {}, Cursor(before)), last.c);
      }
    }
  }

  /** Of k picks with r resets among them, no link gets more than (k + r + 1) / 2. */
  lemma ShareBound(run: seq<Turn>, x: u32)
    requires Legal(run)
    ensures PicksOf(run, x) <= (Picks(run) + Resets(run) + 1) / 2
  {
    ShareInvariant(run, x);
  }

  // ----- the largest share -----

  /** Two links, both up. */
  function Pair(x: u32, y: u32): Conns {
    map[x := NewConn(x, "", "", 0), y := NewConn(y, "", "", 0)]
  }

  /** A run with no pick pending, its numbers of picks and resets, those of one link, and where it leaves the cursor. */
  ghost predicate Tally(run: seq<Turn>, k: nat, r: nat, x: u32, n: nat, cursor: u32) {
    && Legal(run) && Pending(run).None? && Cursor(run) == cursor
    && Picks(run) == k && Resets(run) == r && PicksOf(run, x) == n
  }

  lemma TallyReset(run: seq<Turn>, k: nat, r: nat, x: u32, n: nat, cursor: u32)
    requires Tally(run, k, r, x, n, cursor)
    ensures Tally(run + [Reset], k, r + 1, x, n, 0)
  {
    assert (run + [Reset])[..|run + [Reset]| - 1] == run;
  }

  lemma TallyPick(run: seq<Turn>, k: nat, r: nat, x: u32, n: nat, cursor: u32, c: u32, d: u32)
    requires Tally(run, k, r, x, n, cursor) && c != d && c != cursor
    ensures Tally(run + [Pick(Pair(c, d), c)], k + 1, r, x, n + (if c == x then 1 else 0), c)
  {
    var more := run + [Pick(Pair(c, d), c)];
    assert more[..|more| - 1] == run;
    var both: set<u32> := {c, d};
    assert |both| == 2 && Pair(c, d).Keys == both;
  }

  /** With a reset after every pick, one link takes them all. */
  lemma {:induction false} TakesAll(k: nat, r: nat, x: u32, y: u32) returns (run: seq<Turn>)
    requires x != 0 && x != y && r >= k
    ensures Tally(run, k, r, x, k, 0)
    decreases k + r
  {
    if r == 0 {
      run := [];
    } else if r == k {
      run := TakesAll(k - 1, r - 1, x, y);
      TallyPick(run, k - 1, r - 1, x, k - 1, 0, x, y);
      run := run + [Pick(Pair(x, y), x)];
      TallyReset(run, k, r - 1, x, k, x);
      run := run + [Reset];
    } else {
      run := TakesAll(k, r - 1, x, y);
      TallyReset(run, k, r - 1, x, k, 0);
      run := run + [Reset];
    }
  }

  /** From a reset on, one link takes every other of m more picks, the first among them. */
  lemma {:induction false} TakesEveryOther(k: nat, m: nat, x: u32, y: u32) returns (run: seq<Turn>)
    requires x != 0 && x != y && y != 0
    ensures Tally(run, k + m, k, x, k + (m + 1) / 2, if m == 0 then 0 else if m % 2 == 1 then x else y)
    decreases m
  {
    if m == 0 {
      run := TakesAll(k, k, x, y);
    } else {
      run := TakesEveryOther(k, m - 1, x, y);
      var cursor := if m == 1 then 0 else if m % 2 == 1 then y else x;
      var c, d := if m % 2 == 1 then x else y, if m % 2 == 1 then y else x;
      TallyPick(run, k + m - 1, k, x, k + m / 2, cursor, c, d);
      run := run + [Pick(Pair(c, d), c)];
    }
  }

  ghost predicate CanGet(k: nat, r: nat, n: nat) {
    exists run, x :: Legal(run) && Picks(run) == k && Resets(run) == r && PicksOf(run, x) == n
  }

  function LargestShare(k: nat, r: nat): nat {
    if r >= k then k else (k + r + 1) / 2
  }

  /** The bound is reached for all numbers of picks and resets. */
  lemma ShareBoundIsReached(k: nat, r: nat)
    ensures CanGet(k, r, LargestShare(k, r))
  {
    if r >= k {
      var run := TakesAll(k, r, 1, 2);
    } else {
      var run := TakesEveryOther(r, k - r, 1, 2);
      assert PicksOf(run, 1) == LargestShare(k, r);
    }
  }

  lemma {:induction false} NoMoreThanAll(run: seq<Turn>, x: u32)
    ensures PicksOf(run, x) <= Picks(run)
  {
    if run != [] {
      NoMoreThanAll(run[..|run| - 1], x);
    }
  }

  /** So the largest share of k picks with r resets is known exactly. */
  lemma LargestShareIsExact(k: nat, r: nat)
    ensures CanGet(k, r, LargestShare(k, r))
    ensures forall n: nat :: CanGet(k, r, n) ==> n <= LargestShare(k, r)
  {
    ShareBoundIsReached(k, r);
    forall n: nat | CanGet(k, r, n)
      ensures n <= LargestShare(k, r)
    {
      var run, x :| Legal(run) && Picks(run) == k && Resets(run) == r && PicksOf(run, x) == n;
      ShareBound(run, x);
      NoMoreThanAll(run, x);
    }
  }

  /** Every pick is made between the same two links. */
  ghost predicate BetweenTwo(run: seq<Turn>, a: u32, b: u32) {
    forall i :: 0 <= i < |run| ==> run[i].Pick? && run[i].conns.Keys == {a, b}
  }

  /** Two stable links strictly alternate, so their counts never differ by more than one. */
  lemma {:induction false} TwoLinksAlternate(run: seq<Turn>, a: u32, b: u32)
    requires Legal(run) && a != b && BetweenTwo(run, a, b)
    ensures var d := PicksOf(run, a) - PicksOf(run, b);
            if run == [] then d == 0 else if Cursor(run) == a then 0 <= d <= 1 else Cursor(run) == b && -1 <= d <= 0
  {
    if run != [] {
      var before, last := run[..|run| - 1], run[|run| - 1];
      TwoLinksAlternate(before, a, b);
      NeverTheLastOne(Table(last.conns, {}, Cursor(before)), last.c);
    }
  }
}
