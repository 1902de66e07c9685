/**
 The main loops of both ends: one counter, incremented on every 10 ms turn and reset at 1500, drives
 pings with hello-age checks (every 200 counts), route repair (every 500) and the routing-table dump (at 1500).
 Because the reset goes back to 1, not 0, the real periods are uneven.
 */
module Ticks {
  import opened Basics

  const RESET_AT: int := 1500

  /** g_max_hello, five seconds, in 10 ms ticks. */
  const MAX_HELLO_TICKS: int := 500

  datatype Actions = Actions(checkPaths: bool, ping: bool, dump: bool)

  function ActionsFor(loopcount: nat): Actions {
    Actions(loopcount % 500 == 0, loopcount % 200 == 0, loopcount % 1500 == 0)
  }

  /** The counter as iteration k tests it: a cycle of 1499 values, 2 to 1500. */
  function Counter(k: nat): nat
    requires k >= 1
  {
    (k - 1) % 1499 + 2
  }

  predicate PingAt(k: nat) {
    k >= 1 && Counter(k) % 200 == 0
  }

  predicate CheckAt(k: nat) {
    k >= 1 && Counter(k) % 500 == 0
  }

  /** A hello age that kills a connection: strictly more than five seconds. */
  predicate HelloExpired(now: int, lastHello: int) {
    now - lastHello > MAX_HELLO_TICKS
  }

  lemma CounterNext(k: nat)
    ensures Counter(k + 1) == if k == 0 || Counter(k) == RESET_AT then 2 else Counter(k) + 1
    ensures Counter(k + 1) <= RESET_AT
  {
  }

  /** The first n turns of the loop, with what each of them did. */
  method RunLoop(n: nat) returns (log: seq<Actions>)
    ensures |log| == n
    ensures forall k :: 1 <= k <= n ==> log[k - 1] == ActionsFor(Counter(k))
    ensures forall k :: 1 <= k <= n ==>
      && (log[k - 1].ping <==> PingAt(k)) && (log[k - 1].checkPaths <==> CheckAt(k))
      && (log[k - 1].dump <==> Counter(k) == 1500)
  {
    var loopcount := 1;
    log := [];
    var k := 0;
    while k < n
      invariant 0 <= k == |log| <= n
      invariant loopcount == if k == 0 || Counter(k) == RESET_AT then 1 else Counter(k)
      invariant forall i :: 1 <= i <= k ==> log[i - 1] == ActionsFor(Counter(i))
    {
      CounterNext(k);
      loopcount := loopcount + 1;
      k := k + 1;
      log := log + [ActionsFor(loopcount)];
      if loopcount % RESET_AT == 0 {
        loopcount := 1;
      }
    }
  }

  /** Within one cycle the counter counts up, and past 1500 it starts again at 2. */
  lemma CounterAhead(i: nat)
    ensures forall x {:trigger Counter(x)} :: i < x <= i + 500 ==>
      Counter(x) == var c := (if i == 0 then 1500 else Counter(i)) + (x - i); if c <= 1500 then c else c - 1499
  {
  }

  /** The first ping after iteration i. */
  function NextPing(i: nat): (j: nat)
    ensures i < j <= i + 299 && PingAt(j)
    ensures forall x :: i < x < j ==> !PingAt(x)
  {
    CounterAhead(i);
    var c := if i == 0 then 1500 else Counter(i);
    if c < 1400 then i + (200 - c % 200) else i + (1500 - c) + 199
  }

  /** Consecutive pings are 200 iterations apart, except the one pair around the reset, which is 299 apart. */
  lemma PingGap(k: nat)
    requires PingAt(k)
    ensures NextPing(k) - k == if Counter(k) == 1400 then 299 else 200
  {
    assert Counter(k) <= 1500;
  }

  /** The first route check after iteration i. */
  function NextCheck(i: nat): (j: nat)
    ensures i < j <= i + 500 && CheckAt(j)
    ensures forall x :: i < x < j ==> !CheckAt(x)
  {
    CounterAhead(i);
    var c := if i == 0 then 1500 else Counter(i);
    if c < 1500 then i + (500 - c % 500) else i + 499
  }

  /** Consecutive checks are 500 iterations apart, except around the reset, where it is 499. */
  lemma CheckGap(k: nat)
    requires CheckAt(k)
    ensures NextCheck(k) - k == if Counter(k) == 1500 then 499 else 500
  {
    assert Counter(k) <= 1500;
  }

  /** Dumps come every 1499 iterations, the first at iteration 1499. */
  lemma DumpTimes(k: nat)
    requires k >= 1
    ensures Counter(k) == 1500 <==> k % 1499 == 0
  {
  }

  /**
   When a connection that last heard a frame at tick `last` is removed: at the first age check past its limit.
   No earlier check removes it, and the wait never exceeds 799 ticks; it reaches 799 exactly when a check
   falls on the last tolerated tick, just before the counter resets.
   */
  lemma SilentRemoval(last: nat)
    ensures var r := NextPing(last + 500);
            && PingAt(r) && HelloExpired(r, last)
            && (forall i :: last <= i < r && PingAt(i) ==> !HelloExpired(i, last))
            && last + 501 <= r <= last + 799
            && (r == last + 799 <==> Counter(last + 500) == 1400)
  {
    var r := NextPing(last + 500);
    if Counter(last + 500) == 1400 {
      PingGap(last + 500);
    }
  }
}
