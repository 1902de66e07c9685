/**
 Overlapping connects. client_connect_server checks the per-source cap under the lock, releases it while it
 searches for an id one table lookup at a time, and takes it again to insert; other goroutines may run between
 any two of these steps. At most k connects are in progress at once.
 */
module ConnectRace {
  import opened Basics
  import opened ConnTable
  import opened Slots

  /** A connect past the cap check: where its search stands, and whether it has ended. */
  datatype Attempt = Attempt(src: string, ifname: string, avail: u32, ended: bool)

  datatype Race = Race(table: Table, pending: map<nat, Attempt>)

  datatype Step =
    | Check(p: nat, src: string, ifname: string)
    | Probe(p: nat)
    | Finish(p: nat, now: int)
    | CloseStep(c: u32)

  predicate Enabled(s: Race, k: nat, step: Step) {
    match step
    case Check(p, _, _) => p !in s.pending && |s.pending| < k
    case Probe(p) => p in s.pending && !s.pending[p].ended
    case Finish(p, _) => p in s.pending && s.pending[p].ended
    case CloseStep(_) => true
  }

  /** One look at the table: the search ends past its bound or on a free id, and moves on otherwise. */
  function ProbeOnce(a: Attempt, T: u32, used: set<u32>): Attempt {
    if a.avail > IdAt(T, 10) || a.avail !in used then a.(ended := true) else a.(avail := IdAt(a.avail, 1))
  }

  function Do(s: Race, T: u32, muxMax: nat, k: nat, step: Step): Race
    requires Enabled(s, k, step)
  {
    match step
    case Check(p, src, ifname) =>
      if CountSrc(s.table.conns, src) >= muxMax then s
      else s.(pending := s.pending[p := Attempt(src, ifname, T, false)])
    case Probe(p) =>
      s.(pending := s.pending[p := ProbeOnce(s.pending[p], T, s.table.conns.Keys)])
    case Finish(p, now) =>
      var a := s.pending[p];
      Race(if a.avail == IdAt(T, 100) then s.table
           else Insert(s.table, a.avail, NewConn(a.avail, a.src, a.ifname, now)),
           s.pending - {p})
    case CloseStep(c) =>
      s.(table := Close(s.table, c))
  }

  /** The state after a schedule, or None if it asks for a step that is not enabled. */
  function Exec(T: u32, muxMax: nat, k: nat, steps: seq<Step>): Option<Race> {
    if steps == [] then Some(Race(Empty(), map[]))
    else
      match Exec(T, muxMax, k, steps[..|steps| - 1])
      case None => None
      case Some(s) =>
        var step := steps[|steps| - 1];
        if Enabled(s, k, step) then Some(Do(s, T, muxMax, k, step)) else None
  }

  function PendingOf(pending: map<nat, Attempt>, src: string): set<nat> {
    set p | p in pending && pending[p].src == src
  }

  /** Connections inserted for a source together with those already past the check. */
  function Committed(s: Race, src: string): nat {
    CountSrc(s.table.conns, src) + |PendingOf(s.pending, src)|
  }

  ghost predicate Bounded(s: Race, muxMax: nat, k: nat) {
    && Consistent(s.table)
    && |s.pending| <= k
    && forall src :: Committed(s, src) <= muxMax + k - 1
  }

  lemma PendingOfUpdate(pending: map<nat, Attempt>, p: nat, a: Attempt, src: string)
    requires p in pending ==> pending[p].src == a.src
    ensures PendingOf(pending[p := a], src) == PendingOf(pending, src) + (if a.src == src then {p} else {})
    ensures PendingOf(pending - {p}, src) == PendingOf(pending, src) - {p}
  {
  }

  lemma PendingOfCard(pending: map<nat, Attempt>, src: string)
    ensures |PendingOf(pending, src)| <= |pending|
  {
    SubsetCard(PendingOf(pending, src), pending.Keys);
  }

  lemma CheckBounded(s: Race, T: u32, muxMax: nat, k: nat, step: Step, src: string)
    requires k >= 1 && Bounded(s, muxMax, k) && Enabled(s, k, step) && step.Check?
    ensures Committed(Do(s, T, muxMax, k, step), src) <= muxMax + k - 1
  {
    assert Committed(s, src) <= muxMax + k - 1;
    if CountSrc(s.table.conns, step.src) < muxMax {
      PendingOfUpdate(s.pending, step.p, Attempt(step.src, step.ifname, T, false), src);
      PendingOfCard(s.pending, src);
    }
  }

  lemma FinishBounded(s: Race, T: u32, muxMax: nat, k: nat, step: Step, src: string)
    requires k >= 1 && Bounded(s, muxMax, k) && Enabled(s, k, step) && step.Finish?
    ensures Committed(Do(s, T, muxMax, k, step), src) <= muxMax + k - 1
  {
    assert Committed(s, src) <= muxMax + k - 1;
    var a := s.pending[step.p];
    PendingOfUpdate(s.pending, step.p, a, src);
    CountSrcInsert(s.table.conns, a.avail, NewConn(a.avail, a.src, a.ifname, step.now), src);
  }

  lemma DoBounded(s: Race, T: u32, muxMax: nat, k: nat, step: Step)
    requires k >= 1 && Bounded(s, muxMax, k) && Enabled(s, k, step)
    ensures Bounded(Do(s, T, muxMax, k, step), muxMax, k)
  {
    var s' := Do(s, T, muxMax, k, step);
    forall src
      ensures Committed(s', src) <= muxMax + k - 1
    {
      assert Committed(s, src) <= muxMax + k - 1;
      match step
      case Check(_, _, _) => CheckBounded(s, T, muxMax, k, step, src);
      case Probe(p) => PendingOfUpdate(s.pending, p, s'.pending[p], src);
      case Finish(_, _) => FinishBounded(s, T, muxMax, k, step, src);
      case CloseStep(c) => CountSrcClose(s.table.conns, c, src);
    }
    match step
    case Check(p, _, _) =>
      assert s'.pending.Keys <= s.pending.Keys + {p};
      SubsetCard(s'.pending.Keys, s.pending.Keys + {p});
    case Probe(p) =>
      assert s'.pending.Keys == s.pending.Keys;
    case Finish(p, now) =>
      SubsetCard(s'.pending.Keys, s.pending.Keys);
      var a := s.pending[p];
      InsertConsistent(s.table, a.avail, NewConn(a.avail, a.src, a.ifname, now));
    case CloseStep(c) =>
      CloseConsistent(s.table, c);
  }

  /** Over every schedule, a source never holds over muxMax + k - 1 connections, counting those about to be inserted. */
  lemma {:induction false} RaceBound(T: u32, muxMax: nat, k: nat, steps: seq<Step>)
    requires k >= 1
    ensures var r := Exec(T, muxMax, k, steps); r.Some? ==> Bounded(r.value, muxMax, k)
  {
    if steps == [] {
      forall src
        ensures Committed(Race(Empty(), map[]), src) == 0
      {
        assert OfSrc(Empty().conns, src) == {} && PendingOf(map[], src) == {};
      }
    } else {
      var n := |steps| - 1;
      RaceBound(T, muxMax, k, steps[..n]);
      var r := Exec(T, muxMax, k, steps[..n]);
      if r.Some? && Enabled(r.value, k, steps[n]) {
        DoBounded(r.value, T, muxMax, k, steps[n]);
      }
    }
  }

  /** One connect at a time keeps the cap exactly. */
  lemma SerialKeepsCap(T: u32, muxMax: nat, steps: seq<Step>, src: string)
    ensures var r := Exec(T, muxMax, 1, steps); r.Some? ==> CountSrc(r.value.table.conns, src) <= muxMax
  {
    RaceBound(T, muxMax, 1, steps);
    var r := Exec(T, muxMax, 1, steps);
    if r.Some? {
      assert Committed(r.value, src) <= muxMax;
    }
  }

  // ----- the ids a race can use -----

  /** The places an entry can have, and those a search can reach: at T+100 it ends without an insert. */
  predicate EntryPlace(T: u32, c: u32) {
    Offset(T, c) < Places(T)
  }

  predicate SearchPlace(T: u32, c: u32) {
    Offset(T, c) < Places(T) || (T + 11 == U32_RANGE && Offset(T, c) == 100)
  }

  ghost predicate InWindow(s: Race, T: u32) {
    && (forall c :: c in s.table.conns ==> EntryPlace(T, c))
    && (forall p :: p in s.pending ==> SearchPlace(T, s.pending[p].avail))
  }

  lemma {:induction false} RaceStaysInWindow(T: u32, muxMax: nat, k: nat, steps: seq<Step>)
    ensures var r := Exec(T, muxMax, k, steps); r.Some? ==> InWindow(r.value, T)
  {
    if steps != [] {
      var n := |steps| - 1;
      RaceStaysInWindow(T, muxMax, k, steps[..n]);
      var r := Exec(T, muxMax, k, steps[..n]);
      if r.Some? && Enabled(r.value, k, steps[n]) {
        DoInWindow(r.value, T, muxMax, k, steps[n]);
      }
    }
  }

  lemma DoInWindow(s: Race, T: u32, muxMax: nat, k: nat, step: Step)
    requires InWindow(s, T) && Enabled(s, k, step)
    ensures InWindow(Do(s, T, muxMax, k, step), T)
  {
    match step
    case Probe(p) => ProbeInWindow(T, s.pending[p], s.table.conns.Keys);
    case _ =>
  }

  lemma ProbeInWindow(T: u32, a: Attempt, used: set<u32>)
    requires SearchPlace(T, a.avail) && forall c :: c in used ==> EntryPlace(T, c)
    ensures SearchPlace(T, ProbeOnce(a, T, used).avail)
  {
  }

  /** Where no check can succeed, nothing ever happens. */
  lemma {:induction false} NothingPasses(T: u32, muxMax: nat, k: nat, steps: seq<Step>)
    requires k == 0 || muxMax == 0 || forall i :: 0 <= i < |steps| ==> !steps[i].Check?
    ensures var r := Exec(T, muxMax, k, steps); r.Some? ==> r.value.table.conns == map[] && r.value.pending == map[]
  {
    if steps != [] {
      NothingPasses(T, muxMax, k, steps[..|steps| - 1]);
    }
  }

  /** The most connections one source can hold. */
  function MostPerSource(T: u32, muxMax: nat, k: nat): nat {
    if k == 0 || muxMax == 0 then 0 else Min(muxMax + k - 1, Places(T))
  }

  lemma NoSourceHoldsMore(T: u32, muxMax: nat, k: nat, steps: seq<Step>, src: string)
    ensures var r := Exec(T, muxMax, k, steps);
            r.Some? ==> CountSrc(r.value.table.conns, src) <= MostPerSource(T, muxMax, k)
  {
    var r := Exec(T, muxMax, k, steps);
    if r.Some? {
      var mine := OfSrc(r.value.table.conns, src);
      if k == 0 || muxMax == 0 {
        NothingPasses(T, muxMax, k, steps);
        assert mine == {};
      } else {
        RaceBound(T, muxMax, k, steps);
        assert Committed(r.value, src) <= muxMax + k - 1;
        RaceStaysInWindow(T, muxMax, k, steps);
        OffsetCard(T, mine, Places(T));
      }
    }
  }
}
