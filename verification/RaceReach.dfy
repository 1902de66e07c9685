/**
 What overlapping connects can bring about: the most connections a source can hold, settled exactly for every
 tunnel id and every number of connects that may be in progress.
 */
module RaceReach {
  import opened Basics
  import opened ConnTable
  import opened ConnectRace
  import opened Slots
  import ConnectRuns

  /** The tunnel id, the cap for each source, how many connects may overlap, and the sources there are. */
  datatype Setup = Setup(T: u32, muxMax: nat, k: nat, srcs: set<string>)

  ghost predicate FromSources(steps: seq<Step>, srcs: set<string>) {
    forall i :: 0 <= i < |steps| && steps[i].Check? ==> steps[i].src in srcs
  }

  ghost predicate Reachable(g: Setup, s: Race) {
    exists steps :: FromSources(steps, g.srcs) && Exec(g.T, g.muxMax, g.k, steps) == Some(s)
  }

  lemma StartReachable(g: Setup)
    ensures Reachable(g, Race(Empty(), map[]))
  {
    assert FromSources([], g.srcs) && Exec(g.T, g.muxMax, g.k, []) == Some(Race(Empty(), map[]));
  }

  lemma StepReachable(g: Setup, s: Race, step: Step)
    requires Reachable(g, s) && Enabled(s, g.k, step) && (step.Check? ==> step.src in g.srcs)
    ensures Reachable(g, Do(s, g.T, g.muxMax, g.k, step))
  {
    var steps :| FromSources(steps, g.srcs) && Exec(g.T, g.muxMax, g.k, steps) == Some(s);
    var more := steps + [step];
    assert more[..|more| - 1] == steps;
    assert FromSources(more, g.srcs);
  }

  // ----- one connect at a time -----

  /** The state with attempt p standing at a. */
  function Standing(s: Race, p: nat, a: Attempt): Race {
    s.(pending := s.pending[p := a])
  }

  lemma StandingTwice(s: Race, p: nat, a: Attempt, b: Attempt)
    ensures Standing(Standing(s, p, a), p, b) == Standing(s, p, b)
  {
    assert s.pending[p := a][p := b] == s.pending[p := b];
  }

  function Ended(a: Attempt, c: u32): Attempt {
    a.(avail := c, ended := true)
  }

  /** The id the guard compares with is never given out, so there is always a place for a search to end. */
  lemma GuardIdIsFree(g: Setup, s: Race)
    requires Reachable(g, s)
    ensures InWindow(s, g.T) && IdAt(g.T, 100) !in s.table.conns
  {
    var steps :| FromSources(steps, g.srcs) && Exec(g.T, g.muxMax, g.k, steps) == Some(s);
    RaceStaysInWindow(g.T, g.muxMax, g.k, steps);
    OffsetOfIdAt(g.T, 100);
  }

  /** A search left alone from offset i on ends where Slots says it does, changing nothing else. */
  lemma {:induction false} SearchEnds(g: Setup, s: Race, p: nat, i: nat)
    requires i <= Limit(g.T) && i <= 100
    requires Reachable(g, s) && p in s.pending && s.pending[p].avail == IdAt(g.T, i) && !s.pending[p].ended
    ensures Reachable(g, Standing(s, p, Ended(s.pending[p], IdAt(g.T, FirstFree(g.T, s.table.conns.Keys, i)))))
    decreases 100 - i
  {
    var a, used := s.pending[p], s.table.conns.Keys;
    StepReachable(g, s, Probe(p));
    ProbeAt(a, g.T, i, used);
    if i < Limit(g.T) && a.avail in used {
      GuardIdIsFree(g, s);
      var a' := a.(avail := IdAt(g.T, i + 1));
      SearchEnds(g, Standing(s, p, a'), p, i + 1);
      StandingTwice(s, p, a', Ended(a, IdAt(g.T, FirstFree(g.T, used, i))));
    }
  }

  lemma ProbeAt(a: Attempt, T: u32, i: nat, used: set<u32>)
    requires i <= Limit(T) && i <= 100 && a.avail == IdAt(T, i)
    ensures ProbeOnce(a, T, used) ==
      if i < Limit(T) && a.avail in used then a.(avail := IdAt(T, i + 1)) else a.(ended := true)
  {
    BoundIsLimit(T, i);
    IdAtNext(T, i);
  }

  /** An attempt that just passed its check finds the slot of the present table. */
  lemma SearchFromStart(g: Setup, s: Race, p: nat) returns (c: u32)
    requires Reachable(g, s) && p in s.pending && s.pending[p].avail == g.T && !s.pending[p].ended
    ensures c == IdAt(g.T, FirstFree(g.T, s.table.conns.Keys, 0))
    ensures Reachable(g, Standing(s, p, Ended(s.pending[p], c)))
  {
    SearchEnds(g, s, p, 0);
    c := IdAt(g.T, FirstFree(g.T, s.table.conns.Keys, 0));
  }

  /** What an attempt whose search has ended on c does to the table. */
  function Inserting(t: Table, T: u32, c: u32, src: string, ifname: string, now: int): Table {
    if c == IdAt(T, 100) then t else Insert(t, c, NewConn(c, src, ifname, now))
  }

  lemma FinishReachable(g: Setup, s: Race, p: nat, c: u32, now: int)
    requires p in s.pending && Reachable(g, Standing(s, p, Ended(s.pending[p], c)))
    ensures var a := s.pending[p];
            Reachable(g, Race(Inserting(s.table, g.T, c, a.src, a.ifname, now), s.pending - {p}))
  {
    var found := Standing(s, p, Ended(s.pending[p], c));
    StepReachable(g, found, Finish(p, now));
    assert found.pending - {p} == s.pending - {p};
  }

  /** Every run of connects that do not overlap is among the schedules. */
  lemma {:induction false} SerialRunReachable(g: Setup, evs: seq<ConnectRuns.Event>)
    requires g.k >= 1 && ConnectRuns.FromSources(evs, g.srcs)
    ensures Reachable(g, Race(ConnectRuns.Run(g.T, g.muxMax, evs), map[]))
  {
    if evs == [] {
      StartReachable(g);
    } else {
      var n := |evs| - 1;
      SerialRunReachable(g, evs[..n]);
      var t := ConnectRuns.Run(g.T, g.muxMax, evs[..n]);
      match evs[n]
      case CloseEvent(c) => StepReachable(g, Race(t, map[]), CloseStep(c));
      case ConnectEvent(src, ifname, now) =>
        assert evs[n] in evs;
        ConnectReachable(g, t, src, ifname, now);
    }
  }

  lemma ConnectReachable(g: Setup, t: Table, src: string, ifname: string, now: int)
    requires g.k >= 1 && src in g.srcs && Reachable(g, Race(t, map[]))
    ensures Reachable(g, Race(Connect(t, g.T, g.muxMax, src, ifname, now), map[]))
  {
    var s := Race(t, map[]);
    StepReachable(g, s, Check(0, src, ifname));
    if CountSrc(t.conns, src) < g.muxMax {
      var checked := Standing(s, 0, Attempt(src, ifname, g.T, false));
      var c := SearchFromStart(g, checked, 0);
      FinishReachable(g, checked, 0, c, now);
      assert checked.pending - {0} == map[];
    }
  }

  // ----- the most a source can hold -----

  ghost predicate CanHold(g: Setup, src: string, n: nat) {
    exists s :: Reachable(g, s) && CountSrc(s.table.conns, src) == n
  }

  function Ids(m: nat): (ps: set<nat>)
    ensures |ps| == m && forall p: nat :: p in ps <==> p < m
  {
    if m == 0 then {} else Ids(m - 1) + {m - 1}
  }

  /** j connections, all of one source and on the first j ids, and m attempts that have just passed the check. */
  ghost predicate StageAt(s: Race, T: u32, j: nat, src: string, m: nat) {
    && (forall c: u32 :: c in s.table.conns <==> Offset(T, c) < j)
    && CountSrc(s.table.conns, src) == j
    && (forall p: nat :: p in s.pending <==> p < m)
    && (forall p :: p in s.pending ==> s.pending[p] == Attempt(src, "", T, false))
  }

  lemma PendingCount(s: Race, m: nat)
    requires forall p: nat :: p in s.pending <==> p < m
    ensures |s.pending| == m
  {
    assert s.pending.Keys == Ids(m);
    assert |s.pending| == |s.pending.Keys|;
  }

  lemma BeginOne(g: Setup, s: Race, j: nat, src: string, m: nat) returns (s': Race)
    requires Reachable(g, s) && StageAt(s, g.T, j, src, m)
    requires src in g.srcs && j < g.muxMax && m < g.k
    ensures Reachable(g, s') && StageAt(s', g.T, j, src, m + 1)
  {
    PendingCount(s, m);
    StepReachable(g, s, Check(m, src, ""));
    s' := Standing(s, m, Attempt(src, "", g.T, false));
  }

  lemma FinishOne(g: Setup, s: Race, j: nat, src: string, m: nat) returns (s': Race)
    requires j < Places(g.T) && m >= 1
    requires Reachable(g, s) && StageAt(s, g.T, j, src, m)
    ensures Reachable(g, s') && StageAt(s', g.T, j + 1, src, m - 1)
  {
    var p, c := m - 1, IdAt(g.T, j);
    var _ := SearchFromStart(g, s, p);
    FirstPlace(g.T, j, s.table.conns.Keys);
    FinishReachable(g, s, p, c, 0);
    OffsetOfIdAt(g.T, 100);
    OffsetOfIdAt(g.T, j);
    s' := Race(Insert(s.table, c, NewConn(c, src, "", 0)), s.pending - {p});
    StageUp(s, g.T, j, src, m);
  }

  lemma FirstPlace(T: u32, j: nat, used: set<u32>)
    requires j < Places(T) && forall c: u32 :: c in used <==> Offset(T, c) < j
    ensures FirstFree(T, used, 0) == j
  {
    var k := FirstFree(T, used, 0);
    OffsetOfIdAt(T, j);
    if k < j {
      OffsetOfIdAt(T, k);
    }
  }

  lemma StageUp(s: Race, T: u32, j: nat, src: string, m: nat)
    requires StageAt(s, T, j, src, m) && m >= 1 && j < U32_RANGE
    ensures var c := IdAt(T, j);
            StageAt(Race(Insert(s.table, c, NewConn(c, src, "", 0)), s.pending - {m - 1}), T, j + 1, src, m - 1)
  {
    var c := IdAt(T, j);
    OffsetOfIdAt(T, j);
    CountSrcInsert(s.table.conns, c, NewConn(c, src, "", 0), src);
    forall d: u32
      ensures Offset(T, d) == j <==> d == c
    {
      IdAtOffset(T, d);
    }
  }

  /** j connections made one after the other, then m checks passed at once. */
  lemma {:induction false} Climb(g: Setup, j: nat, src: string, m: nat) returns (s: Race)
    requires src in g.srcs && j <= Places(g.T)
    requires g.k >= 1 && m <= g.k && j + (if m > 0 then 1 else 0) <= g.muxMax
    ensures Reachable(g, s) && StageAt(s, g.T, j, src, m)
    decreases j, m
  {
    if m > 0 {
      s := Climb(g, j, src, m - 1);
      s := BeginOne(g, s, j, src, m - 1);
    } else if j > 0 {
      s := Climb(g, j - 1, src, 1);
      s := FinishOne(g, s, j - 1, src, 1);
    } else {
      StartReachable(g);
      s := Race(Empty(), map[]);
      assert OfSrc(s.table.conns, src) == {};
    }
  }

  /** All m attempts finish, each on the next id. */
  lemma {:induction false} FinishAll(g: Setup, s: Race, j: nat, src: string, m: nat) returns (s': Race)
    requires j + m <= Places(g.T)
    requires Reachable(g, s) && StageAt(s, g.T, j, src, m)
    ensures Reachable(g, s') && StageAt(s', g.T, j + m, src, 0)
    decreases m
  {
    s' := s;
    if m > 0 {
      s' := FinishOne(g, s, j, src, m);
      s' := FinishAll(g, s', j + 1, src, m - 1);
    }
  }

  /** Every number of connections up to the bound is reached by some schedule. */
  lemma BoundIsReached(g: Setup, src: string, n: nat)
    requires src in g.srcs && n <= MostPerSource(g.T, g.muxMax, g.k)
    ensures CanHold(g, src, n)
  {
    if n == 0 {
      StartReachable(g);
      assert CountSrc(Race(Empty(), map[]).table.conns, src) == 0;
    } else {
      var j := Min(n, g.muxMax) - 1;
      var s := Climb(g, j, src, n - j);
      s := FinishAll(g, s, j, src, n - j);
    }
  }

  /** Exactly how many connections a source can hold under overlapping connects. */
  lemma HoldsIff(g: Setup, src: string, n: nat)
    requires src in g.srcs
    ensures CanHold(g, src, n) <==> n <= MostPerSource(g.T, g.muxMax, g.k)
  {
    if CanHold(g, src, n) {
      var s :| Reachable(g, s) && CountSrc(s.table.conns, src) == n;
      var steps :| FromSources(steps, g.srcs) && Exec(g.T, g.muxMax, g.k, steps) == Some(s);
      NoSourceHoldsMore(g.T, g.muxMax, g.k, steps, src);
    } else if n <= MostPerSource(g.T, g.muxMax, g.k) {
      BoundIsReached(g, src, n);
    }
  }

  /** Exactly when overlapping connects can take a source past its cap. */
  lemma CapExceededIff(g: Setup, src: string)
    requires src in g.srcs
    ensures (exists n :: n > g.muxMax && CanHold(g, src, n)) <==> g.k >= 2 && 1 <= g.muxMax < Places(g.T)
  {
    if n :| n > g.muxMax && CanHold(g, src, n) {
      HoldsIff(g, src, n);
    }
    HoldsIff(g, src, g.muxMax + 1);
  }
}
