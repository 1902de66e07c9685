/**
 When an insert can displace a live connection, settled exactly for every tunnel id and every number of connects
 that may be in progress.
 */
module RaceDisplacement {
  import opened Arith
  import opened Basics
  import opened ConnTable
  import opened ConnectRace
  import opened RaceReach
  import opened Slots
  import ConnectRuns

  /** An attempt is about to insert on an id in use. */
  predicate Displacing(s: Race, p: nat) {
    p in s.pending && s.pending[p].ended && s.pending[p].avail in s.table.conns
  }

  ghost predicate CanDisplace(g: Setup) {
    exists s, p :: Reachable(g, s) && Displacing(s, p)
  }

  /** Two attempts that have just passed the check on an empty table. */
  function Two(T: u32, a: string, b: string): Race {
    Race(Empty(), map[0 := Attempt(a, "", T, false), 1 := Attempt(b, "", T, false)])
  }

  lemma BothChecked(g: Setup, a: string, b: string)
    requires g.k >= 2 && g.muxMax >= 1 && a in g.srcs && b in g.srcs
    ensures Reachable(g, Two(g.T, a, b))
  {
    var s := Race(Empty(), map[]);
    StartReachable(g);
    assert OfSrc(s.table.conns, a) == {} && OfSrc(s.table.conns, b) == {};
    StepReachable(g, s, Check(0, a, ""));
    s := Standing(s, 0, Attempt(a, "", g.T, false));
    StepReachable(g, s, Check(1, b, ""));
    assert Standing(s, 1, Attempt(b, "", g.T, false)) == Two(g.T, a, b);
  }

  /** On an empty table a search ends at once, on T. */
  lemma SearchOnEmpty(g: Setup, s: Race, p: nat)
    requires s.table == Empty()
    requires Reachable(g, s) && p in s.pending && s.pending[p].avail == g.T && !s.pending[p].ended
    ensures Reachable(g, Standing(s, p, Ended(s.pending[p], g.T)))
  {
    var c := SearchFromStart(g, s, p);
  }

  /** Two overlapping connects, of any two sources or twice the same, can settle on one id. */
  lemma RaceDisplaces(g: Setup, a: string, b: string) returns (s: Race)
    requires g.k >= 2 && g.muxMax >= 1 && a in g.srcs && b in g.srcs
    ensures Reachable(g, s) && Displacing(s, 1)
    ensures s.pending[1].src == b && s.table.conns[s.pending[1].avail].src == a
  {
    BothChecked(g, a, b);
    var two := Two(g.T, a, b);
    SearchOnEmpty(g, two, 1);
    var one := Standing(two, 1, Ended(two.pending[1], g.T));
    SearchOnEmpty(g, one, 0);
    FinishReachable(g, one, 0, g.T, 0);
    OffsetOfIdAt(g.T, 100);
    s := Race(Insert(Empty(), g.T, NewConn(g.T, a, "", 0)), one.pending - {0});
  }

  /** More allowed connections than ids: even connects that do not overlap displace one. */
  lemma CrowdDisplaces(g: Setup)
    requires g.T + 11 != U32_RANGE && g.k >= 1 && |g.srcs| * g.muxMax > Places(g.T)
    ensures CanDisplace(g)
  {
    ConnectRuns.DisplacementIff(g.T, g.muxMax, g.srcs);
    var evs, src :| ConnectRuns.FromSources(evs, g.srcs) && src in g.srcs
      && ConnectRuns.Displaces(ConnectRuns.Run(g.T, g.muxMax, evs), g.T, g.muxMax, src);
    SerialRunReachable(g, evs);
    var s := Race(ConnectRuns.Run(g.T, g.muxMax, evs), map[]);
    StepReachable(g, s, Check(0, src, ""));
    s := Standing(s, 0, Attempt(src, "", g.T, false));
    var c := SearchFromStart(g, s, 0);
    s := Standing(s, 0, Ended(s.pending[0], c));
    assert Displacing(s, 0);
  }

  /**
   With one connect at a time and no more allowed connections than places: caps and ids are kept, and an attempt
   is bound for an id that is free. Only closings come between its steps, so the id it will find stays free.
   */
  ghost predicate Safe(s: Race, g: Setup) {
    && ConnectRuns.Within(s.table, g.T, Places(g.T), g.srcs, g.muxMax)
    && |s.pending| <= 1
    && forall p :: p in s.pending ==> BoundForFree(s.pending[p], s.table.conns, g)
  }

  ghost predicate BoundForFree(a: Attempt, conns: Conns, g: Setup) {
    && a.src in g.srcs && CountSrc(conns, a.src) < g.muxMax
    && g.T <= a.avail < g.T + Places(g.T)
    && (a.ended ==> a.avail !in conns)
    && (!a.ended ==> exists f {:trigger f in conns} :: a.avail <= f < g.T + Places(g.T) && f !in conns)
  }

  lemma CheckSafe(s: Race, g: Setup, step: Step)
    requires g.T + 11 != U32_RANGE && g.k == 1 && |g.srcs| * g.muxMax <= Places(g.T)
    requires Safe(s, g) && Enabled(s, g.k, step) && step.Check? && step.src in g.srcs
    ensures Safe(Do(s, g.T, g.muxMax, g.k, step), g)
  {
    assert s.pending == map[];
    if CountSrc(s.table.conns, step.src) < g.muxMax {
      ConnectRuns.SearchFindsRoom(s.table, g.T, Places(g.T), g.srcs, g.muxMax, step.src);
      var a := Attempt(step.src, step.ifname, g.T, false);
      assert s.pending[step.p := a] == map[step.p := a];
    }
  }

  lemma ProbeSafe(s: Race, g: Setup, p: nat)
    requires g.T + 11 != U32_RANGE && Safe(s, g) && Enabled(s, g.k, Probe(p))
    ensures Safe(Do(s, g.T, g.muxMax, g.k, Probe(p)), g)
  {
    var a, conns := s.pending[p], s.table.conns;
    assert BoundForFree(a, conns, g);
    if !a.ended {
      var f :| a.avail <= f < g.T + Places(g.T) && f !in conns;
    }
    BoundIsLimit(g.T, Offset(g.T, a.avail));
    IdAtOffset(g.T, a.avail);
    assert BoundForFree(ProbeOnce(a, g.T, conns.Keys), conns, g);
    assert Do(s, g.T, g.muxMax, g.k, Probe(p)).pending.Keys == s.pending.Keys;
    assert |Do(s, g.T, g.muxMax, g.k, Probe(p)).pending| == |s.pending.Keys|;
  }

  lemma FinishSafe(s: Race, g: Setup, p: nat, now: int)
    requires g.T + 11 != U32_RANGE && Safe(s, g) && Enabled(s, g.k, Finish(p, now))
    ensures Safe(Do(s, g.T, g.muxMax, g.k, Finish(p, now)), g)
  {
    var a := s.pending[p];
    assert BoundForFree(a, s.table.conns, g);
    var conn := NewConn(a.avail, a.src, a.ifname, now);
    InsertConsistent(s.table, a.avail, conn);
    forall src | src in g.srcs
      ensures CountSrc(Insert(s.table, a.avail, conn).conns, src) <= g.muxMax
    {
      CountSrcInsert(s.table.conns, a.avail, conn, src);
    }
    SubsetCard({p}, s.pending.Keys);
    assert s.pending.Keys == {p};
    assert s.pending - {p} == map[];
  }

  lemma CloseSafe(s: Race, g: Setup, c: u32)
    requires Safe(s, g)
    ensures Safe(s.(table := Close(s.table, c)), g)
  {
    CloseConsistent(s.table, c);
    forall src
      ensures CountSrc(Close(s.table, c).conns, src) <= CountSrc(s.table.conns, src)
    {
      CountSrcClose(s.table.conns, c, src);
    }
    forall p | p in s.pending
      ensures BoundForFree(s.pending[p], Close(s.table, c).conns, g)
    {
      var a := s.pending[p];
      assert BoundForFree(a, s.table.conns, g);
      if !a.ended {
        var f :| a.avail <= f < g.T + Places(g.T) && f !in s.table.conns;
        assert f !in Close(s.table, c).conns;
      }
    }
  }

  lemma {:induction false} SerialStaysSafe(g: Setup, steps: seq<Step>)
    requires g.T + 11 != U32_RANGE && g.k == 1 && |g.srcs| * g.muxMax <= Places(g.T) && FromSources(steps, g.srcs)
    ensures var r := Exec(g.T, g.muxMax, g.k, steps); r.Some? ==> Safe(r.value, g)
  {
    if steps == [] {
      forall src
        ensures CountSrc(Empty().conns, src) == 0
      {
        assert OfSrc(Empty().conns, src) == {};
      }
    } else {
      var n := |steps| - 1;
      SerialStaysSafe(g, steps[..n]);
      var r := Exec(g.T, g.muxMax, g.k, steps[..n]);
      if r.Some? && Enabled(r.value, g.k, steps[n]) {
        DoSafe(r.value, g, steps[n]);
      }
    }
  }

  lemma DoSafe(s: Race, g: Setup, step: Step)
    requires g.T + 11 != U32_RANGE && g.k == 1 && |g.srcs| * g.muxMax <= Places(g.T)
    requires Safe(s, g) && Enabled(s, g.k, step) && (step.Check? ==> step.src in g.srcs)
    ensures Safe(Do(s, g.T, g.muxMax, g.k, step), g)
  {
    match step
    case Check(_, _, _) => CheckSafe(s, g, step);
    case Probe(p) => ProbeSafe(s, g, p);
    case Finish(p, now) => FinishSafe(s, g, p, now);
    case CloseStep(c) => CloseSafe(s, g, c);
  }

  /** One id short of the wrap a search ends only on a free id, and with one connect at a time that stays free. */
  ghost predicate SafeAtTheEdge(s: Race) {
    |s.pending| <= 1 && forall p :: p in s.pending && s.pending[p].ended ==> s.pending[p].avail !in s.table.conns
  }

  lemma {:induction false} EdgeStaysSafe(g: Setup, steps: seq<Step>)
    requires g.T + 11 == U32_RANGE && g.k == 1
    ensures var r := Exec(g.T, g.muxMax, g.k, steps); r.Some? ==> SafeAtTheEdge(r.value)
  {
    if steps != [] {
      var n := |steps| - 1;
      EdgeStaysSafe(g, steps[..n]);
      var r := Exec(g.T, g.muxMax, g.k, steps[..n]);
      if r.Some? && Enabled(r.value, g.k, steps[n]) {
        DoSafeAtTheEdge(r.value, g, steps[n]);
      }
    }
  }

  lemma DoSafeAtTheEdge(s: Race, g: Setup, step: Step)
    requires g.T + 11 == U32_RANGE && g.k == 1 && SafeAtTheEdge(s) && Enabled(s, g.k, step)
    ensures SafeAtTheEdge(Do(s, g.T, g.muxMax, g.k, step))
  {
    var s' := Do(s, g.T, g.muxMax, g.k, step);
    match step
    case Check(p, _, _) =>
      assert s.pending == map[];
      assert s'.pending.Keys <= {p};
      SubsetCard(s'.pending.Keys, {p});
    case Probe(p) =>
      assert s'.pending.Keys == s.pending.Keys;
      assert |s'.pending| == |s'.pending.Keys|;
    case Finish(p, _) =>
      SubsetCard({p}, s.pending.Keys);
      assert s.pending.Keys == {p};
      assert s'.pending == map[];
    case CloseStep(_) =>
  }

  /**
   Exactly when some schedule of connects displaces a live connection: two overlapping connects are always enough,
   and without overlap it takes more allowed connections than places, if the search is bounded at all.
   */
  lemma RaceDisplacementIff(g: Setup)
    ensures var allowed := |g.srcs| * g.muxMax;
            CanDisplace(g) <==>
              || (g.k >= 2 && allowed >= 1)
              || (g.k == 1 && allowed > Places(g.T) && g.T + 11 != U32_RANGE)
  {
    var allowed := |g.srcs| * g.muxMax;
    if g.k >= 2 && allowed >= 1 {
      var src :| src in g.srcs;
      var s := RaceDisplaces(g, src, src);
    } else if g.k == 1 && allowed > Places(g.T) && g.T + 11 != U32_RANGE {
      CrowdDisplaces(g);
    } else {
      CannotDisplace(g, allowed);
    }
  }

  lemma CannotDisplace(g: Setup, allowed: nat)
    requires allowed == |g.srcs| * g.muxMax
    requires g.k == 0 || allowed == 0 || (g.k == 1 && (allowed <= Places(g.T) || g.T + 11 == U32_RANGE))
    ensures !CanDisplace(g)
  {
    forall s, p | Reachable(g, s)
      ensures !Displacing(s, p)
    {
      var steps :| FromSources(steps, g.srcs) && Exec(g.T, g.muxMax, g.k, steps) == Some(s);
      NothingDisplaced(g, allowed, steps, s, p);
    }
  }

  lemma NothingDisplaced(g: Setup, allowed: nat, steps: seq<Step>, s: Race, p: nat)
    requires allowed == |g.srcs| * g.muxMax
    requires FromSources(steps, g.srcs) && Exec(g.T, g.muxMax, g.k, steps) == Some(s)
    requires g.k == 0 || allowed == 0 || (g.k == 1 && (allowed <= Places(g.T) || g.T + 11 == U32_RANGE))
    ensures !Displacing(s, p)
  {
    if g.k == 1 && g.T + 11 == U32_RANGE {
      EdgeStaysSafe(g, steps);
    } else if g.k == 1 {
      SerialStaysSafe(g, steps);
    } else {
      if g.k > 0 {
        ZeroProduct(|g.srcs|, g.muxMax);
      }
      NothingPasses(g.T, g.muxMax, g.k, steps);
    }
  }
}
