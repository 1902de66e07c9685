/**
 Overlapping connects in the older program, which holds no lock at all: a connect tests for its source, searches for
 an id one lookup at a time, sets up its socket and only then inserts, and other goroutines may run in between.
 At most k connects are in progress at once.
 */
module OldRace {
  import opened Basics
  import opened OldAllocator
  import opened Slots

  /** A connect past the test: where its search stands, and whether it has ended. */
  datatype Attempt = Attempt(src: string, avail: u32, ended: bool)

  datatype Race = Race(table: OldTable, pending: map<nat, Attempt>)

  datatype Step =
    | Test(p: nat, src: string)
    | Probe(p: nat)
    | Finish(p: nat)
    | Close(c: u32)

  predicate Enabled(s: Race, k: nat, step: Step) {
    match step
    case Test(p, _) => p !in s.pending && |s.pending| < k
    case Probe(p) => p in s.pending && !s.pending[p].ended
    case Finish(p) => p in s.pending && s.pending[p].ended
    case Close(_) => true
  }

  function ProbeOnce(a: Attempt, T: u32, used: set<u32>): Attempt {
    if a.avail > IdAt(T, 10) || a.avail !in used then a.(ended := true) else a.(avail := IdAt(a.avail, 1))
  }

  function Do(s: Race, T: u32, step: Step): Race
    requires !step.Test? && !step.Close? ==> step.p in s.pending
  {
    match step
    case Test(p, src) =>
      if SourceExists(s.table, src) then s else s.(pending := s.pending[p := Attempt(src, T, false)])
    case Probe(p) => s.(pending := s.pending[p := ProbeOnce(s.pending[p], T, s.table.Keys)])
    case Finish(p) =>
      var a := s.pending[p];
      Race(if a.avail == IdAt(T, 10) then s.table else s.table[a.avail := a.src], s.pending - {p})
    case Close(c) => s.(table := s.table - {c})
  }

  /** The state after a schedule, or None if it asks for a step that is not enabled. */
  function Exec(T: u32, k: nat, steps: seq<Step>): Option<Race> {
    if steps == [] then Some(Race(map[], map[]))
    else
      match Exec(T, k, steps[..|steps| - 1])
      case None => None
      case Some(s) =>
        var step := steps[|steps| - 1];
        if Enabled(s, k, step) then Some(Do(s, T, step)) else None
  }

  ghost predicate Reachable(T: u32, k: nat, s: Race) {
    exists steps :: Exec(T, k, steps) == Some(s)
  }

  // ----- what every schedule keeps -----

  /** With room above T: ten ids are ever given out, and a search stops at T+10, which is always free. */
  ghost predicate InTen(s: Race, T: u32) {
    && (forall c :: c in s.table ==> T <= c <= T + 9)
    && (forall p :: p in s.pending ==> T <= s.pending[p].avail <= T + 10)
  }

  /** Where the bound wraps, every search stops on T. */
  ghost predicate AllOnFirst(s: Race, T: u32) {
    && (forall c :: c in s.table ==> c == T)
    && (forall p :: p in s.pending ==> s.pending[p].avail == T)
  }

  /** Without overlap, an attempt's source stays absent and the id it has settled on stays free. */
  ghost predicate Undisturbed(s: Race) {
    && (forall p :: p in s.pending ==> !SourceExists(s.table, s.pending[p].src))
    && (forall p :: p in s.pending && s.pending[p].ended ==> s.pending[p].avail !in s.table)
    && (forall c, d :: c in s.table && d in s.table && s.table[c] == s.table[d] ==> c == d)
  }

  ghost predicate Inv(s: Race, T: u32, k: nat) {
    && |s.pending| <= k
    && IdAt(T, 10) !in s.table
    && (T + 11 < U32_RANGE ==> InTen(s, T))
    && (T + 11 > U32_RANGE ==> AllOnFirst(s, T))
    && (T + 11 < U32_RANGE && k <= 1 ==> Undisturbed(s))
  }

  lemma DoKeepsPlaces(s: Race, T: u32, k: nat, step: Step)
    requires Inv(s, T, k) && Enabled(s, k, step)
    ensures var s' := Do(s, T, step);
            && IdAt(T, 10) !in s'.table
            && (T + 11 < U32_RANGE ==> InTen(s', T))
            && (T + 11 > U32_RANGE ==> AllOnFirst(s', T))
  {
  }

  lemma DoKeepsPending(s: Race, T: u32, k: nat, step: Step)
    requires |s.pending| <= k && Enabled(s, k, step)
    ensures |Do(s, T, step).pending| <= k
  {
    var s' := Do(s, T, step);
    assert |s'.pending| == |s'.pending.Keys| && |s.pending| == |s.pending.Keys|;
    if step.Test? {
      assert s'.pending.Keys <= s.pending.Keys + {step.p};
      SubsetCard(s'.pending.Keys, s.pending.Keys + {step.p});
    } else if !step.Close? {
      assert s'.pending.Keys <= s.pending.Keys;
      SubsetCard(s'.pending.Keys, s.pending.Keys);
    }
  }

  lemma DoKeepsUndisturbed(s: Race, T: u32, k: nat, step: Step)
    requires Inv(s, T, k) && Enabled(s, k, step) && T + 11 < U32_RANGE && k <= 1
    ensures Undisturbed(Do(s, T, step))
  {
    match step
    case Test(_, _) =>
    case Probe(p) =>
      var a := s.pending[p];
      assert a.avail <= IdAt(T, 10);
    case Finish(p) =>
      SubsetCard({p}, s.pending.Keys);
      assert s.pending.Keys == {p};
    case Close(_) =>
  }

  lemma {:induction false} SchedulesKeepInv(T: u32, k: nat, steps: seq<Step>)
    ensures var r := Exec(T, k, steps); r.Some? ==> Inv(r.value, T, k)
  {
    if steps != [] {
      var before, step := steps[..|steps| - 1], steps[|steps| - 1];
      SchedulesKeepInv(T, k, before);
      var r := Exec(T, k, before);
      if r.Some? && Enabled(r.value, k, step) {
        DoKeepsPlaces(r.value, T, k, step);
        DoKeepsPending(r.value, T, k, step);
        if T + 11 < U32_RANGE && k <= 1 {
          DoKeepsUndisturbed(r.value, T, k, step);
        }
      }
    }
  }

  lemma ReachableInv(T: u32, k: nat, s: Race)
    requires Reachable(T, k, s)
    ensures Inv(s, T, k)
  {
    var steps :| Exec(T, k, steps) == Some(s);
    SchedulesKeepInv(T, k, steps);
  }

  /** Every schedule, however many connects overlap, keeps the ids in T to T+9. */
  lemma SchedulesStayInTen(T: u32, k: nat, s: Race, c: u32)
    requires T + 11 < U32_RANGE && Reachable(T, k, s) && c in s.table
    ensures T <= c <= T + 9
  {
    ReachableInv(T, k, s);
  }

  /**
   The server files every id of a schedule under the client's own tunnel id, so two tunnels never meet in one
   server table, however many connects overlap on either.
   */
  lemma ServerRecoversTunnel(id: u32, k: nat, s: Race, c: u32, id': u32, k': nat, s': Race, c': u32)
    requires Reachable(Normalise(id), k, s) && c in s.table
    requires Reachable(Normalise(id'), k', s') && c' in s'.table
    ensures c / 10 * 10 == Normalise(id)
    ensures c / 10 * 10 == c' / 10 * 10 <==> Normalise(id) == Normalise(id')
  {
    ReachableInv(Normalise(id), k, s);
    ReachableInv(Normalise(id'), k', s');
    RoundsDownToTens(Normalise(id), c);
    RoundsDownToTens(Normalise(id'), c');
  }

  // ----- runs without overlap are schedules -----

  /** A search left alone from offset i on ends on the first free id, or at the guard. */
  lemma {:induction false} SearchEnds(T: u32, k: nat, s: Race, p: nat, src: string, i: nat)
    requires i <= Limit(T) && i <= 10 && Reachable(T, k, Standing(s, p, Attempt(src, IdAt(T, i), false)))
    ensures Reachable(T, k, Standing(s, p, Attempt(src, IdAt(T, FirstFree(T, s.table.Keys, i)), true)))
    decreases 10 - i
  {
    var a, used := Attempt(src, IdAt(T, i), false), s.table.Keys;
    GuardIdIsFree(T, k, Standing(s, p, a));
    ProbeReachable(T, k, s, p, a);
    ProbeAt(a, T, i, used);
    if i < Limit(T) && a.avail in used {
      SearchEnds(T, k, s, p, src, i + 1);
    } else {
      assert FirstFree(T, used, i) == i;
    }
  }

  lemma GuardIdIsFree(T: u32, k: nat, s: Race)
    requires Reachable(T, k, s)
    ensures IdAt(T, 10) !in s.table
  {
    ReachableInv(T, k, s);
  }

  lemma ProbeAt(a: Attempt, T: u32, i: nat, used: set<u32>)
    requires i <= Limit(T) && i <= 10 && a.avail == IdAt(T, i)
    ensures ProbeOnce(a, T, used) ==
      if i < Limit(T) && a.avail in used then a.(avail := IdAt(T, i + 1)) else a.(ended := true)
  {
    BoundIsLimit(T, i);
    IdAtNext(T, i);
  }

  lemma ConnectReachable(T: u32, k: nat, t: OldTable, src: string)
    requires k >= 1 && Reachable(T, k, Race(t, map[]))
    ensures Reachable(T, k, Race(OldConnect(t, T, src), map[]))
  {
    var s := Race(t, map[]);
    if !SourceExists(t, src) {
      TestReachable(T, k, s, 0, src);
      SearchEnds(T, k, s, 0, src, 0);
      var found := Standing(s, 0, Attempt(src, IdAt(T, FirstFree(T, t.Keys, 0)), true));
      StepReachable(T, k, found, Finish(0));
      assert found.pending - {0} == map[];
    }
  }

  /** Every run of connects that do not overlap, and of closings, is among the schedules. */
  lemma {:induction false} SerialRunReachable(T: u32, k: nat, evs: seq<OldEvent>)
    requires k >= 1
    ensures Reachable(T, k, Race(OldRun(T, evs), map[]))
  {
    if evs == [] {
      StartReachable(T, k);
    } else {
      var t := OldRun(T, evs[..|evs| - 1]);
      SerialRunReachable(T, k, evs[..|evs| - 1]);
      match evs[|evs| - 1]
      case OldConnectEvent(src) => ConnectReachable(T, k, t, src);
      case OldCloseEvent(c) => StepReachable(T, k, Race(t, map[]), Close(c));
    }
  }

  // ----- what some schedule reaches -----

  lemma StartReachable(T: u32, k: nat)
    ensures Reachable(T, k, Race(map[], map[]))
  {
    assert Exec(T, k, []) == Some(Race(map[], map[]));
  }

  lemma StepReachable(T: u32, k: nat, s: Race, step: Step)
    requires Reachable(T, k, s) && Enabled(s, k, step)
    ensures Reachable(T, k, Do(s, T, step))
  {
    var steps :| Exec(T, k, steps) == Some(s);
    var more := steps + [step];
    assert more[..|more| - 1] == steps;
    assert Exec(T, k, more) == Some(Do(s, T, step));
  }

  /** The state with attempt p standing at a. */
  function Standing(s: Race, p: nat, a: Attempt): Race {
    s.(pending := s.pending[p := a])
  }

  lemma TestReachable(T: u32, k: nat, s: Race, p: nat, src: string)
    requires Reachable(T, k, s) && p !in s.pending && |s.pending| < k && !SourceExists(s.table, src)
    ensures Reachable(T, k, Standing(s, p, Attempt(src, T, false)))
  {
    StepReachable(T, k, s, Test(p, src));
  }

  lemma ProbeReachable(T: u32, k: nat, s: Race, p: nat, a: Attempt)
    requires Reachable(T, k, Standing(s, p, a)) && !a.ended
    ensures Reachable(T, k, Standing(s, p, ProbeOnce(a, T, s.table.Keys)))
  {
    var now := Standing(s, p, a);
    StepReachable(T, k, now, Probe(p));
    assert now.pending[p := ProbeOnce(a, T, s.table.Keys)] == s.pending[p := ProbeOnce(a, T, s.table.Keys)];
  }

  lemma FinishReachable(T: u32, k: nat, s: Race, p: nat)
    requires Reachable(T, k, s) && p in s.pending && s.pending[p].ended && s.pending[p].avail != IdAt(T, 10)
    ensures Reachable(T, k, Race(s.table[s.pending[p].avail := s.pending[p].src], s.pending - {p}))
  {
    StepReachable(T, k, s, Finish(p));
  }

  /** A connect that finds the first id free, or cannot look past it, all but the insert. */
  lemma SettleOnFirst(T: u32, k: nat, s: Race, p: nat, src: string)
    requires Reachable(T, k, s) && p !in s.pending && |s.pending| < k
    requires !SourceExists(s.table, src) && (T !in s.table || T + 11 > U32_RANGE)
    ensures Reachable(T, k, Standing(s, p, Attempt(src, T, true)))
  {
    TestReachable(T, k, s, p, src);
    ProbeReachable(T, k, s, p, Attempt(src, T, false));
  }

  /** The same connect with its insert. */
  lemma InsertOnFirst(T: u32, k: nat, s: Race, p: nat, src: string)
    requires Reachable(T, k, s) && p !in s.pending && |s.pending| < k
    requires !SourceExists(s.table, src) && (T !in s.table || T + 11 > U32_RANGE)
    ensures Reachable(T, k, Race(s.table[T := src], s.pending))
  {
    SettleOnFirst(T, k, s, p, src);
    var settled := Standing(s, p, Attempt(src, T, true));
    FinishReachable(T, k, settled, p);
    assert settled.pending - {p} == s.pending;
  }

  /** Two connects of one source settle on the first id, and one of them inserts. */
  lemma SameSourceTwice(T: u32, k: nat, src: string) returns (s: Race)
    requires k >= 2
    ensures Reachable(T, k, s) && Displacing(s, T, 1)
  {
    StartReachable(T, k);
    s := Race(map[], map[]);
    SettleOnFirst(T, k, s, 1, src);
    s := Standing(s, 1, Attempt(src, T, true));
    assert s.pending.Keys == {1} && |s.pending| == |s.pending.Keys|;
    InsertOnFirst(T, k, s, 0, src);
    OffsetOfIdAt(T, 10);
    s := Race(s.table[T := src], s.pending);
  }

  ghost predicate SomeScheduleDisplaces(T: u32, k: nat) {
    exists s, p :: Reachable(T, k, s) && Displacing(s, T, p)
  }

  /** An attempt is about to insert on an id in use. */
  predicate Displacing(s: Race, T: u32, p: nat) {
    p in s.pending && s.pending[p].ended && s.pending[p].avail != IdAt(T, 10) && s.pending[p].avail in s.table
  }

  /** Near the top of the id space a second source displaces the first without any overlap. */
  lemma SerialDisplaces(T: u32, k: nat) returns (s: Race)
    requires T + 11 > U32_RANGE && k >= 1
    ensures Reachable(T, k, s) && Displacing(s, T, 0)
  {
    StartReachable(T, k);
    s := Race(map[], map[]);
    InsertOnFirst(T, k, s, 0, "a");
    s := Race(s.table[T := "a"], s.pending);
    SettleOnFirst(T, k, s, 0, "b");
    s := Standing(s, 0, Attempt("b", T, true));
  }

  /**
   Exactly when some schedule displaces a live connection: whenever connects can overlap, even two for one source,
   and without overlap for the one normalised tunnel id whose guard wraps.
   */
  lemma OldRaceDisplacementIff(id: u32, k: nat)
    ensures SomeScheduleDisplaces(Normalise(id), k) <==>
      k >= 1 && (k >= 2 || Normalise(id) + 10 >= U32_RANGE)
  {
    var T := Normalise(id);
    if k >= 2 {
      var s := SameSourceTwice(T, k, "a");
    } else if k == 1 && T + 10 >= U32_RANGE {
      var s := SerialDisplaces(T, k);
    } else {
      forall s, p | Reachable(T, k, s)
        ensures !Displacing(s, T, p)
      {
        ReachableInv(T, k, s);
      }
    }
  }

  ghost predicate SomeSourceGetsTwo(T: u32, k: nat) {
    exists s, c, d :: Reachable(T, k, s) && c in s.table && d in s.table && c != d && s.table[c] == s.table[d]
  }

  /** A source tests twice before it inserts, and the second search, begun later, moves on to the second id. */
  lemma SecondIdReached(T: u32, k: nat, src: string) returns (s: Race)
    requires T + 11 < U32_RANGE && k >= 2
    ensures Reachable(T, k, s) && T in s.table && T + 1 in s.table && s.table[T] == s.table[T + 1] == src
  {
    StartReachable(T, k);
    s := Race(map[], map[]);
    TestReachable(T, k, s, 1, src);
    s := Standing(s, 1, Attempt(src, T, false));
    assert s.pending.Keys == {1} && |s.pending| == |s.pending.Keys|;
    InsertOnFirst(T, k, s, 0, src);
    s := Race(s.table[T := src], s.pending);
    s := SecondInserted(T, k, s, src);
  }

  lemma SecondInserted(T: u32, k: nat, s: Race, src: string) returns (s': Race)
    requires T + 11 < U32_RANGE && Reachable(T, k, s)
    requires T in s.table && T + 1 !in s.table && s.table[T] == src
    requires 1 in s.pending && s.pending[1] == Attempt(src, T, false)
    ensures Reachable(T, k, s') && T in s'.table && T + 1 in s'.table && s'.table[T] == s'.table[T + 1] == src
  {
    assert Standing(s, 1, s.pending[1]) == s;
    ProbeReachable(T, k, s, 1, Attempt(src, T, false));
    ProbeReachable(T, k, s, 1, Attempt(src, T + 1, false));
    var ended := Standing(s, 1, Attempt(src, T + 1, true));
    FinishReachable(T, k, ended, 1);
    s' := Race(s.table[T + 1 := src], ended.pending - {1});
  }

  /** Exactly when a source can get two ids. */
  lemma TwoIdsIff(id: u32, k: nat)
    ensures SomeSourceGetsTwo(Normalise(id), k) <==> k >= 2 && Normalise(id) + 10 < U32_RANGE
  {
    var T := Normalise(id);
    if k >= 2 && T + 10 < U32_RANGE {
      var s := SecondIdReached(T, k, "a");
      assert T in s.table && T + 1 in s.table;
    } else {
      forall s, c, d | Reachable(T, k, s) && c in s.table && d in s.table && s.table[c] == s.table[d]
        ensures c == d
      {
        ReachableInv(T, k, s);
      }
    }
  }
}
