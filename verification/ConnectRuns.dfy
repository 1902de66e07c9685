/**
 Runs in which connects do not overlap: where the ids land, when a live connection can be displaced, and how
 the table converges under repeated routing-table dumps.
 */
module ConnectRuns {
  import opened Arith
  import opened Basics
  import opened ConnTable
  import opened Slots

  datatype Event =
    | ConnectEvent(src: string, ifname: string, now: int)
    | CloseEvent(c: u32)

  function Apply(t: Table, T: u32, muxMax: nat, e: Event): Table {
    match e
    case ConnectEvent(src, ifname, now) => Connect(t, T, muxMax, src, ifname, now)
    case CloseEvent(c) => Close(t, c)
  }

  function Run(T: u32, muxMax: nat, evs: seq<Event>): Table {
    if evs == [] then Empty()
    else Apply(Run(T, muxMax, evs[..|evs| - 1]), T, muxMax, evs[|evs| - 1])
  }

  ghost predicate FromSources(evs: seq<Event>, srcs: set<string>) {
    forall e :: e in evs && e.ConnectEvent? ==> e.src in srcs
  }

  /** The invariant: ids among the first n from T, sources known, and the cap kept for each. */
  ghost predicate Within(t: Table, T: u32, n: nat, srcs: set<string>, muxMax: nat) {
    && Consistent(t)
    && (forall c :: c in t.conns ==> T <= c < T + n && t.conns[c].src in srcs)
    && (forall s :: s in srcs ==> CountSrc(t.conns, s) <= muxMax)
  }

  /** A connect from this source is let through and lands on an id already in use. */
  predicate Displaces(t: Table, T: u32, muxMax: nat, src: string) {
    CountSrc(t.conns, src) < muxMax && Slot(T, t.conns.Keys).Some? && Slot(T, t.conns.Keys).value in t.conns
  }

  /** While some source is below its cap the table is not full. */
  lemma RoomBelowCap(t: Table, T: u32, n: nat, srcs: set<string>, muxMax: nat, src: string)
    requires Within(t, T, n, srcs, muxMax)
    requires src in srcs && CountSrc(t.conns, src) < muxMax
    ensures |t.conns.Keys| < |srcs| * muxMax
  {
    var others := OfSrcs(t.conns, srcs - {src});
    SizeBySources(t.conns, srcs - {src}, muxMax);
    UnionCard(t.conns.Keys, others, OfSrc(t.conns, src));
    Distribute(|srcs - {src}|, 1, muxMax);
  }

  lemma LowIdsCounted(T: u32, c: int, used: set<u32>)
    requires T <= c
    requires forall d {:trigger d in used} :: T <= d < c ==> d in used
    ensures c - T <= |used|
  {
    var low := Range(T, c);
    assert low <= used;
    SubsetCard(low, used);
  }

  /**
   Pigeonhole: with n ids for at most n allowed connections, a connect that passes the cap finds a free id among them.
   */
  lemma SearchFindsRoom(t: Table, T: u32, n: nat, srcs: set<string>, muxMax: nat, src: string)
    requires T + 11 != U32_RANGE && |srcs| * muxMax <= n <= Places(T)
    requires Within(t, T, n, srcs, muxMax)
    requires src in srcs && CountSrc(t.conns, src) < muxMax
    ensures var s := Slot(T, t.conns.Keys); s.Some? && T <= s.value < T + n && s.value !in t.conns
    ensures !Displaces(t, T, muxMax, src)
  {
    RoomBelowCap(t, T, n, srcs, muxMax, src);
    if T + 11 < U32_RANGE {
      SlotIsLowestFree(T, t.conns.Keys);
      var c: int := Slot(T, t.conns.Keys).value;
      LowIdsCounted(T, c, t.conns.Keys);
      if c in t.conns {
        LowIdsCounted(T, c + 1, t.conns.Keys);
        assert false;
      }
    } else {
      SlotNearTheTop(T, t.conns.Keys);
      assert |t.conns.Keys| == 0;
    }
  }

  lemma ApplyStaysWithin(t: Table, T: u32, n: nat, srcs: set<string>, muxMax: nat, e: Event)
    requires T + 11 != U32_RANGE && |srcs| * muxMax <= n <= Places(T)
    requires Within(t, T, n, srcs, muxMax)
    requires e.ConnectEvent? ==> e.src in srcs
    ensures Within(Apply(t, T, muxMax, e), T, n, srcs, muxMax)
  {
    match e
    case CloseEvent(c) =>
      CloseConsistent(t, c);
      forall s | s in srcs
        ensures CountSrc(Close(t, c).conns, s) <= muxMax
      {
        CountSrcClose(t.conns, c, s);
      }
    case ConnectEvent(src, ifname, now) =>
      ConnectConsistent(t, T, muxMax, src, ifname, now);
      if CountSrc(t.conns, src) < muxMax {
        SearchFindsRoom(t, T, n, srcs, muxMax, src);
        var c := Slot(T, t.conns.Keys).value;
        forall s | s in srcs
          ensures CountSrc(Apply(t, T, muxMax, e).conns, s) <= muxMax
        {
          CountSrcInsert(t.conns, c, NewConn(c, src, ifname, now), s);
        }
      }
  }

  /** Every run stays among the first n ids and keeps every cap, if n ids suffice and the search can reach them. */
  lemma {:induction false} RunsStayWithin(T: u32, n: nat, srcs: set<string>, muxMax: nat, evs: seq<Event>)
    requires T + 11 != U32_RANGE && |srcs| * muxMax <= n <= Places(T)
    requires FromSources(evs, srcs)
    ensures Within(Run(T, muxMax, evs), T, n, srcs, muxMax)
  {
    if evs == [] {
      forall s | s in srcs
        ensures CountSrc(Empty().conns, s) == 0
      {
        assert OfSrc(Empty().conns, s) == {};
      }
    } else {
      var k := |evs| - 1;
      assert FromSources(evs[..k], srcs);
      RunsStayWithin(T, n, srcs, muxMax, evs[..k]);
      ApplyStaysWithin(Run(T, muxMax, evs[..k]), T, n, srcs, muxMax, evs[k]);
    }
  }

  /**
   With at most eleven connections allowed in all, no run leaves the ids T to T+10, and each connect takes the lowest
   free one.
   */
  lemma ElevenStayInRange(T: u32, srcs: set<string>, muxMax: nat, evs: seq<Event>, src: string)
    requires T + 11 < U32_RANGE && |srcs| * muxMax <= 11
    requires FromSources(evs, srcs) && src in srcs
    ensures var t := Run(T, muxMax, evs);
            && (forall c :: c in t.conns ==> T <= c <= T + 10)
            && (CountSrc(t.conns, src) < muxMax ==>
                  exists c :: Slot(T, t.conns.Keys) == Some(c) && c !in t.conns && T <= c <= T + 10
                    && forall d {:trigger d in t.conns} :: T <= d < c ==> d in t.conns)
  {
    RunsStayWithin(T, 11, srcs, muxMax, evs);
    var t := Run(T, muxMax, evs);
    if CountSrc(t.conns, src) < muxMax {
      SearchFindsRoom(t, T, 11, srcs, muxMax, src);
      SlotIsLowestFree(T, t.conns.Keys);
    }
  }

  /** A closed id is free again: the next connect that passes the cap takes it, if all lower ones are in use. */
  lemma ClosedIdIsReused(t: Table, T: u32, muxMax: nat, c: u32, src: string, ifname: string, now: int)
    requires T + 11 < U32_RANGE && T <= c <= T + 10 && c in t.conns
    requires forall d {:trigger d in t.conns} :: T <= d < c ==> d in t.conns
    requires CountSrc(t.conns, src) < muxMax
    ensures var closed := Apply(t, T, muxMax, CloseEvent(c));
            c !in closed.conns && Connect(closed, T, muxMax, src, ifname, now).conns
              == t.conns[c := NewConn(c, src, ifname, now)]
  {
    var closed := Close(t, c);
    CountSrcClose(t.conns, c, src);
    SlotIsLowestFree(T, closed.conns.Keys);
    assert forall d {:trigger d in t.conns} :: T <= d < c ==> d in t.conns && d in closed.conns.Keys;
    assert closed.conns[c := NewConn(c, src, ifname, now)] == t.conns[c := NewConn(c, src, ifname, now)];
  }

  // ----- when a live connection can be displaced -----

  ghost predicate SomeRunDisplaces(T: u32, muxMax: nat, srcs: set<string>) {
    exists evs, src :: FromSources(evs, srcs) && src in srcs && Displaces(Run(T, muxMax, evs), T, muxMax, src)
  }

  lemma {:induction false} AllAtCap(conns: Conns, srcs: set<string>, cap: nat)
    requires forall s :: s in srcs ==> CountSrc(conns, s) >= cap
    ensures |OfSrcs(conns, srcs)| >= |srcs| * cap
  {
    if srcs != {} {
      var s :| s in srcs;
      var rest, mine := OfSrcs(conns, srcs - {s}), OfSrc(conns, s);
      AllAtCap(conns, srcs - {s}, cap);
      assert OfSrcs(conns, srcs) == rest + mine && rest !! mine;
      Distribute(|srcs - {s}|, 1, cap);
    }
  }

  lemma SourceBelowCap(conns: Conns, srcs: set<string>, muxMax: nat) returns (src: string)
    requires |conns.Keys| < |srcs| * muxMax
    ensures src in srcs && CountSrc(conns, src) < muxMax
  {
    if forall s :: s in srcs ==> CountSrc(conns, s) >= muxMax {
      AllAtCap(conns, srcs, muxMax);
      SubsetCard(OfSrcs(conns, srcs), conns.Keys);
      assert false;
    }
    src :| src in srcs && CountSrc(conns, src) < muxMax;
  }

  lemma SlotAfterPrefix(T: u32, j: nat, used: set<u32>)
    requires T + 11 != U32_RANGE && j <= Places(T) && used == Range(T, T + j)
    ensures Slot(T, used) == Some(T + Min(j, Places(T) - 1))
  {
    if T + 11 < U32_RANGE {
      SlotIsLowestFree(T, used);
      assert T + j !in used;
      assert forall d: int :: T <= d < T + j ==> d in used;
    } else {
      SlotNearTheTop(T, used);
    }
  }

  lemma FillOne(t: Table, T: u32, muxMax: nat, src: string, j: nat)
    requires T + 11 != U32_RANGE && j < Places(T) && t.conns.Keys == Range(T, T + j)
    requires CountSrc(t.conns, src) < muxMax
    ensures Connect(t, T, muxMax, src, "", 0).conns.Keys == Range(T, T + j + 1)
  {
    SlotAfterPrefix(T, j, t.conns.Keys);
    assert Range(T, T + j) + {T + j} == Range(T, T + j + 1);
  }

  /** A run of j connects fills the first j ids, as long as the caps leave room. */
  lemma {:induction false} FillUp(T: u32, muxMax: nat, srcs: set<string>, j: nat) returns (evs: seq<Event>)
    requires T + 11 != U32_RANGE && j <= Places(T) && j <= |srcs| * muxMax
    ensures FromSources(evs, srcs) && Run(T, muxMax, evs).conns.Keys == Range(T, T + j)
  {
    if j == 0 {
      evs := [];
    } else {
      evs := FillUp(T, muxMax, srcs, j - 1);
      var t := Run(T, muxMax, evs);
      var src := SourceBelowCap(t.conns, srcs, muxMax);
      FillOne(t, T, muxMax, src, j - 1);
      RunSnoc(T, muxMax, evs, ConnectEvent(src, "", 0));
      evs := evs + [ConnectEvent(src, "", 0)];
    }
  }

  lemma RunSnoc(T: u32, muxMax: nat, evs: seq<Event>, e: Event)
    ensures Run(T, muxMax, evs + [e]) == Apply(Run(T, muxMax, evs), T, muxMax, e)
  {
    assert (evs + [e])[..|evs + [e]| - 1] == evs;
  }

  /**
   Exactly when a serialised run can displace a live connection, for every tunnel id: when the caps allow more
   connections than there are places. With room above T that is a thirteenth, as the twelfth still fits on T+11,
   past the intended range; where the bound wraps it is a second; and for the one T in between it is never.
   */
  lemma DisplacementIff(T: u32, muxMax: nat, srcs: set<string>)
    ensures SomeRunDisplaces(T, muxMax, srcs) <==> T + 11 != U32_RANGE && |srcs| * muxMax > Places(T)
  {
    if T + 11 == U32_RANGE {
      forall evs, src | FromSources(evs, srcs) && src in srcs
        ensures !Displaces(Run(T, muxMax, evs), T, muxMax, src)
      {
        NoDisplacementAtTheEdge(T, muxMax, evs, src);
      }
    } else if |srcs| * muxMax <= Places(T) {
      forall evs, src | FromSources(evs, srcs) && src in srcs
        ensures !Displaces(Run(T, muxMax, evs), T, muxMax, src)
      {
        RunsStayWithin(T, Places(T), srcs, muxMax, evs);
        var t := Run(T, muxMax, evs);
        if CountSrc(t.conns, src) < muxMax {
          SearchFindsRoom(t, T, Places(T), srcs, muxMax, src);
        }
      }
    } else {
      var evs := FillUp(T, muxMax, srcs, Places(T));
      var t := Run(T, muxMax, evs);
      var src := SourceBelowCap(t.conns, srcs, muxMax);
      SlotAfterPrefix(T, Places(T), t.conns.Keys);
      assert Displaces(t, T, muxMax, src);
    }
  }

  /** The id the guard compares with is never given out, so it is always there to end a search. */
  lemma {:induction false} GuardIdStaysFree(T: u32, muxMax: nat, evs: seq<Event>)
    ensures IdAt(T, 100) !in Run(T, muxMax, evs).conns
  {
    if evs != [] {
      GuardIdStaysFree(T, muxMax, evs[..|evs| - 1]);
    }
  }

  /** One id short of the wrap, the bound never stops the search: it ends on a free id, or at the guard. */
  lemma NoDisplacementAtTheEdge(T: u32, muxMax: nat, evs: seq<Event>, src: string)
    requires T + 11 == U32_RANGE
    ensures !Displaces(Run(T, muxMax, evs), T, muxMax, src)
  {
    GuardIdStaysFree(T, muxMax, evs);
    assert FirstFree(T, Run(T, muxMax, evs).conns.Keys, 0) <= 100;
  }

  // ----- convergence under dumps -----

  /** A dump hands each listed route, in order, to a connect. */
  function Dump(t: Table, T: u32, muxMax: nat, routes: seq<(string, string)>, now: int): Table {
    if routes == [] then t
    else
      var last := routes[|routes| - 1];
      Connect(Dump(t, T, muxMax, routes[..|routes| - 1], now), T, muxMax, last.0, last.1, now)
  }

  function Dumps(t: Table, T: u32, muxMax: nat, dumps: seq<seq<(string, string)>>, now: int): Table {
    if dumps == [] then t
    else Dump(Dumps(t, T, muxMax, dumps[..|dumps| - 1], now), T, muxMax, dumps[|dumps| - 1], now)
  }

  predicate Lists(routes: seq<(string, string)>, src: string) {
    exists i :: 0 <= i < |routes| && routes[i].0 == src
  }

  /** Each of the sources once, in any order, and no other. */
  ghost predicate ListsOnce(routes: seq<(string, string)>, srcs: set<string>) {
    && (forall i, j :: 0 <= i < j < |routes| ==> routes[i].0 != routes[j].0)
    && (forall i :: 0 <= i < |routes| ==> routes[i].0 in srcs)
    && (forall s :: s in srcs ==> Lists(routes, s))
  }

  /** A connect adds one connection to its source unless that is at its cap, and changes no other count. */
  lemma ConnectCounts(t: Table, T: u32, srcs: set<string>, muxMax: nat,
                      src: string, ifname: string, now: int, s: string)
    requires T + 11 < U32_RANGE && |srcs| * muxMax <= 12 && Within(t, T, 12, srcs, muxMax)
    requires src in srcs && s in srcs
    ensures Within(Connect(t, T, muxMax, src, ifname, now), T, 12, srcs, muxMax)
    ensures CountSrc(Connect(t, T, muxMax, src, ifname, now).conns, s) ==
      if s == src then Min(muxMax, CountSrc(t.conns, s) + 1) else CountSrc(t.conns, s)
  {
    ApplyStaysWithin(t, T, 12, srcs, muxMax, ConnectEvent(src, ifname, now));
    if CountSrc(t.conns, src) < muxMax {
      SearchFindsRoom(t, T, 12, srcs, muxMax, src);
      var c := Slot(T, t.conns.Keys).value;
      CountSrcInsert(t.conns, c, NewConn(c, src, ifname, now), s);
    }
  }

  lemma {:induction false} DumpCounts(t: Table, T: u32, srcs: set<string>, muxMax: nat,
                                      routes: seq<(string, string)>, now: int, s: string)
    requires T + 11 < U32_RANGE && |srcs| * muxMax <= 12 && Within(t, T, 12, srcs, muxMax)
    requires forall i :: 0 <= i < |routes| ==> routes[i].0 in srcs
    requires forall i, j :: 0 <= i < j < |routes| ==> routes[i].0 != routes[j].0
    requires s in srcs
    ensures Within(Dump(t, T, muxMax, routes, now), T, 12, srcs, muxMax)
    ensures CountSrc(Dump(t, T, muxMax, routes, now).conns, s) ==
      if Lists(routes, s) then Min(muxMax, CountSrc(t.conns, s) + 1) else CountSrc(t.conns, s)
  {
    if routes != [] {
      var k := |routes| - 1;
      DumpCounts(t, T, srcs, muxMax, routes[..k], now, s);
      ConnectCounts(Dump(t, T, muxMax, routes[..k], now), T, srcs, muxMax, routes[k].0, routes[k].1, now, s);
      assert Lists(routes[..k], s) <==> exists i :: 0 <= i < k && routes[i].0 == s;
    }
  }

  /** What a dump adds is what it lists, source and interface together; what was there stays or is displaced. */
  lemma {:induction false} DumpAddsListed(t: Table, T: u32, muxMax: nat,
                                          routes: seq<(string, string)>, now: int, c: u32)
    requires c in Dump(t, T, muxMax, routes, now).conns
    ensures var conn := Dump(t, T, muxMax, routes, now).conns[c];
            (c in t.conns && conn == t.conns[c]) || (conn.src, conn.ifname) in routes
  {
    if routes != [] {
      var k := |routes| - 1;
      var before := Dump(t, T, muxMax, routes[..k], now);
      assert routes[k] in routes;
      if c in before.conns && Dump(t, T, muxMax, routes, now).conns[c] == before.conns[c] {
        DumpAddsListed(t, T, muxMax, routes[..k], now, c);
      }
    }
  }

  /** After m dumps over stable links each source has exactly its cap, or its starting count plus m if that is less. */
  lemma {:induction false} DumpsConverge(t: Table, T: u32, srcs: set<string>, muxMax: nat,
                                         dumps: seq<seq<(string, string)>>, now: int, s: string)
    requires T + 11 < U32_RANGE && |srcs| * muxMax <= 12 && Within(t, T, 12, srcs, muxMax)
    requires forall d :: d in dumps ==> ListsOnce(d, srcs)
    requires s in srcs
    ensures Within(Dumps(t, T, muxMax, dumps, now), T, 12, srcs, muxMax)
    ensures CountSrc(Dumps(t, T, muxMax, dumps, now).conns, s) == Min(muxMax, CountSrc(t.conns, s) + |dumps|)
  {
    if dumps != [] {
      var k := |dumps| - 1;
      DumpsConverge(t, T, srcs, muxMax, dumps[..k], now, s);
      assert dumps[k] in dumps;
      DumpCounts(Dumps(t, T, muxMax, dumps[..k], now), T, srcs, muxMax, dumps[k], now, s);
    }
  }
}
