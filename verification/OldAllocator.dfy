/**
 The older id allocator: one connection per source, a search guard that works, and a server that recovers the
 tunnel from the id by rounding down to a multiple of ten. The runs here are of connects that do not overlap;
 the module OldRace lets them, as the older program does nothing to prevent it.
 */
module OldAllocator {
  import opened Basics
  import opened Slots

  /** The older client table: the source behind each id. */
  type OldTable = map<u32, string>

  /** The startup normalisation of the tunnel id. */
  function Normalise(id: u32): (T: u32)
    ensures T % 10 == 0 && T <= id < T + 10
  {
    id / 10 * 10
  }

  /** Where the older search ends, or None when its guard reports that the tunnel is full. */
  function OldSlot(T: u32, used: set<u32>): Option<u32> {
    var c := IdAt(T, FirstFree(T, used, 0));
    if c == IdAt(T, 10) then None else Some(c)
  }

  predicate SourceExists(t: OldTable, src: string) {
    exists c :: c in t && t[c] == src
  }

  function OldConnect(t: OldTable, T: u32, src: string): OldTable {
    if SourceExists(t, src) then t
    else
      match OldSlot(T, t.Keys)
      case None => t
      case Some(c) => t[c := src]
  }

  datatype OldEvent = OldConnectEvent(src: string) | OldCloseEvent(c: u32)

  function OldApply(t: OldTable, T: u32, e: OldEvent): OldTable {
    match e
    case OldConnectEvent(src) => OldConnect(t, T, src)
    case OldCloseEvent(c) => t - {c}
  }

  function OldRun(T: u32, evs: seq<OldEvent>): OldTable {
    if evs == [] then map[] else OldApply(OldRun(T, evs[..|evs| - 1]), T, evs[|evs| - 1])
  }

  predicate OldDisplaces(t: OldTable, T: u32, src: string) {
    !SourceExists(t, src) && OldSlot(T, t.Keys).Some? && OldSlot(T, t.Keys).value in t
  }

  /** The same search with the older guard, at T+10. */
  method FindOldSlot(T: u32, used: set<u32>) returns (r: Option<u32>)
    requires |used| < U32_RANGE
    ensures r == OldSlot(T, used)
  {
    var avail := Search(T, used);
    if avail == IdAt(T, 10) {
      return None;
    }
    return Some(avail);
  }

  /** Ids among the ten of the tunnel, and no source twice. */
  ghost predicate OldWithin(t: OldTable, T: u32) {
    && (forall c :: c in t ==> T <= c <= T + 9)
    && (forall c, d :: c in t && d in t && t[c] == t[d] ==> c == d)
  }

  /** While T+10 is free the guard is sound: the search yields a free id below it or gives up. */
  lemma OldSlotIsFree(T: u32, t: OldTable)
    requires T + 11 < U32_RANGE && OldWithin(t, T)
    ensures var s := OldSlot(T, t.Keys); s.Some? ==> T <= s.value <= T + 9 && s.value !in t
    ensures OldSlot(T, t.Keys).None? ==> forall c {:trigger c in t} :: T <= c <= T + 9 ==> c in t
  {
    var k := FirstFree(T, t.Keys, 0);
    assert IdAt(T, 10) == T + 10 && IdAt(T, 10) !in t.Keys;
    assert k <= 10;
    if k == 10 {
      forall c: u32 | T <= c <= T + 9
        ensures c in t
      {
        assert IdAt(T, c - T) == c;
      }
    }
  }

  lemma OldApplyWithin(t: OldTable, T: u32, e: OldEvent)
    requires T + 11 < U32_RANGE && OldWithin(t, T)
    ensures OldWithin(OldApply(t, T, e), T)
  {
    OldSlotIsFree(T, t);
  }

  /**
   In every run without overlap the ids stay in T to T+9 with one per source, and no connect displaces a live
   connection.
   */
  lemma {:induction false} OldRunWithin(T: u32, evs: seq<OldEvent>)
    requires T + 11 < U32_RANGE
    ensures OldWithin(OldRun(T, evs), T)
    ensures forall src :: !OldDisplaces(OldRun(T, evs), T, src)
  {
    if evs != [] {
      OldRunWithin(T, evs[..|evs| - 1]);
      OldApplyWithin(OldRun(T, evs[..|evs| - 1]), T, evs[|evs| - 1]);
    }
    OldSlotIsFree(T, OldRun(T, evs));
  }

  /** A closed id is free again, for any source that has none. */
  lemma OldClosedIdIsReused(T: u32, t: OldTable, c: u32, src: string)
    requires T + 11 < U32_RANGE && OldWithin(t, T) && c in t && !SourceExists(t, src)
    requires forall d {:trigger d in t} :: T <= d < c ==> d in t
    ensures OldConnect(OldApply(t, T, OldCloseEvent(c)), T, src) == t[c := src]
  {
    var closed := t - {c};
    OldSlotIsFree(T, closed);
    assert IdAt(T, c - T) == c;
    assert closed[c := src] == t[c := src];
  }

  ghost predicate SomeOldRunDisplaces(T: u32) {
    exists evs, src :: OldDisplaces(OldRun(T, evs), T, src)
  }

  /** Without overlap, a normalised tunnel id is safe exactly when its ten ids and the guard fit below the wrap. */
  lemma OldDisplacementIff(id: u32)
    ensures SomeOldRunDisplaces(Normalise(id)) <==> Normalise(id) + 10 >= U32_RANGE
  {
    var T := Normalise(id);
    if T + 10 < U32_RANGE {
      assert T + 11 < U32_RANGE;
      forall evs, src
        ensures !OldDisplaces(OldRun(T, evs), T, src)
      {
        OldRunWithin(T, evs);
      }
    } else {
      var e := OldConnectEvent("a");
      assert [e][..|[e]| - 1] == [];
      assert OldRun(T, []) == map[];
      assert OldSlot(T, {}) == Some(T);
      var t := OldRun(T, [e]);
      assert t == map[T := "a"];
      assert OldDisplaces(t, T, "b");
    }
  }

  lemma RoundsDownToTens(T: u32, c: u32)
    requires T % 10 == 0 && T <= c <= T + 9
    ensures c / 10 * 10 == T
  {
  }
}
