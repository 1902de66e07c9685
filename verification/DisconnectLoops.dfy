/**
 What the loops that close connections have achieved at each turn, as predicates on values: which entries are
 gone, what is left to visit, and which LINKDOWNs went out.
 */
module DisconnectLoops {
  import opened Basics
  import opened Books
  import opened ConnTable
  import opened Frames
  import opened Ticks

  /** A LINKDOWN handed to a session: over which connection it went, and whether that took it. */
  datatype Announcement = Announcement(via: u32, bytes: seq<byte>, written: bool)

  /** A connection removed, and the announcement of it, if there was one. */
  datatype Removal = Removal(closed: u32, told: Option<Announcement>)

  /** The connections removed. */
  function Gone(log: seq<Removal>): set<u32> {
    if log == [] then {} else Gone(log[..|log| - 1]) + {log[|log| - 1].closed}
  }

  function TookIt(r: Removal): nat {
    if r.told.Some? && r.told.value.written then 1 else 0
  }

  /** How many of the announcements were accepted by their session. */
  function Written(log: seq<Removal>): nat {
    if log == [] then 0 else Written(log[..|log| - 1]) + TookIt(log[|log| - 1])
  }

  /**
   A removal from a table with these ids: it is announced over an entry that remains, and stays unannounced only if
   none remains or the scheduler picked id 0, which the client takes for no choice.
   */
  predicate WellTold(r: Removal, ids: set<u32>) {
    var left := ids - {r.closed};
    && r.closed in ids
    && match r.told
       case None => left == {} || 0 in left
       case Some(a) => a.via in left && a.via != 0 && a.bytes == LinkdownBytes(r.closed)
  }

  /** Every removal in the log was announced as it should be from what was left at that moment. */
  ghost predicate AllWellTold(log: seq<Removal>, ids: set<u32>) {
    log == [] || var n := |log| - 1; AllWellTold(log[..n], ids) && WellTold(log[n], ids - Gone(log[..n]))
  }

  /** The state after a removal: the entry closed, and its announcement, if any, sent and counted if written. */
  function Removed(b: Books, r: Removal): Books {
    var d := ClosedIfPresent(b, r.closed);
    match r.told
    case None => d
    case Some(a) => if a.via in d.table.conns then Sent(d, a.via, a.written) else d
  }

  function Replay(b: Books, log: seq<Removal>): Books {
    if log == [] then b else Removed(Replay(b, log[..|log| - 1]), log[|log| - 1])
  }

  /** The announcements accepted over one connection. */
  function WrittenOver(log: seq<Removal>, c: u32): nat {
    if log == [] then 0
    else
      var last := log[|log| - 1];
      WrittenOver(log[..|log| - 1], c) + (if last.told.Some? && last.told.value.via == c then TookIt(last) else 0)
  }

  /** Each remaining connection has counted exactly the announcements it took. */
  lemma {:induction false} ReplayCounts(a: Books, log: seq<Removal>, c: u32)
    requires AllWellTold(log, a.table.conns.Keys) && c in a.table.conns && c !in Gone(log)
    ensures c in Replay(a, log).table.conns
    ensures Replay(a, log).table.conns[c] == a.table.conns[c].(tx := a.table.conns[c].tx + WrittenOver(log, c))
  {
    if log != [] {
      ReplayCounts(a, log[..|log| - 1], c);
    }
  }

  /** And the cursor is where the last announcement went, or reset if there was none. */
  lemma {:induction false} ReplayCursor(a: Books, log: seq<Removal>)
    requires AllWellTold(log, a.table.conns.Keys)
    ensures Replay(a, log).table.conns.Keys == a.table.conns.Keys - Gone(log)
    ensures Replay(a, log).table.cursor ==
      if log == [] then a.table.cursor
      else match log[|log| - 1].told case None => 0 case Some(t) => t.via
  {
    if log != [] {
      ReplayCursor(a, log[..|log| - 1]);
    }
  }

  /** Closings without announcements: these entries and nothing else, and a reset cursor if there were any. */
  ghost predicate ClosedExactly(a: Books, gone: set<u32>, b: Books) {
    && b.table.conns == a.table.conns - gone
    && b.table.cursor == (if gone == {} then a.table.cursor else 0)
    && a.packets == b.packets && a.forwarded == b.forwarded && a.dropped == b.dropped && a.linkdowns == b.linkdowns
  }

  lemma ClosedExactlyStep(a: Books, gone: set<u32>, b: Books, c: u32)
    requires ClosedExactly(a, gone, b) && c in b.table.conns
    ensures ClosedExactly(a, gone + {c}, Closed(b, c))
  {
  }

  ghost predicate PingProgress(now: int, a: Books, todo: set<u32>, gone: set<u32>, b: Books, n: nat, pinged: set<u32>) {
    && gone <= a.table.conns.Keys && todo <= b.table.conns.Keys
    && LosesOnly(a, gone, b, n)
    && pinged == b.table.conns.Keys - todo
    && (forall c :: c in a.table.conns && c !in todo ==> (c in gone <==> HelloExpired(now, a.table.conns[c].lastHello)))
  }

  lemma BeginPings(now: int, a: Books)
    ensures PingProgress(now, a, a.table.conns.Keys, {}, a, 0, {})
  {
    assert a.table.conns - {} == a.table.conns;
  }

  lemma PingStep(now: int, a: Books, todo: set<u32>, gone: set<u32>, b: Books, n: nat, pinged: set<u32>, c: u32)
    requires PingProgress(now, a, todo, gone, b, n, pinged) && c in todo
    requires !HelloExpired(now, b.table.conns[c].lastHello)
    ensures PingProgress(now, a, todo - {c}, gone, b, n, pinged + {c})
  {
  }

  lemma ExpireStep(now: int, a: Books, todo: set<u32>, gone: set<u32>, b: Books, n: nat, pinged: set<u32>,
                   c: u32, b': Books, w: nat)
    requires PingProgress(now, a, todo, gone, b, n, pinged) && c in todo
    requires HelloExpired(now, b.table.conns[c].lastHello) && LosesOnly(b, {c}, b', w)
    ensures PingProgress(now, a, todo - {c}, gone + {c}, b', n + w, pinged)
  {
    LosesOnlyTwice(a, gone, b, n, {c}, b', w);
    assert b.table.conns[c] == a.table.conns[c].(tx := b.table.conns[c].tx);
  }

  lemma PingsDone(now: int, a: Books, gone: set<u32>, b: Books, n: nat, pinged: set<u32>)
    requires PingProgress(now, a, {}, gone, b, n, pinged)
    ensures gone == Stale(a.table.conns, now) && LosesOnly(a, gone, b, n) && pinged == b.table.conns.Keys
  {
  }

  lemma PingLogged(a: Books, b: Books, log: seq<Removal>, b': Books, more: seq<Removal>, c: u32)
    requires Disconnected(a, b, log) && Disconnected(b, b', more) && Gone(more) == {c}
    ensures Disconnected(a, b', log + more) && Gone(log + more) == Gone(log) + {c}
    ensures Written(log + more) == Written(log) + Written(more)
  {
    OneRemoval(more, b.table.conns.Keys, c);
    assert more == [more[0]] && more[..0] == [];
    assert Replay(b, more[..0]) == b && b' == Removed(b, more[0]);
    Extended(a, b, log, more[0], b');
  }

  lemma OneRemoval(log: seq<Removal>, ids: set<u32>, c: u32)
    requires AllWellTold(log, ids) && Gone(log) == {c}
    ensures |log| == 1 && log[0].closed == c && WellTold(log[0], ids) && Written(log) == TookIt(log[0])
  {
    assert ids - {} == ids;
  }

  /** What a disconnect loop has achieved: these removals, and nothing else but packets counted and LINKDOWNs sent. */
  ghost predicate Disconnected(a: Books, b: Books, log: seq<Removal>) {
    && LosesOnly(a, Gone(log), b, Written(log))
    && AllWellTold(log, a.table.conns.Keys)
    && b == Replay(a, log)
  }

  lemma Extended(a: Books, b: Books, log: seq<Removal>, r: Removal, b': Books)
    requires Disconnected(a, b, log)
    requires WellTold(r, b.table.conns.Keys) && LosesOnly(b, {r.closed}, b', TookIt(r)) && b' == Removed(b, r)
    ensures Disconnected(a, b', log + [r])
    ensures Gone(log + [r]) == Gone(log) + {r.closed} && Written(log + [r]) == Written(log) + TookIt(r)
  {
    assert (log + [r])[..|log|] == log;
    LosesOnlyTwice(a, Gone(log), b, Written(log), {r.closed}, b', TookIt(r));
    assert b.table.conns.Keys == a.table.conns.Keys - Gone(log);
  }

  /**
   No connection is removed twice, and when every session accepts, all removals are counted but one that empties the
   table.
   */
  lemma {:induction false} RemovalsCounted(log: seq<Removal>, ids: set<u32>)
    requires AllWellTold(log, ids) && 0 !in ids
    requires forall i :: 0 <= i < |log| && log[i].told.Some? ==> log[i].told.value.written
    ensures |log| == |Gone(log)| && Gone(log) <= ids
    ensures Written(log) == if log != [] && Gone(log) == ids then |log| - 1 else |log|
  {
    if log != [] {
      RemovalsCounted(log[..|log| - 1], ids);
    }
  }

  /** The count of LINKDOWNs for a whole loop whose writes all succeed. */
  lemma LinkdownsSent(a: Books, b: Books, log: seq<Removal>)
    requires Disconnected(a, b, log) && 0 !in a.table.conns
    requires forall i :: 0 <= i < |log| && log[i].told.Some? ==> log[i].told.value.written
    ensures var n, r := |a.table.conns.Keys|, |Gone(log)|;
            b.linkdowns - a.linkdowns == if r < n then r else if n == 0 then 0 else r - 1
  {
    RemovalsCounted(log, a.table.conns.Keys);
    SubsetCard(Gone(log), a.table.conns.Keys);
  }

  /** Inside the loop: what is left to visit, and what was decided for the rest. */
  ghost predicate Progress(m: Match, a: Books, todo: set<u32>, b: Books, log: seq<Removal>) {
    && todo <= b.table.conns.Keys
    && (forall c :: c in a.table.conns && c !in todo ==> (c in Gone(log) <==> Matches(m, a.table.conns[c])))
    && (forall c :: c in Gone(log) ==> c in a.table.conns)
    && Disconnected(a, b, log)
  }

  lemma Begin(m: Match, a: Books)
    ensures Progress(m, a, a.table.conns.Keys, a, [])
  {
    assert a.table.conns - {} == a.table.conns;
  }

  lemma LoopDone(m: Match, a: Books, b: Books, log: seq<Removal>)
    requires Progress(m, a, {}, b, log)
    ensures Gone(log) == MatchSet(a.table.conns, m) && Disconnected(a, b, log)
  {
  }

  lemma SkipStep(m: Match, a: Books, todo: set<u32>, b: Books, log: seq<Removal>, c: u32)
    requires Progress(m, a, todo, b, log) && c in todo && !Matches(m, b.table.conns[c])
    ensures Progress(m, a, todo - {c}, b, log)
  {
  }

  lemma CloseStep(m: Match, a: Books, todo: set<u32>, b: Books, log: seq<Removal>, r: Removal, b': Books)
    requires Progress(m, a, todo, b, log) && r.closed in todo && Matches(m, b.table.conns[r.closed])
    requires WellTold(r, b.table.conns.Keys) && LosesOnly(b, {r.closed}, b', TookIt(r)) && b' == Removed(b, r)
    ensures Progress(m, a, todo - {r.closed}, b', log + [r]) && Gone(log + [r]) == Gone(log) + {r.closed}
  {
    var c := r.closed;
    assert b.table.conns[c] == a.table.conns[c].(tx := b.table.conns[c].tx);
    Extended(a, b, log, r, b');
  }
}
