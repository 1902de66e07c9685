/**
 The state of one end together with the ledger of a whole run: packets read by the tunnel loop, those forwarded
 and dropped, LINKDOWNs sent, and the packets counted on connections no longer in the table.
 */
module Books {
  import opened Basics
  import opened ConnTable

  datatype Books = Books(
    table: Table,
    packets: nat, forwarded: nat, dropped: nat, linkdowns: nat, retired: nat)

  function Fresh(): Books {
    Books(Empty(), 0, 0, 0, 0, 0)
  }

  /** Packets read from the tunnel and neither forwarded nor dropped yet. */
  function InHand(b: Books): int {
    b.packets - b.forwarded - b.dropped
  }

  /**
   What holds whenever the lock is free: ring and records agree with the keys, the tunnel loop has at most one packet
   in hand, and every packet counted on a connection, live or retired, was forwarded or was a LINKDOWN.
   */
  ghost predicate Sound(b: Books) {
    && Consistent(b.table)
    && 0 <= InHand(b) <= 1
    && SumTx(b.table.conns) + b.retired == b.forwarded + b.linkdowns
  }

  function Inserted(b: Books, c: u32, conn: Conn): Books {
    b.(table := Insert(b.table, c, conn),
       retired := b.retired + (if c in b.table.conns then b.table.conns[c].tx else 0))
  }

  function Closed(b: Books, c: u32): Books
    requires c in b.table.conns
  {
    b.(table := Close(b.table, c), retired := b.retired + b.table.conns[c].tx)
  }

  function ClosedIfPresent(b: Books, c: u32): Books {
    if c in b.table.conns then Closed(b, c) else b
  }

  function Picked(b: Books, c: u32): Books {
    b.(table := b.table.(cursor := c))
  }

  function Forward(b: Books, c: u32): Books
    requires c in b.table.conns
  {
    b.(table := CountTx(b.table, c), forwarded := b.forwarded + 1)
  }

  function Announce(b: Books, c: u32): Books
    requires c in b.table.conns
  {
    b.(table := CountTx(b.table, c), linkdowns := b.linkdowns + 1)
  }

  /** An announcement handed to c's session, counted only if the session took it. */
  function Sent(b: Books, c: u32, written: bool): Books
    requires c in b.table.conns
  {
    if written then Announce(Picked(b, c), c) else Picked(b, c)
  }

  /** A frame read from c's session restarts its hello age. */
  function Heard(b: Books, c: u32, now: int): Books
    requires c in b.table.conns
  {
    b.(table := b.table.(conns := b.table.conns[c := b.table.conns[c].(lastHello := now)]))
  }

  /** A write to c's session that ran into its deadline. */
  function TimedOut(b: Books, c: u32): Books
    requires c in b.table.conns
  {
    b.(table := b.table.(conns := b.table.conns[c := b.table.conns[c].(txTimeouts := b.table.conns[c].txTimeouts + 1)]))
  }

  function ReadPacket(b: Books): Books {
    b.(packets := b.packets + 1)
  }

  function Drop(b: Books): Books {
    b.(dropped := b.dropped + 1)
  }

  lemma FreshSound()
    ensures Sound(Fresh())
  {
    EmptyConsistent();
    SoundAtStart(Fresh());
  }

  lemma SoundAtStart(b: Books)
    requires Consistent(b.table) && SumTx(b.table.conns) == 0
    requires b.packets == 0 && b.forwarded == 0 && b.dropped == 0 && b.linkdowns == 0 && b.retired == 0
    ensures Sound(b)
  {
  }

  lemma InsertedSound(b: Books, c: u32, conn: Conn)
    requires Sound(b) && Good(c, conn) && conn.tx == 0
    ensures Sound(Inserted(b, c, conn))
  {
    InsertConsistent(b.table, c, conn);
    InsertBalance(b.table.conns, c, conn);
  }

  lemma ClosedSound(b: Books, c: u32)
    requires Sound(b) && c in b.table.conns
    ensures Sound(Closed(b, c))
  {
    CloseConsistent(b.table, c);
    SumTxSplit(b.table.conns, c);
  }

  lemma PacketSound(b: Books)
    requires Sound(b)
    ensures if InHand(b) == 0 then Sound(ReadPacket(b)) else Sound(Drop(b))
  {
  }

  lemma CountedSound(b: Books, c: u32)
    requires Sound(b) && c in b.table.conns
    ensures Sound(Announce(b, c)) && (InHand(b) == 1 ==> Sound(Forward(b, c)))
  {
    CountTxAddsOne(b.table, c);
  }

  lemma HeardSound(b: Books, c: u32, now: int)
    requires Sound(b) && c in b.table.conns
    ensures Sound(Heard(b, c, now)) && Sound(TimedOut(b, c))
  {
    SumTxSplit(b.table.conns, c);
    SumTxUpdate(b.table.conns, c, Heard(b, c, now).table.conns[c]);
    SumTxUpdate(b.table.conns, c, TimedOut(b, c).table.conns[c]);
    assert Heard(b, c, now).table.conns.Keys == b.table.conns.Keys == TimedOut(b, c).table.conns.Keys;
  }

  /** A frame restarts the age of the one entry it came over: that is stale from 501 ticks on, the others as before. */
  lemma HeardRestartsAge(b: Books, c: u32, now: int, t: int, d: u32)
    requires c in b.table.conns
    ensures d in Stale(Heard(b, c, now).table.conns, t) <==>
      if d == c then t - now > 500 else d in Stale(b.table.conns, t)
    ensures SameButAge(b.table.conns, Heard(b, c, now).table.conns)
  {
  }

  ghost predicate SameButAge(a: Conns, b: Conns) {
    a.Keys == b.Keys && forall c :: c in a ==> b[c] == a[c].(lastHello := b[c].lastHello)
  }

  /** A timeout is counted on its entry, and changes nothing else. */
  lemma TimeoutIsCounted(b: Books, c: u32, d: u32)
    requires c in b.table.conns && d in b.table.conns
    ensures d in TimedOut(b, c).table.conns
    ensures var x, y := b.table.conns[d], TimedOut(b, c).table.conns[d];
      y.txTimeouts == x.txTimeouts + (if d == c then 1 else 0) && y.(txTimeouts := x.txTimeouts) == x
  {
  }

  /** Exactly these entries are gone, the rest is as it was but for packets counted on it, and n LINKDOWNs went out. */
  ghost predicate LosesOnly(a: Books, gone: set<u32>, b: Books, n: nat) {
    && SameButTx(a.table.conns - gone, b.table.conns)
    && a.packets == b.packets && a.forwarded == b.forwarded && a.dropped == b.dropped
    && b.linkdowns == a.linkdowns + n
  }

  lemma CloseThenSend(b: Books, c: u32, via: u32, written: bool)
    requires c in b.table.conns && via in Closed(b, c).table.conns
    ensures LosesOnly(b, {c}, Sent(Closed(b, c), via, written), if written then 1 else 0)
  {
    var before, after := b.table.conns - {c}, Sent(Closed(b, c), via, written).table.conns;
    assert before.Keys == after.Keys;
  }

  lemma CloseThenNothing(b: Books, c: u32)
    requires c in b.table.conns
    ensures LosesOnly(b, {c}, Closed(b, c), 0) && LosesOnly(b, {c}, Picked(Closed(b, c), 0), 0)
  {
  }

  lemma LosesOnlyTwice(a: Books, gone: set<u32>, b: Books, n: nat, more: set<u32>, c: Books, m: nat)
    requires LosesOnly(a, gone, b, n) && LosesOnly(b, more, c, m)
    ensures LosesOnly(a, gone + more, c, n + m)
  {
    assert (a.table.conns - (gone + more)).Keys == (b.table.conns - more).Keys;
  }

  // ----- whole runs -----

  /** The changes the operations of an end are made of. */
  datatype Change =
    | InsertChange(c: u32, conn: Conn)
    | CloseChange(c: u32)
    | PickChange(c: u32)
    | ForwardChange(c: u32)
    | AnnounceChange(c: u32)
    | HeardChange(c: u32, now: int)
    | TimeoutChange(c: u32)
    | ReadChange
    | DropChange

  predicate Allowed(b: Books, x: Change) {
    match x
    case InsertChange(c, conn) => Good(c, conn) && conn.tx == 0
    case PickChange(_) => true
    case ReadChange => InHand(b) == 0
    case DropChange => InHand(b) == 1
    case ForwardChange(c) => InHand(b) == 1 && c in b.table.conns
    case _ => x.c in b.table.conns
  }

  function Make(b: Books, x: Change): Books
    requires Allowed(b, x)
  {
    match x
    case InsertChange(c, conn) => Inserted(b, c, conn)
    case CloseChange(c) => Closed(b, c)
    case PickChange(c) => Picked(b, c)
    case ForwardChange(c) => Forward(b, c)
    case AnnounceChange(c) => Announce(b, c)
    case HeardChange(c, now) => Heard(b, c, now)
    case TimeoutChange(c) => TimedOut(b, c)
    case ReadChange => ReadPacket(b)
    case DropChange => Drop(b)
  }

  /** The state after a run, or None if some change was not allowed where it stands. */
  function After(run: seq<Change>): Option<Books> {
    if run == [] then Some(Fresh())
    else
      match After(run[..|run| - 1])
      case None => None
      case Some(b) => if Allowed(b, run[|run| - 1]) then Some(Make(b, run[|run| - 1])) else None
  }

  function Forwards(run: seq<Change>): nat {
    if run == [] then 0 else Forwards(run[..|run| - 1]) + (if run[|run| - 1].ForwardChange? then 1 else 0)
  }

  function Announcements(run: seq<Change>): nat {
    if run == [] then 0 else Announcements(run[..|run| - 1]) + (if run[|run| - 1].AnnounceChange? then 1 else 0)
  }

  function Reads(run: seq<Change>): nat {
    if run == [] then 0 else Reads(run[..|run| - 1]) + (if run[|run| - 1].ReadChange? then 1 else 0)
  }

  function Drops(run: seq<Change>): nat {
    if run == [] then 0 else Drops(run[..|run| - 1]) + (if run[|run| - 1].DropChange? then 1 else 0)
  }

  /**
   Conservation over every run: every packet read was forwarded or dropped, but for the one the loop may have in
   hand, and the packets counted on live and retired connections are those forwarded together with the LINKDOWNs sent.
   */
  lemma RunConserves(run: seq<Change>)
    requires After(run).Some?
    ensures var b := After(run).value;
      && Sound(b)
      && Reads(run) == Forwards(run) + Drops(run) + InHand(b) && 0 <= InHand(b) <= 1
      && SumTx(b.table.conns) + b.retired == Forwards(run) + Announcements(run)
  {
    RunSound(run);
    LedgerCounts(run);
  }

  lemma LastChange(run: seq<Change>)
    requires run != [] && After(run).Some?
    ensures var before, x := run[..|run| - 1], run[|run| - 1];
      After(before).Some? && Allowed(After(before).value, x) && After(run).value == Make(After(before).value, x)
  {
  }

  lemma {:induction false} RunSound(run: seq<Change>)
    requires After(run).Some?
    ensures Sound(After(run).value)
  {
    if run == [] {
      FreshSound();
    } else {
      LastChange(run);
      RunSound(run[..|run| - 1]);
      MakeSound(After(run[..|run| - 1]).value, run[|run| - 1]);
    }
  }

  lemma {:induction false} LedgerCounts(run: seq<Change>)
    requires After(run).Some?
    ensures var b := After(run).value;
      && b.packets == Reads(run) && b.forwarded == Forwards(run) && b.dropped == Drops(run)
      && b.linkdowns == Announcements(run)
  {
    if run != [] {
      LastChange(run);
      LedgerCounts(run[..|run| - 1]);
      MakeCounts(After(run[..|run| - 1]).value, run[|run| - 1]);
    }
  }

  lemma MakeCounts(b: Books, x: Change)
    requires Allowed(b, x)
    ensures Make(b, x).forwarded == b.forwarded + (if x.ForwardChange? then 1 else 0)
    ensures Make(b, x).linkdowns == b.linkdowns + (if x.AnnounceChange? then 1 else 0)
    ensures Make(b, x).packets == b.packets + (if x.ReadChange? then 1 else 0)
    ensures Make(b, x).dropped == b.dropped + (if x.DropChange? then 1 else 0)
  {
  }

  lemma MakeSound(b: Books, x: Change)
    requires Sound(b) && Allowed(b, x)
    ensures Sound(Make(b, x))
  {
    match x
    case InsertChange(c, conn) => InsertedSound(b, c, conn);
    case CloseChange(c) => ClosedSound(b, c);
    case PickChange(_) =>
    case ForwardChange(c) => CountedSound(b, c);
    case AnnounceChange(c) => CountedSound(b, c);
    case HeardChange(c, now) => HeardSound(b, c, now);
    case TimeoutChange(c) => HeardSound(b, c, 0);
    case ReadChange => PacketSound(b);
    case DropChange => PacketSound(b);
  }
}
