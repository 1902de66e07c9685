/**
 One end of a tunnel: its connections, changed in place by route and link events, by frames and timers, and by
 the tunnel reader. The client's serverType and the server's clientType hold the same fields, so one class models
 both; the operations below carry the side they belong to in their names. Connects, closings and lookups take the
 lock. Choosing for a packet, writing it, pinging and reading do not: a method for one of these describes it run
 without interruption, and where that matters its parts (looking, settling, looking up, writing) are methods of their
 own, callable in any state in which Valid holds. Valid says nothing of whether the cursor names an entry.
 The order in which a Go map is ranged over is arbitrary, so the loops take their next key freely.
 */
module Endpoint {
  import opened Basics
  import opened Books
  import opened Connections
  import opened ConnTable
  import Decimal
  import opened DisconnectLoops
  import opened FlowKey
  import opened Frames
  import opened Slots
  import opened Ticks

  /** How the write of a packet to a session ended. */
  datatype WriteOutcome = Accepted | TimedOutWrite | Failed

  datatype TunResult = Forwarded(c: u32) | Dropped

  datatype RouteKind = NewRoute | DelRoute | OtherKind

  /** A netlink route event; the interface is None when its index does not resolve. */
  datatype RouteUpdate = RouteUpdate(
    kind: RouteKind, dst: string, tableId: int,
    src: Option<string>, ifname: Option<string>)

  /** Crash stands for the nil dereference that ends the process. */
  datatype RouteOutcome = Ignored | Connecting | Disconnecting | Crash

  const MAIN_TABLE: int := 254

  class Endpoint {
    const baseConvid: u32
    const muxMax: nat
    const hashing: bool
    const owner: HashRing
    const intMax: nat

    var connections: map<u32, Connection>
    var ring: set<string>
    var lastConvid: u32

    /** The state as a value, with the ledger of the run so far; Valid ties it to the fields above. */
    ghost var books: Books

    constructor (baseConvid: u32, muxMax: nat, hashing: bool, owner: HashRing, intMax: nat)
      ensures Valid() && books == Fresh()
      ensures this.baseConvid == baseConvid && this.muxMax == muxMax && this.hashing == hashing
      ensures this.owner == owner && this.intMax == intMax
    {
      this.baseConvid, this.muxMax, this.hashing := baseConvid, muxMax, hashing;
      this.owner, this.intMax := owner, intMax;
      connections, ring, lastConvid := map[], {}, 0;
      books := Fresh();
    }

    ghost predicate Valid()
      reads this, connections.Values
    {
      && connections.Keys == books.table.conns.Keys
      && ring == books.table.ring
      && lastConvid == books.table.cursor
      && (forall c :: c in connections ==> connections[c].View() == books.table.conns[c])
      && Sound(books)
    }

    method ClientNumConnectionsBySrc(src: string) returns (cnt: nat)
      requires Valid()
      ensures cnt == CountSrc(books.table.conns, src)
    {
      cnt := 0;
      var todo := connections.Keys;
      ghost var conns := books.table.conns;
      ghost var counted: set<u32> := {};
      while todo != {}
        invariant todo <= connections.Keys
        invariant forall c :: c in counted <==> c in conns && conns[c].src == src && c !in todo
        invariant cnt == |counted|
      {
        var c :| c in todo;
        todo := todo - {c};
        assert conns[c].src == connections[c].src;
        if connections[c].src == src {
          cnt := cnt + 1;
          counted := counted + {c};
        }
      }
      assert counted == OfSrc(conns, src);
    }

    /** Ranging over the table: the first entry met that is alive and not the last used, or else the last one met. */
    method LookForEntry() returns (r: Option<u32>)
      requires Valid()
      ensures r.None? <==> connections.Keys == {}
      ensures r.Some? ==> RoundRobinPick(books.table, r.value)
    {
      if connections.Keys == {} {
        return None;
      }
      var some: u32 := 0;
      var todo := connections.Keys;
      while todo != {}
        invariant todo <= connections.Keys
        invariant forall c :: c in connections && c !in todo ==> c == lastConvid || !connections[c].alive
        invariant todo != connections.Keys ==> some in connections
        decreases todo
      {
        var c :| c in todo;
        todo := todo - {c};
        if c != lastConvid && connections[c].alive {
          assert books.table.conns[c].alive;
          return Some(c);
        }
        some := c;
      }
      assert forall d :: d in connections ==> d == lastConvid || !connections[d].View().alive;
      return Some(some);
    }

    /** Writing the cursor. The tunnel loops do so without the lock, so the id may be gone by now. */
    method Settle(c: u32)
      requires Valid()
      modifies this`lastConvid, this`books
      ensures Valid() && books == Picked(old(books), c) && lastConvid == c
    {
      lastConvid, books := c, Picked(books, c);
    }

    /** Round robin without interruption, as it is under the lock. */
    method ChooseRoundRobin() returns (r: Option<u32>)
      requires Valid()
      modifies this`lastConvid, this`books
      ensures Valid()
      ensures r.None? ==> connections.Keys == {} && books == old(books)
      ensures r.Some? ==> RoundRobinPick(old(books).table, r.value) && books == Picked(old(books), r.value)
      ensures lastConvid == if r.Some? then r.value else old(lastConvid)
    {
      r := LookForEntry();
      if r.Some? {
        Settle(r.value);
      }
    }

    /** client_connect_server without interruption: cap check, search, insert. */
    method ClientConnectServer(src: string, ifname: string, now: int) returns (r: Option<u32>)
      requires Valid() && |connections.Keys| < U32_RANGE
      modifies this
      ensures Valid()
      ensures books.table == Connect(old(books).table, baseConvid, muxMax, src, ifname, now)
      ensures books.packets == old(books).packets && books.forwarded == old(books).forwarded
      ensures books.dropped == old(books).dropped && books.linkdowns == old(books).linkdowns
      ensures r ==
        if CountSrc(old(books).table.conns, src) >= muxMax then None else Slot(baseConvid, old(connections.Keys))
      ensures r.None? ==> connections == old(connections)
      ensures r.Some? ==> r.value in connections && fresh(connections[r.value])
      ensures r.Some? ==> connections == old(connections)[r.value := connections[r.value]]
      ensures r.Some? ==> IsNew(connections[r.value], r.value, src, ifname, now)
    {
      var num := ClientNumConnectionsBySrc(src);
      if num >= muxMax {
        return None;
      }
      r := FindSlot(baseConvid, connections.Keys);
      if r.Some? {
        InsertConnection(r.value, src, ifname, now);
      }
    }

    /** The second locked region of a connect: whatever was on the id is displaced. */
    method InsertConnection(c: u32, src: string, ifname: string, now: int)
      requires Valid()
      modifies this
      ensures Valid()
      ensures books == Inserted(old(books), c, NewConn(c, src, ifname, now))
      ensures c in connections && fresh(connections[c]) && connections == old(connections)[c := connections[c]]
      ensures IsNew(connections[c], c, src, ifname, now)
      ensures ring == old(ring) + {Decimal.Fmt(c)} && lastConvid == 0
    {
      InsertedSound(books, c, NewConn(c, src, ifname, now));
      lastConvid := 0;
      var connection := new Connection(c, src, ifname, now);
      connections := connections[c := connection];
      ring := ring + {Decimal.Fmt(c)};
      books := Inserted(books, c, NewConn(c, src, ifname, now));
    }

    /** The record of a connection just opened. */
    predicate IsNew(connection: Connection, c: u32, src: string, ifname: string, now: int)
      reads connection
    {
      && connection.convid == c && connection.src == src && connection.ifname == ifname
      && connection.session == Live && connection.alive && connection.lastHello == now
      && connection.txCounter == 0 && connection.txTimeouts == 0
    }

    /** No two ids share a record, because a record knows its own id. */
    lemma DistinctObjects(c: u32)
      requires Valid() && c in connections
      ensures forall d :: d in connections && d != c ==> connections[d] != connections[c]
    {
      forall d | d in connections
        ensures connections[d].convid == d
      {
        assert Good(d, books.table.conns[d]);
      }
    }

    /** Both ends close the session; the client also forgets it, so that its reader stops. */
    method CloseConnection(c: u32, left: Session)
      requires Valid() && c in connections
      modifies this, connections[c]
      ensures Valid() && books == Closed(old(books), c)
      ensures connections == old(connections) - {c} && old(connections)[c].session == left
      ensures ring == old(ring) - {Decimal.Fmt(c)} && lastConvid == 0
    {
      DistinctObjects(c);
      ClosedSound(books, c);
      var connection := connections[c];
      connection.session := left;
      lastConvid := 0;
      ring := ring - {Decimal.Fmt(c)};
      connections := connections - {c};
      books := Closed(books, c);
    }

    /** A successful write is counted on its connection: a forwarded packet or an announcement. */
    method CountSent(c: u32, announcement: bool)
      requires Valid() && c in connections && (announcement || InHand(books) == 1)
      modifies this`books, connections[c]
      ensures Valid()
      ensures books == if announcement then Announce(old(books), c) else Forward(old(books), c)
      ensures connections[c].txCounter == old(connections[c].txCounter) + 1
    {
      DistinctObjects(c);
      CountedSound(books, c);
      connections[c].txCounter := connections[c].txCounter + 1;
      books := if announcement then Announce(books, c) else Forward(books, c);
    }

    /** client_send_linkdown_message: pick a connection that is still up and write the announcement to it. */
    method ClientSendLinkdown(closed: u32) returns (a: Option<Announcement>)
      requires Valid()
      modifies this, connections.Values
      ensures Valid() && connections == old(connections)
      ensures a.Some? ==> a.value.via != 0 && a.value.bytes == LinkdownBytes(closed)
      ensures a.Some? ==> RoundRobinPick(old(books).table, a.value.via)
      ensures a.Some? ==> books == Sent(old(books), a.value.via, a.value.written)
      ensures a.None? ==> connections.Keys == {} || 0 in connections
      ensures a.None? ==> books == old(books) || books == Picked(old(books), 0)
    {
      var via := ChooseRoundRobin();
      if via.None? || via.value == 0 {
        return None;
      }
      var written: bool := *;
      if written {
        CountSent(via.value, true);
      }
      a := Some(Announcement(via.value, LinkdownBytes(closed), written));
    }

    /** These records have left the table and their sessions are over. */
    ghost predicate Buried(was: map<u32, Connection>, gone: set<u32>, left: Session)
      reads this, was.Values
    {
      && (forall c :: c in gone ==> c in was && was[c].session == left)
      && (forall c :: c in connections ==> c in was && connections[c] == was[c])
    }

    lemma NotInTable(connection: Connection)
      requires Valid() && connection.session != Live
      ensures connection !in connections.Values
    {
      forall d | d in connections
        ensures connections[d].View().session == Live
      {
        assert Good(d, books.table.conns[d]);
      }
    }

    /** One removal of a disconnect loop: close the connection, then announce it over another. */
    method CloseAndAnnounce(c: u32) returns (r: Removal)
      requires Valid() && c in connections
      modifies this, connections.Values
      ensures Valid() && connections == old(connections) - {c}
      ensures old(connections)[c].session == Nil
      ensures r.closed == c && WellTold(r, old(books).table.conns.Keys)
      ensures LosesOnly(old(books), {c}, books, TookIt(r)) && books == Removed(old(books), r)
      ensures r.told.Some? ==> RoundRobinPick(Close(old(books).table, c), r.told.value.via)
    {
      ghost var b := books;
      CloseConnection(c, Nil);
      var a := ClientSendLinkdown(c);
      r := Removal(c, a);
      assert connections.Keys == b.table.conns.Keys - {c};
      if a.Some? {
        CloseThenSend(b, c, a.value.via, a.value.written);
      } else {
        CloseThenNothing(b, c);
      }
    }

    /** The same, seen by a loop that began with the records in was and has removed some. */
    method Remove(c: u32, ghost was: map<u32, Connection>, ghost gone: set<u32>) returns (r: Removal)
      requires Valid() && c in connections && Buried(was, gone, Nil)
      modifies this, connections.Values
      ensures Valid() && Buried(was, gone + {c}, Nil)
      ensures r.closed == c && WellTold(r, old(books).table.conns.Keys)
      ensures LosesOnly(old(books), {c}, books, TookIt(r)) && books == Removed(old(books), r)
    {
      r := CloseAndAnnounce(c);
    }

    /** One turn of a disconnect loop that started in state a. */
    method Visit(m: Match, c: u32, log: seq<Removal>,
                 ghost a: Books, ghost todo: set<u32>, ghost was: map<u32, Connection>)
      returns (log': seq<Removal>)
      requires Valid() && c in todo && Progress(m, a, todo, books, log) && Buried(was, Gone(log), Nil)
      modifies this, connections.Values
      ensures Valid() && Progress(m, a, todo - {c}, books, log') && Buried(was, Gone(log'), Nil)
    {
      log' := log;
      if Matches(m, connections[c].View()) {
        var r := Remove(c, was, Gone(log));
        log' := log + [r];
        CloseStep(m, a, todo, old(books), log, r, books);
      } else {
        SkipStep(m, a, todo, books, log, c);
      }
    }

    /**
     The disconnect loops: close and announce every connection that matches, in whatever order the table is ranged.
     */
    method ClientDisconnectSessions(m: Match) returns (log: seq<Removal>)
      requires Valid()
      modifies this, connections.Values
      ensures Valid()
      ensures Buried(old(connections), Gone(log), Nil)
      ensures Disconnected(old(books), books, log) && Gone(log) == MatchSet(old(books).table.conns, m)
    {
      log := [];
      var todo := connections.Keys;
      Begin(m, books);
      while todo != {}
        invariant Valid()
        invariant Buried(old(connections), Gone(log), Nil)
        invariant Progress(m, old(books), todo, books, log)
      {
        var c :| c in todo;
        log := Visit(m, c, log, old(books), todo, old(connections));
        todo := todo - {c};
      }
      LoopDone(m, old(books), books, log);
    }

    /** client_send_server_pings: connections whose hello is too old are disconnected, the others are sent a hello. */
    method ClientSendPings(now: int) returns (pinged: set<u32>, log: seq<Removal>)
      requires Valid()
      modifies this, connections.Values
      ensures Valid()
      ensures Disconnected(old(books), books, log) && Gone(log) == Stale(old(books).table.conns, now)
      ensures Buried(old(connections), Gone(log), Nil) && pinged == connections.Keys
    {
      pinged, log := {}, [];
      var todo := connections.Keys;
      BeginPings(now, books);
      while todo != {}
        invariant Valid()
        invariant Buried(old(connections), Gone(log), Nil)
        invariant PingProgress(now, old(books), todo, Gone(log), books, Written(log), pinged)
        invariant Disconnected(old(books), books, log)
      {
        var c :| c in todo;
        pinged, log := ClientPingOrExpire(now, c, pinged, log, old(books), todo, old(connections));
        todo := todo - {c};
      }
      PingsDone(now, old(books), Gone(log), books, Written(log), pinged);
    }

    /** One turn of the ping loop that started in state a. */
    method ClientPingOrExpire(now: int, c: u32, pinged: set<u32>, log: seq<Removal>,
                              ghost a: Books, ghost todo: set<u32>, ghost was: map<u32, Connection>)
      returns (pinged': set<u32>, log': seq<Removal>)
      requires Valid() && c in todo && Buried(was, Gone(log), Nil)
      requires PingProgress(now, a, todo, Gone(log), books, Written(log), pinged) && Disconnected(a, books, log)
      modifies this, connections.Values
      ensures Valid()
      ensures PingProgress(now, a, todo - {c}, Gone(log'), books, Written(log'), pinged')
      ensures Disconnected(a, books, log') && Buried(was, Gone(log'), Nil)
    {
      pinged', log' := pinged, log;
      if HelloExpired(now, connections[c].lastHello) {
        var more := RemoveStale(c, was, Gone(log));
        ExpireStep(now, a, todo, Gone(log), old(books), Written(log), pinged, c, books, Written(more));
        PingLogged(a, old(books), log, books, more, c);
        log' := log + more;
      } else {
        pinged' := pinged + {c};
        PingStep(now, a, todo, Gone(log), books, Written(log), pinged, c);
      }
    }

    /** A removal by id, seen by a loop that began with the records in was and has removed some. */
    method RemoveStale(c: u32, ghost was: map<u32, Connection>, ghost gone: set<u32>) returns (log: seq<Removal>)
      requires Valid() && c in connections && Buried(was, gone, Nil)
      modifies this, connections.Values
      ensures Valid() && Buried(was, gone + {c}, Nil)
      ensures Disconnected(old(books), books, log) && Gone(log) == {c}
    {
      log := DisconnectOne(c);
    }

    /** client_disconnect_session_by_convid, given the id an entry records as its own. */
    method DisconnectOne(c: u32) returns (log: seq<Removal>)
      requires Valid() && c in connections
      modifies this, connections.Values
      ensures Valid() && Disconnected(old(books), books, log) && Gone(log) == {c}
      ensures Buried(old(connections), {c}, Nil)
    {
      assert Good(c, books.table.conns[c]);
      MatchOne(books.table, c);
      log := ClientDisconnectSessions(ByConvid(connections[c].convid));
    }

    /** A frame read from a session: any frame counts as a hello; all but hellos go to the tunnel. */
    method ClientReceive(c: u32, bytes: seq<byte>, now: int) returns (toTun: Option<seq<byte>>)
      requires Valid() && c in connections
      modifies this`books, connections[c]
      ensures Valid() && books == Heard(old(books), c, now) && connections[c].lastHello == now
      ensures toTun == if ClientRead(bytes).Hello? then None else Some(bytes)
    {
      Hear(c, now);
      toTun := if ClientRead(bytes).Hello? then None else Some(bytes);
    }

    /** The scheduler, given the key its side builds from the packet. */
    method ChooseForPacket(key: string) returns (r: Option<u32>)
      requires Valid() && PicksMember(owner)
      modifies this`lastConvid, this`books
      ensures Valid() && books == AfterPick(old(books), hashing, r)
      ensures hashing ==> r == HashedPick(old(books).table.ring, key, owner, intMax)
      ensures hashing ==>
        forall c: u32 :: r == Some(c) <==> c in connections && c <= intMax && owner(ring, key) == Decimal.Fmt(c)
      ensures lastConvid == if hashing || r.None? then old(lastConvid) else r.value
      ensures !hashing && r.Some? ==> RoundRobinPick(old(books).table, r.value)
      ensures r.Some? ==> r.value in connections
      ensures r.None? && (forall c :: c in connections ==> c <= intMax) ==> connections.Keys == {}
    {
      if hashing {
        r := HashedPick(ring, key, owner, intMax);
        HashedPickIsLive(books.table, key, owner, intMax);
        forall c: u32
          ensures r == Some(c) <==> c in connections && c <= intMax && owner(ring, key) == Decimal.Fmt(c)
        {
          HashedPickIff(books.table, key, owner, intMax, c);
        }
      } else {
        r := ChooseRoundRobin();
      }
    }

    /**
     One turn of client_handle_tun, run without interruption: a packet is read, a connection chosen, and the packet
     sent on it. ClientSendChosen takes any choice, so that it also describes one made before the table changed.
     */
    method ClientHandleTun(frame: seq<byte>, n: nat, dead: bool, outcome: WriteOutcome)
      returns (r: TunResult, picked: Option<u32>, log: seq<Removal>)
      requires Valid() && InHand(books) == 0 && IsBuffer(frame) && PicksMember(owner)
      modifies this, connections.Values
      ensures Valid() && InHand(books) == 0
      ensures ClientSendStep(AfterPick(ReadPacket(old(books)), hashing, picked), picked, dead, outcome, r, log, books)
      ensures hashing ==> picked == HashedPick(old(books).table.ring, ExtractSrc(frame, n), owner, intMax)
      ensures !hashing && picked.Some? ==> RoundRobinPick(old(books).table, picked.value)
    {
      TakePacket();
      picked := ChooseForPacket(ExtractSrc(frame, n));
      r, log := ClientSendChosen(picked, dead, outcome);
    }

    /**
     What happens to the packet in hand once a connection has been chosen, however long ago: the table may have
     changed since, and a choice that is no longer in it is dropped, with nothing else done.
     */
    method ClientSendChosen(picked: Option<u32>, dead: bool, outcome: WriteOutcome)
      returns (r: TunResult, log: seq<Removal>)
      requires Valid() && InHand(books) == 1
      modifies this, connections.Values
      ensures Valid() && InHand(books) == 0
      ensures ClientSendStep(old(books), picked, dead, outcome, r, log, books)
      ensures r.Forwarded? <==>
        picked.Some? && picked.value != 0 && picked.value in old(connections) && !dead && outcome.Accepted?
      ensures r.Forwarded? ==> r.c == picked.value && connections == old(connections)
    {
      var connection := None;
      if picked.Some? && picked.value != 0 {
        connection := Lookup(picked.value);
      }
      if connection.None? {
        DropPacket();
        return Dropped, [];
      }
      assert Good(picked.value, books.table.conns[picked.value]);
      r, log := ClientWrite(connection.value, dead, outcome);
    }

    /** The locked lookup of a chosen connection. */
    method Lookup(c: u32) returns (r: Option<Connection>)
      requires Valid()
      ensures r == if c in connections then Some(connections[c]) else None
    {
      r := if c in connections then Some(connections[c]) else None;
    }

    /**
     The packet in hand is written to the session of the record that was looked up. A record that has been removed
     since has lost its session, and the packet is dropped.
     */
    method ClientWrite(connection: Connection, dead: bool, outcome: WriteOutcome)
      returns (r: TunResult, log: seq<Removal>)
      requires Valid() && InHand(books) == 1
      requires connection.session.Nil? || Holds(connection)
      modifies this, connections.Values
      ensures Valid() && InHand(books) == 0
      ensures old(connection.session).Nil? ==> r == Dropped && log == [] && books == Drop(old(books))
      ensures old(Holds(connection)) ==>
        ClientWriteStep(old(books), old(connection.convid), dead, outcome, r, log, books)
      ensures r.Forwarded? <==> old(Holds(connection)) && !dead && outcome.Accepted?
      ensures r.Forwarded? ==> connections == old(connections) && connection.txCounter == old(connection.txCounter) + 1
      ensures dead || outcome.Failed? ==> connection.session == Nil && connection !in connections.Values
    {
      log := [];
      var c := connection.convid;
      if connection.session.Nil? {
        NotInTable(connection);
        DropPacket();
        r := Dropped;
      } else if dead || outcome.Failed? {
        log := GiveUpOn(connection);
        r := Dropped;
      } else if outcome.TimedOutWrite? {
        DropTimedOut(c);
        r := Dropped;
      } else {
        CountSent(c, false);
        r := Forwarded(c);
      }
    }

    /** The packet in hand is dropped, and the connection it was meant for disconnected. */
    method GiveUpOn(connection: Connection) returns (log: seq<Removal>)
      requires Valid() && InHand(books) == 1 && Holds(connection)
      modifies this, connections.Values
      ensures Valid() && InHand(books) == 0
      ensures Disconnected(Drop(old(books)), books, log) && Gone(log) == {old(connection.convid)}
      ensures connection.session == Nil && connection !in connections.Values
    {
      DropPacket();
      log := DisconnectOne(connection.convid);
      NotInTable(connection);
    }

    /** The record is in the table, under its own id. */
    predicate Holds(connection: Connection)
      reads this, connection
    {
      connection.convid in connections && connections[connection.convid] == connection
    }

    /** A hello that could not be written in time: the attempt is counted and the client's link closed. */
    method ClientHelloTimedOut(c: u32) returns (log: seq<Removal>)
      requires Valid() && c in connections
      modifies this, connections.Values
      ensures Valid() && Disconnected(TimedOut(old(books), c), books, log) && Gone(log) == {c}
      ensures Buried(old(connections), {c}, Nil)
    {
      CountTimeout(c);
      log := DisconnectOne(c);
    }

    /** A packet has been read from the tunnel device. */
    ghost method TakePacket()
      requires Valid() && InHand(books) == 0
      modifies this`books
      ensures Valid() && books == ReadPacket(old(books))
    {
      PacketSound(books);
      books := ReadPacket(books);
    }

    /** The packet in hand is given up. */
    ghost method DropPacket()
      requires Valid() && InHand(books) == 1
      modifies this`books
      ensures Valid() && books == Drop(old(books))
    {
      PacketSound(books);
      books := Drop(books);
    }

    /** The packet is given up because its write ran into the deadline. */
    method DropTimedOut(c: u32)
      requires Valid() && c in connections && InHand(books) == 1
      modifies this`books, connections[c]
      ensures Valid() && books == Drop(TimedOut(old(books), c))
      ensures connections[c].txTimeouts == old(connections[c].txTimeouts) + 1
    {
      CountTimeout(c);
      DropPacket();
    }

    method CountTimeout(c: u32)
      requires Valid() && c in connections
      modifies this`books, connections[c]
      ensures Valid() && books == TimedOut(old(books), c)
      ensures connections[c].txTimeouts == old(connections[c].txTimeouts) + 1
    {
      DistinctObjects(c);
      HeardSound(books, c, 0);
      connections[c].txTimeouts := connections[c].txTimeouts + 1;
      books := TimedOut(books, c);
    }

    /** handle_route_update: what a netlink route event does to the table. */
    method HandleRouteUpdate(u: RouteUpdate, now: int) returns (r: RouteOutcome, log: seq<Removal>)
      requires Valid() && |connections.Keys| < U32_RANGE
      modifies this, connections.Values
      ensures Valid()
      ensures r.Ignored? <==> u.dst != "0.0.0.0/0" || u.tableId == 254 || u.kind.OtherKind? || u.src.None?
      ensures r.Crash? <==> !r.Ignored? && u.ifname.None?
      ensures r.Connecting? <==> !r.Ignored? && u.ifname.Some? && u.kind.NewRoute?
      ensures r.Disconnecting? <==> !r.Ignored? && u.ifname.Some? && u.kind.DelRoute?
      ensures r.Connecting? ==>
        books.table == Connect(old(books).table, baseConvid, muxMax, u.src.value, u.ifname.value, now)
      ensures r.Disconnecting? ==>
        Disconnected(old(books), books, log) && Gone(log) == MatchSet(old(books).table.conns, BySrc(u.src.value))
      ensures r.Ignored? || r.Crash? ==> books == old(books) && log == []
    {
      log := [];
      if u.kind.NewRoute? && u.dst == "0.0.0.0/0" {
        if u.tableId == MAIN_TABLE {
          return Ignored, [];
        }
        if u.src.Some? {
          if u.ifname.None? {
            return Crash, [];
          }
          var _ := ClientConnectServer(u.src.value, u.ifname.value, now);
          return Connecting, [];
        }
      }
      if u.kind.DelRoute? && u.dst == "0.0.0.0/0" {
        if u.tableId == MAIN_TABLE {
          return Ignored, [];
        }
        if u.src.Some? {
          if u.ifname.None? {
            return Crash, [];
          }
          log := ClientDisconnectSessions(BySrc(u.src.value));
          return Disconnecting, log;
        }
      }
      return Ignored, [];
    }

    // ----- the server's operations -----

    /** The table update of server_accept_conn. */
    method ServerAcceptConn(convid: u32, remote: string, now: int)
      requires Valid()
      modifies this
      ensures Valid()
      ensures books == Inserted(old(books), convid, NewConn(convid, remote, "", now))
      ensures convid in connections && IsNew(connections[convid], convid, remote, "", now)
      ensures convid in connections && fresh(connections[convid])
      ensures connections == old(connections)[convid := connections[convid]]
    {
      InsertConnection(convid, remote, "", now);
    }

    /** server_disconnect_session_by_convid: at most one entry matches, and it is closed. */
    method ServerDisconnectSession(c: u32)
      requires Valid()
      modifies this, connections.Values
      ensures Valid()
      ensures books == ClosedIfPresent(old(books), c)
      ensures connections == old(connections) - {c}
      ensures Buried(old(connections), old(connections.Keys) * {c}, Shut)
    {
      var todo := connections.Keys;
      while todo != {}
        invariant Valid() && todo <= connections.Keys
        invariant books == if c in todo then old(books) else ClosedIfPresent(old(books), c)
        invariant connections == if c in todo then old(connections) else old(connections) - {c}
        invariant Buried(old(connections), if c in todo then {} else old(connections.Keys) * {c}, Shut)
      {
        var d :| d in todo;
        todo := todo - {d};
        assert Good(d, books.table.conns[d]);
        if connections[d].convid == c {
          CloseConnection(d, Shut);
        }
      }
    }

    /** server_send_client_pings: like the client's, but nothing is announced. */
    method ServerSendPings(now: int) returns (pinged: set<u32>)
      requires Valid()
      modifies this, connections.Values
      ensures Valid()
      ensures ClosedExactly(old(books), Stale(old(books).table.conns, now), books)
      ensures Buried(old(connections), Stale(old(books).table.conns, now), Shut) && pinged == connections.Keys
    {
      pinged := {};
      var todo := connections.Keys;
      ghost var gone: set<u32> := {};
      BeginPings(now, books);
      while todo != {}
        invariant Valid()
        invariant Buried(old(connections), gone, Shut)
        invariant PingProgress(now, old(books), todo, gone, books, 0, pinged) && ClosedExactly(old(books), gone, books)
      {
        var c :| c in todo;
        pinged, gone := ServerPingOrExpire(now, c, pinged, old(books), todo, gone, old(connections));
        todo := todo - {c};
      }
      PingsDone(now, old(books), gone, books, 0, pinged);
    }

    method ServerPingOrExpire(now: int, c: u32, pinged: set<u32>,
                              ghost a: Books, ghost todo: set<u32>, ghost gone: set<u32>,
                              ghost was: map<u32, Connection>)
      returns (pinged': set<u32>, ghost gone': set<u32>)
      requires Valid() && c in todo && PingProgress(now, a, todo, gone, books, 0, pinged)
      requires ClosedExactly(a, gone, books) && Buried(was, gone, Shut)
      modifies this, connections.Values
      ensures Valid() && PingProgress(now, a, todo - {c}, gone', books, 0, pinged')
      ensures ClosedExactly(a, gone', books) && Buried(was, gone', Shut)
    {
      pinged', gone' := pinged, gone;
      assert Good(c, books.table.conns[c]);
      if HelloExpired(now, connections[c].lastHello) {
        ServerDisconnectSession(connections[c].convid);
        CloseThenNothing(old(books), c);
        ExpireStep(now, a, todo, gone, old(books), 0, pinged, c, books, 0);
        ClosedExactlyStep(a, gone, old(books), c);
        gone' := gone + {c};
      } else {
        pinged' := pinged + {c};
        PingStep(now, a, todo, gone, books, 0, pinged, c);
      }
    }

    /**
     A frame read by the server: a LINKDOWN closes the connection it names, over whichever session it came, and
     data goes to the tunnel device; when the device fails, the connection the data came over is closed.
     */
    method ServerReceive(c: u32, bytes: seq<byte>, now: int, tunFails: bool) returns (toTun: Option<seq<byte>>)
      requires Valid() && c in connections
      modifies this, connections.Values
      ensures Valid()
      ensures books == match ServerRead(bytes)
                       case Linkdown(name) => ClosedIfPresent(Heard(old(books), c, now), name)
                       case Data(_) =>
                         if tunFails then Closed(Heard(old(books), c, now), c) else Heard(old(books), c, now)
                       case Hello => Heard(old(books), c, now)
      ensures toTun == if ServerRead(bytes).Data? then Some(bytes) else None
      ensures c in connections ==> connections[c].lastHello == now
      ensures ServerRead(bytes).Linkdown? ==> ServerRead(bytes).name !in connections
      ensures forall d :: d in old(connections) && d !in connections ==> old(connections)[d].session == Shut
    {
      Hear(c, now);
      match ServerRead(bytes)
      case Hello => toTun := None;
      case Linkdown(name) =>
        ServerDisconnectSession(name);
        toTun := None;
      case Data(_) =>
        DeliverToTun(c, tunFails);
        toTun := Some(bytes);
        assert c in connections ==> connections[c] == old(connections)[c];
    }

    /** Any frame counts as a hello. */
    method Hear(c: u32, now: int)
      requires Valid() && c in connections
      modifies this`books, connections[c]
      ensures Valid() && books == Heard(old(books), c, now) && connections[c].lastHello == now
    {
      DistinctObjects(c);
      HeardSound(books, c, now);
      connections[c].lastHello := now;
      books := Heard(books, c, now);
    }

    /** The tunnel device takes the data, or fails and costs the connection it came over. */
    method DeliverToTun(c: u32, tunFails: bool)
      requires Valid() && c in connections
      modifies this, connections.Values
      ensures Valid() && books == if tunFails then Closed(old(books), c) else old(books)
      ensures connections == if tunFails then old(connections) - {c} else old(connections)
      ensures tunFails ==> old(connections)[c].session == Shut
      ensures forall d :: d in connections ==> connections[d].lastHello == old(connections[d].lastHello)
    {
      if tunFails {
        assert Good(c, books.table.conns[c]);
        ServerDisconnectSession(connections[c].convid);
      }
    }

    /** One turn of server_handle_tun, run without interruption. */
    method ServerHandleTun(frame: seq<byte>, n: nat, dead: bool, outcome: WriteOutcome)
      returns (r: TunResult, picked: Option<u32>)
      requires Valid() && InHand(books) == 0 && IsBuffer(frame) && PicksMember(owner)
      modifies this, connections.Values
      ensures Valid() && InHand(books) == 0
      ensures ServerSendStep(AfterPick(ReadPacket(old(books)), hashing, picked), picked, dead, outcome, r, books)
      ensures hashing ==> picked == HashedPick(old(books).table.ring, ExtractDst(frame, n), owner, intMax)
      ensures !hashing && picked.Some? ==> RoundRobinPick(old(books).table, picked.value)
    {
      TakePacket();
      picked := ChooseForPacket(ExtractDst(frame, n));
      r := ServerSendChosen(picked, dead, outcome);
    }

    /** From the choice on, whatever has happened to the table since. */
    method ServerSendChosen(picked: Option<u32>, dead: bool, outcome: WriteOutcome) returns (r: TunResult)
      requires Valid() && InHand(books) == 1
      modifies this, connections.Values
      ensures Valid() && InHand(books) == 0
      ensures ServerSendStep(old(books), picked, dead, outcome, r, books)
      ensures r.Forwarded? <==> picked.Some? && picked.value in old(connections) && !dead && outcome.Accepted?
      ensures r.Forwarded? ==> r.c == picked.value && connections == old(connections)
    {
      var connection := None;
      if picked.Some? {
        connection := Lookup(picked.value);
      }
      if connection.None? {
        DropPacket();
        return Dropped;
      }
      assert Good(picked.value, books.table.conns[picked.value]);
      r := ServerWrite(connection.value, dead, outcome);
    }

    /**
     The packet in hand is written to the session of the record that was looked up. The session of a record removed
     since refuses it, and the server then closes whatever holds the record's id by now.
     */
    method ServerWrite(connection: Connection, dead: bool, outcome: WriteOutcome) returns (r: TunResult)
      requires Valid() && InHand(books) == 1
      requires connection.session.Shut? || Holds(connection)
      modifies this, connections.Values
      ensures Valid() && InHand(books) == 0
      ensures old(connection.session).Shut? ==>
        r == Dropped && books == Drop(ClosedIfPresent(old(books), old(connection.convid)))
      ensures old(Holds(connection)) ==> ServerWriteStep(old(books), old(connection.convid), dead, outcome, r, books)
      ensures r.Forwarded? <==> old(Holds(connection)) && !dead && outcome.Accepted?
      ensures r.Forwarded? ==> connections == old(connections) && connection.txCounter == old(connection.txCounter) + 1
      ensures dead || outcome.Failed? ==> connection.session == Shut && connection !in connections.Values
    {
      var c := connection.convid;
      if connection.session.Shut? || dead || outcome.Failed? {
        ServerDisconnectSession(c);
        DropPacket();
        r := Dropped;
      } else if outcome.TimedOutWrite? {
        DropTimedOut(c);
        r := Dropped;
      } else {
        CountSent(c, false);
        r := Forwarded(c);
      }
    }
  }

  function AfterPick(b: Books, hashing: bool, picked: Option<u32>): Books {
    if hashing || picked.None? then b else Picked(b, picked.value)
  }

  /**
   What becomes of a packet once this choice was made: without one, or with one that has left the table, it is
   dropped; otherwise it is written to the connection chosen. The client takes id 0 for no choice.
   */
  ghost predicate ClientSendStep(p: Books, picked: Option<u32>, dead: bool, outcome: WriteOutcome,
                                 r: TunResult, log: seq<Removal>, b: Books) {
    if picked.None? || picked.value == 0 || picked.value !in p.table.conns then
      r == Dropped && b == Drop(p) && log == []
    else
      ClientWriteStep(p, picked.value, dead, outcome, r, log, b)
  }

  /**
   The packet is forwarded on the connection and counted there alone, or dropped; a dead or failing session is
   removed, and a write that timed out is counted as such.
   */
  ghost predicate ClientWriteStep(p: Books, c: u32, dead: bool, outcome: WriteOutcome,
                                  r: TunResult, log: seq<Removal>, b: Books) {
    && c in p.table.conns
    && if dead || outcome.Failed? then r == Dropped && Disconnected(Drop(p), b, log) && Gone(log) == {c}
       else if outcome.TimedOutWrite? then r == Dropped && b == Drop(TimedOut(p, c)) && log == []
       else r == Forwarded(c) && b == Forward(p, c) && log == []
  }

  /** The server's packet step; a removal here announces nothing, and id 0 is an id like any other. */
  ghost predicate ServerSendStep(p: Books, picked: Option<u32>, dead: bool, outcome: WriteOutcome,
                                 r: TunResult, b: Books) {
    if picked.None? || picked.value !in p.table.conns then r == Dropped && b == Drop(p)
    else ServerWriteStep(p, picked.value, dead, outcome, r, b)
  }

  ghost predicate ServerWriteStep(p: Books, c: u32, dead: bool, outcome: WriteOutcome, r: TunResult, b: Books) {
    && c in p.table.conns
    && if dead || outcome.Failed? then r == Dropped && b == Drop(Closed(p, c))
       else if outcome.TimedOutWrite? then r == Dropped && b == Drop(TimedOut(p, c))
       else r == Forwarded(c) && b == Forward(p, c)
  }
}
