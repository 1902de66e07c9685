/**
 The client-and-server state machine of LinkProtocol takes the steps that the operations of an end are proved to take:
 its tables change as theirs do, but for packet counters, and a LINKDOWN is in flight exactly when one was written.
 */
module Agreement {
  import opened Basics
  import opened Books
  import opened ConnTable
  import opened DisconnectLoops
  import opened Frames
  import LinkProtocol

  ghost predicate SameButCounters(t: Table, u: Table) {
    SameButTx(t.conns, u.conns) && t.ring == u.ring && t.cursor == u.cursor
  }

  /** A removal from the client's table, with its announcement. */
  lemma ClientCloseAgrees(w: LinkProtocol.World, b: Books, r: Removal)
    requires b.table == w.client && WellTold(r, w.client.conns.Keys) && 0 !in w.client.conns
    ensures var via := if r.told.Some? then r.told.value.via else 0;
            var w' := LinkProtocol.DoClose(w, r.closed, via, TookIt(r) == 1);
            && SameButCounters(w'.client, Removed(b, r).table)
            && w'.server == w.server && w'.opens == w.opens
            && w'.flight == w.flight +
                 if TookIt(r) == 1 then multiset{Announced(w, r)} else multiset{}
  {
    var left := w.client.conns.Keys - {r.closed};
    assert Close(w.client, r.closed).conns.Keys == left;
  }

  /** The LINKDOWN of a removal, as it is sent. */
  function Announced(w: LinkProtocol.World, r: Removal): LinkProtocol.Message
    requires r.told.Some?
  {
    var via := r.told.value.via;
    LinkProtocol.Down(via, LinkProtocol.Opened(w, via), r.told.value.bytes, r.closed, LinkProtocol.Opened(w, r.closed))
  }

  /** An uninterrupted connect, and the insertion that ends an interrupted one. */
  lemma ClientOpenAgrees(w: LinkProtocol.World, b: Books, T: u32, muxMax: nat, c: u32,
                         src: string, ifname: string, now: int)
    requires b.table == w.client
    ensures LinkProtocol.Open(w, c, src, ifname, now).client == Inserted(b, c, NewConn(c, src, ifname, now)).table
    ensures LinkProtocol.DoConnect(w, T, muxMax, src, ifname, now).client
         == Connect(b.table, T, muxMax, src, ifname, now)
  {
  }

  /** Accepting a conversation, losing one, and moving a cursor without the lock. */
  lemma ServerStepsAgree(w: LinkProtocol.World, b: Books, T: u32, muxMax: nat, c: u32, opening: nat, now: int)
    requires b.table == w.server.table
    ensures LinkProtocol.Accept(w.server, c, opening, now).table == Inserted(b, c, NewConn(c, "", "", now)).table
    ensures LinkProtocol.Do(w, T, muxMax, LinkProtocol.ServerClose(c)).server.table == ClosedIfPresent(b, c).table
    ensures LinkProtocol.Do(w, T, muxMax, LinkProtocol.ServerCursor(c)).server.table == Picked(b, c).table
  {
  }

  lemma ClientCursorAgrees(w: LinkProtocol.World, b: Books, T: u32, muxMax: nat, c: u32)
    requires b.table == w.client
    ensures LinkProtocol.Do(w, T, muxMax, LinkProtocol.ClientCursor(c)).client == Picked(b, c).table
  {
  }

  /** A frame of a conversation the server knows: a LINKDOWN closes what it names, any other leaves the table alone. */
  lemma DeliveryAgrees(w: LinkProtocol.World, b: Books, T: u32, muxMax: nat, m: LinkProtocol.Message, now: int)
    requires b.table == w.server.table
    ensures LinkProtocol.Do(w, T, muxMax, LinkProtocol.Deliver(m, false, now)).server.table ==
      if m.Down? && ServerRead(m.bytes).Linkdown? then ClosedIfPresent(b, ServerRead(m.bytes).name).table else b.table
  {
    if m.Down? && ServerRead(m.bytes).Linkdown? {
      WriteUndoesLinkdownRead(m.bytes);
    }
  }
}
