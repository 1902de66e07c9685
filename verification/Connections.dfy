/** The connection record both ends keep behind a pointer in their tables. */
module Connections {
  import opened Basics
  import opened ConnTable

  class Connection {
    var convid: u32
    var src: string
    var ifname: string
    var session: Session
    var alive: bool
    var lastHello: int
    var txCounter: nat
    var txTimeouts: nat

    constructor (convid: u32, src: string, ifname: string, now: int)
      ensures View() == NewConn(convid, src, ifname, now)
      ensures this.convid == convid && this.src == src && this.ifname == ifname
      ensures session == Live && alive && lastHello == now && txCounter == 0 && txTimeouts == 0
    {
      this.convid := convid;
      this.src := src;
      this.ifname := ifname;
      session := Live;
      alive := true;
      lastHello := now;
      txCounter := 0;
      txTimeouts := 0;
    }

    function View(): Conn
      reads this
    {
      Conn(convid, src, ifname, session, alive, lastHello, txCounter, txTimeouts)
    }
  }
}
