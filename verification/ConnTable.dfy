/**
 The state both ends keep under their lock, as a value: the connection table, the hashing ring that must
 mirror it, and the round-robin cursor; and what each operation does to it. The class Endpoint is proved against
 these functions, and the theorems about whole runs are about them.
 */
module ConnTable {
  import opened Arith
  import opened Basics
  import opened Decimal
  import opened FlowKey
  import opened Slots
  import opened Ticks

  /** A record's session pointer: nil, a session in use, or one that has been closed. */
  datatype Session = Nil | Live | Shut

  /** One connection record; the fields the program only prints are left out. */
  datatype Conn = Conn(
    convid: u32, src: string, ifname: string,
    session: Session, alive: bool,
    lastHello: int, tx: nat, txTimeouts: nat)

  type Conns = map<u32, Conn>

  datatype Table = Table(conns: Conns, ring: set<string>, cursor: u32)

  function Empty(): Table {
    Table(map[], {}, 0)
  }

  function NewConn(c: u32, src: string, ifname: string, now: int): Conn {
    Conn(c, src, ifname, Live, true, now, 0, 0)
  }

  /** The ring members that mirror a set of ids: their decimal texts. */
  function RingOf(ids: set<u32>): set<string> {
    set c | c in ids :: Fmt(c)
  }

  predicate Good(c: u32, conn: Conn) {
    conn.convid == c && conn.session.Live? && conn.alive
  }

  /**
   What holds of ring, keys and records whenever the lock is free. The cursor is left out: the tunnel loops move it
   without the lock, and CursorRace says what that does to it.
   */
  ghost predicate Consistent(t: Table) {
    && t.ring == RingOf(t.conns.Keys)
    && (forall c :: c in t.conns ==> Good(c, t.conns[c]))
  }

  /** The cursor is reset, or names an entry. */
  predicate CursorLive(t: Table) {
    t.cursor == 0 || t.cursor in t.conns
  }

  // ----- the operations -----

  function Insert(t: Table, c: u32, conn: Conn): Table {
    Table(t.conns[c := conn], t.ring + {Fmt(c)}, 0)
  }

  function Close(t: Table, c: u32): Table {
    Table(t.conns - {c}, t.ring - {Fmt(c)}, 0)
  }

  function OfSrc(conns: Conns, src: string): set<u32> {
    set c | c in conns && conns[c].src == src
  }

  function CountSrc(conns: Conns, src: string): nat {
    |OfSrc(conns, src)|
  }

  /** client_connect_server, run without interruption. */
  function Connect(t: Table, T: u32, muxMax: nat, src: string, ifname: string, now: int): Table {
    if CountSrc(t.conns, src) >= muxMax then t
    else
      match Slot(T, t.conns.Keys)
      case None => t
      case Some(c) => Insert(t, c, NewConn(c, src, ifname, now))
  }

  /** What a round-robin pick may return, over every order in which the table may be ranged. */
  ghost predicate RoundRobinPick(t: Table, c: u32) {
    && c in t.conns
    && ((exists d :: d in t.conns && d != t.cursor && t.conns[d].alive) ==> c != t.cursor && t.conns[c].alive)
  }

  /** The hashing library, unknown except that it answers with one of the members it is given. */
  type HashRing = (set<string>, string) -> string

  ghost predicate PicksMember(owner: HashRing) {
    forall members: set<string>, key: string :: members != {} ==> owner(members, key) in members
  }

  /** The hashing choice: the owner of the key, parsed back into an id and converted to 32 bits. */
  function HashedPick(ring: set<string>, key: string, owner: HashRing, intMax: nat): Option<u32> {
    if ring == {} then None
    else
      match Atoi(owner(ring, key), intMax)
      case None => None
      case Some(v) => Some(v % U32_RANGE)
  }

  // ----- consistency -----

  lemma RingOfAdd(ids: set<u32>, c: u32)
    ensures RingOf(ids + {c}) == RingOf(ids) + {Fmt(c)}
  {
  }

  /** Removing one id's text from the ring removes no other member, because texts of different ids differ. */
  lemma RingOfRemove(ids: set<u32>, c: u32)
    ensures RingOf(ids - {c}) == RingOf(ids) - {Fmt(c)}
  {
    forall d | d in ids && d != c
      ensures Fmt(d) != Fmt(c)
    {
      FmtInjective(c, d);
    }
  }

  lemma InsertConsistent(t: Table, c: u32, conn: Conn)
    requires Consistent(t) && Good(c, conn)
    ensures Consistent(Insert(t, c, conn)) && Insert(t, c, conn).cursor == 0
  {
    RingOfAdd(t.conns.Keys, c);
    assert Insert(t, c, conn).conns.Keys == t.conns.Keys + {c};
  }

  lemma EmptyConsistent()
    ensures Consistent(Empty()) && SumTx(Empty().conns) == 0
  {
  }

  lemma CloseConsistent(t: Table, c: u32)
    requires Consistent(t)
    ensures Consistent(Close(t, c)) && Close(t, c).cursor == 0
  {
    RingOfRemove(t.conns.Keys, c);
    assert Close(t, c).conns.Keys == t.conns.Keys - {c};
  }

  lemma ConnectConsistent(t: Table, T: u32, muxMax: nat, src: string, ifname: string, now: int)
    requires Consistent(t)
    ensures Consistent(Connect(t, T, muxMax, src, ifname, now))
    ensures CursorLive(t) ==> CursorLive(Connect(t, T, muxMax, src, ifname, now))
  {
    if CountSrc(t.conns, src) < muxMax && Slot(T, t.conns.Keys).Some? {
      var c := Slot(T, t.conns.Keys).value;
      InsertConsistent(t, c, NewConn(c, src, ifname, now));
    }
  }

  lemma OwnerIsAnEntry(t: Table, key: string, owner: HashRing) returns (c: u32)
    requires Consistent(t) && PicksMember(owner) && t.conns.Keys != {}
    ensures t.ring != {} && c in t.conns && owner(t.ring, key) == Fmt(c)
  {
    var some :| some in t.conns.Keys;
    assert Fmt(some) in t.ring;
    c :| c in t.conns.Keys && Fmt(c) == owner(t.ring, key);
  }

  /**
   The hashing choice on a consistent table: it fails on an empty table; otherwise it owns up to a live id,
   returned when it fits the platform's int and refused when it does not.
   */
  lemma HashedPickIsLive(t: Table, key: string, owner: HashRing, intMax: nat)
    requires Consistent(t) && PicksMember(owner)
    ensures t.conns.Keys == {} ==> HashedPick(t.ring, key, owner, intMax) == None
    ensures var r := HashedPick(t.ring, key, owner, intMax); r.Some? ==> r.value in t.conns && r.value <= intMax
    ensures t.conns.Keys != {} && (forall c :: c in t.conns ==> c <= intMax) ==>
      HashedPick(t.ring, key, owner, intMax).Some?
  {
    if t.conns.Keys != {} {
      var c := OwnerIsAnEntry(t, key, owner);
      AtoiOfFmt(c, intMax);
    }
  }

  /** On a consistent table the hashing choice is exactly the entry whose printed id owns this key. */
  lemma HashedPickIff(t: Table, key: string, owner: HashRing, intMax: nat, c: u32)
    requires Consistent(t) && PicksMember(owner)
    ensures HashedPick(t.ring, key, owner, intMax) == Some(c) <==>
      c in t.conns && c <= intMax && owner(t.ring, key) == Fmt(c)
  {
    if t.conns.Keys != {} {
      var d := OwnerIsAnEntry(t, key, owner);
      AtoiOfFmt(d, intMax);
      FmtInjective(c, d);
    }
  }

  /** While both tables hold the same ids, a packet and its reply ride the same link. */
  lemma BothEndsPickTheSameLink(client: Table, server: Table, p: seq<byte>, n: nat, q: seq<byte>, m: nat,
                                owner: HashRing, intMax: nat)
    requires Consistent(client) && Consistent(server) && client.conns.Keys == server.conns.Keys
    requires IsBuffer(p) && IsBuffer(q) && Parse(q, m) == Reply(Parse(p, n))
    ensures HashedPick(client.ring, ExtractSrc(p, n), owner, intMax)
         == HashedPick(server.ring, ExtractDst(q, m), owner, intMax)
    ensures HashedPick(server.ring, ExtractDst(p, n), owner, intMax)
         == HashedPick(client.ring, ExtractSrc(q, m), owner, intMax)
  {
    ReplyHasSameKey(p, n, q, m);
  }

  // ----- what disconnecting leaves -----

  /** The three ways the client names the connections to close. */
  datatype Match = ByIfname(ifname: string) | BySrc(src: string) | ByConvid(c: u32)

  predicate Matches(m: Match, conn: Conn) {
    match m
    case ByIfname(ifname) => conn.ifname == ifname
    case BySrc(src) => conn.src == src
    case ByConvid(c) => conn.convid == c
  }

  function MatchSet(conns: Conns, m: Match): set<u32> {
    set c | c in conns && Matches(m, conns[c])
  }

  /** The entries whose last hello is more than five seconds old. */
  function Stale(conns: Conns, now: int): set<u32> {
    set c | c in conns && HelloExpired(now, conns[c].lastHello)
  }

  /** The same entries, except that more packets may have been counted on them. */
  ghost predicate SameButTx(a: Conns, b: Conns) {
    a.Keys == b.Keys && forall c :: c in a ==> b[c] == a[c].(tx := b[c].tx)
  }

  /** In a consistent table a conversation id names at most one entry: the one under that key. */
  lemma MatchOne(t: Table, c: u32)
    requires Consistent(t)
    ensures MatchSet(t.conns, ByConvid(c)) == if c in t.conns then {c} else {}
  {
    forall d | d in t.conns
      ensures t.conns[d].convid == d
    {
      assert Good(d, t.conns[d]);
    }
  }

  /** A removed source is left with no connection, and every other source with what it had. */
  lemma SourceRemoved(before: Conns, after: Conns, src: string, s: string)
    requires SameButTx(before - MatchSet(before, BySrc(src)), after)
    ensures CountSrc(after, s) == if s == src then 0 else CountSrc(before, s)
  {
    if s == src {
      assert OfSrc(after, s) == {};
    } else {
      assert OfSrc(after, s) == OfSrc(before, s);
    }
  }

  /** A downed interface is left with no connection, and every other keeps its own. */
  lemma InterfaceRemoved(before: Conns, after: Conns, ifname: string, c: u32)
    requires SameButTx(before - MatchSet(before, ByIfname(ifname)), after)
    ensures c in after <==> c in before && before[c].ifname != ifname
    ensures c in after ==> after[c].ifname == before[c].ifname && after[c].src == before[c].src
  {
  }

  /** An entry is stale from the moment its last hello is more than five hundred ticks of 10 ms old. */
  lemma StaleIff(conns: Conns, now: int, c: u32)
    ensures c in Stale(conns, now) <==> c in conns && now > conns[c].lastHello + 500
  {
  }

  // ----- sums and counts over a table -----

  /** All packets sent on the table's connections. */
  ghost function SumTx(conns: Conns): nat {
    if conns == map[] then 0
    else
      var c :| c in conns;
      conns[c].tx + SumTx(conns - {c})
  }

  lemma {:induction false} SumTxSplit(conns: Conns, c: u32)
    requires c in conns
    ensures SumTx(conns) == conns[c].tx + SumTx(conns - {c})
    decreases |conns|
  {
    var d :| d in conns && SumTx(conns) == conns[d].tx + SumTx(conns - {d});
    if d != c {
      SumTxSplit(conns - {d}, c);
      SumTxSplit(conns - {c}, d);
      assert conns - {d} - {c} == conns - {c} - {d};
    }
  }

  lemma SumTxUpdate(conns: Conns, c: u32, conn: Conn)
    ensures SumTx(conns[c := conn]) == SumTx(conns - {c}) + conn.tx
  {
    SumTxSplit(conns[c := conn], c);
    assert conns[c := conn] - {c} == conns - {c};
  }

  /** An insert moves the displaced entry's packets out of the table and starts its own count. */
  lemma InsertBalance(conns: Conns, c: u32, conn: Conn)
    ensures SumTx(conns[c := conn]) + (if c in conns then conns[c].tx else 0) == SumTx(conns) + conn.tx
  {
    SumTxUpdate(conns, c, conn);
    if c in conns {
      SumTxSplit(conns, c);
    } else {
      assert conns - {c} == conns;
    }
  }

  /** The same table with one more packet counted on c. */
  function CountTx(t: Table, c: u32): Table
    requires c in t.conns
  {
    t.(conns := t.conns[c := t.conns[c].(tx := t.conns[c].tx + 1)])
  }

  lemma CountTxAddsOne(t: Table, c: u32)
    requires c in t.conns
    ensures SumTx(CountTx(t, c).conns) == SumTx(t.conns) + 1
    ensures CountTx(t, c).conns[c].tx == t.conns[c].tx + 1
    ensures forall d :: d in t.conns && d != c ==> CountTx(t, c).conns[d] == t.conns[d]
    ensures Consistent(t) ==> Consistent(CountTx(t, c))
  {
    SumTxUpdate(t.conns, c, t.conns[c].(tx := t.conns[c].tx + 1));
    SumTxSplit(t.conns, c);
    assert CountTx(t, c).conns.Keys == t.conns.Keys;
  }

  lemma CountSrcInsert(conns: Conns, c: u32, conn: Conn, src: string)
    ensures CountSrc(conns[c := conn], src) ==
      CountSrc(conns, src)
      - (if c in conns && conns[c].src == src then 1 else 0)
      + (if conn.src == src then 1 else 0)
  {
    var before, after := OfSrc(conns, src), OfSrc(conns[c := conn], src);
    if conn.src == src {
      assert after == before + {c};
    } else {
      assert after == before - {c};
    }
  }

  lemma CountSrcClose(conns: Conns, c: u32, src: string)
    ensures CountSrc(conns - {c}, src) == CountSrc(conns, src) - (if c in conns && conns[c].src == src then 1 else 0)
  {
    assert OfSrc(conns - {c}, src) == OfSrc(conns, src) - {c};
  }

  function OfSrcs(conns: Conns, srcs: set<string>): set<u32> {
    set c | c in conns && conns[c].src in srcs
  }

  /** The entries of a set of sources, counted source by source. */
  lemma {:induction false} SizeBySources(conns: Conns, srcs: set<string>, cap: nat)
    requires forall s :: s in srcs ==> CountSrc(conns, s) <= cap
    ensures |OfSrcs(conns, srcs)| <= |srcs| * cap
  {
    if srcs != {} {
      var s :| s in srcs;
      SizeBySources(conns, srcs - {s}, cap);
      UnionCard(OfSrcs(conns, srcs), OfSrcs(conns, srcs - {s}), OfSrc(conns, s));
      Distribute(|srcs - {s}|, 1, cap);
    }
  }

  lemma UnionCard<A>(whole: set<A>, a: set<A>, b: set<A>)
    requires whole == a + b
    ensures |whole| <= |a| + |b|
  {
  }
}
