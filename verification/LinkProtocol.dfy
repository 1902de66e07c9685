/**
 Client and server together: two tables joined by a network that may delay, reorder and lose frames.
 The client opens and closes connections and announces each closing in a LINKDOWN sent over another one; the server
 accepts new conversations and closes the connection a LINKDOWN names, as far as sixteen bits can name it. An id can
 be opened again and again, so frames and server entries are told apart by the number of the opening they belong to;
 the program itself never sees that number. Whether the listener takes a frame for the start of a new conversation,
 which server_accept_conn then puts in the table, is its own affair and chosen freely here. Each turn of a
 disconnect loop is a step of its own. Connects may overlap: the insertion that ends one may follow a search of any
 earlier, no longer current, set of ids. The tunnel loops move the cursors without the lock, at any time.
 */
module LinkProtocol {
  import opened Basics
  import opened ConnTable
  import opened FlowKey
  import opened Frames
  import opened Slots

  /**
   A frame in flight, with the opening of the connection it was sent on. A LINKDOWN carries, beside its bytes, what
   it was sent for: the id closed, and how often that had been opened by then.
   */
  datatype Message =
    | Plain(via: u32, opening: nat)
    | Down(via: u32, opening: nat, bytes: seq<byte>, closed: u32, epoch: nat)

  /** The server's table, and for each entry the opening it was accepted from. */
  datatype Server = Server(table: Table, holds: map<u32, nat>)

  /** opens counts, for each id, how often the client has opened it; closedEver are the ids it has ever closed. */
  datatype World = World(
    client: Table, server: Server,
    flight: multiset<Message>,
    opens: map<u32, nat>, closedEver: set<u32>)

  datatype Step =
    | ClientConnect(src: string, ifname: string, now: int)
    | ClientLateInsert(seen: set<u32>, src: string, ifname: string, now: int)
    | ClientClose(c: u32, via: u32, written: bool)
    | ClientSend(via: u32)
    | Deliver(m: Message, accepted: bool, now: int)
    | Lose(m: Message)
    | ServerClose(c: u32)
    | ClientCursor(c: u32)
    | ServerCursor(c: u32)

  function Start(): World {
    World(Empty(), Server(Empty(), map[]), multiset{}, map[], {})
  }

  function Opened(w: World, c: u32): nat {
    if c in w.opens then w.opens[c] else 0
  }

  ghost predicate Enabled(w: World, step: Step) {
    match step
    case ClientConnect(_, _, _) => true
    case ClientLateInsert(_, _, _, _) => true
    case ClientClose(c, via, _) => c in w.client.conns
      && (Close(w.client, c).conns.Keys != {} ==> RoundRobinPick(Close(w.client, c), via))
    case ClientSend(via) => via in w.client.conns
    case Deliver(m, _, _) => m in w.flight
    case Lose(m) => m in w.flight
    case ServerClose(c) => c in w.server.table.conns
    case _ => true
  }

  /** server_accept_conn: the conversation takes its id, whatever was there. */
  function Accept(server: Server, c: u32, opening: nat, now: int): Server {
    Server(Insert(server.table, c, NewConn(c, "", "", now)), server.holds[c := opening])
  }

  function CloseNamed(server: Server, c: u32): Server {
    if c in server.table.conns then Server(Close(server.table, c), server.holds - {c}) else server
  }

  /** The server when it comes to read the frame: a fresh conversation has been accepted first. */
  function Received(server: Server, m: Message, accepted: bool, now: int): Server {
    if accepted then Accept(server, m.via, m.opening, now) else server
  }

  /** What a delivery does to the server. */
  function ServerAfter(server: Server, m: Message, accepted: bool, now: int): Server {
    var s := Received(server, m, accepted, now);
    match m
    case Plain(_, _) => s
    case Down(_, _, bytes, _, _) =>
      match ServerRead(bytes)
      case Linkdown(name) => CloseNamed(s, name)
      case _ => s
  }

  /** The client puts a fresh connection on an id, whatever was there, and says hello over it. */
  function Open(w: World, c: u32, src: string, ifname: string, now: int): World {
    w.(client := Insert(w.client, c, NewConn(c, src, ifname, now)),
       opens := w.opens[c := Opened(w, c) + 1],
       flight := w.flight + multiset{Plain(c, Opened(w, c) + 1)})
  }

  /** A connect that nothing interrupts. */
  function DoConnect(w: World, T: u32, muxMax: nat, src: string, ifname: string, now: int): (w': World)
    ensures w'.client == Connect(w.client, T, muxMax, src, ifname, now)
  {
    if CountSrc(w.client.conns, src) >= muxMax || Slot(T, w.client.conns.Keys).None? then w
    else Open(w, Slot(T, w.client.conns.Keys).value, src, ifname, now)
  }

  /**
   The end of a connect that was interrupted after its cap check. The ids its search found in use may be any set:
   the search looks at one id at a time with the lock released, so they need never have been in use all at once.
   */
  function DoLateInsert(w: World, T: u32, seen: set<u32>, src: string, ifname: string, now: int): World {
    match Slot(T, seen)
    case None => w
    case Some(c) => Open(w, c, src, ifname, now)
  }

  function DoClose(w: World, c: u32, via: u32, written: bool): World {
    var t := Close(w.client, c);
    var m := Down(via, Opened(w, via), LinkdownBytes(c), c, Opened(w, c));
    if t.conns.Keys == {} then w.(client := t, closedEver := w.closedEver + {c})
    else w.(client := t.(cursor := via), closedEver := w.closedEver + {c},
            flight := if written && via != 0 then w.flight + multiset{m} else w.flight)
  }

  function Do(w: World, T: u32, muxMax: nat, step: Step): World {
    match step
    case ClientConnect(src, ifname, now) => DoConnect(w, T, muxMax, src, ifname, now)
    case ClientLateInsert(seen, src, ifname, now) => DoLateInsert(w, T, seen, src, ifname, now)
    case ClientClose(c, via, written) => DoClose(w, c, via, written)
    case ClientSend(via) => w.(flight := w.flight + multiset{Plain(via, Opened(w, via))})
    case Deliver(m, accepted, now) =>
      w.(server := ServerAfter(w.server, m, accepted, now), flight := w.flight - multiset{m})
    case Lose(m) => w.(flight := w.flight - multiset{m})
    case ServerClose(c) => w.(server := CloseNamed(w.server, c))
    case ClientCursor(c) => w.(client := w.client.(cursor := c))
    case ServerCursor(c) => w.(server := w.server.(table := w.server.table.(cursor := c)))
  }

  function Run(T: u32, muxMax: nat, steps: seq<Step>): World {
    if steps == [] then Start() else Do(Run(T, muxMax, steps[..|steps| - 1]), T, muxMax, steps[|steps| - 1])
  }

  /** Every step is enabled where it is taken. */
  ghost predicate Legal(T: u32, muxMax: nat, steps: seq<Step>) {
    steps == [] ||
    (Legal(T, muxMax, steps[..|steps| - 1]) && Enabled(Run(T, muxMax, steps[..|steps| - 1]), steps[|steps| - 1]))
  }

  ghost predicate Reachable(T: u32, muxMax: nat, w: World) {
    exists steps :: Legal(T, muxMax, steps) && Run(T, muxMax, steps) == w
  }

  // ----- the invariant -----

  /** A message tells the truth about its sending, and its connection is up again only if it was reopened since. */
  ghost predicate Truthful(w: World, m: Message) {
    && m.via in w.opens && m.opening <= Opened(w, m.via)
    && (m.Down? ==>
          && m.bytes == LinkdownBytes(m.closed)
          && m.closed in w.closedEver && m.closed in w.opens && m.via != m.closed
          && m.epoch <= Opened(w, m.closed)
          && (m.closed in w.client.conns ==> m.epoch < Opened(w, m.closed)))
  }

  /** Each entry of the server stems from some opening of its id. */
  ghost predicate ServerInv(w: World, server: Server) {
    && Consistent(server.table)
    && server.holds.Keys == server.table.conns.Keys <= w.opens.Keys
    && forall c :: c in server.holds ==> server.holds[c] <= Opened(w, c)
  }

  ghost predicate Inv(w: World, T: u32) {
    && Consistent(w.client) && ServerInv(w, w.server)
    && (forall c :: c in w.opens ==> T <= c <= T + 11)
    && w.client.conns.Keys <= w.opens.Keys
    && forall m :: m in w.flight ==> Truthful(w, m)
  }

  lemma OpenKeepsInv(w: World, T: u32, c: u32, src: string, ifname: string, now: int)
    requires Inv(w, T) && T <= c <= T + 11
    ensures Inv(Open(w, c, src, ifname, now), T)
  {
    InsertConsistent(w.client, c, NewConn(c, src, ifname, now));
    var w' := Open(w, c, src, ifname, now);
    forall m | m in w'.flight
      ensures Truthful(w', m)
    {
      if m in w.flight {
        assert Truthful(w, m);
      }
    }
  }

  lemma CloseKeepsInv(w: World, T: u32, c: u32, via: u32, written: bool)
    requires Inv(w, T) && Enabled(w, ClientClose(c, via, written))
    ensures Inv(DoClose(w, c, via, written), T)
  {
    CloseConsistent(w.client, c);
    var w' := DoClose(w, c, via, written);
    forall m | m in w'.flight
      ensures Truthful(w', m)
    {
      if m in w.flight {
        assert Truthful(w, m);
      }
    }
  }

  lemma CloseNamedKeepsInv(w: World, server: Server, c: u32)
    requires ServerInv(w, server)
    ensures ServerInv(w, CloseNamed(server, c))
    ensures CloseNamed(server, c).table.conns.Keys == server.table.conns.Keys - {c}
  {
    CloseConsistent(server.table, c);
  }

  lemma ReceivedKeepsInv(w: World, m: Message, accepted: bool, now: int)
    requires ServerInv(w, w.server) && Truthful(w, m)
    ensures var s := Received(w.server, m, accepted, now);
      ServerInv(w, s) && s.table.conns.Keys == w.server.table.conns.Keys + (if accepted then {m.via} else {})
  {
    InsertConsistent(w.server.table, m.via, NewConn(m.via, "", "", now));
  }

  lemma DeliverKeepsServer(w: World, m: Message, accepted: bool, now: int)
    requires ServerInv(w, w.server) && Truthful(w, m)
    ensures ServerInv(w, ServerAfter(w.server, m, accepted, now))
  {
    ReceivedKeepsInv(w, m, accepted, now);
    if m.Down? && ServerRead(m.bytes).Linkdown? {
      CloseNamedKeepsInv(w, Received(w.server, m, accepted, now), ServerRead(m.bytes).name);
    }
  }

  lemma StepKeepsInv(w: World, T: u32, muxMax: nat, step: Step)
    requires T + 11 < U32_RANGE && Inv(w, T) && Enabled(w, step)
    ensures Inv(Do(w, T, muxMax, step), T)
  {
    match step
    case ClientConnect(src, ifname, now) =>
      SlotIsLowestFree(T, w.client.conns.Keys);
      OpenKeepsInv(w, T, Slot(T, w.client.conns.Keys).value, src, ifname, now);
    case ClientLateInsert(seen, src, ifname, now) =>
      SlotIsLowestFree(T, seen);
      OpenKeepsInv(w, T, Slot(T, seen).value, src, ifname, now);
    case ClientClose(c, via, written) => CloseKeepsInv(w, T, c, via, written);
    case _ => ServerStepKeepsInv(w, T, muxMax, step);
  }

  /** The steps that leave the client's connections alone. */
  lemma ServerStepKeepsInv(w: World, T: u32, muxMax: nat, step: Step)
    requires Inv(w, T) && Enabled(w, step)
    requires !step.ClientConnect? && !step.ClientLateInsert? && !step.ClientClose?
    ensures Inv(Do(w, T, muxMax, step), T)
  {
    var w' := Do(w, T, muxMax, step);
    match step {
      case ServerClose(c) => CloseNamedKeepsInv(w, w.server, c);
      case Deliver(m, accepted, now) => DeliverKeepsServer(w, m, accepted, now);
      case _ =>
    }
    assert ServerInv(w, w'.server);
    forall m | m in w'.flight
      ensures Truthful(w', m)
    {
      if m in w.flight {
        assert Truthful(w, m);
      }
    }
  }

  /** Every reachable state of client, server and network satisfies the invariant. */
  lemma {:induction false} RunsKeepInv(T: u32, muxMax: nat, steps: seq<Step>)
    requires T + 11 < U32_RANGE && Legal(T, muxMax, steps)
    ensures Inv(Run(T, muxMax, steps), T)
  {
    if steps != [] {
      var before := steps[..|steps| - 1];
      RunsKeepInv(T, muxMax, before);
      StepKeepsInv(Run(T, muxMax, before), T, muxMax, steps[|steps| - 1]);
    }
  }

  lemma ReachableInv(T: u32, muxMax: nat, w: World)
    requires T + 11 < U32_RANGE && Reachable(T, muxMax, w)
    ensures Inv(w, T)
  {
    var steps :| Legal(T, muxMax, steps) && Run(T, muxMax, steps) == w;
    RunsKeepInv(T, muxMax, steps);
  }

  // ----- the history is true -----

  /** The frames a step hands to the network, and those it takes from it. */
  function SentBy(w: World, T: u32, muxMax: nat, step: Step): multiset<Message> {
    match step
    case ClientConnect(_, _, _) => HelloOf(w, Do(w, T, muxMax, step))
    case ClientLateInsert(_, _, _, _) => HelloOf(w, Do(w, T, muxMax, step))
    case ClientSend(via) => multiset{Plain(via, Opened(w, via))}
    case ClientClose(c, via, written) =>
      if written && via != 0 && w.client.conns.Keys - {c} != {}
      then multiset{Down(via, Opened(w, via), LinkdownBytes(c), c, Opened(w, c))}
      else multiset{}
    case _ => multiset{}
  }

  /** One hello for each id whose opening is new. */
  function HelloOf(w: World, w': World): multiset<Message> {
    multiset(set c | c in w'.opens && Opened(w', c) != Opened(w, c) :: Plain(c, Opened(w', c)))
  }

  function TakenBy(step: Step): multiset<Message> {
    match step
    case Deliver(m, _, _) => multiset{m}
    case Lose(m) => multiset{m}
    case _ => multiset{}
  }

  function AllSent(T: u32, muxMax: nat, steps: seq<Step>): multiset<Message> {
    if steps == [] then multiset{}
    else
      var before := steps[..|steps| - 1];
      AllSent(T, muxMax, before) + SentBy(Run(T, muxMax, before), T, muxMax, steps[|steps| - 1])
  }

  function AllTaken(steps: seq<Step>): multiset<Message> {
    if steps == [] then multiset{} else AllTaken(steps[..|steps| - 1]) + TakenBy(steps[|steps| - 1])
  }

  /** Frames are conserved: what was sent has been delivered or lost, once, or is in flight. */
  lemma {:induction false} FramesConserved(T: u32, muxMax: nat, steps: seq<Step>)
    requires Legal(T, muxMax, steps)
    ensures AllSent(T, muxMax, steps) == AllTaken(steps) + Run(T, muxMax, steps).flight
  {
    if steps != [] {
      var before, step := steps[..|steps| - 1], steps[|steps| - 1];
      FramesConserved(T, muxMax, before);
      StepConserves(Run(T, muxMax, before), T, muxMax, step);
    }
  }

  lemma StepConserves(w: World, T: u32, muxMax: nat, step: Step)
    requires Enabled(w, step)
    ensures w.flight + SentBy(w, T, muxMax, step) == TakenBy(step) + Do(w, T, muxMax, step).flight
  {
    match step
    case ClientConnect(src, ifname, now) => ConnectSaysHello(w, T, muxMax, src, ifname, now);
    case ClientLateInsert(seen, src, ifname, now) => LateInsertSaysHello(w, T, seen, src, ifname, now);
    case ClientClose(c, via, written) => CloseAnnounces(w, c, via, written);
    case Deliver(m, _, _) => TakeOut(w.flight, m);
    case Lose(m) => TakeOut(w.flight, m);
    case ClientSend(_) =>
    case ServerClose(_) =>
    case ClientCursor(_) =>
    case ServerCursor(_) =>
  }

  lemma TakeOut(flight: multiset<Message>, m: Message)
    requires m in flight
    ensures flight == multiset{m} + (flight - multiset{m})
  {
  }

  lemma CloseAnnounces(w: World, c: u32, via: u32, written: bool)
    ensures w.flight + SentBy(w, 0, 0, ClientClose(c, via, written)) == DoClose(w, c, via, written).flight
  {
    assert Close(w.client, c).conns.Keys == w.client.conns.Keys - {c};
  }

  lemma ConnectSaysHello(w: World, T: u32, muxMax: nat, src: string, ifname: string, now: int)
    ensures var w' := DoConnect(w, T, muxMax, src, ifname, now); w'.flight == w.flight + HelloOf(w, w')
  {
    var w' := DoConnect(w, T, muxMax, src, ifname, now);
    if w' == w {
      NoHello(w);
    } else {
      OpenSaysHello(w, Slot(T, w.client.conns.Keys).value, src, ifname, now);
    }
  }

  lemma LateInsertSaysHello(w: World, T: u32, seen: set<u32>, src: string, ifname: string, now: int)
    ensures var w' := DoLateInsert(w, T, seen, src, ifname, now); w'.flight == w.flight + HelloOf(w, w')
  {
    match Slot(T, seen)
    case None => NoHello(w);
    case Some(c) => OpenSaysHello(w, c, src, ifname, now);
  }

  lemma NoHello(w: World)
    ensures HelloOf(w, w) == multiset{}
  {
  }

  lemma OpenSaysHello(w: World, c: u32, src: string, ifname: string, now: int)
    ensures HelloOf(w, Open(w, c, src, ifname, now)) == multiset{Plain(c, Opened(w, c) + 1)}
  {
    var w' := Open(w, c, src, ifname, now);
    var hellos := set d | d in w'.opens && Opened(w', d) != Opened(w, d) :: Plain(d, Opened(w', d));
    assert Opened(w', c) == Opened(w, c) + 1;
    assert hellos == {Plain(c, Opened(w, c) + 1)};
  }

  function ClosedIds(steps: seq<Step>): set<u32> {
    if steps == [] then {}
    else
      var last := steps[|steps| - 1];
      ClosedIds(steps[..|steps| - 1]) + (if last.ClientClose? then {last.c} else {})
  }

  /** The ids recorded as closed are those some step closed. */
  lemma {:induction false} ClosedEverIsTrue(T: u32, muxMax: nat, steps: seq<Step>)
    ensures Run(T, muxMax, steps).closedEver == ClosedIds(steps)
  {
    if steps != [] {
      var before, step := steps[..|steps| - 1], steps[|steps| - 1];
      ClosedEverIsTrue(T, muxMax, before);
      StepRecordsClosing(Run(T, muxMax, before), T, muxMax, step);
    }
  }

  lemma StepRecordsClosing(w: World, T: u32, muxMax: nat, step: Step)
    ensures Do(w, T, muxMax, step).closedEver == w.closedEver + (if step.ClientClose? then {step.c} else {})
  {
  }

  // ----- what a LINKDOWN can do -----

  /** Every LINKDOWN in flight names a connection the client has closed, and travels over a different one. */
  lemma LinkdownsAreTrue(T: u32, muxMax: nat, w: World, m: Message)
    requires T + 11 < U32_RANGE && Reachable(T, muxMax, w) && m in w.flight && m.Down?
    ensures m.closed in w.closedEver && m.via != m.closed && m.bytes == LinkdownBytes(m.closed)
    ensures m.closed in w.client.conns ==> m.epoch < Opened(w, m.closed)
  {
    ReachableInv(T, muxMax, w);
    assert Truthful(w, m);
  }

  /** The server's entry for c is the connection the client now has, not one of an earlier opening. */
  predicate HasCurrent(w: World, server: Server, c: u32) {
    c in server.table.conns && c in server.holds && server.holds[c] == Opened(w, c)
  }

  /** Reading this frame costs a connection of the client its entry at the server. */
  ghost predicate Harms(w: World, m: Message, accepted: bool, now: int) {
    exists c :: c in w.client.conns
      && HasCurrent(w, Received(w.server, m, accepted, now), c)
      && !HasCurrent(w, ServerAfter(w.server, m, accepted, now), c)
  }

  /** Within one tunnel's ids, the low sixteen bits name either the right id or none at all. */
  lemma ShortNameIsRightOrForeign(T: u32, c: u32, d: u32)
    requires T <= c <= T + 11 && T <= d <= T + 11
    ensures c % 65536 == d <==> c == d && d < 65536
  {
  }

  /** Reading a LINKDOWN removes the entry its sixteen bits name, and changes no other. */
  lemma DownRead(w: World, T: u32, m: Message, accepted: bool, now: int)
    requires Inv(w, T) && m in w.flight && m.Down?
    ensures var s := Received(w.server, m, accepted, now);
            ServerInv(w, s) && ServerAfter(w.server, m, accepted, now) == CloseNamed(s, m.closed % 65536)
  {
    assert Truthful(w, m);
    SixteenBits(m.closed);
    ReceivedKeepsInv(w, m, accepted, now);
  }

  /** Among the tunnel's ids the entry removed can only be the right one. */
  lemma OnlyTheClosed(w: World, T: u32, m: Message, accepted: bool, now: int, c: u32)
    requires Inv(w, T) && m in w.flight && m.Down? && c in w.opens
    ensures var s, s' := Received(w.server, m, accepted, now), ServerAfter(w.server, m, accepted, now);
            && (c in s'.table.conns <==> c in s.table.conns && !(c == m.closed && c < 65536))
            && (HasCurrent(w, s', c) <==> HasCurrent(w, s, c) && !(c == m.closed && c < 65536))
  {
    assert Truthful(w, m);
    DownRead(w, T, m, accepted, now);
    ShortNameIsRightOrForeign(T, m.closed, c);
    CloseNamedRemoves(w, Received(w.server, m, accepted, now), m.closed % 65536, c);
  }

  lemma CloseNamedRemoves(w: World, s: Server, name: u32, c: u32)
    ensures c in CloseNamed(s, name).table.conns <==> c in s.table.conns && c != name
    ensures HasCurrent(w, CloseNamed(s, name), c) <==> HasCurrent(w, s, c) && c != name
  {
  }

  /**
   Exactly when a LINKDOWN does harm: the client has reopened the id it names, the server has accepted that very
   opening, and the id fits sixteen bits. Then, and for no other reason, a live connection loses its server entry.
   */
  lemma HarmIff(T: u32, muxMax: nat, w: World, m: Message, accepted: bool, now: int)
    requires T + 11 < U32_RANGE && Reachable(T, muxMax, w) && m in w.flight && m.Down?
    ensures Harms(w, m, accepted, now) <==>
      m.closed in w.client.conns && HasCurrent(w, w.server, m.closed) && m.closed < 65536
    ensures Harms(w, m, accepted, now) ==> m.epoch < Opened(w, m.closed) == w.server.holds[m.closed]
  {
    ReachableInv(T, muxMax, w);
    assert Truthful(w, m);
    var s := Received(w.server, m, accepted, now);
    if c :| c in w.client.conns && HasCurrent(w, s, c) && !HasCurrent(w, ServerAfter(w.server, m, accepted, now), c) {
      OnlyTheClosed(w, T, m, accepted, now, c);
    }
    OnlyTheClosed(w, T, m, accepted, now, m.closed);
    assert HasCurrent(w, s, m.closed) <==> HasCurrent(w, w.server, m.closed);
  }

  /**
   While the client does not reopen the id, its LINKDOWN never costs a live connection, whatever the tunnel id:
   no id the client holds disappears from the server.
   */
  lemma LinkdownIsSafe(T: u32, muxMax: nat, w: World, m: Message, accepted: bool, now: int)
    requires T + 11 < U32_RANGE && Reachable(T, muxMax, w) && m in w.flight && m.Down?
    requires Opened(w, m.closed) == m.epoch
    ensures !Harms(w, m, accepted, now)
    ensures forall c :: c in w.client.conns && c in w.server.table.conns ==>
              c in ServerAfter(w.server, m, accepted, now).table.conns
  {
    HarmIff(T, muxMax, w, m, accepted, now);
    ReachableInv(T, muxMax, w);
    LinkdownsAreTrue(T, muxMax, w, m);
    forall c | c in w.client.conns && c in w.server.table.conns
      ensures c in ServerAfter(w.server, m, accepted, now).table.conns
    {
      OnlyTheClosed(w, T, m, accepted, now, c);
    }
  }

  /** A delivered LINKDOWN leaves the server without the closed connection, unless the id is over sixteen bits. */
  lemma LinkdownTakesEffectIff(T: u32, muxMax: nat, w: World, m: Message, accepted: bool, now: int)
    requires T + 11 < U32_RANGE && Reachable(T, muxMax, w) && m in w.flight && m.Down?
    ensures m.closed in ServerAfter(w.server, m, accepted, now).table.conns <==>
      m.closed in w.server.table.conns && m.closed >= 65536
  {
    ReachableInv(T, muxMax, w);
    assert Truthful(w, m);
    OnlyTheClosed(w, T, m, accepted, now, m.closed);
  }

  /** Delivering this frame, acceptance included, costs a connection of the client its entry at the server. */
  ghost predicate CostsAnEntry(w: World, m: Message, accepted: bool, now: int) {
    exists c :: c in w.client.conns
      && HasCurrent(w, w.server, c) && !HasCurrent(w, ServerAfter(w.server, m, accepted, now), c)
  }

  /** A leftover frame of an earlier opening is taken for a new conversation, in place of the current one. */
  predicate LeftoverAccepted(w: World, m: Message, accepted: bool) {
    accepted && m.via in w.client.conns && HasCurrent(w, w.server, m.via) && m.opening < Opened(w, m.via)
  }

  /** The two ways, and the only ones, in which a delivery of any frame costs a live connection its entry. */
  lemma CostsAnEntryIff(T: u32, muxMax: nat, w: World, m: Message, accepted: bool, now: int)
    requires T + 11 < U32_RANGE && Reachable(T, muxMax, w) && m in w.flight
    ensures CostsAnEntry(w, m, accepted, now) <==>
      LeftoverAccepted(w, m, accepted) || (m.Down? && Harms(w, m, accepted, now))
  {
    ReachableInv(T, muxMax, w);
    assert Truthful(w, m);
    var s := Received(w.server, m, accepted, now);
    forall c | c in w.client.conns && HasCurrent(w, w.server, c)
      ensures HasCurrent(w, s, c) <==> !(c == m.via && LeftoverAccepted(w, m, accepted))
    {
    }
    if m.Down? {
      HarmIff(T, muxMax, w, m, accepted, now);
      forall c | c in w.client.conns
        ensures HasCurrent(w, ServerAfter(w.server, m, accepted, now), c)
           <==> HasCurrent(w, s, c) && !(c == m.closed && c < 65536)
      {
        OnlyTheClosed(w, T, m, accepted, now, c);
      }
    }
  }

  /** In every reachable state whose two tables hold the same ids, a packet and its reply ride the same link. */
  lemma SameLinkWhenTablesAgree(T: u32, muxMax: nat, w: World, p: seq<byte>, n: nat, q: seq<byte>, k: nat,
                                owner: HashRing, intMax: nat)
    requires T + 11 < U32_RANGE && Reachable(T, muxMax, w)
    requires w.client.conns.Keys == w.server.table.conns.Keys
    requires IsBuffer(p) && IsBuffer(q) && Parse(q, k) == Reply(Parse(p, n))
    ensures HashedPick(w.client.ring, ExtractSrc(p, n), owner, intMax)
         == HashedPick(w.server.table.ring, ExtractDst(q, k), owner, intMax)
  {
    ReachableInv(T, muxMax, w);
    BothEndsPickTheSameLink(w.client, w.server.table, p, n, q, k, owner, intMax);
  }

  // ----- the harmful schedule exists -----

  lemma StartReachable(T: u32, muxMax: nat)
    ensures Reachable(T, muxMax, Start())
  {
    assert Legal(T, muxMax, []) && Run(T, muxMax, []) == Start();
  }

  lemma StepReachable(T: u32, muxMax: nat, w: World, step: Step)
    requires Reachable(T, muxMax, w) && Enabled(w, step)
    ensures Reachable(T, muxMax, Do(w, T, muxMax, step))
  {
    var steps :| Legal(T, muxMax, steps) && Run(T, muxMax, steps) == w;
    Extend(T, muxMax, steps, step);
    assert Legal(T, muxMax, steps + [step]);
  }

  lemma Extend(T: u32, muxMax: nat, steps: seq<Step>, step: Step)
    requires Legal(T, muxMax, steps) && Enabled(Run(T, muxMax, steps), step)
    ensures Legal(T, muxMax, steps + [step])
    ensures Run(T, muxMax, steps + [step]) == Do(Run(T, muxMax, steps), T, muxMax, step)
  {
    assert (steps + [step])[..|steps + [step]| - 1] == steps;
  }

  lemma ConnectLandsOn(T: u32, muxMax: nat, w: World, src: string, c: u32)
    requires T + 11 < U32_RANGE && muxMax >= 1 && Reachable(T, muxMax, w)
    requires T <= c <= T + 10 && c !in w.client.conns
    requires forall d: u32 {:trigger d in w.client.conns} :: T <= d < c ==> d in w.client.conns
    requires forall d :: d in w.client.conns ==> w.client.conns[d].src != src
    ensures Reachable(T, muxMax, Open(w, c, src, "", 0))
  {
    ConnectOpens(T, muxMax, w, src, c);
    StepReachable(T, muxMax, w, ClientConnect(src, "", 0));
  }

  lemma ConnectOpens(T: u32, muxMax: nat, w: World, src: string, c: u32)
    requires T + 11 < U32_RANGE && muxMax >= 1
    requires T <= c <= T + 10 && c !in w.client.conns
    requires forall d: u32 {:trigger d in w.client.conns} :: T <= d < c ==> d in w.client.conns
    requires forall d :: d in w.client.conns ==> w.client.conns[d].src != src
    ensures DoConnect(w, T, muxMax, src, "", 0) == Open(w, c, src, "", 0)
  {
    SlotIsLowestFree(T, w.client.conns.Keys);
    assert OfSrc(w.client.conns, src) == {};
  }

  /** The first of two connections has been closed, and its LINKDOWN is on its way over the second. */
  lemma HarmPrelude(T: u32, muxMax: nat) returns (w: World)
    requires T + 11 < U32_RANGE && muxMax >= 1
    ensures Reachable(T, muxMax, w)
    ensures w.client.conns.Keys == {T + 1} && w.client.conns[T + 1].src == "b" && Opened(w, T) == 1
    ensures Down(T + 1, 1, LinkdownBytes(T), T, 1) in w.flight
  {
    var two := BothOpen(T, muxMax);
    HarmClose(T, muxMax, two);
    w := DoClose(two, T, T + 1, true);
  }

  lemma BothOpen(T: u32, muxMax: nat) returns (w: World)
    requires T + 11 < U32_RANGE && muxMax >= 1
    ensures Reachable(T, muxMax, w)
    ensures w.client.conns == map[T := NewConn(T, "a", "", 0), T + 1 := NewConn(T + 1, "b", "", 0)]
    ensures w.opens == map[T := 1, T + 1 := 1]
  {
    var a, b := NewConn(T, "a", "", 0), NewConn(T + 1, "b", "", 0);
    StartReachable(T, muxMax);
    ConnectLandsOn(T, muxMax, Start(), "a", T);
    var one := Open(Start(), T, "a", "", 0);
    assert one.client.conns == map[T := a] && one.opens == map[T := 1];
    ConnectLandsOn(T, muxMax, one, "b", T + 1);
    w := Open(one, T + 1, "b", "", 0);
    assert w.client.conns == map[T := a][T + 1 := b] == map[T := a, T + 1 := b];
    assert w.opens == map[T := 1][T + 1 := 1] == map[T := 1, T + 1 := 1];
  }

  lemma HarmClose(T: u32, muxMax: nat, w: World)
    requires T + 11 < U32_RANGE && Reachable(T, muxMax, w)
    requires w.client.conns == map[T := NewConn(T, "a", "", 0), T + 1 := NewConn(T + 1, "b", "", 0)]
    requires w.opens == map[T := 1, T + 1 := 1]
    ensures var w' := DoClose(w, T, T + 1, true);
            && Reachable(T, muxMax, w') && w'.client.conns == map[T + 1 := NewConn(T + 1, "b", "", 0)]
            && Down(T + 1, 1, LinkdownBytes(T), T, 1) in w'.flight && Opened(w', T) == 1
  {
    OneLeft(T, w.client);
    StepReachable(T, muxMax, w, ClientClose(T, T + 1, true));
  }

  lemma OneLeft(T: u32, t: Table)
    requires T + 1 < U32_RANGE
    requires t.conns == map[T := NewConn(T, "a", "", 0), T + 1 := NewConn(T + 1, "b", "", 0)]
    ensures Close(t, T).conns == map[T + 1 := NewConn(T + 1, "b", "", 0)] && RoundRobinPick(Close(t, T), T + 1)
    ensures Close(t, T).conns.Keys != {}
  {
    assert T + 1 in Close(t, T).conns;
  }

  /** Where the first id fits sixteen bits, a LINKDOWN overtaken by the reopening of its id does harm. */
  lemma HarmIsPossible(T: u32, muxMax: nat) returns (w: World, m: Message)
    requires T < 65536 && muxMax >= 1
    ensures Reachable(T, muxMax, w) && m in w.flight && m.Down? && Harms(w, m, false, 0)
  {
    var closed := HarmPrelude(T, muxMax);
    m := Down(T + 1, 1, LinkdownBytes(T), T, 1);
    ConnectLandsOn(T, muxMax, closed, "a", T);
    var reopened := Open(closed, T, "a", "", 0);
    StepReachable(T, muxMax, reopened, Deliver(Plain(T, 2), true, 0));
    w := Do(reopened, T, muxMax, Deliver(Plain(T, 2), true, 0));
    HarmIff(T, muxMax, w, m, false, 0);
  }

  ghost predicate SomeRunHarms(T: u32, muxMax: nat) {
    exists w, m, accepted, now :: Reachable(T, muxMax, w) && m in w.flight && m.Down? && Harms(w, m, accepted, now)
  }

  /** A tunnel is open to this harm exactly when its first id fits sixteen bits. */
  lemma SomeRunHarmsIff(T: u32, muxMax: nat)
    requires T + 11 < U32_RANGE && muxMax >= 1
    ensures SomeRunHarms(T, muxMax) <==> T < 65536
  {
    if T < 65536 {
      var w, m := HarmIsPossible(T, muxMax);
    } else {
      forall w, m, accepted, now | Reachable(T, muxMax, w) && m in w.flight && m.Down?
        ensures !Harms(w, m, accepted, now)
      {
        HarmIff(T, muxMax, w, m, accepted, now);
        ReachableInv(T, muxMax, w);
      }
    }
  }
}
