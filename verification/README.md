# ratbond: a verified model of the bonding connection manager

ratbond bonds several WAN links into one tunnel. Each end keeps a table of connections (one per conversation id),
a hashing ring whose members must mirror that table, and a round-robin cursor. Route and link events, read and write
failures, LINKDOWN messages and hello timeouts all change this state. This project models both ends, the frames
between them, the schedulers, the tick loop and the small arithmetic helpers, and proves what they keep.

## How it is organised

| file | what it holds |
|---|---|
| `Basics.dfy`, `Arith.dfy`, `Decimal.dfy` | 32-bit ids, set and arithmetic facts, number printing and parsing |
| `Slots.dfy` | the search for a free conversation id, in wrapping 32-bit arithmetic |
| `FlowKey.dfy`, `Frames.dfy` | the hashing keys of both ends; frames and their dispatch |
| `ConnTable.dfy`, `Books.dfy`, `DisconnectLoops.dfy` | the state as a value, its ledger, and what the closing loops achieve |
| `Connections.dfy`, `Endpoint.dfy` | the classes: connection records on the heap, and an end of the tunnel with its operations |
| `ConnectRuns.dfy` | runs of connects that do not overlap, and repeated routing-table dumps |
| `ConnectRace.dfy`, `RaceReach.dfy`, `RaceDisplacement.dfy` | overlapping connects: what every schedule keeps, what some schedule reaches, and when one displaces a live connection |
| `CursorRace.dfy`, `Scheduling.dfy` | the round-robin cursor, which the tunnel loops move without the lock; the scheduler's turns in the runs of an end |
| `LinkProtocol.dfy`, `Agreement.dfy` | client, server and a lossy, reordering network as one state machine, and its agreement with the class |
| `RoundRobin.dfy`, `Ticks.dfy`, `HelloExchange.dfy`, `RouteRepair.dfy` | scheduling shares, the tick loop, hello exchange over time, default-route repair |
| `IpHosts.dfy`, `ByteCount.dfy` | tunnel addresses and byte counts |
| `OldAllocator.dfy`, `OldRace.dfy` | the older id allocator, without overlapping connects and with them |

The class `Endpoint` changes its fields in place. A ghost field `books` holds the same state as a value, and each
method's postcondition says what it does to that value; the theorems about whole runs are lemmas about the value
functions. Connects, closings and the lookup of a chosen connection take the lock. Choosing for a packet, writing it,
pinging and reading do not: their methods describe them run without interruption, and their parts (looking, settling,
looking up, writing) are methods of their own that may be called in any valid state. What interruption does is the
subject of `ConnectRace`, `RaceReach`, `RaceDisplacement`, `CursorRace` and `RoundRobin`. Map iteration order, write
outcomes and session death are chosen freely.

## Results worth knowing

- Reading a LINKDOWN costs a live connection its server entry in exactly one situation: the client has reopened the
  very id the message names while it was in flight, the server's entry stems from that reopening, and the id is below
  65536 (`LinkProtocol.HarmIff`). A stale entry of the earlier opening does not count: removing that is what the
  message is for. Without a reopening it is harmless for every tunnel id, since sixteen bits name the right id of
  a tunnel or none of its ids; so a tunnel is open to this harm exactly when its first id fits sixteen bits
  (`SomeRunHarmsIff`). What an id of 65536 or more loses is the effect of its LINKDOWN (`LinkdownTakesEffectIff`).
  The only other way for a delivery to cost a live connection its entry is a leftover frame of an earlier opening
  that the listener takes for a new conversation (`CostsAnEntryIff`).
- Connects that do not overlap keep the per-source cap. With k in progress a source can hold exactly the numbers of
  connections up to the smaller of cap + k - 1 and the places there are (`RaceReach.HoldsIff`), so the cap can be
  exceeded exactly when connects may overlap and the cap is positive and below the number of places
  (`CapExceededIff`). There are twelve places from a tunnel id T on where T+11 does not wrap, one where it wraps past
  zero, and a hundred for the one T in between, the only one for which the guard at T+100 works (`Slots.Places`).
- A run of non-overlapping connects can displace a live connection exactly when more connections are allowed than
  there are places, except for that one T (`ConnectRuns.DisplacementIff`). Overlapping ones can as soon as a single
  connection is allowed: two events for the same route suffice (`RaceDisplacement.RaceDisplacementIff`).
- The cursor can be left on an id that is gone, with the lock free: exactly when a pick of a tunnel loop is
  interrupted by the closing of the entry it has found (`CursorRace.CursorIsLiveUnlessLate`, `CursorCanDieIff`). It
  then acts like a reset cursor (`DeadCursorIsAReset`), the packet in hand is dropped by the locked lookup
  (`Endpoint.ClientSendChosen`), and the share bound of round robin holds all the same (`RoundRobin.ShareBound`).
- When a connection is closed between the server's lookup and its write, the failing write closes whatever holds the
  id by then, a connection opened anew included (`Endpoint.ServerWrite`).
- Without loss, hellos keep every link up exactly as long as one-way delays stay within 100 ticks: up to there no
  client expires its link by mistake (`HelloExchange.ExpiresIff`). Servers tolerate 202 (`ServerExpiresIff`), because
  their wait begins with a frame and not with the opening.
- Default-route repair is exact except while another route's line contains the tunnel address as a substring
  (`RouteRepair.RepairedIff`, `MasqueradeExample`).
- The older allocator keeps its ids in T to T+9 under every schedule, and without overlap it is safe for every
  normalised tunnel id but the one whose guard wraps (`OldAllocator.OldDisplacementIff`). But the older program
  has no lock: two overlapping connects, even of one source, can displace a live connection for every tunnel id
  (`OldRace.OldRaceDisplacementIff`) and can give one source two ids (`TwoIdsIff`).

Where code and comments differ, the model follows the code. The search comment in `main.go` says slots 0-9, the loop
uses eleven ids and falls through to a twelfth. The repository's README says hellos go out every two seconds and a
member is dead after ten; the loop's reset stretches one gap to 2.99 s, and the limit in the code is five seconds,
noticed within 7.99.

## Model

| member | source | states |
|---|---|---|
| `Slots.Search` | main.go:260-268 | the search loop ends, for every 32-bit tunnel id, and returns the first id from T on that is free or the first past the bound, in wrapping arithmetic |
| `Slots.FindSlot` | main.go:260-273 | the search with the T+100 guard |
| `Slots.SlotIsLowestFree` | main.go:260-273 | with room above T the result is the lowest free id, at most T+11, and the guard never fires |
| `Slots.SlotNearTheTop` | main.go:262-262 | where the bound wraps, the search returns T whether or not it is in use |
| `Decimal.AtoiOfFmt` | main.go:882-886 | parsing a printed id gives it back exactly when it fits the platform's int |
| `ConnTable.InsertConsistent` | main.go:284-324 | an insert keeps ring = printed keys, own id = key and a live session per entry, and resets the cursor |
| `ConnTable.CloseConsistent` | main.go:341-346 | so does a close: removing one printed id from the ring removes no other |
| `ConnTable.ConnectConsistent` | main.go:203-325 | so does a whole connect |
| `ConnTable.HashedPickIsLive` | main.go:874-887 | the hashing choice is always an entry of the table, and fails only on an empty table or an id too big for int |
| `ConnTable.HashedPickIff` | main.go:874-887 | on a consistent table it is exactly the entry whose printed id owns this packet's key, where that id fits the int |
| `ConnTable.BothEndsPickTheSameLink` | main.go:1419-1431 | with equal key sets, a packet and its reply are hashed to the same conversation in both directions |
| `ConnTable.MatchOne` | main.go:1347-1354 | an id matches at most one entry, the one under its key |
| `ConnTable.SourceRemoved` | main.go:384-390 | after disconnecting a source it has no connection and every other source keeps its own |
| `ConnTable.InterfaceRemoved` | main.go:360-366 | after disconnecting an interface exactly its entries are gone |
| `ConnTable.StaleIff` | main.go:833-841 | an entry is stale exactly when its last hello is more than 500 ticks of 10 ms old |
| `FlowKey.BothEndsKeyIff` | main.go:1061-1136 | a client key equals a server key exactly when one packet answers the other, up to ports whose unpadded hex coincides |
| `FlowKey.ReplyHasSameKey` | main.go:1061-1136 | both directions of a flow have the same key, TCP or not |
| `FlowKey.ClientKeysEqualIff` | main.go:1099-1136 | which packets share a client key, exactly |
| `FlowKey.PortTextIff` | main.go:1123-1123 | two ports print alike exactly when equal or twins |
| `FlowKey.SharersAreReadings` | main.go:1123-1123 | the flows sharing a TCP key are exactly its four readings |
| `FlowKey.AtMostFourShareAKey` | main.go:1123-1123 | a TCP key determines both addresses and at most four flows share it |
| `FlowKey.KeysByExample` | main.go:1061-1136 | both keys of a packet as printed, with ports for TCP from 24 bytes on and without otherwise |
| `Frames.ServerReadsWhatWasWritten` | main.go:1281-1310 | reading undoes writing for hellos, IP packets and LINKDOWNs of ids below 65536; a LINKDOWN keeps the low sixteen bits |
| `Frames.WriteUndoesLinkdownRead` | main.go:438-442 | a frame read as LINKDOWN is the one frame for the id it names |
| `Frames.IpPacketsPassThrough` | main.go:781-791 | no IP packet, of any length, is taken for a hello or a LINKDOWN by either side |
| `Frames.FramesByExample` | main.go:438-442 | the frames byte by byte: forty zeros, and a LINKDOWN with the low byte first; and what each side makes of them |
| `Endpoint.Endpoint.ClientNumConnectionsBySrc` | main.go:181-189 | counts the entries of a source, in any iteration order |
| `Endpoint.Endpoint.ClientConnectServer` | main.go:203-325 | cap check, search and insert without interruption, as one change of the table |
| `Endpoint.Endpoint.InsertConnection` | main.go:283-325 | the second locked region: a fresh record with these fields on the id, its text in the ring, the cursor at 0, whatever was there displaced |
| `Endpoint.Endpoint.CloseConnection` | main.go:341-346 | the entry leaves table and ring, the cursor is reset, the record's session is closed |
| `Endpoint.Endpoint.LookForEntry` | main.go:894-903 | over every iteration order: an alive entry other than the last used if there is one, else some entry; none only from an empty table |
| `Endpoint.Endpoint.Settle` | main.go:897-906 | the cursor becomes this id, whether or not that is still in the table, and nothing else changes |
| `Endpoint.Endpoint.ChooseRoundRobin` | main.go:890-907 | both in one step, as under the lock for a LINKDOWN: the cursor ends on the entry picked |
| `Endpoint.Endpoint.ClientSendLinkdown` | main.go:419-455 | picks an entry still in the table, writes the closed id's frame to it, counts it only if accepted |
| `Endpoint.Endpoint.ClientDisconnectSessions` | main.go:359-416 | under any iteration order exactly the matching entries go, in some order, their sessions closed and forgotten; each is announced over an entry that remains at that moment, and stays unannounced only if it empties the table or the scheduler picks id 0; the state is that of replaying these removals |
| `DisconnectLoops.ReplayCounts` | main.go:448-453 | so each remaining connection has counted exactly the announcements it took |
| `DisconnectLoops.ReplayCursor` | main.go:343-343 | and the cursor is where the last announcement went, or 0 |
| `DisconnectLoops.LinkdownsSent` | main.go:361-367 | with all writes accepted, r LINKDOWNs for r removals of n if r < n, and r-1 if the table empties |
| `Endpoint.Endpoint.ClientSendPings` | main.go:826-866 | run without interruption: exactly the entries with a hello older than five seconds go, each announced as in a disconnect loop, and exactly the others are pinged |
| `Endpoint.Endpoint.ClientHelloTimedOut` | main.go:810-821 | a hello that cannot be written in time costs the link, announced as in a disconnect loop |
| `Endpoint.Endpoint.ClientReceive` | main.go:772-791 | any frame sets the record's last hello to now; all but hellos reach the tunnel |
| `Books.HeardRestartsAge` | main.go:777-778 | so the entry is stale from 501 ticks after that on, and no other entry's age changes |
| `Endpoint.Endpoint.ChooseForPacket` | main.go:869-908 | run without interruption: hashed, exactly the entry that owns the packet's key, and the cursor stays; round robin, an entry other than the last used if there is one, and the cursor moves to it |
| `Endpoint.Endpoint.ClientHandleTun` | main.go:918-1008 | one turn run without interruption: a packet is forwarded on one connection and counted there alone, or dropped; a dead or failing session is removed and announced over an entry that remains |
| `Endpoint.Endpoint.ClientSendChosen` | main.go:934-999 | the same for any choice made earlier: one that has left the table by the locked lookup is dropped, with nothing else done |
| `Endpoint.Endpoint.ClientWrite` | main.go:957-999 | and for a record closed after its lookup: the packet is dropped |
| `Endpoint.Endpoint.HandleRouteUpdate` | p_netlink.go:41-80 | exactly which route events connect, which disconnect, which are ignored, and which crash on an unresolved interface |
| `Endpoint.Endpoint.ServerAcceptConn` | main.go:1178-1227 | an accepted conversation replaces whatever its id held |
| `Endpoint.Endpoint.ServerDisconnectSession` | main.go:1336-1358 | the named entry goes, its session closed, and nothing else changes |
| `Endpoint.Endpoint.ServerSendPings` | main.go:1376-1412 | run without interruption: exactly the stale entries go, their sessions closed and nothing announced; the others are pinged and unchanged |
| `Endpoint.Endpoint.ServerReceive` | main.go:1276-1319 | a LINKDOWN closes the connection it names, over whichever session it came; data goes to the tunnel, whose failure closes the connection the data came over |
| `Endpoint.Endpoint.ServerHandleTun` | main.go:1461-1546 | as the client's, run without interruption, without announcements and with id 0 an id like any other |
| `Endpoint.Endpoint.ServerSendChosen` | main.go:1482-1540 | a choice that has left the table by the locked lookup is dropped, with nothing else done |
| `Endpoint.Endpoint.ServerWrite` | main.go:1500-1538 | the write to a record closed after its lookup fails, and closes whatever holds its id by then |
| `Books.RunConserves` | main.go:919-999 | over every run: packets read = forwarded + dropped, but for the one the loop may have in hand, and packets counted on live and retired connections = forwarded + LINKDOWNs sent |
| `Books.MakeSound` | main.go:341-346 | each single change keeps table, ring and ledger in agreement, whatever the cursor |
| `CursorRace.CursorIsLiveUnlessLate` | main.go:897-899 | in every state with the lock free the cursor is 0 or live, except exactly while it was last written by a pick whose entry was closed between its look and its settling |
| `CursorRace.CursorCanDieIff` | main.go:933-951 | such a state is reachable exactly when there are unlocked picks and they can be interrupted |
| `CursorRace.UninterruptedPick` | main.go:894-907 | a pick that nothing interrupts is a pick under the lock |
| `CursorRace.DeadCursorIsAReset` | main.go:895-903 | a dead cursor allows the next pick exactly what a reset one would |
| `ConnectRuns.RunsStayWithin` | main.go:206-288 | if n ids suffice for all sources at their cap, and are no more than the places, every run stays on the first n ids and keeps every cap |
| `ConnectRuns.ElevenStayInRange` | main.go:260-288 | with at most eleven connections allowed, ids stay in T to T+10 and each connect takes the lowest free one |
| `ConnectRuns.SearchFindsRoom` | main.go:260-288 | pigeonhole: a connect that passes the cap check finds a free id |
| `ConnectRuns.DisplacementIff` | main.go:260-288 | for every tunnel id: some non-overlapping run displaces a live connection exactly when more are allowed than there are places (twelve, or one where the bound wraps), and never for the one tunnel id in between |
| `ConnectRuns.NoDisplacementAtTheEdge` | main.go:262-288 | for the one tunnel id whose bound is the largest id, the guard works and no run displaces |
| `ConnectRuns.DumpsConverge` | p_netlink.go:96-118 | after m dumps over stable links each source has min(cap, start + m) connections |
| `ConnectRuns.DumpAddsListed` | p_netlink.go:96-118 | what a dump adds is what it lists, source and interface together |
| `ConnectRuns.ClosedIdIsReused` | main.go:260-268 | a closed id is the one the next connect takes, if all lower ones are in use |
| `ConnectRace.RaceBound` | main.go:203-288 | over every schedule of k overlapping connects: inserted plus committed connections of a source <= cap + k - 1 |
| `ConnectRace.SerialKeepsCap` | main.go:206-211 | one connect at a time keeps the cap |
| `ConnectRace.RaceStaysInWindow` | main.go:260-288 | over every schedule, each entry and each search stands on one of the places from T on |
| `RaceReach.SerialRunReachable` | main.go:203-325 | every run of non-overlapping connects and closings is one of the schedules |
| `RaceReach.BoundIsReached` | main.go:203-288 | for every k and tunnel id, some schedule reaches the smaller of cap + k - 1 and the number of places |
| `RaceReach.HoldsIff` | main.go:203-288 | a source can hold n connections exactly when n is at most that |
| `RaceReach.CapExceededIff` | main.go:206-211 | some schedule exceeds the cap exactly when connects may overlap and the cap is positive and below the number of places |
| `RaceDisplacement.RaceDisplaces` | main.go:255-288 | two overlapping connects, of any two sources or twice the same, can settle on one id |
| `RaceDisplacement.RaceDisplacementIff` | main.go:255-288 | for every tunnel id: overlapping connects can displace a live connection exactly when any are allowed, and one at a time exactly as in `ConnectRuns.DisplacementIff` |
| `LinkProtocol.RunsKeepInv` | main.go:341-346 | in every reachable state, overlapping connects and unlocked cursor writes included, ring, keys and records of both tables agree, each server entry stems from some opening by the client, and each LINKDOWN in flight is true of its sending |
| `LinkProtocol.FramesConserved` | main.go:438-453 | over every run, the frames sent are those delivered or lost, once each, and those in flight |
| `LinkProtocol.ClosedEverIsTrue` | main.go:341-346 | the ids recorded as closed are those some step closed |
| `Agreement.ClientCloseAgrees` | main.go:419-455 | a close of this state machine is a removal as the class performs it, and a LINKDOWN is in flight exactly when one was written |
| `Agreement.ClientOpenAgrees` | main.go:283-325 | an opening is an insert, and an uninterrupted connect the connect |
| `Agreement.DeliveryAgrees` | main.go:1281-1304 | a delivery of a known conversation does to the server's table what the reader does |
| `LinkProtocol.LinkdownsAreTrue` | main.go:419-448 | each LINKDOWN in flight names a connection the client closed, and travels over another |
| `LinkProtocol.HarmIff` | main.go:1289-1304 | exactly when reading a LINKDOWN removes the server's entry of a connection the client now has: that very opening was accepted after the message was sent, and its id fits sixteen bits |
| `LinkProtocol.LinkdownIsSafe` | main.go:1289-1304 | never, unless the client reopened that id while the message was in flight; until then no id the client holds leaves the server |
| `LinkProtocol.LinkdownTakesEffectIff` | main.go:440-440 | a delivered LINKDOWN removes the closed connection's entry exactly when its id fits sixteen bits |
| `LinkProtocol.HarmIsPossible` | main.go:1336-1358 | a schedule in which the reopening has been accepted and loses its server entry, for every tunnel id that fits sixteen bits |
| `LinkProtocol.SomeRunHarmsIff` | main.go:440-440 | and for no other tunnel id |
| `LinkProtocol.CostsAnEntryIff` | main.go:1178-1217 | the two ways, and the only ones, in which the delivery of any frame costs a live connection its server entry |
| `LinkProtocol.SameLinkWhenTablesAgree` | main.go:874-886 | in every reachable state with equal ids on both sides, both directions of a flow ride one link |
| `RoundRobin.NeverTheLastOne` | main.go:895-903 | with two entries alive the link used last is never picked next |
| `RoundRobin.ShareBound` | main.go:894-907 | of k picks with r resets no link gets more than (k + r + 1) / 2, whatever the iteration order, and also when a pick is interrupted between its look and its settling |
| `RoundRobin.ShareBoundIsReached` | main.go:343-343 | for all k and r one link can get that share, or all k picks if r is at least k |
| `RoundRobin.LargestShareIsExact` | main.go:894-907 | so the largest share is known exactly |
| `RoundRobin.TwoLinksAlternate` | main.go:1435-1448 | two stable links strictly alternate |
| `Scheduling.CursorFollowsTurns` | main.go:897-906 | over every run of an end the cursor is its last pick since the table last changed, or 0 |
| `Scheduling.ShareOfRun` | main.go:894-907 | so over every run of an end no connection gets more than (k + r + 1) / 2 of k picks with r connections opened or closed |
| `Scheduling.NextPickDiffers` | main.go:895-903 | after a pick the next one, from two or more entries alive, is another |
| `Ticks.RunLoop` | main.go:523-574 | iteration k tests the counter value ((k-1) mod 1499) + 2, over any number of iterations, and pings, checks routes and dumps exactly where that is due |
| `Ticks.PingGap` | main.go:555-563 | consecutive pings are 200 iterations apart, or 299 around the reset |
| `Ticks.NextPing` | main.go:555-557 | a ping falls within any 299 iterations, and none earlier than the one named |
| `Ticks.CheckGap` | main.go:548-552 | consecutive route checks are 500 iterations apart, or 499 around the reset |
| `Ticks.DumpTimes` | main.go:561-572 | dumps come every 1499 iterations |
| `Ticks.SilentRemoval` | main.go:833-841 | a silent connection is removed between 501 and 799 ticks after its last frame, at the first check that may, and when 799 is reached |
| `HelloExchange.NeverExpires` | main.go:623-656 | with one-way delays of at most 100 ticks and no loss, neither end ever expires the link, for all loop phases and delays |
| `HelloExchange.ExpiresIff` | main.go:826-841 | and that limit is exact: with delays up to 101 ticks some client expires its link |
| `HelloExchange.ServerExpiresIff` | main.go:1376-1391 | a server expires one exactly when delays may exceed 202 ticks |
| `RouteRepair.Host.CheckPaths` | main.go:458-490 | the check as one change of the routing table that leaves every other route alone |
| `RouteRepair.RepairedIff` | main.go:466-487 | afterwards the tunnel route is present exactly when the table is non-empty, unless it was missing and another line masquerades as it |
| `RouteRepair.RepairIsIdempotent` | main.go:466-487 | a second check changes nothing |
| `RouteRepair.MasqueradeExample` | main.go:471-471 | the exception occurs |
| `RouteRepair.LinesByExample` | main.go:474-484 | the line added and deleted |
| `RouteRepair.RouteAndEmptyTableCoexistBriefly` | main.go:548-552 | over any run the route and an empty table coexist for fewer than 500 iterations |
| `RouteRepair.RouteComesUp` | main.go:548-552 | a table that stays non-empty has its route within 500 iterations |
| `RouteRepair.ConnectBringsRoute` | main.go:337-337 | a finished connect brings it up in the same turn |
| `IpHosts.IpInc` | p_utils.go:303-310 | the in-place increment equals the carry function, for arrays of any length |
| `IpHosts.IncIsPlusOne` | p_utils.go:303-310 | which is +1 on the big-endian value, wrapping at the end |
| `IpHosts.ContainsIff` | p_utils.go:288-288 | the masked comparison is membership in the block of addresses |
| `IpHosts.IpHosts` | p_utils.go:281-301 | for IPv4, and IPv6 blocks away from the v4-mapped range: the walk ends for every prefix length of at least 1 and returns network+1 to broadcast-1 in order, or the one address of a full-length prefix |
| `IpHosts.ZeroPrefixNeverLeaves` | p_utils.go:288-288 | with prefix length 0 the walk could never end |
| `IpHosts.SameTunnelPair` | main.go:1711-1719 | two addresses of one /30 give the same two distinct tunnel addresses |
| `ByteCount.ByteCountDecimal` | p_utils.go:14-25 | for every int64 the divisor is the largest fitting power of 1000, never overflows, and the suffix index is in range |
| `ByteCount.ByteCountBinary` | p_utils.go:27-38 | the same for 1024 |
| `ByteCount.ScaleUnique` | p_utils.go:20-23 | so the suffix is the only right one |
| `OldAllocator.FindOldSlot` | t/main_withchannels.go:182-194 | the older search with its guard at T+10 |
| `OldAllocator.OldRunWithin` | t/main_withchannels.go:174-207 | every run without overlap keeps ids in T to T+9, one per source, and displaces nothing |
| `OldAllocator.OldDisplacementIff` | t/main_withchannels.go:309-309 | without overlap a normalised tunnel id is safe exactly when T+10 does not wrap |
| `OldAllocator.OldClosedIdIsReused` | t/main_withchannels.go:184-207 | a closed id is free again, for any source that has none |
| `OldRace.SerialRunReachable` | t/main_withchannels.go:174-207 | every run without overlap is one of the schedules of overlapping connects |
| `OldRace.SchedulesStayInTen` | t/main_withchannels.go:184-207 | over every schedule, however many connects overlap, ids stay in T to T+9 |
| `OldRace.OldRaceDisplacementIff` | t/main_withchannels.go:174-207 | some schedule displaces a live connection exactly when connects can overlap, or T+10 wraps |
| `OldRace.TwoIdsIff` | t/main_withchannels.go:174-178 | a source can get two ids exactly when connects can overlap and T+10 does not wrap |
| `OldRace.ServerRecoversTunnel` | t/main_withchannels.go:768-779 | over all schedules, rounding an id down to tens gives back the tunnel, so two tunnels never share a server table |

## Left out

- KCP, FEC, AES and key derivation, the TUN device and UDP sockets: sessions are live, nil or shut, with read and write outcomes chosen freely; one write is taken to arrive as one frame although stream mode is on.
- The `consistent` library, whose source is not part of this model: a function from a non-empty member set and a key to a member, the same on both ends.
- Between the session check and the end of a packet's write and count: a close by another goroutine just there (and the nil dereference it can cause at the client) is not captured, nor are lost updates of unsynchronised counters.
- Go's own detection of a map changed while another goroutine ranges over it, which ends the process: here such a range goes on.
- Endpoint.Endpoint.ClientSendPings: the source ranges over the table without the lock; the method is the uninterrupted run.
- Endpoint.Endpoint.ServerSendPings: likewise; the timeout counter of a hello is not modelled here.
- RoundRobin.ShareBound: a pick that finds no entry but the last used one is not covered, as two entries are taken to be up.
- The first connect creates the tunnel's record before it takes its lock, so two first connects at once can end up with two tables and two locks: the model starts with one table.
- Endpoint.Endpoint.ClientConnectServer: runs without interruption; the interleaved form is in ConnectRace. It asks for a table smaller than the whole 32-bit id space, without which one tunnel id's search would not end.
- Failures of session creation or of creating the tun interface, and calls for a tunnel that was never set up: the program panics or returns before touching the table.
- The client's read-timeout counters: the disconnects they cause are calls of ClientDisconnectSessions.
- LinkProtocol.RunsKeepInv: assumes T+11 below 2^32; packet counters and hello ages are not part of that state machine. When the listener takes a frame for a new conversation is the KCP library's decision and left open.
- Readers of a displaced connection's session, which run on outside the table until the session fails: they appear in LinkProtocol as frames and closings, not in the class Endpoint.
- Ticks.SilentRemoval: measures time in loop iterations, taking each to last one 10 ms tick.
- HelloExchange.NeverExpires: no frame is lost, and only hellos are exchanged; other frames would only help.
- RouteRepair.Host.CheckPaths: the ip commands succeed, and only this check changes the tunnel route.
- IpHosts.IpHosts: works on parsed addresses of one length; Go's membership test turns a v4-mapped IPv6 address into four bytes, so a walk that reaches that range from below stops there. The textual form of an address is modelled for IPv4 in FlowKey only.
- ByteCount.ByteCountDecimal: the final division and its rounding to one decimal are not modelled.
- IPv6 flows and IPv4 headers with options get whatever the fixed offsets hold, as in the source.
- The private-address test on accept: it parses an "ip:port" text as an address and so never rejects.
- Order and content of packets in the writer channels of the older file, whose queued packets share one buffer.
- Bandwidth figures, statistics printing, logging, the HTTP status page, command-line parsing, the WAN address lookup and the MQTT aggregator: formatting and I/O.
