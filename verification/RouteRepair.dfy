/**
 Keeping the default route through the tunnel in step with the connection table.
 The kernel's default routes are modelled by the lines that `ip route show match 0.0.0.0` prints, one per route;
 the add and delete commands are taken to succeed. An address contains no line break, so searching the whole
 output for it is searching each line.
 */
module RouteRepair {
  import opened Basics
  import opened Ticks

  predicate OccursAt(text: string, part: string, i: nat) {
    i + |part| <= |text| && text[i..i + |part|] == part
  }

  /** strings.Contains. */
  predicate Contains(text: string, part: string) {
    exists i :: 0 <= i <= |text| && OccursAt(text, part, i)
  }

  /** The tunnel's remote address and its device. */
  datatype Tunnel = Tunnel(ip: string, dev: string)

  function TunnelLine(tun: Tunnel): string {
    "default via " + tun.ip + " dev " + tun.dev
  }

  predicate Mentioned(routes: set<string>, tun: Tunnel) {
    exists line :: line in routes && Contains(line, tun.ip)
  }

  predicate HasTunnelRoute(routes: set<string>, tun: Tunnel) {
    TunnelLine(tun) in routes
  }

  /** Some other route's line happens to contain the tunnel address as a substring. */
  predicate Masquerade(routes: set<string>, tun: Tunnel) {
    Mentioned(routes - {TunnelLine(tun)}, tun)
  }

  function Repaired(routes: set<string>, nonEmpty: bool, tun: Tunnel): set<string> {
    if nonEmpty then
      if Mentioned(routes, tun) then routes else routes + {TunnelLine(tun)}
    else
      if Mentioned(routes, tun) then routes - {TunnelLine(tun)} else routes
  }

  /** The host's routing table, as the client sees and changes it through the ip command. */
  class Host {
    var routes: set<string>

    constructor (initial: set<string>)
      ensures routes == initial
    {
      routes := initial;
    }

    method CheckPaths(connections: nat, tun: Tunnel)
      modifies this
      ensures routes == Repaired(old(routes), connections > 0, tun)
      ensures routes - {TunnelLine(tun)} == old(routes) - {TunnelLine(tun)}
    {
      var present := Mentioned(routes, tun);
      if connections > 0 {
        if !present {
          routes := routes + {TunnelLine(tun)};
        }
      } else if present {
        routes := routes - {TunnelLine(tun)};
      }
    }
  }

  lemma OwnLineMentionsIt(tun: Tunnel)
    ensures Contains(TunnelLine(tun), tun.ip)
  {
    assert OccursAt(TunnelLine(tun), tun.ip, 12);
  }

  /** The text looked for is the address alone, anywhere in a line; the line added is the tunnel's. */
  lemma LinesByExample()
    ensures var tun := Tunnel("10.10.10.2", "tun0");
            && TunnelLine(tun) == "default via 10.10.10.2 dev tun0"
            && Repaired({}, true, tun) == {"default via 10.10.10.2 dev tun0"} && Repaired({}, false, tun) == {}
            && Repaired({"default via 10.10.10.2 dev tun0"}, false, tun) == {}
  {
    OwnLineMentionsIt(Tunnel("10.10.10.2", "tun0"));
  }

  /**
   After a check the tunnel route is present exactly when the table is non-empty, with one exception:
   a route that was missing stays missing while another line contains the tunnel address.
   */
  lemma RepairedIff(routes: set<string>, nonEmpty: bool, tun: Tunnel)
    ensures HasTunnelRoute(Repaired(routes, nonEmpty, tun), tun)
       <==> nonEmpty && (HasTunnelRoute(routes, tun) || !Masquerade(routes, tun))
    ensures Repaired(routes, nonEmpty, tun) - {TunnelLine(tun)} == routes - {TunnelLine(tun)}
  {
    OwnLineMentionsIt(tun);
    assert Mentioned(routes, tun) <==> HasTunnelRoute(routes, tun) || Masquerade(routes, tun);
  }

  lemma RepairIsIdempotent(routes: set<string>, nonEmpty: bool, tun: Tunnel)
    ensures Repaired(Repaired(routes, nonEmpty, tun), nonEmpty, tun) == Repaired(routes, nonEmpty, tun)
  {
    OwnLineMentionsIt(tun);
    var once := Repaired(routes, nonEmpty, tun);
    if nonEmpty && !Mentioned(routes, tun) {
      assert TunnelLine(tun) in once;
    }
  }

  /** The exception happens: a gateway whose address begins with the tunnel's keeps the tunnel route from coming up. */
  lemma MasqueradeExample()
    ensures var tun := Tunnel("10.10.10.2", "tun0");
            !HasTunnelRoute(Repaired({"default via 10.10.10.20 dev eth1"}, true, tun), tun)
  {
    var line := "default via 10.10.10.20 dev eth1";
    assert OccursAt(line, "10.10.10.2", 12);
    assert line[25] != TunnelLine(Tunnel("10.10.10.2", "tun0"))[25];
  }

  // ----- runs of the tick loop -----

  /** What one turn of the loop meets: the table, whether a finished connect also checks, and the other routes. */
  datatype Turn = Turn(nonEmpty: bool, connectChecks: bool, others: set<string>)

  /** Whether the tunnel route is present after the first k turns, starting without it. */
  function PresentAfter(turns: seq<Turn>, k: nat, tun: Tunnel): bool
    requires k <= |turns|
  {
    if k == 0 then false
    else
      var turn := turns[k - 1];
      var line := TunnelLine(tun);
      var met := turn.others - {line} + (if PresentAfter(turns, k - 1, tun) then {line} else {});
      var a := if turn.connectChecks then Repaired(met, turn.nonEmpty, tun) else met;
      var b := if CheckAt(k) then Repaired(a, turn.nonEmpty, tun) else a;
      HasTunnelRoute(b, tun)
  }

  lemma CheckedTurn(turns: seq<Turn>, k: nat, tun: Tunnel)
    requires 1 <= k <= |turns| && CheckAt(k)
    ensures PresentAfter(turns, k, tun) ==> turns[k - 1].nonEmpty
    ensures turns[k - 1].nonEmpty && !PresentAfter(turns, k, tun) ==> Masquerade(turns[k - 1].others, tun)
  {
    var turn, line := turns[k - 1], TunnelLine(tun);
    var met := turn.others - {line} + (if PresentAfter(turns, k - 1, tun) then {line} else {});
    RepairedIff(met, turn.nonEmpty, tun);
    var a := if turn.connectChecks then Repaired(met, turn.nonEmpty, tun) else met;
    RepairedIff(a, turn.nonEmpty, tun);
    assert met - {line} == turn.others - {line};
  }

  lemma {:induction false} AbsentStaysAbsent(turns: seq<Turn>, c: nat, j: nat, tun: Tunnel)
    requires 1 <= c <= j <= |turns|
    requires !PresentAfter(turns, c, tun)
    requires forall k :: c <= k < j ==> !turns[k].nonEmpty
    ensures !PresentAfter(turns, j, tun)
  {
    if c < j {
      AbsentStaysAbsent(turns, c, j - 1, tun);
      var turn, line := turns[j - 1], TunnelLine(tun);
      var met := turn.others - {line};
      assert met == turn.others - {line} + (if PresentAfter(turns, j - 1, tun) then {line} else {});
      RepairedIff(met, false, tun);
      var a := if turn.connectChecks then Repaired(met, false, tun) else met;
      RepairedIff(a, false, tun);
    }
  }

  /** A finished connect does not wait for the loop: its own check brings the route up in the same turn. */
  lemma ConnectBringsRoute(turns: seq<Turn>, k: nat, tun: Tunnel)
    requires 1 <= k <= |turns| && turns[k - 1].connectChecks && turns[k - 1].nonEmpty
    requires !Masquerade(turns[k - 1].others, tun)
    ensures PresentAfter(turns, k, tun)
  {
    var turn, line := turns[k - 1], TunnelLine(tun);
    var met := turn.others - {line} + (if PresentAfter(turns, k - 1, tun) then {line} else {});
    assert met - {line} == turn.others - {line};
    RepairedIff(met, true, tun);
    RepairedIff(Repaired(met, true, tun), true, tun);
  }

  /** In every run, the tunnel route outlives an emptied table by fewer than 500 turns. */
  lemma RouteAndEmptyTableCoexistBriefly(turns: seq<Turn>, i: nat, j: nat, tun: Tunnel)
    requires 1 <= i <= j <= |turns|
    requires forall k :: i - 1 <= k < j ==> !turns[k].nonEmpty
    requires PresentAfter(turns, j, tun)
    ensures j - i + 1 < 500
  {
    var c := NextCheck(i - 1);
    if c <= j {
      CheckedTurn(turns, c, tun);
      AbsentStaysAbsent(turns, c, j, tun);
      assert false;
    }
  }

  /** In every run, a non-empty table has its route within 500 turns, unless another line masquerades as it. */
  lemma RouteComesUp(turns: seq<Turn>, i: nat, tun: Tunnel)
    requires 1 <= i && i + 499 <= |turns|
    requires forall k :: i - 1 <= k < i + 499 ==> turns[k].nonEmpty && !Masquerade(turns[k].others, tun)
    ensures exists k :: i <= k <= i + 499 && PresentAfter(turns, k, tun)
  {
    var c := NextCheck(i - 1);
    CheckedTurn(turns, c, tun);
  }
}
