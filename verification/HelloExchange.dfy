/**
 One link seen from both ends: the client opens it with a hello, the server accepts it when that hello
 arrives, and from then on each end's main loop sends hellos and checks hello ages on its own uneven schedule.
 No frame is lost here, and each takes at least one tick. Within a tick the loops run before arrivals are
 read, which is the order least favourable to survival.
 */
module HelloExchange {
  import opened Basics
  import opened Ticks

  /** The largest one-way delay, in ticks, for which no end expires a link by mistake: see ExpiresIff. */
  const MAX_DELAY: nat := 100

  predicate Within(delay: nat, limit: nat) {
    1 <= delay <= limit
  }

  predicate AllWithin(delays: seq<(nat, nat)>, limit: nat) {
    forall i :: 0 <= i < |delays| ==> Within(delays[i].0, limit) && Within(delays[i].1, limit)
  }

  /** The two loops need not be aligned: at tick t the client is in iteration cPhase + t, the server in sPhase + t. */
  datatype Link = Link(
    now: nat, cPhase: nat, sPhase: nat,
    clientLast: nat, serverLast: Option<nat>,
    toServer: set<nat>, toClient: set<nat>,
    clientExpired: bool, serverExpired: bool)

  function Open(cPhase: nat, sPhase: nat, delay: nat): Link {
    Link(0, cPhase, sPhase, 0, None, {delay}, {}, false, false)
  }

  /** One tick: both loops act on what they knew, then the frames due now are read. */
  function Tick(s: Link, up: nat, down: nat): Link {
    var t := s.now + 1;
    var cPing, sPing := PingAt(s.cPhase + t), PingAt(s.sPhase + t) && s.serverLast.Some?;
    var toServer := if cPing then s.toServer + {t + up} else s.toServer;
    var toClient := if sPing then s.toClient + {t + down} else s.toClient;
    Link(t, s.cPhase, s.sPhase,
         if t in toClient then t else s.clientLast,
         if t in toServer then Some(t) else s.serverLast,
         toServer - {t}, toClient - {t},
         s.clientExpired || (cPing && HelloExpired(t, s.clientLast)),
         s.serverExpired || (sPing && HelloExpired(t, s.serverLast.value)))
  }

  function Run(s: Link, delays: seq<(nat, nat)>): Link {
    if delays == [] then s
    else Tick(Run(s, delays[..|delays| - 1]), delays[|delays| - 1].0, delays[|delays| - 1].1)
  }

  function NextClientPing(s: Link): int {
    NextPing(s.cPhase + s.now) - s.cPhase
  }

  function NextServerPing(s: Link): int {
    NextPing(s.sPhase + s.now) - s.sPhase
  }

  /** Some frame for the client is certain to be read by the given tick. */
  ghost predicate ClientHearsBy(s: Link, deadline: int) {
    || (exists a :: a in s.toClient && a <= deadline)
    || (s.serverLast.Some? && NextServerPing(s) + MAX_DELAY <= deadline)
    || (s.serverLast.None? && exists a :: a in s.toServer && a + 299 + MAX_DELAY <= deadline)
  }

  ghost predicate ServerHearsBy(s: Link, deadline: int) {
    || (exists a :: a in s.toServer && a <= deadline)
    || NextClientPing(s) + MAX_DELAY <= deadline
  }

  /** Both ends are always owed a frame before their limit of 500 ticks. */
  ghost predicate Healthy(s: Link) {
    && !s.clientExpired && !s.serverExpired
    && (forall a :: a in s.toServer || a in s.toClient ==> a > s.now)
    && (s.toClient != {} ==> s.serverLast.Some?)
    && s.clientLast <= s.now && (s.serverLast.Some? ==> s.serverLast.value <= s.now)
    && ClientHearsBy(s, s.clientLast + 499)
    && (s.serverLast.Some? ==> ServerHearsBy(s, s.serverLast.value + 499))
  }

  lemma PingDue(i: nat)
    ensures NextPing(i) > i + 1 ==> NextPing(i + 1) == NextPing(i) && !PingAt(i + 1)
    ensures NextPing(i) == i + 1 ==> PingAt(i + 1)
  {
    var j, k := NextPing(i), NextPing(i + 1);
    assert PingAt(j) && PingAt(k);
  }

  lemma TickClientSide(s: Link, up: nat, down: nat)
    requires Healthy(s) && Within(up, MAX_DELAY) && Within(down, MAX_DELAY)
    ensures var s' := Tick(s, up, down); ClientHearsBy(s', s'.clientLast + 499)
    ensures !HelloExpired(s.now + 1, s.clientLast)
  {
    var s', t, d := Tick(s, up, down), s.now + 1, s.clientLast + 499;
    PingDue(s.sPhase + s.now);
    assert NextServerPing(s') <= t + 299;
    if s'.clientLast == s.clientLast {
      if a :| a in s.toClient && a <= d {
        assert a in s'.toClient;
      } else if s.serverLast.Some? {
        if NextServerPing(s) == t {
          assert t + down in s'.toClient;
        }
      } else {
        var a :| a in s.toServer && a + 299 + MAX_DELAY <= d;
        if a > t {
          assert a in s'.toServer;
        }
      }
    }
  }

  lemma TickServerSide(s: Link, up: nat, down: nat)
    requires Healthy(s) && Within(up, MAX_DELAY) && Within(down, MAX_DELAY)
    ensures var s' := Tick(s, up, down); s'.serverLast.Some? ==> ServerHearsBy(s', s'.serverLast.value + 499)
    ensures s.serverLast.Some? ==> !HelloExpired(s.now + 1, s.serverLast.value)
  {
    var s', t := Tick(s, up, down), s.now + 1;
    PingDue(s.cPhase + s.now);
    assert NextClientPing(s') <= t + 299;
    if s.serverLast.Some? && s'.serverLast == s.serverLast {
      if a :| a in s.toServer && a <= s.serverLast.value + 499 {
        assert a in s'.toServer;
      } else if NextClientPing(s) == t {
        assert t + up in s'.toServer;
      }
    }
  }

  lemma TickKeepsHealthy(s: Link, up: nat, down: nat)
    requires Healthy(s) && Within(up, MAX_DELAY) && Within(down, MAX_DELAY)
    ensures Healthy(Tick(s, up, down))
  {
    TickClientSide(s, up, down);
    TickServerSide(s, up, down);
  }

  /** For every pair of loop phases and every choice of delays, in every run, neither end ever expires the link. */
  lemma {:induction false} NeverExpires(cPhase: nat, sPhase: nat, first: nat, delays: seq<(nat, nat)>)
    requires Within(first, MAX_DELAY) && AllWithin(delays, MAX_DELAY)
    ensures Healthy(Run(Open(cPhase, sPhase, first), delays))
    ensures var s := Run(Open(cPhase, sPhase, first), delays); !s.clientExpired && !s.serverExpired
  {
    var s := Open(cPhase, sPhase, first);
    if delays == [] {
      assert first in s.toServer;
    } else {
      var n := |delays| - 1;
      NeverExpires(cPhase, sPhase, first, delays[..n]);
      TickKeepsHealthy(Run(s, delays[..n]), delays[n].0, delays[n].1);
    }
  }

  // ----- the limit is exact -----

  /**
   Up to tick 500 of the unlucky link: the hello that opens it takes 101 ticks, just too long for the server's ping
   at tick 101. The next one is 299 ticks away and takes 101 again, so nothing reaches the client before tick 501.
   */
  ghost predicate Unlucky(s: Link, n: nat) {
    && s.now == n && s.cPhase == 98 && s.sPhase == 1298
    && s.clientLast == 0
    && (forall a :: a in s.toServer ==> a >= 101)
    && (s.serverLast.Some? ==> n >= 101)
    && (forall a :: a in s.toClient ==> a >= 501)
  }

  lemma TickStaysUnlucky(s: Link, n: nat)
    requires Unlucky(s, n) && n < 500
    ensures Unlucky(Tick(s, 101, 101), n + 1)
  {
    if n >= 101 && n + 1 < 400 {
      assert !PingAt(1298 + n + 1);
    }
  }

  lemma {:induction false} UnluckyRun(delays: seq<(nat, nat)>)
    requires |delays| <= 500 && forall i :: 0 <= i < |delays| ==> delays[i] == (101, 101)
    ensures Unlucky(Run(Open(98, 1298, 101), delays), |delays|)
  {
    if delays != [] {
      var n := |delays| - 1;
      UnluckyRun(delays[..n]);
      TickStaysUnlucky(Run(Open(98, 1298, 101), delays[..n]), n);
    }
  }

  ghost predicate SomeClientExpires(limit: nat) {
    exists cPhase: nat, sPhase: nat, first, delays ::
      Within(first, limit) && AllWithin(delays, limit) && Run(Open(cPhase, sPhase, first), delays).clientExpired
  }

  ghost predicate SomeServerExpires(limit: nat) {
    exists cPhase: nat, sPhase: nat, first, delays ::
      Within(first, limit) && AllWithin(delays, limit) && Run(Open(cPhase, sPhase, first), delays).serverExpired
  }

  lemma UnluckyClientExpires(limit: nat)
    requires limit > MAX_DELAY
    ensures SomeClientExpires(limit)
  {
    var delays := seq(501, i => (101, 101));
    UnluckyRun(delays[..500]);
    assert PingAt(98 + 501);
    assert Within(101, limit) && AllWithin(delays, limit);
    assert Run(Open(98, 1298, 101), delays).clientExpired;
  }

  /** Without loss, some client expires its link by mistake exactly when delays may exceed 100 ticks. */
  lemma ExpiresIff(limit: nat)
    ensures SomeClientExpires(limit) <==> limit > 100
  {
    if limit > MAX_DELAY {
      UnluckyClientExpires(limit);
    } else {
      forall cPhase: nat, sPhase: nat, first, delays | Within(first, limit) && AllWithin(delays, limit)
        ensures !Run(Open(cPhase, sPhase, first), delays).clientExpired
      {
        NeverExpires(cPhase, sPhase, first, delays);
      }
    }
  }

  // ----- the server waits longer -----

  /** The server is never without a frame to wait for, and the longest it waits is a ping gap and a delay. */
  ghost predicate ServerHealthy(s: Link) {
    && !s.serverExpired
    && (forall a :: a in s.toServer ==> a > s.now)
    && (s.serverLast.Some? ==>
          && s.serverLast.value <= s.now
          && ((exists a :: a in s.toServer && a <= s.serverLast.value + 500)
              || NextClientPing(s) + 202 <= s.serverLast.value + 500))
  }

  lemma TickKeepsServerHealthy(s: Link, up: nat, down: nat)
    requires ServerHealthy(s) && Within(up, 202)
    ensures ServerHealthy(Tick(s, up, down))
  {
    var s', t := Tick(s, up, down), s.now + 1;
    PingDue(s.cPhase + s.now);
    if s'.serverLast == Some(t) {
      if PingAt(s.cPhase + t) {
        assert t + up in s'.toServer;
      } else {
        assert NextClientPing(s') == NextClientPing(s) <= s.now + 299;
      }
    } else if s.serverLast.Some? {
      if a :| a in s.toServer && a <= s.serverLast.value + 500 {
        assert a in s'.toServer;
      } else if NextClientPing(s) == t {
        assert t + up in s'.toServer;
      }
    }
  }

  lemma {:induction false} ServerStaysHealthy(cPhase: nat, sPhase: nat, first: nat, delays: seq<(nat, nat)>)
    requires Within(first, 202) && AllWithin(delays, 202)
    ensures ServerHealthy(Run(Open(cPhase, sPhase, first), delays))
  {
    if delays != [] {
      var n := |delays| - 1;
      ServerStaysHealthy(cPhase, sPhase, first, delays[..n]);
      TickKeepsServerHealthy(Run(Open(cPhase, sPhase, first), delays[..n]), delays[n].0, delays[n].1);
    }
  }

  /**
   Up to tick 501 of a link whose first hello takes one tick, while every later one takes 203: the client's next ping
   comes at tick 299, after its loop's reset, and arrives at 502, when the server's age check has just been.
   */
  ghost predicate Forgotten(s: Link, n: nat) {
    && s.now == n && s.cPhase == 1399 && s.sPhase == 97
    && (forall a :: a in s.toServer ==> a == 1 || a >= 502)
    && (n >= 1 ==> s.serverLast == Some(1) && 1 !in s.toServer)
    && (n == 0 ==> s.serverLast == None && 1 in s.toServer)
  }

  lemma TickStaysForgotten(s: Link, n: nat)
    requires Forgotten(s, n) && n < 501
    ensures Forgotten(Tick(s, 203, 1), n + 1)
  {
    if n + 1 < 299 {
      assert !PingAt(1399 + n + 1);
    }
  }

  lemma {:induction false} ForgottenRun(delays: seq<(nat, nat)>)
    requires |delays| <= 501 && forall i :: 0 <= i < |delays| ==> delays[i] == (203, 1)
    ensures Forgotten(Run(Open(1399, 97, 1), delays), |delays|)
  {
    if delays != [] {
      var n := |delays| - 1;
      ForgottenRun(delays[..n]);
      TickStaysForgotten(Run(Open(1399, 97, 1), delays[..n]), n);
    }
  }

  lemma ForgottenServerExpires(limit: nat)
    requires limit > 202
    ensures SomeServerExpires(limit)
  {
    var delays := seq(502, i => (203, 1));
    ForgottenRun(delays[..501]);
    assert PingAt(97 + 502);
    assert Within(1, limit) && AllWithin(delays, limit);
    assert Run(Open(1399, 97, 1), delays).serverExpired;
  }

  /** Without loss, some server expires its link by mistake exactly when delays may exceed 202 ticks. */
  lemma ServerExpiresIff(limit: nat)
    ensures SomeServerExpires(limit) <==> limit > 202
  {
    if limit > 202 {
      ForgottenServerExpires(limit);
    } else {
      forall cPhase: nat, sPhase: nat, first, delays | Within(first, limit) && AllWithin(delays, limit)
        ensures !Run(Open(cPhase, sPhase, first), delays).serverExpired
      {
        ServerStaysHealthy(cPhase, sPhase, first, delays);
      }
    }
  }
}
