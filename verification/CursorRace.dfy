/**
 The round-robin cursor. The tunnel loops run the chooser without the lock, so between looking at an entry and
 writing its id to the cursor anything may happen to the table. Connects, closings and the picks for LINKDOWNs are
 single steps, because they run under the lock.
 */
module CursorRace {
  import opened Basics
  import opened ConnTable

  /**
   A pick under way: the entry it looked at last, 0 before the first, and whether that ends its search. The flag
   gone is history: that entry has been closed since the look, and its id not opened again.
   */
  datatype Looking = Looking(some: u32, chosen: bool, gone: bool)

  /** The flag late is history too: the cursor was last written by a pick whose entry was gone by then. */
  datatype Race = Race(table: Table, picks: map<nat, Looking>, late: bool)

  datatype Step =
    | Begin(p: nat)
    | Look(p: nat, c: u32)
    | Settle(p: nat)
    | LockedPick(c: u32)
    | InsertStep(c: u32, conn: Conn)
    | CloseStep(c: u32)

  /** At most j picks are under way, and only if they can be interrupted may the table or another pick come between. */
  ghost predicate Enabled(s: Race, j: nat, interruptible: bool, step: Step) {
    && (step.Look? || step.Settle? || interruptible || s.picks.Keys == {})
    && match step
       case Begin(p) => p !in s.picks && |s.picks.Keys| < j
       case Look(p, c) => p in s.picks && !s.picks[p].chosen && c in s.table.conns
       case Settle(p) => p in s.picks
       case LockedPick(c) => RoundRobinPick(s.table, c)
       case InsertStep(c, conn) => Good(c, conn)
       case CloseStep(c) => c in s.table.conns
  }

  /** Picks that stand on c, marked as gone or as there. */
  function Marked(picks: map<nat, Looking>, c: u32, gone: bool): map<nat, Looking> {
    map p | p in picks :: if picks[p].some == c && c != 0 then picks[p].(gone := gone) else picks[p]
  }

  function Do(s: Race, step: Step): Race
    requires step.Look? || step.Settle? ==> step.p in s.picks
    requires step.Look? ==> step.c in s.table.conns
  {
    match step
    case Begin(p) => s.(picks := s.picks[p := Looking(0, false, false)])
    case Look(p, c) =>
      s.(picks := s.picks[p := Looking(c, c != s.table.cursor && s.table.conns[c].alive, false)])
    case Settle(p) => Race(s.table.(cursor := s.picks[p].some), s.picks - {p}, s.picks[p].gone)
    case LockedPick(c) => Race(s.table.(cursor := c), s.picks, false)
    case InsertStep(c, conn) => Race(Insert(s.table, c, conn), Marked(s.picks, c, false), false)
    case CloseStep(c) => Race(Close(s.table, c), Marked(s.picks, c, true), false)
  }

  ghost function Run(steps: seq<Step>, j: nat, interruptible: bool): Option<Race> {
    if steps == [] then Some(Race(Empty(), map[], false))
    else
      match Run(steps[..|steps| - 1], j, interruptible)
      case None => None
      case Some(s) =>
        var step := steps[|steps| - 1];
        if Enabled(s, j, interruptible, step) then Some(Do(s, step)) else None
  }

  ghost predicate Reachable(s: Race, j: nat, interruptible: bool) {
    exists steps :: Run(steps, j, interruptible) == Some(s)
  }

  /** The flags mean what they say: an entry is gone exactly when its id is not in the table. */
  ghost predicate Inv(s: Race, interruptible: bool) {
    && Consistent(s.table)
    && (forall p :: p in s.picks ==> (s.picks[p].gone <==> s.picks[p].some != 0 && s.picks[p].some !in s.table.conns))
    && (s.late <==> !CursorLive(s.table))
    && (!interruptible ==> !s.late && forall p :: p in s.picks ==> !s.picks[p].gone)
  }

  lemma DoKeepsInv(s: Race, j: nat, interruptible: bool, step: Step)
    requires Inv(s, interruptible) && Enabled(s, j, interruptible, step)
    ensures Inv(Do(s, step), interruptible)
  {
    match step
    case InsertStep(c, conn) => InsertConsistent(s.table, c, conn);
    case CloseStep(c) => CloseConsistent(s.table, c);
    case _ =>
  }

  lemma {:induction false} RunsKeepInv(steps: seq<Step>, j: nat, interruptible: bool)
    ensures var r := Run(steps, j, interruptible); r.Some? ==> Inv(r.value, interruptible)
  {
    if steps == [] {
      EmptyConsistent();
    } else {
      var before := steps[..|steps| - 1];
      RunsKeepInv(before, j, interruptible);
      var r := Run(before, j, interruptible);
      if r.Some? && Enabled(r.value, j, interruptible, steps[|steps| - 1]) {
        DoKeepsInv(r.value, j, interruptible, steps[|steps| - 1]);
      }
    }
  }

  lemma ReachableInv(s: Race, j: nat, interruptible: bool)
    requires Reachable(s, j, interruptible)
    ensures Inv(s, interruptible)
  {
    var steps :| Run(steps, j, interruptible) == Some(s);
    RunsKeepInv(steps, j, interruptible);
  }

  /**
   In every reachable state ring, keys and records agree, and the cursor is 0 or live, except exactly while it was
   last written by a pick whose entry had been closed between its look and its settling.
   */
  lemma CursorIsLiveUnlessLate(s: Race, j: nat, interruptible: bool)
    requires Reachable(s, j, interruptible)
    ensures Consistent(s.table) && (CursorLive(s.table) <==> !s.late)
  {
    ReachableInv(s, j, interruptible);
  }

  /** A look that nothing interrupts before its settling is a locked pick; one that goes on saw nothing to choose. */
  lemma UninterruptedPick(s: Race, p: nat, c: u32)
    requires p in s.picks && !s.picks[p].chosen && c in s.table.conns
    ensures var looked := Do(s, Look(p, c));
            if looked.picks[p].chosen then
              RoundRobinPick(s.table, c) && c != s.table.cursor
              && Do(looked, Settle(p)).table == Do(s, LockedPick(c)).table
            else
              c == s.table.cursor || !s.table.conns[c].alive
  {
  }

  // ----- a dead cursor is reached only by interruption -----

  ghost predicate CursorCanDie(j: nat, interruptible: bool) {
    exists s :: Reachable(s, j, interruptible) && !CursorLive(s.table)
  }

  lemma StartReachable(j: nat, interruptible: bool)
    ensures Reachable(Race(Empty(), map[], false), j, interruptible)
  {
    assert Run([], j, interruptible) == Some(Race(Empty(), map[], false));
  }

  lemma StepReachable(s: Race, j: nat, interruptible: bool, step: Step)
    requires Reachable(s, j, interruptible) && Enabled(s, j, interruptible, step)
    ensures Reachable(Do(s, step), j, interruptible)
  {
    var steps :| Run(steps, j, interruptible) == Some(s);
    var more := steps + [step];
    assert more[..|more| - 1] == steps;
    assert Run(more, j, interruptible) == Some(Do(s, step));
  }

  /** One entry, and a pick that has looked at it. */
  lemma LookedAt(j: nat) returns (s: Race)
    requires j >= 1
    ensures Reachable(s, j, true) && 1 in s.table.conns && 0 in s.picks && s.picks[0].some == 1
  {
    var conn := NewConn(1, "", "", 0);
    StartReachable(j, true);
    s := Race(Empty(), map[], false);
    StepReachable(s, j, true, InsertStep(1, conn));
    s := Do(s, InsertStep(1, conn));
    assert s.picks.Keys == {};
    StepReachable(s, j, true, Begin(0));
    s := Do(s, Begin(0));
    StepReachable(s, j, true, Look(0, 1));
    s := Do(s, Look(0, 1));
  }

  /** Exactly when the cursor can be left on a dead id: when there are unlocked picks and they can be interrupted. */
  lemma CursorCanDieIff(j: nat, interruptible: bool)
    ensures CursorCanDie(j, interruptible) <==> j >= 1 && interruptible
  {
    if j >= 1 && interruptible {
      var s := LookedAt(j);
      StepReachable(s, j, true, CloseStep(1));
      s := Do(s, CloseStep(1));
      StepReachable(s, j, true, Settle(0));
      s := Do(s, Settle(0));
      assert !CursorLive(s.table);
    } else {
      forall s | Reachable(s, j, interruptible)
        ensures CursorLive(s.table)
      {
        ReachableInv(s, j, interruptible);
        if interruptible {
          NoPicks(s, interruptible);
        }
      }
    }
  }

  lemma {:induction false} NoPicksRun(steps: seq<Step>, interruptible: bool)
    ensures var r := Run(steps, 0, interruptible); r.Some? ==> r.value.picks == map[] && !r.value.late
  {
    if steps != [] {
      NoPicksRun(steps[..|steps| - 1], interruptible);
    }
  }

  lemma NoPicks(s: Race, interruptible: bool)
    requires Reachable(s, 0, interruptible)
    ensures !s.late
  {
    var steps :| Run(steps, 0, interruptible) == Some(s);
    NoPicksRun(steps, interruptible);
  }

  // ----- and does no harm -----

  /** A dead cursor excludes no entry: the next pick is free to be whatever it could be after a reset. */
  lemma DeadCursorIsAReset(t: Table, c: u32)
    requires !CursorLive(t) && 0 !in t.conns
    ensures RoundRobinPick(t, c) <==> RoundRobinPick(t.(cursor := 0), c)
  {
  }
}
