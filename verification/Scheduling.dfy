/**
 The scheduler's turns as they occur in a run of an end of the tunnel: which changes are picks and which are resets,
 so that what RoundRobin proves about turns is about the operations.
 */
module Scheduling {
  import opened Basics
  import opened Books
  import opened ConnTable
  import RoundRobin

  function TurnsOf(b: Books, x: Change): seq<RoundRobin.Turn> {
    match x
    case PickChange(c) => [RoundRobin.Pick(b.table.conns, c)]
    case InsertChange(_, _) => [RoundRobin.Reset]
    case CloseChange(_) => [RoundRobin.Reset]
    case _ => []
  }

  /** The turns of a run, each pick with the table it was made from. */
  function Turns(run: seq<Change>): seq<RoundRobin.Turn> {
    if run == [] then []
    else
      var before := run[..|run| - 1];
      if After(before).None? then [] else Turns(before) + TurnsOf(After(before).value, run[|run| - 1])
  }

  /** The cursor is the last pick since the table last changed, and 0 if there was none. */
  lemma {:induction false} CursorFollowsTurns(run: seq<Change>)
    requires After(run).Some?
    ensures After(run).value.table.cursor == RoundRobin.Cursor(Turns(run))
  {
    if run != [] {
      LastChange(run);
      var before := run[..|run| - 1];
      CursorFollowsTurns(before);
      var turns := TurnsOf(After(before).value, run[|run| - 1]);
      if turns != [] {
        assert (Turns(before) + turns)[..|Turns(before)|] == Turns(before);
      } else {
        assert Turns(before) + turns == Turns(before);
      }
    }
  }

  /** Every pick of the run was one the chooser can make, from at least two entries, all alive. */
  ghost predicate FairlyPicked(run: seq<Change>) {
    run == [] ||
    var before, x := run[..|run| - 1], run[|run| - 1];
    && FairlyPicked(before) && After(before).Some?
    && (x.PickChange? ==>
          var t := After(before).value.table; RoundRobin.LegalPick(t.conns, t.cursor, x.c))
  }

  function PickCount(run: seq<Change>): nat {
    if run == [] then 0 else PickCount(run[..|run| - 1]) + (if run[|run| - 1].PickChange? then 1 else 0)
  }

  function PicksMadeOf(run: seq<Change>, c: u32): nat {
    if run == [] then 0
    else PicksMadeOf(run[..|run| - 1], c) + (if run[|run| - 1] == PickChange(c) then 1 else 0)
  }

  function TableChanges(run: seq<Change>): nat {
    if run == [] then 0
    else
      var x := run[|run| - 1];
      TableChanges(run[..|run| - 1]) + (if x.InsertChange? || x.CloseChange? then 1 else 0)
  }

  lemma {:induction false} TurnsCount(run: seq<Change>, c: u32)
    requires After(run).Some? && FairlyPicked(run)
    ensures RoundRobin.Legal(Turns(run)) && RoundRobin.Pending(Turns(run)).None?
    ensures RoundRobin.Picks(Turns(run)) == PickCount(run) && RoundRobin.PicksOf(Turns(run), c) == PicksMadeOf(run, c)
    ensures RoundRobin.Resets(Turns(run)) == TableChanges(run)
  {
    if run != [] {
      LastChange(run);
      var before := run[..|run| - 1];
      TurnsCount(before, c);
      CursorFollowsTurns(before);
      var turns := TurnsOf(After(before).value, run[|run| - 1]);
      if turns != [] {
        assert (Turns(before) + turns)[..|Turns(before)|] == Turns(before);
      } else {
        assert Turns(before) + turns == Turns(before);
      }
    }
  }

  /**
   Over every run of an end, of k picks with r connections opened or closed among them no connection gets more than
   (k + r + 1) / 2.
   */
  lemma ShareOfRun(run: seq<Change>, c: u32)
    requires After(run).Some? && FairlyPicked(run)
    ensures PicksMadeOf(run, c) <= (PickCount(run) + TableChanges(run) + 1) / 2
  {
    TurnsCount(run, c);
    RoundRobin.ShareBound(Turns(run), c);
  }

  /** After a pick the next one, from at least two entries all alive, is another. */
  lemma NextPickDiffers(b: Books, c: u32, d: u32)
    requires |b.table.conns.Keys| >= 2 && forall x :: x in b.table.conns ==> b.table.conns[x].alive
    requires RoundRobinPick(Picked(b, c).table, d)
    ensures d != c
  {
    RoundRobin.NeverTheLastOne(Picked(b, c).table, d);
  }
}
