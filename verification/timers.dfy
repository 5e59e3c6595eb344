/**
 * Timer slots of the widget. `setTimeout` hands out fresh ids; a slot is a
 * settings field remembering the last id stored in it; `clearTimeout` on the
 * slot cancels that timer if it is still pending. Wall-clock time is not
 * modelled: a pending timer may fire at any later step.
 */
module Timers {
  import opened Types

  /** The settings fields that hold timer ids. */
  datatype Slot =
    | CompetitionSlot      // competition.refreshInterval: the outer (competition) loop
    | LeaderboardSlot      // leaderboard.refreshInterval: only ever cleared by the widget
    | LeaderboardDataSlot  // leaderboard.refreshLbDataInterval: the inner (leaderboard data) loop
    | ScoreBoardSlot       // miniScoreBoard.settings.updateInterval: armed by the mini scoreboard

  /**
   * What a pending timer will run: a loop's refresh, the next reload of an
   * opt-in revalidation for the button that started it, or the main
   * widget's delayed layout callback after a score-board opt-in.
   */
  datatype Task = Loop(slot: Slot) | RevalidateOptIn(button: OptInButton) | ShowLayout

  datatype Timers = Timers(pending: map<nat, Task>, slots: map<Slot, nat>, next: nat)

  /** No timers at start-up; browser timer ids are positive. */
  function NoTimers(): (t: Timers)
    ensures Valid(t) && t.pending == map[]
  {
    Timers(map[], map[], 1)
  }

  /**
   * Every pending id was handed out, and every pending loop timer is the one
   * its slot remembers: a loop never has an orphaned timer.
   */
  ghost predicate Valid(t: Timers)
  {
    && (forall id :: id in t.pending ==> id < t.next)
    && (forall id :: id in t.pending && t.pending[id].Loop? ==>
          t.pending[id].slot in t.slots && t.slots[t.pending[id].slot] == id)
    && (forall s :: s in t.slots ==> t.slots[s] < t.next)
    && (forall s :: s in t.slots && t.slots[s] in t.pending ==> t.pending[t.slots[s]] == Loop(s))
  }

  /** The pending timers that will run the loop of slot `s`. */
  function PendingFor(t: Timers, s: Slot): set<nat>
  {
    set id | id in t.pending && t.pending[id] == Loop(s)
  }

  /** In a valid state each loop has at most one pending timer. */
  lemma AtMostOnePending(t: Timers, s: Slot)
    requires Valid(t)
    ensures |PendingFor(t, s)| <= 1
    ensures PendingFor(t, s) != {} ==> s in t.slots && PendingFor(t, s) == {t.slots[s]}
  {
    if PendingFor(t, s) != {} {
      assert PendingFor(t, s) == {t.slots[s]};
    }
  }

  /** Cancelling the timer a slot remembers: it no longer runs; nothing else changes. */
  function Clear(t: Timers, s: Slot): (r: Timers)
    requires Valid(t)
    ensures Valid(r)
    ensures PendingFor(r, s) == {}
    ensures r.slots == t.slots && r.next == t.next
    ensures forall id :: id in r.pending <==> id in t.pending && t.pending[id] != Loop(s)
    ensures forall id :: id in r.pending ==> r.pending[id] == t.pending[id]
  {
    if s in t.slots then t.(pending := t.pending - {t.slots[s]}) else t
  }

  /** `setTimeout`: a fresh pending timer; for a loop task the slot remembers its id. */
  function Arm(t: Timers, task: Task): (r: (Timers, nat))
    requires Valid(t)
    ensures r.1 !in t.pending && r.0.pending == t.pending[r.1 := task]
    ensures task.Loop? ==> r.0.slots == t.slots[task.slot := r.1]
    ensures !task.Loop? ==> r.0.slots == t.slots
  {
    (Timers(t.pending[t.next := task],
            if task.Loop? then t.slots[task.slot := t.next] else t.slots,
            t.next + 1),
     t.next)
  }

  /** Arming a loop whose slot still has a pending timer orphans that timer: two runs are then pending. */
  lemma ArmWithoutClearDoubles(t: Timers, s: Slot)
    requires Valid(t) && PendingFor(t, s) != {}
    ensures |PendingFor(Arm(t, Loop(s)).0, s)| == 2
    ensures !Valid(Arm(t, Loop(s)).0)
  {
    AtMostOnePending(t, s);
    var old_id := t.slots[s];
    var (r, id) := Arm(t, Loop(s));
    assert PendingFor(r, s) == {old_id, id};
    assert r.pending[old_id] == Loop(s) && r.slots[s] != old_id;
  }

  /** Clear then arm, as each self-re-arming loop does: exactly one timer of that loop is pending. */
  function Rearm(t: Timers, s: Slot): (r: Timers)
    requires Valid(t)
    ensures Valid(r)
    ensures s in r.slots && PendingFor(r, s) == {r.slots[s]}
    ensures forall id :: id in t.pending && t.pending[id] != Loop(s) ==> id in r.pending && r.pending[id] == t.pending[id]
    ensures forall id :: id in r.pending && r.pending[id] != Loop(s) ==> id in t.pending
  {
    Arm(Clear(t, s), Loop(s)).0
  }

  /** A pending timer fires: it is no longer pending. */
  function Fire(t: Timers, id: nat): (r: Timers)
    requires Valid(t) && id in t.pending
    ensures Valid(r)
    ensures id !in r.pending && |r.pending| == |t.pending| - 1
    ensures forall j :: j in r.pending <==> j in t.pending && j != id
  {
    t.(pending := t.pending - {id})
  }

  /**
   * stopActivity: clears the leaderboard, competition, leaderboard-data and
   * scoreboard slots. One-shot timers (an opt-in retry, the layout
   * callback) are not cancelled.
   */
  function StopActivity(t: Timers): (r: Timers)
    requires Valid(t)
    ensures Valid(r)
    ensures forall s :: PendingFor(r, s) == {}
    ensures forall id :: id in r.pending <==> id in t.pending && !t.pending[id].Loop?
  {
    ClearAllSlots(t);
    Clear(Clear(Clear(Clear(t, LeaderboardSlot), CompetitionSlot), LeaderboardDataSlot), ScoreBoardSlot)
  }

  lemma ClearAllSlots(t: Timers)
    requires Valid(t)
    ensures var r := Clear(Clear(Clear(Clear(t, LeaderboardSlot), CompetitionSlot), LeaderboardDataSlot), ScoreBoardSlot);
            && (forall s :: PendingFor(r, s) == {})
            && (forall id :: id in r.pending <==> id in t.pending && !t.pending[id].Loop?)
  {
    var t1 := Clear(t, LeaderboardSlot);
    var t2 := Clear(t1, CompetitionSlot);
    var t3 := Clear(t2, LeaderboardDataSlot);
    var r := Clear(t3, ScoreBoardSlot);
    forall id | id in r.pending
      ensures !r.pending[id].Loop? && !t.pending[id].Loop?
    {
      assert r.pending[id] == t3.pending[id] == t2.pending[id] == t1.pending[id] == t.pending[id];
      if r.pending[id].Loop? {
        match r.pending[id].slot {
          case LeaderboardSlot => assert false;
          case CompetitionSlot => assert false;
          case LeaderboardDataSlot => assert false;
          case ScoreBoardSlot => assert false;
        }
      }
    }
  }
}
