/** schedule, signal_handle_pending and exit_process, which call each other, as functions on the process table. */
module Scheduling {
  import opened Processes
  import opened Sequences

  /** The kernel after a call, and the slots of the processes that exited during it, in order. */
  datatype Result = Result(k: Kernel, dead: seq<nat>)

  function Ahead(k: Kernel, d: nat): (i: nat)
    ensures i < MAX_PROCESSES
  {
    (k.current + d) % MAX_PROCESSES
  }

  /** How many slots the search of schedule goes forward; MAX_PROCESSES if it comes back to where it began. */
  function Pick(k: Kernel, d: nat): (r: nat)
    requires Shape(k) && 1 <= d <= MAX_PROCESSES
    ensures d <= r <= MAX_PROCESSES
    ensures r < MAX_PROCESSES ==> Runnable(k.procs[Ahead(k, r)])
    ensures forall e :: d <= e < r ==> !Runnable(k.procs[Ahead(k, e)])
    decreases MAX_PROCESSES - d
  {
    if d == MAX_PROCESSES || Runnable(k.procs[Ahead(k, d)]) then d else Pick(k, d + 1)
  }

  lemma {:induction false} PickIs(k: Kernel, d: nat, r: nat)
    requires Shape(k) && 1 <= d <= r <= MAX_PROCESSES && (r < MAX_PROCESSES ==> Runnable(k.procs[Ahead(k, r)]))
    requires forall e :: d <= e < r ==> !Runnable(k.procs[Ahead(k, e)])
    ensures Pick(k, d) == r
    decreases r - d
  {
    if d < r {
      PickIs(k, d + 1, r);
    }
  }

  /** switch_to_process on the current slot. */
  function Switch(k: Kernel): Kernel
    requires Shape(k)
  {
    var p := k.procs[k.current];
    k.(procs := k.procs[k.current := p.(state := Running, cpuTime := p.cpuTime + 1)])
  }

  /** switch_to_process for any pid. */
  function SwitchTo(k: Kernel, pid: nat): Kernel {
    var i := Find(k.procs, pid);
    if i == |k.procs| then k
    else
      var p := k.procs[i];
      k.(current := i, procs := k.procs[i := p.(state := Running, cpuTime := p.cpuTime + 1)])
  }

  /** The children of an exiting process become children of process 1. */
  function Orphan(t: Table, pid: nat): (r: Table)
    ensures |r| == |t|
  {
    seq(|t|, i requires 0 <= i < |t| => if t[i].pid != 0 && t[i].parent == pid then t[i].(parent := 1) else t[i])
  }

  /** The parent's SIGCHLD. */
  function Notify(t: Table, parent: nat): (r: Table)
    ensures |r| == |t|
  {
    var j := Find(t, parent);
    if parent != 0 && j < |t| then t[j := AddPending(t[j], SIGCHLD)] else t
  }

  /** exit_process up to its call of schedule. */
  function Die(k: Kernel, slot: nat): (r: Kernel)
    requires Shape(k) && slot < MAX_PROCESSES
  {
    var p := k.procs[slot];
    var t := Orphan(Notify(k.procs, p.parent), p.pid);
    k.(procs := t[slot := t[slot].(state := Zombie)])
  }

  /** Processes other than those in `dead` stay runnable, or keep the state for which they are not. */
  ghost predicate KeepsOthers(t: Table, t': Table, dead: set<nat>) {
    && |t'| == |t|
    && forall i :: 0 <= i < |t| && i !in dead ==>
         t'[i].pid == t[i].pid && Runnable(t'[i]) == Runnable(t[i]) && (!Runnable(t[i]) ==> t'[i].state == t[i].state)
  }

  lemma DieShape(k: Kernel, slot: nat)
    requires Shape(k) && slot < MAX_PROCESSES
    ensures Shape(Die(k, slot)) && Die(k, slot).current == k.current
    ensures RunSet(Die(k, slot).procs) == RunSet(k.procs) - {slot}
    ensures KeepsOthers(k.procs, Die(k, slot).procs, {slot})
    ensures Die(k, slot).procs[slot].state == Zombie && Die(k, slot).procs[slot].pid == k.procs[slot].pid
  {
    var p := k.procs[slot];
    var t1 := Notify(k.procs, p.parent);
    NotifyKeeps(k.procs, p.parent);
    OrphanKeeps(t1, p.pid);
    hide Notify, Orphan, Runnable;
    var d := Die(k, slot).procs;
    forall i | 0 <= i < MAX_PROCESSES ensures ShapeAt(d[i], i) {
      assert ShapeAt(k.procs[i], i);
    }
    assert !Runnable(d[slot]) by { ZombieIdle(d[slot]); }
  }

  lemma ZombieIdle(p: Process)
    requires p.state == Zombie
    ensures !Runnable(p)
  {
  }

  /** Fields that neither a signal nor a change of parent touches. */
  ghost predicate Same(p: Process, q: Process) {
    q == p.(pending := q.pending, parent := q.parent)
  }

  lemma NotifyKeeps(t: Table, parent: nat)
    ensures forall i :: 0 <= i < |t| ==>
              Same(t[i], Notify(t, parent)[i]) && Runnable(t[i]) == Runnable(Notify(t, parent)[i])
  {
  }

  lemma OrphanKeeps(t: Table, pid: nat)
    ensures forall i :: 0 <= i < |t| ==> Same(t[i], Orphan(t, pid)[i]) && Runnable(t[i]) == Runnable(Orphan(t, pid)[i])
  {
  }

  /** The next process made current and RUNNING. */
  function Enter(k: Kernel, d: nat): (r: Kernel)
    requires Shape(k) && d < MAX_PROCESSES
  {
    var j := Ahead(k, d);
    k.(current := j, procs := k.procs[j := k.procs[j].(state := Running)])
  }

  lemma EnterShape(k: Kernel, d: nat)
    requires Shape(k) && d < MAX_PROCESSES && Runnable(k.procs[Ahead(k, d)])
    ensures Shape(Enter(k, d)) && RunSet(Enter(k, d).procs) == RunSet(k.procs)
    ensures Enter(k, d).current in RunSet(k.procs) && KeepsOthers(k.procs, Enter(k, d).procs, {})
  {
    var j := Ahead(k, d);
    var e := Enter(k, d);
    assert forall i :: 0 <= i < MAX_PROCESSES ==>
             ShapeAt(e.procs[i], i) && Runnable(e.procs[i]) == Runnable(k.procs[i]);
  }

  /** The current process after the signal loop, before anything else changes. */
  function Taken(k: Kernel): (r: Kernel)
    requires Shape(k)
  {
    k.(procs := k.procs[k.current := TakeAll(k.procs[k.current]).0])
  }

  lemma TakenShape(k: Kernel)
    requires Shape(k)
    ensures Shape(Taken(k)) && Taken(k).current == k.current && RunSet(Taken(k).procs) == RunSet(k.procs)
    ensures var p, q := k.procs[k.current], Taken(k).procs[k.current];
            q == p.(pending := q.pending) && q.pending <= p.pending
    ensures KeepsOthers(k.procs, Taken(k).procs, {})
  {
    var p := k.procs[k.current];
    TakeClears(p, 1);
    var t := Taken(k).procs;
    assert ShapeAt(p, k.current);
    assert forall i :: 0 <= i < MAX_PROCESSES ==> ShapeAt(t[i], i) && Runnable(t[i]) == Runnable(k.procs[i]);
  }

  ghost function Others(k: Kernel, slot: nat): nat {
    |RunSet(k.procs) - {slot}|
  }

  /** schedule() */
  ghost function Schedule(k: Kernel): (r: Result)
    requires Shape(k)
    ensures Shape(r.k)
    decreases |RunSet(k.procs)|, 1
  {
    var d := Pick(k, 1);
    if d == MAX_PROCESSES then Result(k, [])
    else
      EnterShape(k, d);
      var e := Enter(k, d);
      assert Others(e, e.current) < |RunSet(k.procs)| by {
        assert RunSet(k.procs) - {e.current} < RunSet(k.procs);
        SmallerSet(RunSet(k.procs), e.current);
      }
      var r := Deliver(e);
      Result(Switch(r.k), r.dead)
  }

  lemma SmallerSet(s: set<nat>, x: nat)
    requires x in s
    ensures |s - {x}| == |s| - 1
  {
  }

  /** signal_handle_pending() on the current process */
  ghost function Deliver(k: Kernel): (r: Result)
    requires Shape(k)
    ensures Shape(r.k)
    decreases Others(k, k.current), 3
  {
    TakenShape(k);
    if Doomed(k.procs[k.current]) then Exit(Taken(k), k.current) else Result(Taken(k), [])
  }

  /** exit_process() */
  ghost function Exit(k: Kernel, slot: nat): (r: Result)
    requires Shape(k) && slot < MAX_PROCESSES
    ensures Shape(r.k)
    decreases Others(k, slot), 2
  {
    DieShape(k, slot);
    var r := Schedule(Die(k, slot));
    Result(r.k, [slot] + r.dead)
  }

  // ---------- how a call of schedule ends ----------

  /** If the search comes back to its start, no other process is runnable. */
  lemma PickCovers(k: Kernel, i: nat)
    requires Shape(k) && i in RunSet(k.procs) && i != k.current
    ensures Pick(k, 1) < MAX_PROCESSES
  {
    var d := (i + MAX_PROCESSES - k.current) % MAX_PROCESSES;
    assert Ahead(k, d) == i;
  }

  /** The state in which the nested call of schedule starts when the picked process is doomed. */
  ghost function Killed(k: Kernel): (r: Kernel)
    requires Shape(k) && Pick(k, 1) < MAX_PROCESSES
  {
    EnterShape(k, Pick(k, 1));
    var e := Enter(k, Pick(k, 1));
    TakenShape(e);
    Die(Taken(e), e.current)
  }

  /** The process that schedule picks is doomed. */
  ghost predicate Kills(k: Kernel)
    requires Shape(k)
  {
    var d := Pick(k, 1);
    d < MAX_PROCESSES && (EnterShape(k, d); Doomed(Enter(k, d).procs[Enter(k, d).current]))
  }

  /** One level of the recursion. */
  lemma Unfold(k: Kernel)
    requires Shape(k)
    ensures Pick(k, 1) == MAX_PROCESSES ==> Schedule(k) == Result(k, [])
    ensures Pick(k, 1) < MAX_PROCESSES ==>
              var j := Ahead(k, Pick(k, 1));
              var e := Enter(k, Pick(k, 1));
              && j in RunSet(k.procs) && Shape(e) && e.current == j && Shape(Killed(k)) && Killed(k).current == j
              && RunSet(Killed(k).procs) == RunSet(k.procs) - {j}
              && Schedule(k) == if Kills(k)
                                then Result(Switch(Schedule(Killed(k)).k), [j] + Schedule(Killed(k)).dead)
                                else Result(Switch(Taken(e)), [])
  {
    hide Pick, Taken, Die, TakeAll, Doomed, RunSet, Shape, Ahead, Switch, Runnable;
    var d := Pick(k, 1);
    if d < MAX_PROCESSES {
      EnterShape(k, d);
      var e := Enter(k, d);
      TakenShape(e);
      DieShape(Taken(e), e.current);
      assert Schedule(k) == Result(Switch(Deliver(e).k), Deliver(e).dead);
      if Kills(k) {
        assert Deliver(e) == Exit(Taken(e), e.current);
        assert Killed(k) == Die(Taken(e), e.current);
      }
    }
  }

  /**
   * Processes that exit were runnable, each exits once, and so the calls nest no deeper than there are runnable
   * processes.
   */
  lemma {:induction false} NestingBound(k: Kernel)
    requires Shape(k)
    ensures var dead := Schedule(k).dead;
            && Elements(dead) <= RunSet(k.procs)
            && (forall i, j :: 0 <= i < j < |dead| ==> dead[i] != dead[j])
            && |dead| == |Elements(dead)| <= |RunSet(k.procs)|
    decreases |RunSet(k.procs)|
  {
    hide Shape, Pick, Enter, Taken, Switch, Kills, RunSet, Killed, Schedule, Ahead;
    Unfold(k);
    if Pick(k, 1) < MAX_PROCESSES {
      var j := Ahead(k, Pick(k, 1));
      SmallerSet(RunSet(k.procs), j);
      if Kills(k) {
        var rest := Schedule(Killed(k)).dead;
        NestingBound(Killed(k));
        ElementsCons(j, rest);
        assert forall i :: 0 <= i < |rest| ==> rest[i] in Elements(rest);
      }
    }
  }

  /** What one level does before the nested call. */
  lemma KilledKeeps(k: Kernel)
    requires Shape(k) && Pick(k, 1) < MAX_PROCESSES
    ensures var j := Ahead(k, Pick(k, 1));
            KeepsOthers(k.procs, Killed(k).procs, {j}) && Killed(k).procs[j].state == Zombie
            && Killed(k).procs[j].pid == k.procs[j].pid != 0
  {
    hide Enter, Taken, Die, TakeAll, Pick, Shape, Runnable;
    var e := Enter(k, Pick(k, 1));
    EnterShape(k, Pick(k, 1));
    TakenShape(e);
    DieShape(Taken(e), e.current);
    EnterAt(k);
  }

  lemma EnterAt(k: Kernel)
    requires Shape(k) && Pick(k, 1) < MAX_PROCESSES
    ensures Enter(k, Pick(k, 1)).current == Ahead(k, Pick(k, 1)) && k.procs[Ahead(k, Pick(k, 1))].pid != 0
  {
    hide Pick;
  }

  lemma SwitchKeeps(k: Kernel)
    requires Shape(k)
    ensures Shape(Switch(k)) && Switch(k).current == k.current
    ensures Switch(k).procs[k.current].state == Running && Switch(k).procs[k.current].pid == k.procs[k.current].pid
    ensures forall i :: 0 <= i < MAX_PROCESSES && i != k.current ==> Switch(k).procs[i] == k.procs[i]
  {
    forall i | 0 <= i < MAX_PROCESSES ensures ShapeAt(Switch(k).procs[i], i) {
      assert ShapeAt(k.procs[i], i);
    }
  }

  /**
   * How a call of schedule ends. Without another runnable process nothing happens. Otherwise every process that
   * exited, at any depth, is a zombie, and the current process is RUNNING and did not exit; unless every runnable
   * process exited: then the last one to exit is current and set back to RUNNING.
   */
  ghost predicate Ends(k: Kernel, r: Result)
    requires Shape(k) && Shape(r.k)
  {
    && KeepsOthers(k.procs, r.k.procs, Elements(r.dead))
    && (Pick(k, 1) == MAX_PROCESSES ==> r == Result(k, []))
    && (Pick(k, 1) < MAX_PROCESSES ==>
          && r.k.current in RunSet(k.procs)
          && r.k.procs[r.k.current].state == Running && r.k.procs[r.k.current].pid != 0
          && (forall i :: i in Elements(r.dead) && i != r.k.current && i < MAX_PROCESSES ==>
                r.k.procs[i].state == Zombie)
          && (Elements(r.dead) == RunSet(k.procs) ==> r.dead != [] && r.k.current == r.dead[|r.dead| - 1])
          && (Elements(r.dead) != RunSet(k.procs) ==> r.k.current !in Elements(r.dead)))
  }

  lemma {:induction false} ScheduleEnds(k: Kernel)
    requires Shape(k)
    ensures Ends(k, Schedule(k))
    decreases |RunSet(k.procs)|
  {
    hide Ends, Schedule, Killed, Shape, Pick, RunSet, Kills, Ahead;
    Unfold(k);
    if Pick(k, 1) == MAX_PROCESSES {
      EndsIdle(k);
    } else if !Kills(k) {
      TakenShape(Enter(k, Pick(k, 1)));
      EndsSurvived(k);
    } else {
      SmallerSet(RunSet(k.procs), Ahead(k, Pick(k, 1)));
      ScheduleEnds(Killed(k));
      NestingBound(Killed(k));
      EndsNested(k, Schedule(Killed(k)));
    }
  }

  /** schedule, with all the deliveries and exits nested in it, blocks nobody. */
  lemma ScheduleBlocksNobody(k: Kernel, i: nat)
    requires Shape(k) && i < MAX_PROCESSES
    ensures |Schedule(k).k.procs| == |k.procs| == MAX_PROCESSES
    ensures Schedule(k).k.procs[i].state == Blocked ==> k.procs[i].state == Blocked
  {
    hide Schedule, Pick, RunSet;
    ScheduleEnds(k);
  }

  /** schedule does not touch the state of a process that is not runnable, however many others exit meanwhile. */
  lemma WaitersStay(k: Kernel, i: nat)
    requires Shape(k) && i < MAX_PROCESSES && !Runnable(k.procs[i])
    ensures |Schedule(k).k.procs| == MAX_PROCESSES && Schedule(k).k.procs[i].state == k.procs[i].state
  {
    hide Schedule, Pick;
    ScheduleEnds(k);
    NestingBound(k);
  }

  /** A process whose exit_process has returned is a zombie, whatever exited in the calls nested in it. */
  lemma ExitedIsZombie(k: Kernel, slot: nat)
    requires Shape(k) && slot < MAX_PROCESSES
    ensures |Exit(k, slot).k.procs| == MAX_PROCESSES && Exit(k, slot).k.procs[slot].state == Zombie
  {
    hide Schedule, Die;
    DieShape(k, slot);
    ZombieIdle(Die(k, slot).procs[slot]);
    WaitersStay(Die(k, slot), slot);
  }

  lemma EndsIdle(k: Kernel)
    requires Shape(k) && Pick(k, 1) == MAX_PROCESSES
    ensures Ends(k, Result(k, []))
  {
    hide Pick;
  }

  lemma EndsSurvived(k: Kernel)
    requires Shape(k) && Pick(k, 1) < MAX_PROCESSES && !Kills(k)
    requires Shape(Enter(k, Pick(k, 1))) && Shape(Taken(Enter(k, Pick(k, 1))))
    ensures Shape(Switch(Taken(Enter(k, Pick(k, 1)))))
    ensures Ends(k, Result(Switch(Taken(Enter(k, Pick(k, 1)))), []))
  {
    hide Pick, Enter, Taken, Switch, TakeAll;
    var e := Enter(k, Pick(k, 1));
    EnterShape(k, Pick(k, 1));
    TakenShape(e);
    SwitchKeeps(Taken(e));
  }

  lemma EndsNested(k: Kernel, r: Result)
    requires Shape(k) && Shape(r.k) && Pick(k, 1) < MAX_PROCESSES
    requires Shape(Killed(k)) && Killed(k).current == Ahead(k, Pick(k, 1))
    requires Ahead(k, Pick(k, 1)) in RunSet(k.procs)
    requires RunSet(Killed(k).procs) == RunSet(k.procs) - {Ahead(k, Pick(k, 1))}
    requires Ends(Killed(k), r) && Elements(r.dead) <= RunSet(Killed(k).procs)
    ensures Shape(Switch(r.k)) && Ends(k, Result(Switch(r.k), [Ahead(k, Pick(k, 1))] + r.dead))
  {
    hide Pick, Killed, Switch, Ahead;
    var j := Ahead(k, Pick(k, 1));
    var k2 := Killed(k);
    KilledKeeps(k);
    SwitchKeeps(r.k);
    ElementsCons(j, r.dead);
    if Pick(k2, 1) == MAX_PROCESSES {
      assert RunSet(k2.procs) == {} by {
        if i :| i in RunSet(k2.procs) {
          PickCovers(k2, i);
        }
      }
      assert RunSet(k.procs) == {j} by {
        assert forall x :: x in RunSet(k.procs) ==> x == j || x in RunSet(k2.procs);
      }
    }
  }

  // ---------- processes that survive their signals ----------

  /** Whether a process is doomed does not depend on its state, its parent or its times. */
  lemma DoomedFields(p: Process, q: Process)
    requires |p.handlers| == MAX_SIGNALS
    requires q == p.(state := q.state, parent := q.parent, cpuTime := q.cpuTime, sleepUntil := q.sleepUntil)
    ensures Doomed(q) == Doomed(p)
  {
    TakeClears(p, 1);
    TakeClears(q, 1);
    SameLowest(p, q, 1);
  }

  lemma {:induction false} SameLowest(p: Process, q: Process, signum: nat)
    requires |p.handlers| == MAX_SIGNALS && signum <= MAX_SIGNALS
    requires q.handlers == p.handlers && q.pending == p.pending && q.blocked == p.blocked
    ensures Lowest(q, signum) == Lowest(p, signum)
    decreases MAX_SIGNALS - signum
  {
    if signum < MAX_SIGNALS {
      SameLowest(p, q, signum + 1);
    }
  }

  /** The exit of one process dooms no other. */
  lemma DieDoomsNobody(k: Kernel, slot: nat, q: nat)
    requires Shape(k) && slot < MAX_PROCESSES && q < MAX_PROCESSES && q != slot && !Doomed(k.procs[q])
    ensures Shape(Die(k, slot)) && !Doomed(Die(k, slot).procs[q])
  {
    DieShape(k, slot);
    var t1 := Notify(k.procs, k.procs[slot].parent);
    if t1[q] != k.procs[q] && Doomed(t1[q]) {
      ChildSignalDoomsNobody(k.procs[q]);
    }
    DoomedFields(t1[q], Die(k, slot).procs[q]);
  }

  lemma KilledDoomsNobody(k: Kernel, q: nat)
    requires Shape(k) && Kills(k) && q in RunSet(k.procs) && !Doomed(k.procs[q])
    ensures q != Ahead(k, Pick(k, 1)) && Shape(Killed(k)) && !Doomed(Killed(k).procs[q])
  {
    hide Pick, Taken, Die, TakeAll, Doomed;
    EnterShape(k, Pick(k, 1));
    var e := Enter(k, Pick(k, 1));
    DoomedFields(k.procs[e.current], e.procs[e.current]);
    TakenShape(e);
    TakenElsewhere(e, q);
    DieDoomsNobody(Taken(e), e.current, q);
  }

  lemma TakenElsewhere(k: Kernel, q: nat)
    requires Shape(k) && q < MAX_PROCESSES && q != k.current
    ensures Taken(k).procs[q] == k.procs[q]
  {
  }

  lemma {:induction false} SurvivorsLive(k: Kernel, q: nat)
    requires Shape(k) && q in RunSet(k.procs) && !Doomed(k.procs[q])
    ensures q !in Elements(Schedule(k).dead)
    decreases |RunSet(k.procs)|
  {
    hide Schedule, Killed, Shape, Pick, Kills, Ahead, Doomed, RunSet;
    Unfold(k);
    if Pick(k, 1) < MAX_PROCESSES && Kills(k) {
      SmallerSet(RunSet(k.procs), Ahead(k, Pick(k, 1)));
      KilledDoomsNobody(k, q);
      SurvivorsLive(Killed(k), q);
      ElementsCons(Ahead(k, Pick(k, 1)), Schedule(Killed(k)).dead);
    }
  }

  /**
   * If some runnable process would survive its own pending signals, then after a call of schedule the current
   * process is runnable, and every process that was a zombie or exited during the call is a zombie.
   */
  lemma SurvivorRuns(k: Kernel, q: nat)
    requires Shape(k) && q in RunSet(k.procs) && !Doomed(k.procs[q])
    ensures var r := Schedule(k);
            && Runnable(r.k.procs[r.k.current])
            && (forall i :: i in Elements(r.dead) && i < MAX_PROCESSES ==> r.k.procs[i].state == Zombie)
            && (forall i :: 0 <= i < MAX_PROCESSES && k.procs[i].state == Zombie ==> r.k.procs[i].state == Zombie)
  {
    hide Schedule, Pick, Doomed;
    SurvivorsLive(k, q);
    ScheduleEnds(k);
    if Pick(k, 1) == MAX_PROCESSES && q != k.current {
      PickCovers(k, q);
    }
    NestingBound(k);
  }

  lemma PickIdle(k: Kernel)
    requires Shape(k) && RunSet(k.procs) == {}
    ensures Pick(k, 1) == MAX_PROCESSES
  {
    assert Pick(k, 1) < MAX_PROCESSES ==> Ahead(k, Pick(k, 1)) in RunSet(k.procs);
  }

  /** The other case does occur: a doomed process with no other to run exits and is then set back to RUNNING. */
  lemma LoneVictimIsRevived(k: Kernel, q: nat)
    requires Shape(k) && RunSet(k.procs) == {q} && q != k.current && Doomed(k.procs[q])
    ensures var r := Schedule(k);
            r.dead == [q] && r.k.current == q && r.k.procs[q].state == Running
  {
    hide Schedule, Pick, Doomed, Killed, Ends;
    PickCovers(k, q);
    Unfold(k);
    assert Ahead(k, Pick(k, 1)) == q;
    EnterShape(k, Pick(k, 1));
    DoomedFields(k.procs[q], Enter(k, Pick(k, 1)).procs[q]);
    var k2 := Killed(k);
    assert RunSet(k2.procs) == {};
    PickIdle(k2);
    Unfold(k2);
    SwitchKeeps(k2);
  }
}
