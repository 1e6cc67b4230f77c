/**
 * What the exits in one call leave in the other processes: SIGCHLD at the parents, and process 1 as the parent of the
 * orphans, at whatever depth of the nested calls they happen.
 */
module Exits {
  import opened Processes
  import opened Scheduling
  import opened Sequences

  // ---------- one exit, up to its call of schedule ----------

  /**
   * The parent of an exiting process, if there is one, has SIGCHLD pending exactly if it had before or does not block
   * it, and no other pending signal changes anywhere. The children, and no others, get process 1 as their parent.
   */
  lemma DieTells(k: Kernel, slot: nat, i: nat)
    requires Shape(k) && slot < MAX_PROCESSES && i < MAX_PROCESSES
    ensures var p, q, dying := k.procs[i], Die(k, slot).procs[i], k.procs[slot];
            && q == p.(state := q.state, parent := q.parent, pending := q.pending)
            && q.state == (if i == slot then Zombie else p.state)
            && q.parent == (if p.pid != 0 && p.parent == dying.pid then 1 else p.parent)
            && (SIGCHLD in q.pending <==>
                  SIGCHLD in p.pending || (p.pid != 0 && p.pid == dying.parent && SIGCHLD !in p.blocked))
            && forall x :: x != SIGCHLD ==> (x in q.pending <==> x in p.pending)
  {
    assert ShapeAt(k.procs[i], i);
    var parent := k.procs[slot].parent;
    var j := Find(k.procs, parent);
    if j < MAX_PROCESSES {
      assert ShapeAt(k.procs[j], j);
    }
    hide Find;
  }

  // ---------- all exits of a call ----------

  /** The slots of `dead` are used slots of the table. */
  ghost predicate UsedSlots(t: Table, dead: seq<nat>) {
    forall n :: 0 <= n < |dead| ==> dead[n] < |t| && t[dead[n]].pid != 0
  }

  /** One of the processes that exit has this pid. */
  ghost predicate Exits(t: Table, dead: seq<nat>, pid: nat)
    requires UsedSlots(t, dead)
  {
    exists n :: 0 <= n < |dead| && t[dead[n]].pid == pid
  }

  /** The parent of a process after these exits: process 1 if its parent is among them. */
  ghost function Guardian(t: Table, dead: seq<nat>, i: nat): nat
    requires UsedSlots(t, dead) && i < |t|
  {
    if t[i].pid != 0 && Exits(t, dead, t[i].parent) then 1 else t[i].parent
  }

  /** The process in slot `i` is the parent of process `n` of those that exit, at the time when that one exits. */
  ghost predicate ParentThen(t: Table, dead: seq<nat>, n: nat, i: nat)
    requires UsedSlots(t, dead) && n < |dead| && i < |t|
  {
    Guardian(t, dead[..n], dead[n]) == t[i].pid
  }

  /** It is the parent of one of them. */
  ghost predicate Bereft(t: Table, dead: seq<nat>, i: nat)
    requires UsedSlots(t, dead) && i < |t|
  {
    exists n :: 0 <= n < |dead| && ParentThen(t, dead, n, i)
  }

  /** A process after the exits of others, in this order. */
  ghost function Left(t: Table, dead: seq<nat>, i: nat): Process
    requires UsedSlots(t, dead) && i < |t|
  {
    var p := t[i];
    p.(parent := Guardian(t, dead, i),
       pending := if p.pid != 0 && SIGCHLD !in p.blocked && Bereft(t, dead, i) then p.pending + {SIGCHLD}
                  else p.pending)
  }

  lemma LeftByNone(t: Table, i: nat)
    requires i < |t|
    ensures Left(t, [], i) == t[i]
  {
  }

  /** The first to exit has the parent it had. */
  lemma FirstParent(t: Table, dead: seq<nat>, i: nat)
    requires UsedSlots(t, dead) && dead != [] && i < |t|
    ensures ParentThen(t, dead, 0, i) <==> t[dead[0]].parent == t[i].pid
  {
    assert dead[..0] == [];
  }

  lemma LeftByOne(k: Kernel, slot: nat, i: nat)
    requires Shape(k) && slot < MAX_PROCESSES && i < MAX_PROCESSES && i != slot && k.procs[slot].pid != 0
    ensures UsedSlots(k.procs, [slot]) && Die(k, slot).procs[i] == Left(k.procs, [slot], i)
  {
    DieTells(k, slot, i);
    var p, q := k.procs[i], Die(k, slot).procs[i];
    hide Die;
    FirstParent(k.procs, [slot], i);
    assert Bereft(k.procs, [slot], i) <==> ParentThen(k.procs, [slot], 0, i);
    assert Exits(k.procs, [slot], p.parent) <==> k.procs[slot].pid == p.parent by {
      assert [slot][0] == slot;
    }
    assert q.pending == Left(k.procs, [slot], i).pending;
  }

  // ---------- exits one after the other ----------

  /** `u` is the table after the exit of the process in slot `j`, at slot `i` and at those of `rest`. */
  ghost predicate AfterExit(t: Table, u: Table, j: nat, rest: seq<nat>, i: nat) {
    && |u| == |t| && j < |t| && t[j].pid != 0 && UsedSlots(t, rest)
    && i < |t| && u[i] == Left(t, [j], i)
    && forall n :: 0 <= n < |rest| ==> u[rest[n]] == Left(t, [j], rest[n])
  }

  lemma ExitsCons(t: Table, j: nat, rest: seq<nat>, pid: nat)
    requires j < |t| && t[j].pid != 0 && UsedSlots(t, rest)
    ensures UsedSlots(t, [j] + rest)
    ensures Exits(t, [j] + rest, pid) <==> t[j].pid == pid || Exits(t, rest, pid)
  {
    var all := [j] + rest;
    assert all[0] == j && forall n :: 0 <= n < |rest| ==> all[n + 1] == rest[n];
    if n :| 0 <= n < |rest| && t[rest[n]].pid == pid {
      assert t[all[n + 1]].pid == pid;
    }
  }

  lemma LeftPid(t: Table, j: nat, i: nat)
    requires j < |t| && t[j].pid != 0 && i < |t|
    ensures UsedSlots(t, [j]) && Left(t, [j], i).pid == t[i].pid
  {
    hide Guardian, Bereft;
  }

  lemma GuardianTwice(t: Table, u: Table, j: nat, rest: seq<nat>, i: nat)
    requires AfterExit(t, u, j, rest, i)
    ensures UsedSlots(u, rest) && UsedSlots(t, [j] + rest)
    ensures Guardian(u, rest, i) == Guardian(t, [j] + rest, i)
  {
    GuardianAfter(t, u, j, rest, i);
  }

  lemma GuardianAfter(t: Table, u: Table, j: nat, rest: seq<nat>, i: nat)
    requires |u| == |t| && j < |t| && t[j].pid != 0 && UsedSlots(t, rest) && i < |t|
    requires u[i].pid == t[i].pid && u[i].parent == Guardian(t, [j], i)
    requires forall n :: 0 <= n < |rest| ==> u[rest[n]].pid == t[rest[n]].pid
    ensures UsedSlots(u, rest) && UsedSlots(t, [j] + rest)
    ensures Guardian(u, rest, i) == Guardian(t, [j] + rest, i)
  {
    ExitsCons(t, j, rest, t[i].parent);
    ExitsCons(t, j, [], t[i].parent);
    assert [j] + [] == [j];
    assert Exits(u, rest, t[i].parent) <==> Exits(t, rest, t[i].parent);
  }

  lemma ParentTwice(t: Table, u: Table, j: nat, rest: seq<nat>, i: nat, n: nat)
    requires AfterExit(t, u, j, rest, i) && n < |rest|
    ensures UsedSlots(u, rest) && UsedSlots(t, [j] + rest)
    ensures ParentThen(u, rest, n, i) <==> ParentThen(t, [j] + rest, n + 1, i)
  {
    GuardianTwice(t, u, j, rest, i);
    LeftPid(t, j, i);
    hide Guardian, Left;
    assert ([j] + rest)[..n + 1] == [j] + rest[..n];
    assert AfterExit(t, u, j, rest[..n], rest[n]);
    GuardianTwice(t, u, j, rest[..n], rest[n]);
  }

  lemma BereftTwice(t: Table, u: Table, j: nat, rest: seq<nat>, i: nat)
    requires AfterExit(t, u, j, rest, i)
    ensures UsedSlots(u, rest) && UsedSlots(t, [j] + rest) && UsedSlots(t, [j])
    ensures Bereft(t, [j] + rest, i) <==> Bereft(t, [j], i) || Bereft(u, rest, i)
  {
    GuardianTwice(t, u, j, rest, i);
    FirstParent(t, [j] + rest, i);
    FirstParent(t, [j], i);
    forall n | 0 <= n < |rest| ensures ParentThen(u, rest, n, i) <==> ParentThen(t, [j] + rest, n + 1, i) {
      ParentTwice(t, u, j, rest, i, n);
    }
    hide AfterExit, UsedSlots, ParentThen;
    if n :| 0 <= n < |rest| && ParentThen(u, rest, n, i) {
      assert ParentThen(t, [j] + rest, n + 1, i);
    }
    if n :| 0 <= n < |[j] + rest| && ParentThen(t, [j] + rest, n, i) && n > 0 {
      assert ParentThen(u, rest, n - 1, i);
    }
  }

  lemma LeftTwice(t: Table, u: Table, j: nat, rest: seq<nat>, i: nat)
    requires AfterExit(t, u, j, rest, i)
    ensures UsedSlots(u, rest) && UsedSlots(t, [j] + rest) && Left(u, rest, i) == Left(t, [j] + rest, i)
  {
    GuardianTwice(t, u, j, rest, i);
    BereftTwice(t, u, j, rest, i);
    hide Guardian, Bereft, Exits;
  }

  // ---------- a call of schedule with the exits nested in it ----------

  /** The process runs in no nested call: it neither exits nor is current at the end. */
  ghost predicate StandsBy(k: Kernel, i: nat)
    requires Shape(k)
  {
    i !in Elements(Schedule(k).dead) && (Pick(k, 1) < MAX_PROCESSES ==> i != Schedule(k).k.current)
  }

  lemma KilledLeaves(k: Kernel, i: nat)
    requires Shape(k) && Pick(k, 1) < MAX_PROCESSES && i < MAX_PROCESSES && i != Ahead(k, Pick(k, 1))
    ensures var j := Ahead(k, Pick(k, 1));
            UsedSlots(k.procs, [j]) && |Killed(k).procs| == MAX_PROCESSES
            && Killed(k).procs[i] == Left(k.procs, [j], i)
  {
    hide Pick, TakeAll, Die, Left;
    var e := Enter(k, Pick(k, 1));
    EnterShape(k, Pick(k, 1));
    TakenShape(e);
    DieShape(Taken(e), e.current);
    LeftByOne(Taken(e), e.current, i);
    SameLeft(k.procs, Taken(e).procs, e.current, i);
  }

  /** Other fields of the exiting process do not matter. */
  lemma SameLeft(t: Table, u: Table, j: nat, i: nat)
    requires |t| == |u| && j < |t| && i < |t| && t[i] == u[i] && t[j].pid == u[j].pid != 0 && t[j].parent == u[j].parent
    ensures UsedSlots(t, [j]) && UsedSlots(u, [j]) && Left(t, [j], i) == Left(u, [j], i)
  {
    FirstParent(t, [j], i);
    FirstParent(u, [j], i);
    hide ParentThen;
    assert forall pid :: Exits(t, [j], pid) <==> Exits(u, [j], pid);
    assert Bereft(t, [j], i) <==> Bereft(u, [j], i);
  }

  lemma DeadAreUsed(k: Kernel)
    requires Shape(k)
    ensures UsedSlots(k.procs, Schedule(k).dead)
  {
    hide Schedule;
    NestingBound(k);
    var dead := Schedule(k).dead;
    assert forall n :: 0 <= n < |dead| ==> dead[n] in Elements(dead);
  }

  /**
   * A process that runs in no nested call is afterwards what the exits have left of it, and nothing else has changed in
   * it: SIGCHLD is pending if one of its children exited and it does not block the signal, and its parent is process 1
   * if its parent exited.
   */
  lemma {:induction false} BystandersLeft(k: Kernel, i: nat)
    requires Shape(k) && i < MAX_PROCESSES && StandsBy(k, i)
    ensures UsedSlots(k.procs, Schedule(k).dead)
    ensures Schedule(k).k.procs[i] == Left(k.procs, Schedule(k).dead, i)
    decreases |RunSet(k.procs)|
  {
    hide Schedule, Killed, Shape, Pick, Kills, Ahead, RunSet, Left, Enter, Taken, Switch;
    DeadAreUsed(k);
    Unfold(k);
    if Pick(k, 1) == MAX_PROCESSES || !Kills(k) {
      Untouched(k, i);
    } else {
      var j, rest := Ahead(k, Pick(k, 1)), Schedule(Killed(k)).dead;
      SmallerSet(RunSet(k.procs), j);
      NestedStandsBy(k, i);
      BystandersLeft(Killed(k), i);
      KilledIsAfterExit(k, i);
      LeftTwice(k.procs, Killed(k).procs, j, rest, i);
      SwitchKeeps(Schedule(Killed(k)).k);
    }
  }

  /** Without a nested exit only the process that is made current changes. */
  lemma Untouched(k: Kernel, i: nat)
    requires Shape(k) && i < MAX_PROCESSES && StandsBy(k, i) && (Pick(k, 1) == MAX_PROCESSES || !Kills(k))
    ensures Schedule(k).dead == [] && i < |k.procs| && Schedule(k).k.procs[i] == Left(k.procs, [], i)
  {
    hide Schedule, Pick, Kills, TakeAll;
    Unfold(k);
    LeftByNone(k.procs, i);
    hide Left;
    if Pick(k, 1) < MAX_PROCESSES {
      var e := Enter(k, Pick(k, 1));
      TakenShape(e);
      SwitchKeeps(Taken(e));
    }
  }

  lemma NestedStandsBy(k: Kernel, i: nat)
    requires Shape(k) && i < MAX_PROCESSES && StandsBy(k, i) && Pick(k, 1) < MAX_PROCESSES && Kills(k)
    ensures Shape(Killed(k)) && i != Ahead(k, Pick(k, 1)) && StandsBy(Killed(k), i)
    ensures i != Schedule(Killed(k)).k.current
  {
    hide Schedule, Killed, Pick, Kills, RunSet, Ahead, Enter, Taken, Switch;
    Unfold(k);
    ElementsCons(Ahead(k, Pick(k, 1)), Schedule(Killed(k)).dead);
    SwitchKeeps(Schedule(Killed(k)).k);
  }

  lemma KilledIsAfterExit(k: Kernel, i: nat)
    requires Shape(k) && Pick(k, 1) < MAX_PROCESSES && Kills(k) && Shape(Killed(k))
    requires i < MAX_PROCESSES && i != Ahead(k, Pick(k, 1))
    ensures AfterExit(k.procs, Killed(k).procs, Ahead(k, Pick(k, 1)), Schedule(Killed(k)).dead, i)
  {
    hide Schedule, Killed, Pick, Kills, Ahead, Left, Enter, Taken, Switch;
    var j, rest := Ahead(k, Pick(k, 1)), Schedule(Killed(k)).dead;
    Unfold(k);
    NestingBound(Killed(k));
    KilledLeaves(k, i);
    forall n | 0 <= n < |rest| ensures rest[n] < MAX_PROCESSES && k.procs[rest[n]].pid != 0
                                       && Killed(k).procs[rest[n]] == Left(k.procs, [j], rest[n])
    {
      assert rest[n] in Elements(rest);
      KilledLeaves(k, rest[n]);
    }
  }

  /** The parent of every process after a call of schedule, whether it runs, exits or stands by. */
  lemma {:induction false} OrphansAdopted(k: Kernel, i: nat)
    requires Shape(k) && i < MAX_PROCESSES
    ensures |k.procs| == |Schedule(k).k.procs| == MAX_PROCESSES && UsedSlots(k.procs, Schedule(k).dead)
    ensures Schedule(k).k.procs[i].parent == Guardian(k.procs, Schedule(k).dead, i)
    decreases |RunSet(k.procs)|
  {
    ShapeSizes(k);
    hide Schedule, Killed, Shape, Pick, Kills, Ahead, RunSet, Guardian, Enter, Taken, Switch;
    DeadAreUsed(k);
    Unfold(k);
    if Pick(k, 1) == MAX_PROCESSES || !Kills(k) {
      NoneAdopted(k, i);
    } else {
      var j, rest := Ahead(k, Pick(k, 1)), Schedule(Killed(k)).dead;
      SmallerSet(RunSet(k.procs), j);
      OrphansAdopted(Killed(k), i);
      KilledAdopts(k, i);
      GuardianAfter(k.procs, Killed(k).procs, j, rest, i);
      SwitchParents(Schedule(Killed(k)).k, i);
    }
  }

  lemma ShapeSizes(k: Kernel)
    requires Shape(k)
    ensures |k.procs| == |Schedule(k).k.procs| == MAX_PROCESSES
  {
    hide Schedule;
  }

  lemma SwitchParents(k: Kernel, i: nat)
    requires Shape(k) && i < MAX_PROCESSES
    ensures |Switch(k).procs| == |k.procs| == MAX_PROCESSES && Switch(k).procs[i].parent == k.procs[i].parent
  {
  }

  lemma NoneAdopted(k: Kernel, i: nat)
    requires Shape(k) && i < MAX_PROCESSES && (Pick(k, 1) == MAX_PROCESSES || !Kills(k))
    ensures |k.procs| == |Schedule(k).k.procs| == MAX_PROCESSES && Schedule(k).dead == []
    ensures Schedule(k).k.procs[i].parent == Guardian(k.procs, [], i)
  {
    hide Schedule, Pick, Kills, TakeAll;
    Unfold(k);
    if Pick(k, 1) < MAX_PROCESSES {
      TakenShape(Enter(k, Pick(k, 1)));
    }
  }

  lemma KilledAdopts(k: Kernel, i: nat)
    requires Shape(k) && Pick(k, 1) < MAX_PROCESSES && Kills(k) && i < MAX_PROCESSES && Shape(Killed(k))
    ensures var j, u := Ahead(k, Pick(k, 1)), Killed(k).procs;
            && |k.procs| == |u| == MAX_PROCESSES && k.procs[j].pid != 0
            && u[i].pid == k.procs[i].pid && u[i].parent == Guardian(k.procs, [j], i)
            && forall n :: 0 <= n < |Schedule(Killed(k)).dead| ==>
                 Schedule(Killed(k)).dead[n] < MAX_PROCESSES
                 && u[Schedule(Killed(k)).dead[n]].pid == k.procs[Schedule(Killed(k)).dead[n]].pid
                 && k.procs[Schedule(Killed(k)).dead[n]].pid != 0
  {
    hide Schedule, Pick, Kills, TakeAll, Die, Killed, Guardian;
    var j := Ahead(k, Pick(k, 1));
    Unfold(k);
    KilledKeeps(k);
    DeadAreUsed(Killed(k));
    KilledParents(k, i);
  }

  lemma KilledParents(k: Kernel, i: nat)
    requires Shape(k) && Pick(k, 1) < MAX_PROCESSES && i < MAX_PROCESSES
    ensures var j := Ahead(k, Pick(k, 1));
            && UsedSlots(k.procs, [j]) && |Killed(k).procs| == MAX_PROCESSES
            && Killed(k).procs[i].parent == Guardian(k.procs, [j], i)
  {
    hide Pick, TakeAll, Die;
    var e := Enter(k, Pick(k, 1));
    EnterShape(k, Pick(k, 1));
    TakenShape(e);
    DieShape(Taken(e), e.current);
    DieTells(Taken(e), e.current, i);
    var j := Ahead(k, Pick(k, 1));
    ExitsCons(k.procs, j, [], k.procs[i].parent);
    assert [j] + [] == [j];
  }

  // ---------- exit_process, and who hears of it ----------

  /** A process that is not runnable stands by whatever happens in the call. */
  lemma WaitersStandBy(k: Kernel, i: nat)
    requires Shape(k) && i < MAX_PROCESSES && !Runnable(k.procs[i])
    ensures StandsBy(k, i)
  {
    hide Schedule, Pick;
    NestingBound(k);
    ScheduleEnds(k);
  }

  /** A process that exits in the nested calls is another one, and was left by the first exit. */
  lemma NestedExit(k: Kernel, slot: nat, n: nat)
    requires Shape(k) && slot < MAX_PROCESSES && k.procs[slot].pid != 0
    requires Shape(Die(k, slot)) && n < |Schedule(Die(k, slot)).dead|
    ensures UsedSlots(k.procs, [slot]) && |k.procs| == |Die(k, slot).procs| == MAX_PROCESSES
    ensures var x := Schedule(Die(k, slot)).dead[n];
            && x < MAX_PROCESSES && k.procs[x].pid != 0
            && Die(k, slot).procs[x] == Left(k.procs, [slot], x)
  {
    hide Schedule, Die, Left, Pick;
    DieShape(k, slot);
    NestingBound(Die(k, slot));
    var x := Schedule(Die(k, slot)).dead[n];
    assert x in Elements(Schedule(Die(k, slot)).dead);
    LeftByOne(k, slot, x);
  }

  /** What a call of schedule leaves of a process that is not runnable. */
  lemma WaiterLeft(k: Kernel, i: nat)
    requires Shape(k) && i < MAX_PROCESSES && !Runnable(k.procs[i]) && k.procs[i].pid != 0
    ensures UsedSlots(k.procs, Schedule(k).dead) && |Schedule(k).k.procs| == MAX_PROCESSES
    ensures var p, q := k.procs[i], Schedule(k).k.procs[i];
            && q == p.(parent := q.parent, pending := q.pending)
            && (SIGCHLD in q.pending <==>
                  SIGCHLD in p.pending || (SIGCHLD !in p.blocked && Bereft(k.procs, Schedule(k).dead, i)))
            && forall x :: x != SIGCHLD ==> (x in q.pending <==> x in p.pending)
  {
    ShapeSizes(k);
    hide Shape, Schedule, StandsBy, Pick, Bereft, Guardian, UsedSlots;
    WaitersStandBy(k, i);
    BystandersLeft(k, i);
  }

  /** What exit_process leaves of a process that runs in none of the calls nested in it. */
  lemma ExitLeaves(k: Kernel, slot: nat, i: nat)
    requires Shape(k) && slot < MAX_PROCESSES && k.procs[slot].pid != 0 && i < MAX_PROCESSES && i != slot
    requires Shape(Die(k, slot)) && StandsBy(Die(k, slot), i)
    ensures UsedSlots(k.procs, Exit(k, slot).dead) && |Exit(k, slot).k.procs| == |k.procs| == MAX_PROCESSES
    ensures Exit(k, slot).k.procs[i] == Left(k.procs, Exit(k, slot).dead, i)
  {
    ShapeSizes(k);
    ExitIs(k, slot);
    hide Shape, Schedule, Exit, Die, Left, StandsBy, Pick, RunSet, AfterExit, UsedSlots;
    BystandersLeft(Die(k, slot), i);
    NestedAfterExit(k, slot, i);
    LeftTwice(k.procs, Die(k, slot).procs, slot, Schedule(Die(k, slot)).dead, i);
  }

  lemma ExitIs(k: Kernel, slot: nat)
    requires Shape(k) && slot < MAX_PROCESSES
    ensures Shape(Die(k, slot)) && |Exit(k, slot).k.procs| == MAX_PROCESSES
    ensures Exit(k, slot) == Result(Schedule(Die(k, slot)).k, [slot] + Schedule(Die(k, slot)).dead)
  {
    DieShape(k, slot);
    ShapeSizes(Die(k, slot));
    hide Schedule, Die;
  }

  lemma NestedAfterExit(k: Kernel, slot: nat, i: nat)
    requires Shape(k) && slot < MAX_PROCESSES && k.procs[slot].pid != 0 && i < MAX_PROCESSES && i != slot
    requires Shape(Die(k, slot))
    ensures AfterExit(k.procs, Die(k, slot).procs, slot, Schedule(Die(k, slot)).dead, i)
  {
    hide Schedule, Die, Left, Pick, RunSet;
    var rest := Schedule(Die(k, slot)).dead;
    LeftByOne(k, slot, i);
    forall n | 0 <= n < |rest|
      ensures rest[n] < MAX_PROCESSES && k.procs[rest[n]].pid != 0
              && Die(k, slot).procs[rest[n]] == Left(k.procs, [slot], rest[n])
    {
      NestedExit(k, slot, n);
    }
  }

  /** The parent of every process when exit_process returns. */
  lemma ExitAdopts(k: Kernel, slot: nat, i: nat)
    requires Shape(k) && slot < MAX_PROCESSES && k.procs[slot].pid != 0 && i < MAX_PROCESSES
    ensures UsedSlots(k.procs, Exit(k, slot).dead) && |Exit(k, slot).k.procs| == |k.procs| == MAX_PROCESSES
    ensures Exit(k, slot).k.procs[i].parent == Guardian(k.procs, Exit(k, slot).dead, i)
  {
    ShapeSizes(k);
    DieShape(k, slot);
    var d := Die(k, slot);
    ShapeSizes(d);
    DieTells(k, slot, i);
    ExitsCons(k.procs, slot, [], k.procs[i].parent);
    assert [slot] + [] == [slot];
    assert d.procs[i].parent == Guardian(k.procs, [slot], i);
    hide Schedule, Die, Pick, Shape, Guardian;
    OrphansAdopted(d, i);
    NestingBound(d);
    var rest := Schedule(d).dead;
    forall n | 0 <= n < |rest| ensures k.procs[rest[n]].pid == d.procs[rest[n]].pid {
      assert rest[n] in Elements(rest);
    }
    GuardianAfter(k.procs, d.procs, slot, rest, i);
  }

  /**
   * When exit_process returns, a parent that is not runnable has SIGCHLD pending exactly if it had before or does not
   * block it, whatever exited in the nested calls; and no other signal has become pending or been handled.
   */
  lemma WaitingParentHears(k: Kernel, slot: nat, j: nat)
    requires Shape(k) && slot < MAX_PROCESSES && j < MAX_PROCESSES && j != slot && k.procs[slot].pid != 0
    requires k.procs[j].pid != 0 && k.procs[j].pid == k.procs[slot].parent && !Runnable(k.procs[j])
    ensures var p, q := k.procs[j], Exit(k, slot).k.procs[j];
            && q == p.(parent := q.parent, pending := q.pending)
            && (SIGCHLD in q.pending <==> SIGCHLD in p.pending || SIGCHLD !in p.blocked)
            && forall x :: x != SIGCHLD ==> (x in q.pending <==> x in p.pending)
  {
    DieShape(k, slot);
    var d := Die(k, slot);
    assert !Runnable(d.procs[j]);
    var dead := Exit(k, slot).dead;
    assert dead[0] == slot;
    hide Schedule, Die, StandsBy, Exit, Shape, ParentThen;
    WaitersStandBy(d, j);
    ExitLeaves(k, slot, j);
    FirstParent(k.procs, dead, j);
    assert ParentThen(k.procs, dead, 0, j);
  }
}
