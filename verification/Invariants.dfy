/** What holds in every state that the scheduler, signals and exits lead to. */
module Invariants {
  import opened Processes
  import opened Scheduling

  /** A slot of the table as init_processes leaves it. */
  function FreeSlot(): Process {
    Process(0, 0, Ready, 0, 0, {}, {}, seq(MAX_SIGNALS, _ => SIG_DFL), false, 0)
  }

  /** SIGKILL and SIGSTOP are never blocked and keep their default action; they and SIGCONT are never pending. */
  ghost predicate SafeSignals(p: Process) {
    && |p.handlers| == MAX_SIGNALS
    && p.blocked !! {SIGKILL, SIGSTOP}
    && p.handlers[SIGKILL] == SIG_DFL && p.handlers[SIGSTOP] == SIG_DFL
    && p.pending !! {SIGKILL, SIGSTOP, SIGCONT}
  }

  /** A slot with pid 0. Signals sent to pid 0 may have left it stopped or a zombie, or with signals pending. */
  ghost predicate FreeOk(p: Process) {
    && p == FreeSlot().(state := p.state, pending := p.pending)
    && (p.state == Ready || p.state == Zombie || p.state == Stopped)
    && p.pending !! {SIGKILL, SIGSTOP, SIGCONT}
  }

  /** A parent is older than its child; the one exception possible is process 1 as its own parent. */
  predicate ParentOk(p: Process) {
    p.parent < p.pid || p.parent == p.pid == 1
  }

  /** Slot `i` when `used` slots are in use: they form a prefix. */
  ghost predicate SlotOk(p: Process, i: nat, used: nat) {
    if i < used then
      p.pid == i + 1 && ParentOk(p) && p.exitSignal == 0 && !p.handlingSignal && SafeSignals(p)
    else FreeOk(p)
  }

  /** The parent of process 1. */
  function Eldest(t: Table): nat {
    if t == [] then 0 else t[0].parent
  }

  /** All parents are older than their children. */
  predicate Forest(k: Kernel) {
    Eldest(k.procs) == 0
  }

  function Used(k: Kernel): nat {
    if k.nextPid == 0 then 0 else k.nextPid - 1
  }

  ghost predicate Inv(k: Kernel) {
    && |k.procs| == MAX_PROCESSES && 1 <= k.nextPid <= MAX_PROCESSES + 1
    && (k.current < Used(k) || (Used(k) == 0 && k.current == 0))
    && forall i :: 0 <= i < MAX_PROCESSES ==> SlotOk(k.procs[i], i, Used(k))
  }

  lemma InvShape(k: Kernel)
    requires Inv(k)
    ensures Shape(k)
  {
    forall i | 0 <= i < MAX_PROCESSES ensures ShapeAt(k.procs[i], i) {
      assert SlotOk(k.procs[i], i, Used(k));
    }
  }

  /** A process is found in the slot before its pid, and pid 0 in the first free slot. */
  lemma {:induction false} FindAt(t: Table, n: nat, used: nat, pid: nat)
    requires forall i :: 0 <= i < |t| ==> if n + i < used then t[i].pid == n + i + 1 else t[i].pid == 0
    ensures pid > n ==> Find(t, pid) == if pid <= used && pid - n <= |t| then pid - n - 1 else |t|
    ensures pid == 0 ==> Find(t, pid) == if used < n then 0 else if used - n <= |t| then used - n else |t|
    decreases |t|
  {
    if t != [] && t[0].pid != pid {
      FindAt(t[1..], n + 1, used, pid);
    }
  }

  lemma FindProcess(k: Kernel, pid: nat)
    requires Inv(k)
    ensures pid != 0 ==> Find(k.procs, pid) == if pid <= Used(k) then pid - 1 else MAX_PROCESSES
    ensures pid == 0 ==> Find(k.procs, pid) == Used(k)
  {
    forall i | 0 <= i < MAX_PROCESSES ensures if i < Used(k) then k.procs[i].pid == i + 1 else k.procs[i].pid == 0 {
      assert SlotOk(k.procs[i], i, Used(k));
    }
    FindAt(k.procs, 0, Used(k), pid);
  }

  // ---------- the steps of schedule keep the invariant ----------

  /** Changing a used slot to a process that is fine there. */
  lemma PutKeepsInv(k: Kernel, i: nat, p: Process)
    requires Inv(k) && i < Used(k) && SlotOk(p, i, Used(k))
    ensures i < |k.procs| && Inv(k.(procs := k.procs[i := p]))
    ensures p.parent == k.procs[i].parent ==> Eldest(k.procs[i := p]) == Eldest(k.procs)
  {
  }

  /** Changing a free slot as signals to pid 0 do. */
  lemma PutFreeKeepsInv(k: Kernel, i: nat, p: Process)
    requires Inv(k) && Used(k) <= i < MAX_PROCESSES && FreeOk(p)
    ensures Inv(k.(procs := k.procs[i := p])) && Eldest(k.procs[i := p]) == Eldest(k.procs)
  {
    assert SlotOk(k.procs[i], i, Used(k));
  }

  lemma UsedSlot(k: Kernel, i: nat)
    requires Inv(k) && i < MAX_PROCESSES
    ensures SlotOk(k.procs[i], i, Used(k)) && (k.procs[i].pid != 0 <==> i < Used(k))
  {
  }

  lemma EnterInv(k: Kernel, d: nat)
    requires Inv(k) && Shape(k) && d < MAX_PROCESSES && Runnable(k.procs[Ahead(k, d)])
    ensures Inv(Enter(k, d)) && Enter(k, d).current < Used(k)
    ensures Eldest(Enter(k, d).procs) == Eldest(k.procs)
  {
    hide Inv, SafeSignals;
    var j := Ahead(k, d);
    UsedSlot(k, j);
    SafeFields(k.procs[j], k.procs[j].(state := Running));
    PutKeepsInv(k, j, k.procs[j].(state := Running));
    MoveKeepsInv(Enter(k, d).(current := k.current), j);
  }

  lemma MoveKeepsInv(k: Kernel, j: nat)
    requires Inv(k) && j < Used(k)
    ensures Inv(k.(current := j))
  {
  }

  lemma TakenInv(k: Kernel)
    requires Inv(k) && Shape(k) && k.current < Used(k)
    ensures Inv(Taken(k))
    ensures Eldest(Taken(k).procs) == Eldest(k.procs)
  {
    hide Inv;
    UsedSlot(k, k.current);
    TakenShape(k);
    PutKeepsInv(k, k.current, Taken(k).procs[k.current]);
  }

  lemma SwitchInv(k: Kernel)
    requires Inv(k) && Shape(k) && k.current < Used(k)
    ensures Inv(Switch(k))
    ensures Eldest(Switch(k).procs) == Eldest(k.procs)
  {
    hide Inv, SafeSignals;
    UsedSlot(k, k.current);
    SafeFields(k.procs[k.current], Switch(k).procs[k.current]);
    PutKeepsInv(k, k.current, Switch(k).procs[k.current]);
  }

  lemma AddPendingOk(p: Process, signum: nat)
    requires SafeSignals(p) && signum !in {SIGKILL, SIGSTOP, SIGCONT}
    ensures SafeSignals(AddPending(p, signum))
  {
  }

  lemma NotifyInv(k: Kernel, parent: nat)
    requires Inv(k)
    ensures Inv(k.(procs := Notify(k.procs, parent)))
    ensures Eldest(Notify(k.procs, parent)) == Eldest(k.procs)
  {
    hide Inv, SafeSignals;
    FindProcess(k, parent);
    var j := Find(k.procs, parent);
    if parent != 0 && parent <= Used(k) {
      UsedInTable(k);
      UsedSlot(k, j);
      AddPendingOk(k.procs[j], SIGCHLD);
      PutKeepsInv(k, j, AddPending(k.procs[j], SIGCHLD));
    } else if parent != 0 {
      UsedInTable(k);
    }
  }

  lemma UsedInTable(k: Kernel)
    requires Inv(k)
    ensures |k.procs| == MAX_PROCESSES && Used(k) <= MAX_PROCESSES
  {
  }

  /** The children that process 1 adopts are younger than it, unless pid 0 had children: process 1 is one of them. */
  lemma OrphanInv(k: Kernel, pid: nat)
    requires Inv(k)
    ensures Inv(k.(procs := Orphan(k.procs, pid)))
    ensures Eldest(Orphan(k.procs, pid)) == if pid == 0 && Used(k) > 0 then 1 else Eldest(k.procs)
  {
    var t := Orphan(k.procs, pid);
    hide SafeSignals;
    forall i | 0 <= i < MAX_PROCESSES ensures SlotOk(t[i], i, Used(k)) {
      assert SlotOk(k.procs[i], i, Used(k));
      SafeFields(k.procs[i], t[i]);
    }
  }

  lemma SafeFields(p: Process, q: Process)
    requires q == p.(parent := q.parent, state := q.state, cpuTime := q.cpuTime, sleepUntil := q.sleepUntil)
    ensures SafeSignals(q) == SafeSignals(p)
  {
  }

  lemma DieInv(k: Kernel, slot: nat)
    requires Inv(k) && Shape(k) && slot < Used(k)
    ensures Inv(Die(k, slot))
    ensures Eldest(Die(k, slot).procs) == Eldest(k.procs)
  {
    hide Inv, SafeSignals, Notify, Orphan, Eldest;
    UsedInTable(k);
    UsedSlot(k, slot);
    var p := k.procs[slot];
    var k1 := k.(procs := Notify(k.procs, p.parent));
    NotifyInv(k, p.parent);
    OrphanInv(k1, p.pid);
    var k2 := k1.(procs := Orphan(k1.procs, p.pid));
    UsedSlot(k2, slot);
    SafeFields(k2.procs[slot], k2.procs[slot].(state := Zombie));
    PutKeepsInv(k2, slot, k2.procs[slot].(state := Zombie));
  }

  lemma KilledInv(k: Kernel)
    requires Inv(k) && Shape(k) && Pick(k, 1) < MAX_PROCESSES
    ensures Inv(Killed(k)) && Used(Killed(k)) == Used(k) && Killed(k).ticks == k.ticks && Killed(k).nextPid == k.nextPid
    ensures Eldest(Killed(k).procs) == Eldest(k.procs)
  {
    hide Inv, Pick, TakeAll, Eldest;
    var e := Enter(k, Pick(k, 1));
    EnterShape(k, Pick(k, 1));
    EnterInv(k, Pick(k, 1));
    TakenShape(e);
    TakenInv(e);
    DieInv(Taken(e), e.current);
  }

  /** schedule keeps the invariant, at every depth of its nested calls. */
  lemma {:induction false} ScheduleInv(k: Kernel)
    requires Inv(k)
    ensures Shape(k) && Inv(Schedule(k).k)
    ensures Schedule(k).k.nextPid == k.nextPid && Schedule(k).k.ticks == k.ticks
    ensures Eldest(Schedule(k).k.procs) == Eldest(k.procs)
    decreases |RunSet(k.procs)|
  {
    hide Inv, Schedule, Killed, Shape, Pick, Kills, Ahead, RunSet, Taken, Enter, Switch, Eldest;
    InvShape(k);
    Unfold(k);
    if Pick(k, 1) < MAX_PROCESSES {
      if Kills(k) {
        SmallerSet(RunSet(k.procs), Ahead(k, Pick(k, 1)));
        KilledInv(k);
        ScheduleInv(Killed(k));
        CurrentUsed(k);
        SwitchInv(Schedule(Killed(k)).k);
        SwitchTicks(Schedule(Killed(k)).k);
      } else {
        SurvivedInv(k);
      }
    }
  }

  lemma SurvivedInv(k: Kernel)
    requires Inv(k) && Shape(k) && Pick(k, 1) < MAX_PROCESSES
    ensures var e := Enter(k, Pick(k, 1));
            Shape(e) && Shape(Taken(e)) && Inv(Switch(Taken(e)))
            && Switch(Taken(e)).nextPid == k.nextPid && Switch(Taken(e)).ticks == k.ticks
            && Eldest(Switch(Taken(e)).procs) == Eldest(k.procs)
  {
    hide Inv, Pick, TakeAll, Shape, Eldest;
    var e := Enter(k, Pick(k, 1));
    EnterShape(k, Pick(k, 1));
    EnterInv(k, Pick(k, 1));
    TakenShape(e);
    TakenInv(e);
    SwitchInv(Taken(e));
  }

  lemma SwitchTicks(k: Kernel)
    requires Shape(k)
    ensures Switch(k).nextPid == k.nextPid && Switch(k).ticks == k.ticks
  {
  }

  /** The nested call ends on a used slot. */
  lemma CurrentUsed(k: Kernel)
    requires Inv(k) && Shape(k) && Pick(k, 1) < MAX_PROCESSES && Shape(Killed(k)) && Inv(Killed(k))
    requires Inv(Schedule(Killed(k)).k) && Schedule(Killed(k)).k.nextPid == k.nextPid
    ensures Schedule(Killed(k)).k.current < Used(Schedule(Killed(k)).k)
  {
    hide Schedule, Killed, Pick;
    assert Used(k) > 0 by { UsedSlot(k, Ahead(k, Pick(k, 1))); }
  }
}
