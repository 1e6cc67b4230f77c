/** Which calls block a process, and which make a zombie something else. */
module CallStates {
  import opened Processes
  import opened Scheduling
  import opened Invariants
  import opened Calls

  /** The state is not newly BLOCKED, and a zombie stays a zombie. */
  predicate Tame(before: State, after: State) {
    (after == Blocked ==> before == Blocked) && (before == Zombie ==> after == Zombie)
  }

  ghost predicate TameAt(k: Kernel, r: Kernel, i: nat) {
    i < |k.procs| && i < |r.procs| && Tame(k.procs[i].state, r.procs[i].state)
  }

  /** The call sets the state of slot `i` whatever it was: by SIGSTOP, by waiting, or by making a process in it. */
  predicate Sets(k: Kernel, c: Call, i: nat)
    requires k.current < |k.procs|
  {
    match c
    case Kill(pid, signum) => signum == SIGSTOP && i == Find(k.procs, pid)
    case Suspend(_) => i == k.current && HasCurrent(k)
    case Sleep(_) => i == k.current && HasCurrent(k)
    case Wait => i == k.current && HasCurrent(k)
    case Spawn => i == Find(k.procs, 0)
    case Fork => i == Find(k.procs, 0) && HasCurrent(k)
    case _ => false
  }

  /** The state that it sets. */
  function StateSet(c: Call): State {
    match c
    case Kill(_, _) => Stopped
    case Sleep(_) => Sleeping
    case Suspend(_) => Blocked
    case Wait => Blocked
    case _ => Ready
  }

  lemma ScheduleTame(k: Kernel, i: nat)
    requires Shape(k) && i < MAX_PROCESSES
    ensures TameAt(k, Schedule(k).k, i)
  {
    hide Schedule;
    ScheduleBlocksNobody(k, i);
    if k.procs[i].state == Zombie {
      WaitersStay(k, i);
    }
  }

  lemma ExitTame(k: Kernel, slot: nat, i: nat)
    requires Shape(k) && slot < MAX_PROCESSES && i < MAX_PROCESSES
    ensures TameAt(k, Exit(k, slot).k, i)
  {
    hide Schedule, Die, RunSet;
    DieShape(k, slot);
    ScheduleTame(Die(k, slot), i);
  }

  lemma DeliverTame(k: Kernel, i: nat)
    requires Shape(k) && i < MAX_PROCESSES
    ensures TameAt(k, Deliver(k).k, i)
  {
    hide Exit, RunSet, Taken, Doomed;
    TakenShape(k);
    if Doomed(k.procs[k.current]) {
      ExitTame(Taken(k), k.current, i);
    }
  }

  /** A slot whose state is set before schedule has that state afterwards; the other slots are tame. */
  lemma SetAndSchedule(k: Kernel, slot: nat, s: State, i: nat)
    requires Shape(k) && slot < MAX_PROCESSES && i < MAX_PROCESSES && s != Ready && s != Running
    ensures Shape(SetState(k, slot, s))
    ensures var r := Schedule(SetState(k, slot, s)).k;
            |r.procs| == MAX_PROCESSES && if i == slot then r.procs[i].state == s else TameAt(k, r, i)
  {
    ShapeSize(k);
    hide Schedule, Shape;
    StateShape(k, slot, s);
    ScheduleTame(SetState(k, slot, s), i);
    WaitersStay(SetState(k, slot, s), slot);
  }

  // ---------- the calls ----------

  lemma KillStates(k: Kernel, pid: nat, signum: int, i: nat)
    requires Shape(k) && i < MAX_PROCESSES
    ensures var r := KillPid(k, pid, signum);
            |r.procs| == MAX_PROCESSES
            && if signum == SIGSTOP && i == Find(k.procs, pid) then r.procs[i].state == Stopped else TameAt(k, r, i)
  {
    hide Exit, Schedule, Shape, Find;
    assert |k.procs| == MAX_PROCESSES by { ShapeSize(k); }
    var j := Find(k.procs, pid);
    if j < MAX_PROCESSES && 0 < signum < MAX_SIGNALS {
      assert k.procs[j].pid == pid;
      if signum == SIGKILL {
        ExitTame(k, j, i);
        ShapeSize(Exit(k, j).k);
      } else if signum == SIGSTOP {
        SetAndSchedule(k, j, Stopped, i);
      }
    }
  }

  lemma ShapeSize(k: Kernel)
    requires Shape(k)
    ensures |k.procs| == MAX_PROCESSES && k.current < MAX_PROCESSES
  {
  }

  lemma WaitStates(k: Kernel, c: Call, i: nat)
    requires Shape(k) && i < MAX_PROCESSES && HasCurrent(k) && (c.Suspend? || c.Sleep? || c.Wait?)
    ensures var r := if c.Suspend? then SuspendCurrent(k, c.temporary)
                     else if c.Sleep? then SleepCurrent(k, c.until) else BlockAndSchedule(k);
            |r.procs| == MAX_PROCESSES
            && if i == k.current then r.procs[i].state == StateSet(c) else TameAt(k, r, i)
  {
    hide Schedule, Shape;
    ShapeSize(k);
    match c
    case Suspend(mask) =>
      MaskShape(k, k.current, mask - {SIGKILL, SIGSTOP});
      SetAndSchedule(PutMask(k, k.current, mask - {SIGKILL, SIGSTOP}), k.current, Blocked, i);
    case Sleep(until) =>
      SleepShape(k, until);
      var sleeper := k.procs[k.current].(sleepUntil := until);
      SetAndSchedule(k.(procs := k.procs[k.current := sleeper]), k.current, Sleeping, i);
    case Wait =>
      SetAndSchedule(k, k.current, Blocked, i);
  }

  lemma CreateStates(k: Kernel, parent: nat, i: nat)
    requires i < |k.procs|
    ensures var r := Create(k, parent).0;
            |r.procs| == |k.procs| && r.procs[i].state == if i == Find(k.procs, 0) then Ready else k.procs[i].state
  {
  }

  lemma ForkStates(k: Kernel, i: nat)
    requires i < |k.procs| && k.current < |k.procs| && HasCurrent(k)
    ensures var r := ForkCurrent(k).0;
            |r.procs| == |k.procs| && r.procs[i].state == if i == Find(k.procs, 0) then Ready else k.procs[i].state
  {
    CreateStates(k, k.procs[k.current].pid, i);
    hide Create, Find;
  }

  lemma TickStates(k: Kernel, reschedule: bool, i: nat)
    requires Inv(k) && i < MAX_PROCESSES
    ensures TameAt(k, TickOnce(k, reschedule), i)
  {
    hide Inv, Schedule, Wake;
    UsedInTable(k);
    WakeFrom(k, k.ticks + 1, 0);
    WakeInv(k);
    var k1 := k.(ticks := k.ticks + 1, procs := Wake(k.procs, k.ticks + 1, 0));
    if reschedule {
      InvShape(k1);
      ScheduleTame(k1, i);
    }
  }

  lemma UnblockStates(k: Kernel, pid: nat, i: nat)
    requires i < |k.procs|
    ensures TameAt(k, UnblockPid(k, pid), i)
  {
    hide Find;
  }

  lemma FieldStates(k: Kernel, c: Call, i: nat)
    requires Inv(k) && i < MAX_PROCESSES && (c.SetHandler? || c.ChangeMask?)
    ensures TameAt(k, After(k, c), i)
  {
    UsedInTable(k);
    CurrentInTable(k);
    hide Inv, Shape, NewMask;
  }

  /** A call that sets the state of a slot has set it when it returns; every other slot is tame. */
  lemma StatesAfter(k: Kernel, c: Call, i: nat)
    requires Inv(k) && i < MAX_PROCESSES
    ensures k.current < |k.procs| && i < |k.procs| && i < |After(k, c).procs|
    ensures if Sets(k, c, i) then After(k, c).procs[i].state == StateSet(c) else TameAt(k, After(k, c), i)
  {
    hide Inv, Shape, Schedule, Exit, Deliver, KillPid, SuspendCurrent, SleepCurrent, BlockAndSchedule, TickOnce,
         ForkCurrent, Create, PutHandler, UnblockPid, PutMask, Find;
    InvShape(k);
    UsedInTable(k);
    CurrentInTable(k);
    match c
    case Spawn => CreateStates(k, 0, i);
    case Fork => if HasCurrent(k) { ForkStates(k, i); } else { NobodyForks(k); }
    case ExitSelf => if HasCurrent(k) { ExitSelfStates(k, i); }
    case Kill(pid, signum) => KillStates(k, pid, signum, i);
    case SetHandler(_, _) => FieldStates(k, c, i);
    case ChangeMask(_, _) => FieldStates(k, c, i);
    case Suspend(mask) => if HasCurrent(k) { WaitStates(k, c, i); } else { SuspendNobody(k, mask); }
    case Sleep(until) => if HasCurrent(k) { WaitStates(k, c, i); } else { SuspendNobody(k, {}); }
    case Wait => if HasCurrent(k) { WaitStates(k, c, i); }
    case Unblock(pid) => UnblockStates(k, pid, i);
    case Tick(reschedule) => TickStates(k, reschedule, i);
    case Yield => ScheduleTame(k, i);
    case HandleSignals => if HasCurrent(k) { DeliverTame(k, i); }
  }

  lemma NobodyForks(k: Kernel)
    requires k.current < |k.procs| && !HasCurrent(k)
    ensures ForkCurrent(k).0 == k
  {
  }

  lemma ExitSelfStates(k: Kernel, i: nat)
    requires Shape(k) && i < MAX_PROCESSES
    ensures Shape(Exit(k, k.current).k) && TameAt(k, Schedule(Exit(k, k.current).k).k, i)
  {
    ShapeSize(k);
    hide Shape, Exit, Schedule;
    ExitTame(k, k.current, i);
    ScheduleTame(Exit(k, k.current).k, i);
  }

  // ---------- what follows ----------

  /** No call blocks a process other than its caller, and that one only by waiting for a signal or an event. */
  lemma CallsBlockOnlyTheirCaller(k: Kernel, c: Call, i: nat)
    requires Inv(k) && i < MAX_PROCESSES
    ensures i < |k.procs| && i < |After(k, c).procs|
    ensures After(k, c).procs[i].state == Blocked ==>
              k.procs[i].state == Blocked || (i == k.current && (c.Suspend? || c.Wait?))
  {
    StatesAfter(k, c, i);
    hide Inv, After, Find;
  }

  /**
   * A zombie stays one under every call but these: SIGSTOP stops it, a zombie that is still the current process can
   * wait or sleep, and a zombie without a pid becomes a new process.
   */
  lemma ZombiesChangeExactly(k: Kernel, c: Call, i: nat)
    requires Inv(k) && i < MAX_PROCESSES
    ensures i < |k.procs| && i < |After(k, c).procs| && k.current < |k.procs|
    ensures k.procs[i].state == Zombie ==> (After(k, c).procs[i].state != Zombie <==> Sets(k, c, i))
  {
    StatesAfter(k, c, i);
    hide Inv, After, Find;
  }

  /** After SIGSTOP and SIGCONT an exited process is READY again. */
  lemma ExitedRunsAgain(k: Kernel, pid: nat)
    requires Inv(k) && 0 < pid <= Used(k)
    ensures var m := After(k, Kill(pid, SIGSTOP));
            Inv(m) && Inv(After(m, Kill(pid, SIGCONT))) && |After(m, Kill(pid, SIGCONT)).procs| == MAX_PROCESSES
            && After(m, Kill(pid, SIGCONT)).procs[pid - 1].state == Ready
  {
    hide Inv, After, Find, Used, Eldest, KillsFreeSlot;
    var c := Kill(pid, SIGSTOP);
    UsedInTable(k);
    FindProcess(k, pid);
    CallKeepsInv(k, c);
    StatesAfter(k, c, pid - 1);
    StopKeepsUsed(k, pid);
    ContinuedIsReady(After(k, c), pid);
  }

  lemma ContinuedIsReady(k: Kernel, pid: nat)
    requires Inv(k) && 0 < pid <= Used(k) && pid - 1 < |k.procs| && k.procs[pid - 1].state == Stopped
    ensures var r := After(k, Kill(pid, SIGCONT));
            Inv(r) && |r.procs| == MAX_PROCESSES && r.procs[pid - 1].state == Ready
  {
    UsedInTable(k);
    hide Inv, Find, Used, Eldest, KillsFreeSlot;
    FindProcess(k, pid);
    CallKeepsInv(k, Kill(pid, SIGCONT));
    UsedInTable(After(k, Kill(pid, SIGCONT)));
  }

  lemma StopKeepsUsed(k: Kernel, pid: nat)
    requires Inv(k) && 0 < pid <= Used(k)
    ensures Used(After(k, Kill(pid, SIGSTOP))) == Used(k)
  {
    hide Inv, Schedule, Find;
    InvShape(k);
    UsedInTable(k);
    FindProcess(k, pid);
    StateInv(k, pid - 1, Stopped);
    ScheduleInv(SetState(k, pid - 1, Stopped));
  }
}
