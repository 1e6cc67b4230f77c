/** What the calls on processes and signals do, seen from the states and signals they leave. */
module CallEffects {
  import opened Processes
  import opened Scheduling
  import opened Invariants
  import opened Calls
  import opened Exits

  /** A signal that is delivered through the pending set. */
  predicate Ordinary(signum: int) {
    0 < signum < MAX_SIGNALS && signum !in {SIGKILL, SIGSTOP, SIGCONT}
  }

  /** The calls differ in the process in slot `i` at most. */
  ghost predicate OnlySlot(k: Kernel, r: Kernel, i: nat) {
    && r == k.(procs := r.procs) && |r.procs| == |k.procs| == MAX_PROCESSES
    && forall s :: 0 <= s < MAX_PROCESSES && s != i ==> r.procs[s] == k.procs[s]
  }

  lemma CurrentAt(k: Kernel)
    requires Inv(k)
    ensures |k.procs| == MAX_PROCESSES && k.current < MAX_PROCESSES
    ensures HasCurrent(k) ==> k.current < Used(k) && k.procs[k.current].pid == k.current + 1
  {
    UsedSlot(k, k.current);
  }

  // ---------- sending ----------

  /** sys_kill makes an ordinary signal pending at its process if it is not blocked there, and changes nothing else. */
  lemma KillPends(k: Kernel, pid: nat, signum: int)
    requires Inv(k) && 0 < pid <= Used(k) && Ordinary(signum)
    ensures var r := After(k, Kill(pid, signum));
            && OnlySlot(k, r, pid - 1)
            && var p, q := k.procs[pid - 1], r.procs[pid - 1];
               && q == p.(pending := q.pending)
               && forall x :: x in q.pending <==> x in p.pending || (x == signum && x !in p.blocked)
  {
    UsedInTable(k);
    InvShape(k);
    hide Inv, Shape, ExitPid, Stop, Continue;
    FindProcess(k, pid);
    DroppedExactly(k.procs[pid - 1], signum);
  }

  // ---------- masks, by what happens to the signals sent afterwards ----------

  /** Whether the signal is blocked after signal_proc_mask. */
  predicate BlockedThen(before: set<nat>, how: int, mask: set<nat>, signum: nat) {
    match how
    case 0 => signum in before || signum in mask
    case 1 => signum in before && signum !in mask
    case 2 => signum in mask
    case _ => signum in before
  }

  lemma MaskExactly(k: Kernel, how: int, mask: set<nat>)
    requires Inv(k) && k.current < |k.procs| && HasCurrent(k)
    ensures var r := After(k, ChangeMask(how, mask));
            && OnlySlot(k, r, k.current) && Inv(r) && Used(r) == Used(k)
            && var p, q := k.procs[k.current], r.procs[k.current];
               && q == p.(blocked := q.blocked)
               && forall x :: x in q.blocked <==>
                    x !in {SIGKILL, SIGSTOP} && BlockedThen(p.blocked, how, mask, x)
  {
    CallKeepsInv(k, ChangeMask(how, mask));
    CurrentAt(k);
    UsedSlot(k, k.current);
    hide Inv;
  }

  /**
   * An ordinary signal that is sent to the process after it has changed its mask becomes pending, if it was not
   * already, exactly as the new mask says: SIG_BLOCK (0) loses what was blocked or is in the set, SIG_UNBLOCK (1) lets
   * through what is in the set or was not blocked, and after SIG_SETMASK (2) the set alone decides.
   */
  lemma MaskThenKill(k: Kernel, how: int, mask: set<nat>, signum: int)
    requires Inv(k) && k.current < |k.procs| && HasCurrent(k) && Ordinary(signum)
    ensures var me := k.current;
            var r := After(k, ChangeMask(how, mask));
            Inv(r) && |r.procs| == MAX_PROCESSES && me < MAX_PROCESSES
            && |After(r, Kill(k.procs[me].pid, signum)).procs| == MAX_PROCESSES
            && (signum as nat in After(r, Kill(k.procs[me].pid, signum)).procs[me].pending <==>
                  signum as nat in k.procs[me].pending || !BlockedThen(k.procs[me].blocked, how, mask, signum))
  {
    CurrentAt(k);
    MaskExactly(k, how, mask);
    var r := After(k, ChangeMask(how, mask));
    hide After, Inv;
    KillPends(r, k.procs[k.current].pid, signum);
  }

  /** Unblocking what has just been blocked restores the mask, if none of it was blocked before. */
  lemma UnblockUndoesBlock(k: Kernel, mask: set<nat>)
    requires Inv(k) && k.current < |k.procs| && HasCurrent(k) && mask !! k.procs[k.current].blocked
    ensures Inv(After(k, ChangeMask(0, mask)))
    ensures After(After(k, ChangeMask(0, mask)), ChangeMask(1, mask)) == k
  {
    var r := After(k, ChangeMask(0, mask));
    MaskExactly(k, 0, mask);
    CurrentAt(r);
    MaskExactly(r, 1, mask);
    CurrentAt(k);
    UsedSlot(k, k.current);
    var v := After(r, ChangeMask(1, mask));
    hide After, Inv;
    assert v.procs[k.current].blocked == k.procs[k.current].blocked;
    assert v.procs == k.procs;
  }

  // ---------- handlers ----------

  /** The new handler is that of this signal alone. */
  lemma HandlerSet(k: Kernel, signum: int, handler: nat)
    requires Inv(k) && k.current < |k.procs|
    ensures var r := After(k, SetHandler(signum, handler));
            if HasCurrent(k) && 0 < signum < MAX_SIGNALS && signum !in {SIGKILL, SIGSTOP} then
              && OnlySlot(k, r, k.current)
              && var p, q := k.procs[k.current], r.procs[k.current];
                 && q == p.(handlers := q.handlers) && |q.handlers| == |p.handlers| == MAX_SIGNALS
                 && forall x :: 0 <= x < MAX_SIGNALS ==> q.handlers[x] == if x == signum then handler else p.handlers[x]
            else r == k
  {
    CurrentAt(k);
    UsedSlot(k, k.current);
    InvShape(k);
    CurrentShape(k);
    hide Inv, Shape;
  }

  /** With only this signal deliverable, the handler decides whether the process exits when it next runs. */
  lemma HandlerDecides(k: Kernel, signum: int, handler: nat)
    requires Inv(k) && k.current < |k.procs| && HasCurrent(k)
    requires 0 < signum < MAX_SIGNALS && signum !in {SIGKILL, SIGSTOP}
    requires forall x: nat :: Deliverable(k.procs[k.current], x) <==> x == signum
    ensures var r := After(k, SetHandler(signum, handler));
            && |r.procs| == MAX_PROCESSES && k.current < MAX_PROCESSES
            && |r.procs[k.current].handlers| == MAX_SIGNALS
            && (Doomed(r.procs[k.current]) <==> handler == SIG_DFL && signum !in {SIGCHLD, SIGURG, SIGWINCH})
  {
    HandlerSet(k, signum, handler);
    UsedSlot(k, k.current);
    CurrentAt(k);
    var p, q := k.procs[k.current], After(k, SetHandler(signum, handler)).procs[k.current];
    assert !p.handlingSignal;
    hide After, Inv, Doomed;
    DoomedExactly(q);
    assert forall x: nat :: Deliverable(p, x) == Deliverable(q, x);
    forall x: nat | Lethal(q, x) || Caught(q, x) ensures x == signum {
      assert Deliverable(q, x);
    }
    if handler == SIG_DFL && signum !in {SIGCHLD, SIGURG, SIGWINCH} {
      assert Deliverable(p, signum);
      assert Lethal(q, signum) && !CaughtBefore(q, signum);
    }
  }

  /**
   * signal_handle_pending takes every signal that is not blocked off the pending set, up to the first that a handler of
   * the user catches; unless a lethal one comes before: then the process exits.
   */
  lemma SignalsHandled(k: Kernel)
    requires Inv(k) && k.current < |k.procs| && HasCurrent(k) && |k.procs[k.current].handlers| == MAX_SIGNALS
    ensures var r := After(k, HandleSignals);
            |r.procs| == MAX_PROCESSES && k.current < MAX_PROCESSES
            && var p, q := k.procs[k.current], r.procs[k.current];
               if Fatal(p) then q.state == Zombie
               else
                 && OnlySlot(k, r, k.current) && q == p.(pending := q.pending)
                 && forall x: nat :: 1 <= x < MAX_SIGNALS ==>
                      (x in q.pending <==> x in p.pending && (x in p.blocked || CaughtBefore(p, x)))
  {
    CurrentAt(k);
    InvShape(k);
    UsedSlot(k, k.current);
    HandleCalled(k);
    var p := k.procs[k.current];
    assert !p.handlingSignal;
    hide Inv, Shape, After, Exit, Take, Doomed;
    DoomedExactly(p);
    DeliveredIs(k);
    if !Doomed(p) {
      TakenPending(p);
    }
  }

  lemma HandleCalled(k: Kernel)
    requires Inv(k) && k.current < |k.procs| && HasCurrent(k)
    ensures Shape(k) && After(k, HandleSignals) == Deliver(k).k
  {
    hide Inv, Shape, Schedule, Exit, Deliver, KillPid, SuspendCurrent, SleepCurrent, BlockAndSchedule, TickOnce,
         ForkCurrent, Create, PutHandler, UnblockPid, PutMask, Find;
    InvShape(k);
  }

  lemma DeliveredIs(k: Kernel)
    requires Shape(k) && k.current < |k.procs| && |k.procs| == MAX_PROCESSES
    requires |k.procs[k.current].handlers| == MAX_SIGNALS
    ensures |Deliver(k).k.procs| == MAX_PROCESSES
    ensures if Doomed(k.procs[k.current]) then Deliver(k).k.procs[k.current].state == Zombie
            else Deliver(k).k == k.(procs := k.procs[k.current := TakeAll(k.procs[k.current]).0])
  {
    hide Exit, Take;
    TakenShape(k);
    if Doomed(k.procs[k.current]) {
      ExitedIsZombie(Taken(k), k.current);
    }
  }

  /** What a delivery leaves pending when the process survives it. */
  lemma TakenPending(p: Process)
    requires |p.handlers| == MAX_SIGNALS && !p.handlingSignal && !Doomed(p)
    ensures var q := TakeAll(p).0;
            && q == p.(pending := q.pending)
            && forall x: nat :: 1 <= x < MAX_SIGNALS ==>
                 (x in q.pending <==> x in p.pending && (x in p.blocked || CaughtBefore(p, x)))
  {
    TakeClears(p, 1);
    var l := Lowest(p, 1);
    forall x: nat | 1 <= x < MAX_SIGNALS
      ensures Deliverable(p, x) && !Ignored(p, x) <==> Lethal(p, x) || Caught(p, x)
      ensures Lethal(p, x) ==> p.handlers[x] == SIG_DFL
      ensures Caught(p, x) ==> p.handlers[x] != SIG_DFL
    {
      LethalOrCaught(p, x);
    }
    hide Take, Ignored, Lethal, Lowest;
    forall x: nat | 1 <= x < MAX_SIGNALS ensures l < x <==> CaughtBefore(p, x) {
      if l < x {
        assert Caught(p, l);
      }
    }
  }

  // ---------- new processes ----------

  /** What create_process and sys_fork have made: a new process under a new pid, runnable, in a slot that was free. */
  ghost predicate Born(k: Kernel, r: Kernel, pid: nat, parent: nat) {
    && pid == Used(k) + 1 == Used(r) && |k.procs| == |r.procs| == MAX_PROCESSES && pid <= MAX_PROCESSES
    && r == k.(procs := r.procs, nextPid := r.nextPid)
    && (forall i :: 0 <= i < MAX_PROCESSES ==> k.procs[i].pid != pid)
    && (forall i :: 0 <= i < MAX_PROCESSES && i != pid - 1 ==> r.procs[i] == k.procs[i])
    && var c := r.procs[pid - 1];
       c.pid == pid && c.parent == parent && c.state == Ready && c.cpuTime == 0 && !c.handlingSignal
       && c.sleepUntil == k.procs[pid - 1].sleepUntil
  }

  /** create_process gives a process without pending or blocked signals and with the default handlers. */
  lemma SpawnedIs(k: Kernel, parent: nat)
    requires Inv(k)
    ensures var (r, pid) := Create(k, parent);
            if Used(k) == MAX_PROCESSES then r == k && pid == 0
            else Born(k, r, pid, parent) && r.procs[pid - 1].pending == r.procs[pid - 1].blocked == {}
                 && r.procs[pid - 1].handlers == seq(MAX_SIGNALS, _ => SIG_DFL)
  {
    FindProcess(k, 0);
    UsedInTable(k);
    forall i | 0 <= i < MAX_PROCESSES ensures k.procs[i].pid != Used(k) + 1 {
      UsedSlot(k, i);
    }
    UsedNext(k);
    hide Inv;
  }

  /** The child of a fork has its caller as parent, and the caller's pending signals, mask and handlers. */
  lemma ForkedIs(k: Kernel)
    requires Inv(k) && k.current < |k.procs|
    ensures var (r, pid) := ForkCurrent(k);
            && After(k, Fork) == r
            && if !HasCurrent(k) || Used(k) == MAX_PROCESSES then r == k && pid == 0
               else Born(k, r, pid, k.procs[k.current].pid)
                    && var c, p := r.procs[pid - 1], k.procs[k.current];
                       c.pending == p.pending && c.blocked == p.blocked && c.handlers == p.handlers
  {
    hide Inv, Create, Find, After;
    CurrentAt(k);
    ForkCalled(k);
    if HasCurrent(k) {
      var (k1, pid) := Create(k, k.procs[k.current].pid);
      UsedNext(k);
      CreateInv(k, k.procs[k.current].pid);
      SpawnedIs(k, k.procs[k.current].pid);
      FindProcess(k1, pid);
      assert ForkCurrent(k).0.nextPid == k1.nextPid;
    }
  }

  lemma ForkCalled(k: Kernel)
    requires Inv(k) && k.current < |k.procs|
    ensures After(k, Fork) == ForkCurrent(k).0
  {
    hide Inv, Shape, Schedule, Exit, Deliver, KillPid, SuspendCurrent, SleepCurrent, BlockAndSchedule, TickOnce,
         ForkCurrent, Create, PutHandler, UnblockPid, PutMask, Find;
    InvShape(k);
  }

  // ---------- waiting and waking ----------

  /** unblock_process makes a blocked process ready, and does nothing else. */
  lemma UnblockWakes(k: Kernel, pid: nat)
    requires Inv(k) && 0 < pid <= Used(k)
    ensures var r := After(k, Unblock(pid));
            && OnlySlot(k, r, pid - 1)
            && var p := k.procs[pid - 1];
               r.procs[pid - 1] == p.(state := if p.state == Blocked then Ready else p.state)
  {
    UsedInTable(k);
    FindProcess(k, pid);
    hide Inv;
  }

  /** process_sleep leaves its process asleep until the tick asked for, whatever runs and exits meanwhile. */
  lemma SleeperKeepsTick(k: Kernel, until: nat)
    requires Inv(k) && k.current < |k.procs| && HasCurrent(k)
    ensures var r := After(k, Sleep(until));
            |r.procs| == MAX_PROCESSES && k.current < MAX_PROCESSES
            && var p, q := k.procs[k.current], r.procs[k.current];
               q == p.(state := Sleeping, sleepUntil := until, parent := q.parent, pending := q.pending)
               && p.pending <= q.pending
  {
    CurrentAt(k);
    SleepIs(k, until);
    hide Inv, Shape, Schedule, Bereft, UsedSlots, After;
    WaiterLeft(Asleep(k, until), k.current);
  }

  /** The current process put to sleep. */
  function Asleep(k: Kernel, until: nat): Kernel
    requires k.current < |k.procs|
  {
    k.(procs := k.procs[k.current := k.procs[k.current].(state := Sleeping, sleepUntil := until)])
  }

  lemma SleepIs(k: Kernel, until: nat)
    requires Inv(k) && k.current < |k.procs| && HasCurrent(k)
    ensures Shape(Asleep(k, until)) && After(k, Sleep(until)) == Schedule(Asleep(k, until)).k
  {
    SleepCalled(k, until);
    hide Inv, Shape, Schedule, After;
    SleepShape(k, until);
    var k1 := k.(procs := k.procs[k.current := k.procs[k.current].(sleepUntil := until)]);
    StateShape(k1, k.current, Sleeping);
    assert SetState(k1, k.current, Sleeping) == Asleep(k, until);
  }

  lemma SleepCalled(k: Kernel, until: nat)
    requires Inv(k)
    ensures Shape(k) && After(k, Sleep(until)) == SleepCurrent(k, until)
  {
    hide Inv, Shape, Schedule, Exit, Deliver, KillPid, SuspendCurrent, SleepCurrent, BlockAndSchedule, TickOnce,
         ForkCurrent, Create, PutHandler, UnblockPid, PutMask, Find;
    InvShape(k);
  }

  /**
   * sys_sigsuspend leaves its process blocked with its old mask, and while it waits the temporary mask holds: the exit
   * of a child makes SIGCHLD pending exactly if the temporary mask lets it through.
   */
  lemma SuspendHears(k: Kernel, mask: set<nat>)
    requires Inv(k) && k.current < |k.procs| && HasCurrent(k)
    ensures Shape(Suspended(k, mask))
    ensures var r, w := After(k, Suspend(mask)), Suspended(k, mask);
            var dead := Schedule(w).dead;
            UsedSlots(w.procs, dead) && |r.procs| == |w.procs| == MAX_PROCESSES && k.current < MAX_PROCESSES
            && var p, q := k.procs[k.current], r.procs[k.current];
               && q == p.(state := Blocked, parent := q.parent, pending := q.pending)
               && (SIGCHLD in q.pending <==>
                     SIGCHLD in p.pending || (SIGCHLD !in mask && Bereft(w.procs, dead, k.current)))
               && forall x :: x != SIGCHLD ==> (x in q.pending <==> x in p.pending)
  {
    CurrentAt(k);
    SuspendIs(k, mask);
    hide Inv, Shape, Schedule, Bereft, UsedSlots, After;
    WaiterLeft(Suspended(k, mask), k.current);
  }

  /** The current process blocked, with the temporary mask but for what cannot be blocked. */
  function Suspended(k: Kernel, mask: set<nat>): Kernel
    requires k.current < |k.procs|
  {
    var p := k.procs[k.current];
    k.(procs := k.procs[k.current := p.(state := Blocked, blocked := mask - {SIGKILL, SIGSTOP})])
  }

  lemma SuspendIs(k: Kernel, mask: set<nat>)
    requires Inv(k) && k.current < |k.procs| && HasCurrent(k)
    ensures Shape(Suspended(k, mask)) && |Schedule(Suspended(k, mask)).k.procs| == MAX_PROCESSES
    ensures k.current < MAX_PROCESSES
    ensures After(k, Suspend(mask)) == PutMask(Schedule(Suspended(k, mask)).k, k.current, k.procs[k.current].blocked)
  {
    CurrentAt(k);
    SuspendCalled(k, mask);
    hide Inv, Shape, Schedule, BlockAndSchedule, PutMask, After, Suspended;
    SuspendedShape(k, mask);
    ShapeSizes(Suspended(k, mask));
  }

  lemma SuspendCalled(k: Kernel, mask: set<nat>)
    requires Inv(k)
    ensures Shape(k) && After(k, Suspend(mask)) == SuspendCurrent(k, mask)
  {
    hide Inv, Shape, Schedule, Exit, Deliver, KillPid, SuspendCurrent, SleepCurrent, BlockAndSchedule, TickOnce,
         ForkCurrent, Create, PutHandler, UnblockPid, PutMask, Find;
    InvShape(k);
  }

  lemma SuspendedShape(k: Kernel, mask: set<nat>)
    requires Shape(k) && |k.procs| == MAX_PROCESSES && k.current < MAX_PROCESSES
    ensures var k1 := PutMask(k, k.current, mask - {SIGKILL, SIGSTOP});
            && Shape(k1) && Shape(Suspended(k, mask))
            && BlockAndSchedule(k1) == Schedule(Suspended(k, mask)).k
  {
    hide Shape, Schedule;
    MaskShape(k, k.current, mask - {SIGKILL, SIGSTOP});
    var k1 := PutMask(k, k.current, mask - {SIGKILL, SIGSTOP});
    StateShape(k1, k.current, Blocked);
    assert SetState(k1, k.current, Blocked) == Suspended(k, mask);
  }

  // ---------- exits ----------

  /**
   * SIGKILL makes its process a zombie, and the parent, if it is not runnable, has SIGCHLD pending exactly if it had or
   * does not block it.
   */
  lemma KilledChildIsReported(k: Kernel, pid: nat)
    requires Inv(k) && 0 < pid <= Used(k)
    ensures |k.procs| == MAX_PROCESSES && |After(k, Kill(pid, SIGKILL)).procs| == MAX_PROCESSES
    ensures After(k, Kill(pid, SIGKILL)).procs[pid - 1].state == Zombie
    ensures var parent := k.procs[pid - 1].parent;
            0 < parent < pid && !Runnable(k.procs[parent - 1]) ==>
              var p, q := k.procs[parent - 1], After(k, Kill(pid, SIGKILL)).procs[parent - 1];
              && (SIGCHLD in q.pending <==> SIGCHLD in p.pending || SIGCHLD !in p.blocked)
              && forall x :: x != SIGCHLD ==> (x in q.pending <==> x in p.pending)
  {
    hide *;
    UsedInTable(k);
    ParentAt(k, pid);
    KillExits(k, pid);
    ExitedIsZombie(k, pid - 1);
    ExitIs(k, pid - 1);
    var parent := k.procs[pid - 1].parent;
    if 0 < parent < pid && !Runnable(k.procs[parent - 1]) {
      ParentAt(k, parent);
      WaitingParentHears(k, pid - 1, parent - 1);
    }
  }

  lemma KillExits(k: Kernel, pid: nat)
    requires Inv(k) && 0 < pid <= Used(k)
    ensures Shape(k) && After(k, Kill(pid, SIGKILL)) == Exit(k, pid - 1).k
  {
    hide Inv, Shape, Exit, Find;
    UsedInTable(k);
    InvShape(k);
    ParentAt(k, pid);
    FindProcess(k, pid);
  }

  lemma ParentAt(k: Kernel, pid: nat)
    requires Inv(k) && 0 < pid <= Used(k)
    ensures pid - 1 < |k.procs| && k.procs[pid - 1].pid == pid
  {
    UsedInTable(k);
    UsedSlot(k, pid - 1);
  }
}
