/** The calls that change the process table, and what every run of them keeps. */
module Calls {
  import opened Processes
  import opened Scheduling
  import opened Invariants

  datatype Call =
    | Spawn
    | Fork
    | ExitSelf
    | Kill(target: nat, signum: int)
    | SetHandler(number: int, handler: nat)
    | ChangeMask(how: int, mask: set<nat>)
    | Suspend(temporary: set<nat>)
    | Sleep(until: nat)
    | Wait
    | Unblock(pid: nat)
    | Tick(reschedule: bool)
    | Yield
    | HandleSignals

  predicate HasCurrent(k: Kernel)
    requires k.current < |k.procs|
  {
    k.procs[k.current].pid != 0
  }

  /** create_process: the new pid, or 0 if the table is full. */
  function Create(k: Kernel, parent: nat): (r: (Kernel, nat)) {
    var i := Find(k.procs, 0);
    if i == |k.procs| then (k, 0)
    else
      var p := Process(k.nextPid, parent, Ready, k.procs[i].sleepUntil, 0, {}, {},
                       seq(MAX_SIGNALS, _ => SIG_DFL), false, 0);
      (k.(procs := k.procs[i := p], nextPid := k.nextPid + 1), k.nextPid)
  }

  /** sys_fork: the child takes over pending signals, mask and handlers. */
  function ForkCurrent(k: Kernel): (r: (Kernel, nat))
    requires k.current < |k.procs|
  {
    if !HasCurrent(k) then (k, 0)
    else
      var c := k.procs[k.current];
      var (k1, pid) := Create(k, c.pid);
      var i := Find(k1.procs, pid);
      if pid == 0 || i == |k1.procs| then (k1, 0)
      else
        (k1.(procs := k1.procs[i := k1.procs[i].(pending := c.pending, blocked := c.blocked, handlers := c.handlers)]),
         pid)
  }

  function SetState(k: Kernel, i: nat, s: State): Kernel
    requires i < |k.procs|
  {
    k.(procs := k.procs[i := k.procs[i].(state := s)])
  }

  /** stop_process */
  ghost function Stop(k: Kernel, pid: nat): Kernel
    requires Shape(k)
  {
    var j := Find(k.procs, pid);
    if j == MAX_PROCESSES then k else StateShape(k, j, Stopped); Schedule(SetState(k, j, Stopped)).k
  }

  /** continue_process */
  function Continue(k: Kernel, pid: nat): Kernel {
    var j := Find(k.procs, pid);
    if j < |k.procs| && k.procs[j].state == Stopped then SetState(k, j, Ready) else k
  }

  /** exit_process, for any pid */
  ghost function ExitPid(k: Kernel, pid: nat): Kernel
    requires Shape(k)
  {
    var j := Find(k.procs, pid);
    if j == MAX_PROCESSES then k else Exit(k, j).k
  }

  /** signal_send to the process in slot `i`; all but pending signals act on the first slot with its pid. */
  ghost function Send(k: Kernel, i: nat, signum: int): Kernel
    requires Shape(k) && i < MAX_PROCESSES
  {
    var p := k.procs[i];
    if signum <= 0 || signum >= MAX_SIGNALS then k
    else if signum == SIGKILL then ExitPid(k, p.pid)
    else if signum == SIGSTOP then Stop(k, p.pid)
    else if signum == SIGCONT then if p.state == Stopped then Continue(k, p.pid) else k
    else k.(procs := k.procs[i := AddPending(p, signum)])
  }

  /** sys_kill of one process */
  ghost function KillPid(k: Kernel, pid: nat, signum: int): Kernel
    requires Shape(k)
  {
    var i := Find(k.procs, pid);
    if signum >= MAX_SIGNALS || i == MAX_PROCESSES then k else Send(k, i, signum)
  }

  /** signal_set_handler and signal_set_action */
  function PutHandler(k: Kernel, signum: int, handler: nat): Kernel
    requires k.current < |k.procs| && |k.procs[k.current].handlers| == MAX_SIGNALS
  {
    if signum <= 0 || signum >= MAX_SIGNALS || !HasCurrent(k) || signum == SIGKILL || signum == SIGSTOP then k
    else
      var p := k.procs[k.current];
      k.(procs := k.procs[k.current := p.(handlers := p.handlers[signum := handler])])
  }

  /** The mask after signal_proc_mask. */
  function NewMask(old_: set<nat>, how: int, mask: set<nat>): set<nat> {
    var m := mask - {SIGKILL, SIGSTOP};
    if how == 0 then old_ + m else if how == 1 then old_ - m else if how == 2 then m else old_
  }

  function PutMask(k: Kernel, i: nat, mask: set<nat>): Kernel
    requires i < |k.procs|
  {
    k.(procs := k.procs[i := k.procs[i].(blocked := mask)])
  }

  /** block_process of the current process followed by schedule */
  ghost function BlockAndSchedule(k: Kernel): Kernel
    requires Shape(k)
  {
    StateShape(k, k.current, Blocked);
    Schedule(SetState(k, k.current, Blocked)).k
  }

  /** sys_sigsuspend: the temporary mask, blocking, and the old mask restored on the same process. */
  ghost function SuspendCurrent(k: Kernel, mask: set<nat>): (r: Kernel)
    requires Shape(k)
  {
    if !HasCurrent(k) then k
    else
      MaskShape(k, k.current, mask - {SIGKILL, SIGSTOP});
      PutMask(BlockAndSchedule(PutMask(k, k.current, mask - {SIGKILL, SIGSTOP})), k.current, k.procs[k.current].blocked)
  }

  /** process_sleep */
  ghost function SleepCurrent(k: Kernel, until: nat): Kernel
    requires Shape(k)
  {
    if !HasCurrent(k) then k
    else
      var k1 := k.(procs := k.procs[k.current := k.procs[k.current].(sleepUntil := until)]);
      SleepShape(k, until);
      StateShape(k1, k.current, Sleeping);
      Schedule(SetState(k1, k.current, Sleeping)).k
  }

  /** unblock_process */
  function UnblockPid(k: Kernel, pid: nat): Kernel {
    var i := Find(k.procs, pid);
    if i < |k.procs| && k.procs[i].state == Blocked then SetState(k, i, Ready) else k
  }

  predicate Due(p: Process, now: nat) {
    p.state == Sleeping && now >= p.sleepUntil
  }

  /** One round of the wake-up loop of timer_handler, which uses its index as a pid. */
  function WakeOne(t: Table, now: nat, i: nat): (r: Table)
    ensures |r| == |t|
  {
    var j := Find(t, i);
    if j < |t| && Due(t[j], now) then t[j := t[j].(state := Ready)] else t
  }

  /** The wake-up loop of timer_handler from `i` on. */
  function Wake(t: Table, now: nat, i: nat): (r: Table)
    ensures |r| == |t|
    decreases MAX_PROCESSES - i
  {
    if i >= MAX_PROCESSES then t else Wake(WakeOne(t, now, i), now, i + 1)
  }

  /** timer_handler */
  ghost function TickOnce(k: Kernel, reschedule: bool): Kernel
    requires Inv(k)
  {
    var k1 := k.(ticks := k.ticks + 1, procs := Wake(k.procs, k.ticks + 1, 0));
    if reschedule then WakeInv(k); InvShape(k1); Schedule(k1).k else k1
  }

  ghost function After(k: Kernel, c: Call): (r: Kernel)
    requires Inv(k)
  {
    InvShape(k);
    match c
    case Spawn => Create(k, 0).0
    case Fork => ForkCurrent(k).0
    case ExitSelf => if HasCurrent(k) then Schedule(Exit(k, k.current).k).k else k
    case Kill(pid, signum) => KillPid(k, pid, signum)
    case SetHandler(signum, handler) => CurrentShape(k); PutHandler(k, signum, handler)
    case ChangeMask(how, mask) =>
      if HasCurrent(k) then PutMask(k, k.current, NewMask(k.procs[k.current].blocked, how, mask)) else k
    case Suspend(mask) => SuspendCurrent(k, mask)
    case Sleep(until) => SleepCurrent(k, until)
    case Wait => if HasCurrent(k) then BlockAndSchedule(k) else k
    case Unblock(pid) => UnblockPid(k, pid)
    case Tick(reschedule) => TickOnce(k, reschedule)
    case Yield => Schedule(k).k
    case HandleSignals => if HasCurrent(k) then Deliver(k).k else k
  }

  // ---------- shapes ----------

  lemma StateShape(k: Kernel, i: nat, s: State)
    requires Shape(k) && i < MAX_PROCESSES
    ensures Shape(SetState(k, i, s))
  {
    PutShape(k, i, k.procs[i].(state := s));
  }

  lemma PutShape(k: Kernel, i: nat, p: Process)
    requires Shape(k) && i < MAX_PROCESSES
    requires |p.handlers| == MAX_SIGNALS && p.exitSignal == k.procs[i].exitSignal && p.pid == k.procs[i].pid
    ensures Shape(k.(procs := k.procs[i := p]))
  {
    var t := k.procs[i := p];
    forall j | 0 <= j < MAX_PROCESSES ensures ShapeAt(t[j], j) {
      assert ShapeAt(k.procs[j], j);
    }
  }

  lemma MaskShape(k: Kernel, i: nat, mask: set<nat>)
    requires Shape(k) && i < MAX_PROCESSES
    ensures Shape(PutMask(k, i, mask))
  {
    assert ShapeAt(k.procs[i], i);
    PutShape(k, i, k.procs[i].(blocked := mask));
  }

  lemma SleepShape(k: Kernel, until: nat)
    requires Shape(k)
    ensures Shape(k.(procs := k.procs[k.current := k.procs[k.current].(sleepUntil := until)]))
  {
    assert ShapeAt(k.procs[k.current], k.current);
    PutShape(k, k.current, k.procs[k.current].(sleepUntil := until));
  }

  lemma CurrentShape(k: Kernel)
    requires Shape(k)
    ensures |k.procs[k.current].handlers| == MAX_SIGNALS
  {
    assert ShapeAt(k.procs[k.current], k.current);
  }

  // ---------- the timer ----------

  /** `t'` is `t` with the due processes woken that have pids from `i` to 63. */
  ghost predicate Woken(t: Table, t': Table, now: nat, i: nat) {
    && |t'| == |t|
    && forall s :: 0 <= s < |t| ==>
         t'[s] == if i <= s + 1 < MAX_PROCESSES && Due(t[s], now) then t[s].(state := Ready) else t[s]
  }

  lemma {:induction false} WakeFrom(k: Kernel, now: nat, i: nat)
    requires Inv(k) && i <= MAX_PROCESSES
    ensures Woken(k.procs, Wake(k.procs, now, i), now, i)
    ensures Inv(k.(procs := Wake(k.procs, now, i)))
    decreases MAX_PROCESSES - i
  {
    hide Inv, Woken, Due, WakeOne, Find;
    UsedInTable(k);
    if i == MAX_PROCESSES {
      WokenNone(k.procs, now);
      assert k.(procs := k.procs) == k;
    } else {
      var k1 := k.(procs := WakeOne(k.procs, now, i));
      WakeOneIs(k, now, i);
      WakeFrom(k1, now, i + 1);
      WokenStep(k.procs, Wake(k.procs, now, i), now, i, i > 0 && Due(k.procs[i - 1], now));
    }
  }

  /** One round wakes the process before its index if it is due, and nobody else. */
  lemma WakeOneIs(k: Kernel, now: nat, i: nat)
    requires Inv(k) && i < MAX_PROCESSES == |k.procs|
    ensures WakeOne(k.procs, now, i)
         == if i > 0 && Due(k.procs[i - 1], now) then k.procs[i - 1 := k.procs[i - 1].(state := Ready)] else k.procs
    ensures Inv(k.(procs := WakeOne(k.procs, now, i)))
  {
    hide Inv, Due;
    FindProcess(k, i);
    NotDueIfFree(k, now);
    UsedInTable(k);
    assert k.(procs := k.procs) == k;
    WakeOneInv(k, Find(k.procs, i), now);
  }

  lemma WokenNone(t: Table, now: nat)
    ensures Woken(t, t, now, MAX_PROCESSES)
  {
  }

  lemma WokenStep(t: Table, t': Table, now: nat, i: nat, due: bool)
    requires |t| == MAX_PROCESSES && i < MAX_PROCESSES
    requires due ==> i > 0 && Due(t[i - 1], now) && Woken(t[i - 1 := t[i - 1].(state := Ready)], t', now, i + 1)
    requires !due ==> (i > 0 ==> !Due(t[i - 1], now)) && Woken(t, t', now, i + 1)
    ensures Woken(t, t', now, i)
  {
  }

  lemma WakeOneInv(k: Kernel, j: nat, now: nat)
    requires Inv(k) && j <= MAX_PROCESSES && |k.procs| == MAX_PROCESSES
    ensures j < MAX_PROCESSES && Due(k.procs[j], now) ==> Inv(SetState(k, j, Ready)) && j < Used(k)
  {
    hide Inv, SafeSignals;
    if j < MAX_PROCESSES && Due(k.procs[j], now) {
      UsedSlot(k, j);
      SafeFields(k.procs[j], k.procs[j].(state := Ready));
      PutKeepsInv(k, j, k.procs[j].(state := Ready));
    }
  }

  lemma NotDueIfFree(k: Kernel, now: nat)
    requires Inv(k)
    ensures forall s :: Used(k) <= s < MAX_PROCESSES ==> !Due(k.procs[s], now)
  {
    forall s | Used(k) <= s < MAX_PROCESSES ensures !Due(k.procs[s], now) {
      assert SlotOk(k.procs[s], s, Used(k));
    }
  }

  lemma WakeInv(k: Kernel)
    requires Inv(k)
    ensures Inv(k.(ticks := k.ticks + 1, procs := Wake(k.procs, k.ticks + 1, 0)))
    ensures Eldest(Wake(k.procs, k.ticks + 1, 0)) == Eldest(k.procs)
  {
    hide Wake;
    WakeFrom(k, k.ticks + 1, 0);
    TicksKeepInv(k.(procs := Wake(k.procs, k.ticks + 1, 0)), k.ticks + 1);
  }

  lemma TicksKeepInv(k: Kernel, now: nat)
    requires Inv(k)
    ensures Inv(k.(ticks := now))
  {
  }

  /** A tick wakes exactly the due sleepers in slots 0 to 62; a sleeper in the last slot is never woken. */
  lemma TickWakesDueSleepers(k: Kernel)
    requires Inv(k)
    ensures var r := TickOnce(k, false);
            && |r.procs| == |k.procs| == MAX_PROCESSES && r == k.(ticks := k.ticks + 1, procs := r.procs)
            && forall s :: 0 <= s < MAX_PROCESSES ==>
                 var p := k.procs[s];
                 r.procs[s] == if s < MAX_PROCESSES - 1 && p.state == Sleeping && p.sleepUntil <= r.ticks
                               then p.(state := Ready) else p
  {
    hide Wake;
    WakeFrom(k, k.ticks + 1, 0);
  }

  // ---------- every call keeps the invariant ----------

  /** The one call that makes process 1 its own parent: SIGKILL to pid 0 while a process exists and a slot is free. */
  predicate KillsFreeSlot(k: Kernel, c: Call) {
    c == Kill(0, SIGKILL) && 0 < Used(k) < MAX_PROCESSES
  }

  /** exit_process on the first free slot, up to its call of schedule. */
  lemma DieFreeInv(k: Kernel)
    requires Inv(k) && Shape(k) && Used(k) < MAX_PROCESSES
    ensures Inv(Die(k, Used(k)))
    ensures Eldest(Die(k, Used(k)).procs) == if Used(k) > 0 then 1 else Eldest(k.procs)
  {
    hide Inv, SafeSignals, Orphan, Eldest;
    UsedInTable(k);
    var slot := Used(k);
    UsedSlot(k, slot);
    assert Notify(k.procs, 0) == k.procs;
    OrphanInv(k, 0);
    var k1 := k.(procs := Orphan(k.procs, 0));
    UsedSlot(k1, slot);
    PutFreeKeepsInv(k1, slot, k1.procs[slot].(state := Zombie));
  }

  lemma DieKeepsInv(k: Kernel, slot: nat)
    requires Inv(k) && Shape(k) && slot <= Used(k) && slot < MAX_PROCESSES
    ensures Inv(Die(k, slot))
    ensures Eldest(Die(k, slot).procs) == if slot == Used(k) > 0 then 1 else Eldest(k.procs)
  {
    hide Inv, Die, Eldest;
    if slot < Used(k) {
      DieInv(k, slot);
    } else {
      DieFreeInv(k);
    }
  }

  lemma ExitInv(k: Kernel, slot: nat)
    requires Inv(k) && slot <= Used(k) && slot < MAX_PROCESSES
    ensures Shape(k) && Inv(Exit(k, slot).k)
    ensures Exit(k, slot).k.nextPid == k.nextPid
    ensures Eldest(Exit(k, slot).k.procs) == if slot == Used(k) > 0 then 1 else Eldest(k.procs)
  {
    hide Inv, Schedule, Die, Eldest;
    UsedInTable(k);
    InvShape(k);
    DieShape(k, slot);
    DieKeepsInv(k, slot);
    ScheduleInv(Die(k, slot));
    DieNext(k, slot);
  }

  lemma DieNext(k: Kernel, slot: nat)
    requires Shape(k) && slot < MAX_PROCESSES
    ensures Die(k, slot).nextPid == k.nextPid && Die(k, slot).ticks == k.ticks
  {
  }

  lemma DeliverInv(k: Kernel)
    requires Inv(k) && k.current < Used(k)
    ensures Shape(k) && Inv(Deliver(k).k) && Deliver(k).k.nextPid == k.nextPid
    ensures Deliver(k).k.current < Used(Deliver(k).k)
    ensures Eldest(Deliver(k).k.procs) == Eldest(k.procs)
  {
    hide Exit, Taken, TakeAll, Doomed, SlotOk, Eldest;
    InvShape(k);
    TakenShape(k);
    TakenInv(k);
    TakenNext(k);
    if Doomed(k.procs[k.current]) {
      UsedInTable(Taken(k));
      ExitInv(Taken(k), k.current);
    }
  }

  lemma TakenNext(k: Kernel)
    requires Shape(k)
    ensures Taken(k).nextPid == k.nextPid
  {
  }

  lemma StateInv(k: Kernel, i: nat, s: State)
    requires Inv(k) && i < Used(k)
    ensures i < |k.procs| && Inv(SetState(k, i, s)) && Eldest(SetState(k, i, s).procs) == Eldest(k.procs)
  {
    hide Inv, SafeSignals;
    UsedInTable(k);
    UsedSlot(k, i);
    SafeFields(k.procs[i], k.procs[i].(state := s));
    PutKeepsInv(k, i, k.procs[i].(state := s));
  }

  /** Signals to pid 0 change only the state of the first free slot. */
  lemma FreeStateInv(k: Kernel, s: State)
    requires Inv(k) && Used(k) < MAX_PROCESSES && (s == Ready || s == Stopped || s == Zombie)
    ensures |k.procs| == MAX_PROCESSES && Inv(SetState(k, Used(k), s))
    ensures Eldest(SetState(k, Used(k), s).procs) == Eldest(k.procs)
  {
    hide Inv, Eldest;
    UsedInTable(k);
    UsedSlot(k, Used(k));
    PutFreeKeepsInv(k, Used(k), k.procs[Used(k)].(state := s));
  }

  lemma CreateInv(k: Kernel, parent: nat)
    requires Inv(k) && parent < k.nextPid
    ensures Inv(Create(k, parent).0)
    ensures var (r, pid) := Create(k, parent);
            if Used(k) == MAX_PROCESSES then r == k && pid == 0
            else pid == k.nextPid && Used(r) == Used(k) + 1 && r.current == k.current && pid == Used(r)
                 && Eldest(r.procs) == (if Used(k) == 0 then parent else Eldest(k.procs))
                 && forall i :: 0 <= i < Used(k) ==> r.procs[i] == k.procs[i]
  {
    FindProcess(k, 0);
    UsedInTable(k);
  }

  lemma SignalsInv(k: Kernel, i: nat, p: Process)
    requires Inv(k) && i < Used(k) && i < |k.procs|
    requires p == k.procs[i].(pending := p.pending, blocked := p.blocked, handlers := p.handlers) && SafeSignals(p)
    ensures Inv(k.(procs := k.procs[i := p])) && Eldest(k.procs[i := p]) == Eldest(k.procs)
  {
    hide Inv, SafeSignals, Eldest;
    UsedInTable(k);
    UsedSlot(k, i);
    PutKeepsInv(k, i, p);
  }

  lemma ForkInv(k: Kernel)
    requires Inv(k)
    ensures k.current < |k.procs| && Inv(ForkCurrent(k).0) && Eldest(ForkCurrent(k).0.procs) == Eldest(k.procs)
  {
    hide Inv, SafeSignals, Create, Eldest;
    UsedInTable(k);
    CurrentInTable(k);
    UsedSlot(k, k.current);
    if HasCurrent(k) {
      var c := k.procs[k.current];
      UsedNext(k);
      CreateInv(k, c.pid);
      var (k1, pid) := Create(k, c.pid);
      FindProcess(k1, pid);
      UsedInTable(k1);
      if pid != 0 {
        var i := pid - 1;
        TakesOver(k1.procs[i], c);
        SignalsInv(k1, i, k1.procs[i].(pending := c.pending, blocked := c.blocked, handlers := c.handlers));
      }
    }
  }

  lemma UsedNext(k: Kernel)
    requires Inv(k)
    ensures Used(k) + 1 == k.nextPid
  {
  }

  lemma CurrentInTable(k: Kernel)
    requires Inv(k)
    ensures k.current < |k.procs|
  {
  }

  lemma TakesOver(p: Process, c: Process)
    requires SafeSignals(c)
    ensures SafeSignals(p.(pending := c.pending, blocked := c.blocked, handlers := c.handlers))
  {
  }

  lemma StopInv(k: Kernel, pid: nat)
    requires Inv(k)
    ensures Shape(k) && Inv(Stop(k, pid)) && Eldest(Stop(k, pid).procs) == Eldest(k.procs)
  {
    hide Inv, Schedule, Eldest;
    InvShape(k);
    FindProcess(k, pid);
    UsedInTable(k);
    var j := Find(k.procs, pid);
    if j < Used(k) {
      StateInv(k, j, Stopped);
      ScheduleInv(SetState(k, j, Stopped));
    } else if j < MAX_PROCESSES {
      FreeStateInv(k, Stopped);
      ScheduleInv(SetState(k, j, Stopped));
    }
  }

  lemma ContinueInv(k: Kernel, pid: nat)
    requires Inv(k)
    ensures Inv(Continue(k, pid)) && Eldest(Continue(k, pid).procs) == Eldest(k.procs)
  {
    hide Inv, Eldest;
    FindProcess(k, pid);
    UsedInTable(k);
    var j := Find(k.procs, pid);
    if j < Used(k) {
      StateInv(k, j, Ready);
    } else if j < MAX_PROCESSES {
      FreeStateInv(k, Ready);
    }
  }

  lemma ExitPidInv(k: Kernel, pid: nat)
    requires Inv(k)
    ensures Shape(k) && Inv(ExitPid(k, pid))
    ensures Eldest(ExitPid(k, pid).procs) == if pid == 0 && 0 < Used(k) < MAX_PROCESSES then 1 else Eldest(k.procs)
  {
    hide Inv, Exit, Eldest;
    InvShape(k);
    FindProcess(k, pid);
    UsedInTable(k);
    var j := Find(k.procs, pid);
    if j < MAX_PROCESSES {
      ExitInv(k, j);
    }
  }

  lemma PendingInv(k: Kernel, i: nat, signum: nat)
    requires Inv(k) && i < MAX_PROCESSES && signum !in {SIGKILL, SIGSTOP, SIGCONT}
    ensures i < |k.procs| && Inv(k.(procs := k.procs[i := AddPending(k.procs[i], signum)]))
    ensures Eldest(k.procs[i := AddPending(k.procs[i], signum)]) == Eldest(k.procs)
  {
    hide Inv, Eldest;
    UsedInTable(k);
    UsedSlot(k, i);
    AddPendingFields(k.procs[i], signum);
    if i < Used(k) {
      AddPendingOk(k.procs[i], signum);
      SignalsInv(k, i, AddPending(k.procs[i], signum));
    } else {
      PutFreeKeepsInv(k, i, AddPending(k.procs[i], signum));
    }
  }

  lemma SendInv(k: Kernel, i: nat, signum: int)
    requires Inv(k) && i < MAX_PROCESSES
    ensures Shape(k) && Inv(Send(k, i, signum))
    ensures Eldest(Send(k, i, signum).procs)
         == if signum == SIGKILL && 0 < Used(k) <= i then 1 else Eldest(k.procs)
  {
    hide Inv, SafeSignals, ExitPid, Stop, Continue, AddPending, Eldest;
    InvShape(k);
    UsedSlot(k, i);
    if 0 < signum < MAX_SIGNALS {
      if signum == SIGKILL {
        ExitPidInv(k, k.procs[i].pid);
      } else if signum == SIGSTOP {
        StopInv(k, k.procs[i].pid);
      } else if signum == SIGCONT {
        ContinueInv(k, k.procs[i].pid);
      } else {
        PendingInv(k, i, signum);
      }
    }
  }

  lemma AddPendingFields(p: Process, signum: nat)
    ensures AddPending(p, signum) == p.(pending := AddPending(p, signum).pending)
  {
  }

  lemma HandlerInv(k: Kernel, signum: int, handler: nat)
    requires Inv(k)
    ensures Shape(k) && |k.procs[k.current].handlers| == MAX_SIGNALS && Inv(PutHandler(k, signum, handler))
    ensures Eldest(PutHandler(k, signum, handler).procs) == Eldest(k.procs)
  {
    hide Inv, Eldest;
    InvShape(k);
    CurrentShape(k);
    UsedSlot(k, k.current);
    if HasCurrent(k) && 0 < signum < MAX_SIGNALS && signum != SIGKILL && signum != SIGSTOP {
      var p := k.procs[k.current];
      SignalsInv(k, k.current, p.(handlers := p.handlers[signum := handler]));
    }
  }

  lemma MaskInv(k: Kernel, i: nat, mask: set<nat>)
    requires Inv(k) && i < Used(k) && i < |k.procs| && mask !! {SIGKILL, SIGSTOP}
    ensures Inv(PutMask(k, i, mask)) && Eldest(PutMask(k, i, mask).procs) == Eldest(k.procs)
  {
    hide Inv, Eldest;
    UsedInTable(k);
    UsedSlot(k, i);
    SignalsInv(k, i, k.procs[i].(blocked := mask));
  }

  lemma BlockInv(k: Kernel)
    requires Inv(k) && k.current < Used(k)
    ensures Shape(k) && Inv(BlockAndSchedule(k)) && BlockAndSchedule(k).nextPid == k.nextPid
    ensures Eldest(BlockAndSchedule(k).procs) == Eldest(k.procs)
  {
    hide Inv, Schedule, Eldest;
    InvShape(k);
    StateInv(k, k.current, Blocked);
    ScheduleInv(SetState(k, k.current, Blocked));
  }

  lemma SuspendInv(k: Kernel, mask: set<nat>)
    requires Inv(k) && k.current < Used(k)
    ensures Shape(k) && Inv(SuspendCurrent(k, mask)) && Eldest(SuspendCurrent(k, mask).procs) == Eldest(k.procs)
  {
    hide Inv, BlockAndSchedule, Eldest;
    InvShape(k);
    UsedSlot(k, k.current);
    var m := mask - {SIGKILL, SIGSTOP};
    MaskInv(k, k.current, m);
    BlockInv(PutMask(k, k.current, m));
    var k2 := BlockAndSchedule(PutMask(k, k.current, m));
    UsedInTable(k2);
    UsedInTable(k);
    MaskInv(k2, k.current, k.procs[k.current].blocked);
  }

  lemma SleepInv(k: Kernel, until: nat)
    requires Inv(k) && k.current < Used(k)
    ensures Shape(k) && Inv(SleepCurrent(k, until)) && Eldest(SleepCurrent(k, until).procs) == Eldest(k.procs)
  {
    hide Inv, Schedule, SafeSignals, Eldest;
    InvShape(k);
    UsedSlot(k, k.current);
    var p := k.procs[k.current].(sleepUntil := until);
    SafeFields(k.procs[k.current], p);
    PutKeepsInv(k, k.current, p);
    var k1 := k.(procs := k.procs[k.current := p]);
    StateInv(k1, k.current, Sleeping);
    ScheduleInv(SetState(k1, k.current, Sleeping));
  }

  /** Every call keeps the table and signal invariants, and all but one leave the parent of process 1 alone. */
  lemma CallKeepsInv(k: Kernel, c: Call)
    requires Inv(k)
    ensures Inv(After(k, c))
    ensures Eldest(After(k, c).procs) == if KillsFreeSlot(k, c) then 1 else Eldest(k.procs)
  {
    hide Inv, Schedule, Exit, Deliver, Send, SuspendCurrent, SleepCurrent, BlockAndSchedule, TickOnce, ForkCurrent,
         Create, PutHandler, UnblockPid, PutMask, Find, Wake, Eldest;
    InvShape(k);
    UsedInTable(k);
    UsedNext(k);
    UsedSlot(k, k.current);
    match c
    case Spawn =>
      CreateInv(k, 0);
      FirstOfNone(k);
    case Fork => ForkInv(k);
    case ExitSelf =>
      if HasCurrent(k) {
        ExitInv(k, k.current);
        ScheduleInv(Exit(k, k.current).k);
      }
    case Kill(pid, signum) =>
      FindProcess(k, pid);
      if Find(k.procs, pid) < MAX_PROCESSES {
        SendInv(k, Find(k.procs, pid), signum);
      }
    case SetHandler(signum, handler) => HandlerInv(k, signum, handler);
    case ChangeMask(how, mask) =>
      if HasCurrent(k) {
        MaskSafe(k, how, mask);
        MaskInv(k, k.current, NewMask(k.procs[k.current].blocked, how, mask));
      }
    case Suspend(mask) =>
      if HasCurrent(k) {
        SuspendInv(k, mask);
      } else {
        SuspendNobody(k, mask);
      }
    case Sleep(until) =>
      if HasCurrent(k) {
        SleepInv(k, until);
      } else {
        SuspendNobody(k, {});
      }
    case Wait =>
      if HasCurrent(k) {
        BlockInv(k);
      }
    case Unblock(pid) => UnblockInv(k, pid);
    case Tick(reschedule) => TickInv(k, reschedule);
    case Yield => ScheduleInv(k);
    case HandleSignals =>
      if HasCurrent(k) {
        DeliverInv(k);
      }
  }

  lemma FirstOfNone(k: Kernel)
    requires Inv(k)
    ensures Used(k) == 0 ==> Eldest(k.procs) == 0
  {
    assert SlotOk(k.procs[0], 0, Used(k));
  }

  lemma UnblockInv(k: Kernel, pid: nat)
    requires Inv(k)
    ensures Inv(UnblockPid(k, pid)) && Eldest(UnblockPid(k, pid).procs) == Eldest(k.procs)
    ensures pid == 0 ==> UnblockPid(k, pid) == k
  {
    hide Inv, SafeSignals, Eldest;
    FindProcess(k, pid);
    UsedInTable(k);
    var j := Find(k.procs, pid);
    if j < Used(k) {
      StateInv(k, j, Ready);
    } else if j < MAX_PROCESSES {
      UsedSlot(k, j);
    }
  }

  lemma MaskSafe(k: Kernel, how: int, mask: set<nat>)
    requires Inv(k) && k.current < Used(k) && k.current < |k.procs|
    ensures NewMask(k.procs[k.current].blocked, how, mask) !! {SIGKILL, SIGSTOP}
  {
    hide Inv;
    UsedInTable(k);
    UsedSlot(k, k.current);
  }

  lemma SuspendNobody(k: Kernel, mask: set<nat>)
    requires Shape(k) && !HasCurrent(k)
    ensures SuspendCurrent(k, mask) == k && forall until :: SleepCurrent(k, until) == k
  {
  }

  lemma TickInv(k: Kernel, reschedule: bool)
    requires Inv(k)
    ensures Inv(TickOnce(k, reschedule)) && Eldest(TickOnce(k, reschedule).procs) == Eldest(k.procs)
  {
    hide Inv, Schedule, Wake, Eldest;
    WakeInv(k);
    if reschedule {
      ScheduleInv(k.(ticks := k.ticks + 1, procs := Wake(k.procs, k.ticks + 1, 0)));
    }
  }

  // ---------- what a call has done to its process ----------

  /**
   * SIGKILL and SIGSTOP act at once, whoever gets them and whatever happens in the nested schedule: when signal_send
   * returns the process is a zombie, or stopped. SIGCONT makes only a stopped process ready. With a free slot all act
   * on the first free slot instead.
   */
  lemma SignalsActAtOnce(k: Kernel, i: nat)
    requires Shape(k) && i < MAX_PROCESSES
    ensures var j := Find(k.procs, k.procs[i].pid);
            && j <= i && (k.procs[i].pid != 0 ==> j == i)
            && |Send(k, i, SIGKILL).procs| == |Send(k, i, SIGSTOP).procs| == |Send(k, i, SIGCONT).procs|
              == MAX_PROCESSES
            && Send(k, i, SIGKILL).procs[j].state == Zombie
            && Send(k, i, SIGSTOP).procs[j].state == Stopped
            && Send(k, i, SIGCONT).procs[j].state
               == if k.procs[i].state == k.procs[j].state == Stopped then Ready else k.procs[j].state
  {
    hide Exit, Schedule, Pick;
    var j := Find(k.procs, k.procs[i].pid);
    assert ShapeAt(k.procs[i], i) && ShapeAt(k.procs[j], j);
    ExitedIsZombie(k, j);
    StateShape(k, j, Stopped);
    WaitersStay(SetState(k, j, Stopped), j);
  }

  /** Sending any other signal is without effect exactly if it is pending already or blocked: then it is lost. */
  lemma BlockedSignalsAreLost(k: Kernel, i: nat, signum: int)
    requires Shape(k) && i < MAX_PROCESSES && 0 < signum < MAX_SIGNALS && signum !in {SIGKILL, SIGSTOP, SIGCONT}
    ensures Send(k, i, signum) == k <==> signum in k.procs[i].pending || signum in k.procs[i].blocked
  {
    hide ExitPid, Stop, Continue;
    DroppedExactly(k.procs[i], signum);
    assert k.procs[i := k.procs[i]] == k.procs;
    if Send(k, i, signum) == k {
      assert Send(k, i, signum).procs[i] == k.procs[i];
    } else {
      assert AddPending(k.procs[i], signum) != k.procs[i];
    }
    assert signum in k.procs[i].pending ==> k.procs[i].pending + {signum as nat} == k.procs[i].pending;
  }

  /** A process that called process_sleep is asleep when schedule comes back, whatever ran and exited meanwhile. */
  lemma SleeperSleeps(k: Kernel, until: nat)
    requires Shape(k) && HasCurrent(k)
    ensures |SleepCurrent(k, until).procs| == MAX_PROCESSES
    ensures SleepCurrent(k, until).procs[k.current].state == Sleeping
  {
    hide Schedule, Pick;
    SleepShape(k, until);
    var k1 := k.(procs := k.procs[k.current := k.procs[k.current].(sleepUntil := until)]);
    StateShape(k1, k.current, Sleeping);
    WaitersStay(SetState(k1, k.current, Sleeping), k.current);
  }

  /** sys_sigsuspend leaves its process blocked, with the mask it had before. */
  lemma SuspendedIsBlocked(k: Kernel, mask: set<nat>)
    requires Shape(k) && HasCurrent(k)
    ensures var r := SuspendCurrent(k, mask);
            |r.procs| == MAX_PROCESSES && r.procs[k.current].state == Blocked
            && r.procs[k.current].blocked == k.procs[k.current].blocked
  {
    hide Schedule, Pick;
    MaskShape(k, k.current, mask - {SIGKILL, SIGSTOP});
    var k1 := PutMask(k, k.current, mask - {SIGKILL, SIGSTOP});
    StateShape(k1, k.current, Blocked);
    WaitersStay(SetState(k1, k.current, Blocked), k.current);
  }

  // ---------- runs ----------

  function Boot(): Kernel {
    Kernel(seq(MAX_PROCESSES, _ => FreeSlot()), 0, 1, 0)
  }

  /** The state that a run of calls leads to; the invariant that each call needs is kept by the one before. */
  ghost function Run(k: Kernel, calls: seq<Call>): (end: Kernel)
    requires Inv(k)
    ensures Inv(end)
    decreases calls
  {
    if calls == [] then k
    else
      CallKeepsInv(k, calls[0]);
      Run(After(k, calls[0]), calls[1..])
  }

  lemma BootInv()
    ensures Inv(Boot())
  {
  }

  /**
   * Signal safety and the shape of the table over all runs: slot i holds pid 0 or i + 1, used slots come first, SIGKILL
   * and SIGSTOP are never blocked, caught or pending, SIGCONT is never pending, and parents are older than their
   * children, except that process 1 may have become its own parent.
   */
  lemma ReachableStates(calls: seq<Call>)
    ensures Inv(Boot())
    ensures var t := Run(Boot(), calls).procs;
            && |t| == MAX_PROCESSES
            && (forall i :: 0 <= i < MAX_PROCESSES ==> SafeSignals(t[i]))
            && (forall i :: 0 <= i < MAX_PROCESSES ==> t[i].pid == 0 || (t[i].pid == i + 1 && ParentOk(t[i])))
            && (forall i, j :: 0 <= i < j < MAX_PROCESSES && t[j].pid != 0 ==> t[i].pid != 0)
  {
    hide Run;
    BootInv();
    var end := Run(Boot(), calls);
    forall i | 0 <= i < MAX_PROCESSES
      ensures SafeSignals(end.procs[i]) && (end.procs[i].pid != 0 <==> i < Used(end))
              && (end.procs[i].pid == 0 || (end.procs[i].pid == i + 1 && ParentOk(end.procs[i])))
    {
      UsedSlot(end, i);
    }
  }

  // ---------- the forest of parents, and the one call that ends it ----------

  /**
   * One call keeps the parents a forest exactly if it is not a SIGKILL to pid 0 while a process exists and a slot is
   * free; and no call makes a forest of them again.
   */
  lemma CallKeepsForest(k: Kernel, c: Call)
    requires Inv(k)
    ensures Forest(After(k, c)) <==> Forest(k) && !KillsFreeSlot(k, c)
  {
    CallKeepsInv(k, c);
    hide After, Inv;
  }

  /** Some call of a run is a SIGKILL to pid 0 while a process exists and a slot is free. */
  ghost predicate EverKillsFreeSlot(k: Kernel, calls: seq<Call>)
    requires Inv(k)
    decreases calls
  {
    calls != []
    && (KillsFreeSlot(k, calls[0]) || (CallKeepsInv(k, calls[0]); EverKillsFreeSlot(After(k, calls[0]), calls[1..])))
  }

  lemma {:induction false} RunKeepsForest(k: Kernel, calls: seq<Call>)
    requires Inv(k)
    ensures Forest(Run(k, calls)) <==> Forest(k) && !EverKillsFreeSlot(k, calls)
    decreases |calls|
  {
    hide After, Inv, Forest, KillsFreeSlot;
    if calls != [] {
      CallKeepsInv(k, calls[0]);
      CallKeepsForest(k, calls[0]);
      RunKeepsForest(After(k, calls[0]), calls[1..]);
    }
  }

  /** In a reachable state every parent is older than its child exactly if no such call has been made. */
  lemma ParentsAreOlder(calls: seq<Call>)
    ensures Inv(Boot())
    ensures var end := Run(Boot(), calls);
            |end.procs| == MAX_PROCESSES
            && ((forall i :: 0 <= i < MAX_PROCESSES && end.procs[i].pid != 0 ==> end.procs[i].parent < end.procs[i].pid)
                <==> !EverKillsFreeSlot(Boot(), calls))
  {
    hide Run, EverKillsFreeSlot;
    BootInv();
    var end := Run(Boot(), calls);
    RunKeepsForest(Boot(), calls);
    OlderIffForest(end);
  }

  lemma OlderIffForest(k: Kernel)
    requires Inv(k)
    ensures Forest(k) <==>
              forall i :: 0 <= i < MAX_PROCESSES && k.procs[i].pid != 0 ==> k.procs[i].parent < k.procs[i].pid
  {
    forall i | 0 <= i < MAX_PROCESSES
      ensures SlotOk(k.procs[i], i, Used(k)) && (k.procs[i].pid != 0 <==> i < Used(k))
    {
      UsedSlot(k, i);
    }
    hide SafeSignals;
  }

  /** Following parents from any process ends, in at most as many steps as its pid. */
  ghost function Ancestors(k: Kernel, pid: nat): (r: seq<nat>)
    requires Inv(k) && Forest(k)
    ensures |r| <= pid
    decreases pid
  {
    if pid == 0 || pid > Used(k) then []
    else
      UsedSlot(k, pid - 1);
      [pid] + Ancestors(k, k.procs[pid - 1].parent)
  }

  /**
   * sys_kill in signals.c takes pid 0 for the first free slot. Its SIGKILL "exits" that slot, and the loop for orphans
   * gives all processes with parent 0, process 1 among them, process 1 as their parent. So it is when the call returns,
   * whatever exited in the nested schedule, and the slot is a zombie without a pid.
   */
  lemma KillOfPidZeroMakesInitItsOwnParent(k: Kernel)
    requires Inv(k) && 0 < Used(k) < MAX_PROCESSES
    ensures Shape(k)
    ensures var r := KillPid(k, 0, SIGKILL);
            && |r.procs| == MAX_PROCESSES && r.procs[0].pid == r.procs[0].parent == 1
            && r.procs[Used(k)].pid == 0 && r.procs[Used(k)].state == Zombie && Used(r) == Used(k)
  {
    hide Exit, Inv, SafeSignals;
    InvShape(k);
    FindProcess(k, 0);
    UsedSlot(k, Used(k));
    ExitInv(k, Used(k));
    ExitedIsZombie(k, Used(k));
    var r := KillPid(k, 0, SIGKILL);
    UsedInTable(r);
    UsedSlot(r, 0);
    UsedSlot(r, Used(k));
  }
}
