/** The process table in memory: the loops of the scheduler, signal delivery, exits and the calls built on them. */
module ProcessTable {
  import opened Bytes
  import opened Invariants
  import opened Processes
  import C = Calls
  import S = Scheduling

  /** Delivery in terms of the signal loop. */
  lemma DeliverIs(k: Kernel)
    requires Shape(k)
    ensures Shape(S.Taken(k))
    ensures var p := k.procs[k.current];
            if p.handlingSignal then S.Taken(k) == k && S.Deliver(k).k == k
            else
              S.Taken(k) == k.(procs := k.procs[k.current := Take(p, 1).0])
              && S.Deliver(k).k == if Take(p, 1).1 then S.Exit(S.Taken(k), k.current).k else S.Taken(k)
  {
    hide Take, S.Exit, Terminates, RunSet;
    S.TakenShape(k);
    assert k.procs[k.current := k.procs[k.current]] == k.procs;
  }

  /** What the delivery loop needs to know of the state it starts in. */
  lemma DeliverFacts(k: Kernel)
    requires Inv(k) && k.current < Used(k)
    ensures Shape(k) && Shape(S.Taken(k)) && |k.procs| == MAX_PROCESSES && k.current < MAX_PROCESSES
    ensures |k.procs[k.current].handlers| == MAX_SIGNALS
    ensures Inv(S.Deliver(k).k) && S.Deliver(k).k.current < Used(S.Deliver(k).k)
    ensures Inv(S.Taken(k)) && Find(S.Taken(k).procs, k.procs[k.current].pid) == k.current
    ensures S.Others(S.Taken(k), k.current) == S.Others(k, k.current)
    ensures k.(procs := k.procs[k.current := k.procs[k.current]]) == k
  {
    UsedInTable(k);
    UsedSlot(k, k.current);
    C.DeliverInv(k);
    InvShape(k);
    assert k.procs[k.current := k.procs[k.current]] == k.procs;
    hide Inv, Shape, S.Taken, S.Deliver, RunSet;
    TakenInv(k);
    S.TakenShape(k);
    FindProcess(S.Taken(k), k.procs[k.current].pid);
  }

  class KernelState {
    const processes: array<Process>
    var currentProcessIndex: nat
    var nextPid: nat
    var timerTicks: nat

    ghost function K(): Kernel
      reads this, processes
    {
      Kernel(processes[..], currentProcessIndex, nextPid, timerTicks)
    }

    ghost predicate Valid()
      reads this, processes
    {
      processes.Length == MAX_PROCESSES && Inv(K())
    }

    /** init_processes */
    constructor ()
      ensures Valid() && fresh(processes) && K() == C.Boot()
    {
      processes := new Process[MAX_PROCESSES](_ => FreeSlot());
      currentProcessIndex, nextPid, timerTicks := 0, 1, 0;
      new;
      assert processes[..] == C.Boot().procs;
      C.BootInv();
    }

    /** The first slot with this pid; MAX_PROCESSES stands for NULL. */
    method GetProcess(pid: nat) returns (i: nat)
      requires processes.Length == MAX_PROCESSES
      ensures i == Find(processes[..], pid)
    {
      i := 0;
      while i < MAX_PROCESSES && processes[i].pid != pid
        invariant i <= MAX_PROCESSES
        invariant forall j :: 0 <= j < i ==> processes[j].pid != pid
      {
        i := i + 1;
      }
      FindIs(processes[..], pid, i);
    }

    lemma FindIs(t: Table, pid: nat, i: nat)
      requires i <= |t| && (i < |t| ==> t[i].pid == pid)
      requires forall j :: 0 <= j < i ==> t[j].pid != pid
      ensures Find(t, pid) == i
    {
    }

    lemma AheadNext(k: Kernel, d: nat)
      requires k.current < MAX_PROCESSES
      ensures ((if d == 0 then k.current else S.Ahead(k, d)) + 1) % MAX_PROCESSES == S.Ahead(k, d + 1)
    {
    }

    /** The first `n` slots behind the current one are not runnable. */
    ghost predicate NonePicked(k: Kernel, n: nat)
      requires |k.procs| == MAX_PROCESSES
    {
      forall d :: 1 <= d <= n ==> !Runnable(k.procs[S.Ahead(k, d)])
    }

    lemma RunnableIs(p: Process)
      ensures Runnable(p) <==> p.pid != 0 && (p.state == Ready || p.state == Running)
    {
    }

    lemma OneMorePassed(k: Kernel, n: nat)
      requires |k.procs| == MAX_PROCESSES && n > 0 && NonePicked(k, n - 1) && !Runnable(k.procs[S.Ahead(k, n)])
      ensures NonePicked(k, n)
    {
      hide S.Ahead, Runnable;
    }

    lemma PickedAt(k: Kernel, n: nat)
      requires Shape(k) && |k.procs| == MAX_PROCESSES && 1 <= n <= MAX_PROCESSES && NonePicked(k, n - 1)
      requires n < MAX_PROCESSES ==> Runnable(k.procs[S.Ahead(k, n)])
      ensures S.Pick(k, 1) == n
    {
      hide S.Ahead, S.Pick, Shape, Runnable;
      S.PickIs(k, 1, n);
    }

    /** The search of schedule: the next runnable slot becomes current, unless it is only the one that was. */
    method PickNext() returns (found: bool)
      requires processes.Length == MAX_PROCESSES && Shape(K())
      modifies this`currentProcessIndex
      ensures found <==> S.Pick(old(K()), 1) < MAX_PROCESSES
      ensures currentProcessIndex == if found then S.Ahead(old(K()), S.Pick(old(K()), 1)) else old(currentProcessIndex)
    {
      assert currentProcessIndex < MAX_PROCESSES;
      hide Shape, S.Pick, S.Ahead, NonePicked, Runnable;
      ghost var k := K();
      var prev := currentProcessIndex;
      var checked := 0;
      while checked < MAX_PROCESSES
        invariant checked <= MAX_PROCESSES
        invariant currentProcessIndex == if checked == 0 then prev else S.Ahead(k, checked)
        invariant NonePicked(k, checked)
      {
        AheadNext(k, checked);
        currentProcessIndex := (currentProcessIndex + 1) % MAX_PROCESSES;
        checked := checked + 1;
        RunnableIs(processes[currentProcessIndex]);
        if processes[currentProcessIndex].pid != 0
           && (processes[currentProcessIndex].state == Ready || processes[currentProcessIndex].state == Running)
        {
          break;
        }
        OneMorePassed(k, checked);
      }
      PickedAt(k, checked);
      found := checked != MAX_PROCESSES;
      if !found {
        currentProcessIndex := prev;
      }
    }

    /** switch_to_process; the scheduler never passes pid 0, which would make a free slot current. */
    method SwitchToProcess(pid: nat)
      requires Valid()
      modifies this`currentProcessIndex, processes
      ensures K() == S.SwitchTo(old(K()), pid) && (pid != 0 ==> Valid())
    {
      hide Inv;
      ghost var k := K();
      UsedInTable(k);
      FindProcess(k, pid);
      var procIndex := GetProcess(pid);
      if procIndex == MAX_PROCESSES {
        return;
      }
      if pid != 0 {
        SwitchToInv(k, procIndex);
      }
      processes[procIndex] := processes[procIndex].(state := Running);
      processes[procIndex] := processes[procIndex].(cpuTime := processes[procIndex].cpuTime + 1);
      currentProcessIndex := procIndex;
      assert processes[..] == S.SwitchTo(k, pid).procs;
    }

    lemma SwitchToInv(k: Kernel, i: nat)
      requires Inv(k) && i < Used(k)
      ensures i < |k.procs|
      ensures var p := k.procs[i];
              Inv(k.(current := i, procs := k.procs[i := p.(state := Running, cpuTime := p.cpuTime + 1)]))
    {
      hide Inv, SafeSignals;
      UsedInTable(k);
      UsedSlot(k, i);
      var p := k.procs[i];
      SafeFields(p, p.(state := Running, cpuTime := p.cpuTime + 1));
      PutKeepsInv(k, i, p.(state := Running, cpuTime := p.cpuTime + 1));
      MoveKeepsInv(k.(procs := k.procs[i := p.(state := Running, cpuTime := p.cpuTime + 1)]), i);
    }

    lemma SwitchToCurrent(k: Kernel)
      requires Inv(k) && Shape(k) && k.current < Used(k)
      ensures S.SwitchTo(k, k.procs[k.current].pid) == S.Switch(k) && k.procs[k.current].pid != 0
    {
      hide Inv, Shape;
      UsedInTable(k);
      UsedSlot(k, k.current);
      FindProcess(k, k.procs[k.current].pid);
    }

    /** schedule() */
    method Schedule()
      requires Valid()
      modifies this`currentProcessIndex, processes
      ensures Valid() && Shape(old(K())) && K() == S.Schedule(old(K())).k
      decreases |RunSet(processes[..])|, 1
    {
      hide Inv, Shape, S.Switch, S.SwitchTo, S.Deliver, S.Pick, RunSet, S.Ahead;
      ghost var k := K();
      InvShape(k);
      var found := PickNext();
      if !found {
        return;
      }
      ghost var d := S.Pick(k, 1);
      S.EnterShape(k, d);
      EnterInv(k, d);
      processes[currentProcessIndex] := processes[currentProcessIndex].(state := Running);
      assert K() == S.Enter(k, d);
      S.SmallerSet(RunSet(k.procs), currentProcessIndex);
      SignalHandlePending(currentProcessIndex);
      InvShape(K());
      SwitchToCurrent(K());
      SwitchToProcess(processes[currentProcessIndex].pid);
    }

    /** signal_handle_pending, called for the current process only */
    method SignalHandlePending(i: nat)
      requires Valid() && i == currentProcessIndex < Used(K())
      modifies this`currentProcessIndex, processes
      ensures Valid() && Shape(old(K())) && K() == S.Deliver(old(K())).k && currentProcessIndex < Used(K())
      decreases S.Others(K(), i), 3
    {
      hide Inv, Shape, Deliverable, Terminates, S.Exit, S.Deliver, S.Taken, S.Others, Take, Find;
      ghost var k := K();
      DeliverFacts(k);
      DeliverIs(k);
      ghost var p := k.procs[i];
      if processes[i].handlingSignal {
        return;
      }
      var signum := 1;
      while signum < MAX_SIGNALS
        invariant 1 <= signum <= MAX_SIGNALS && K() == k.(procs := k.procs[i := processes[i]])
        invariant |processes[i].handlers| == MAX_SIGNALS && processes[i].pid == p.pid && !processes[i].handlingSignal
        invariant Take(p, 1) == Take(processes[i], signum)
      {
        TakeStep(processes[i], signum);
        if Deliverable(processes[i], signum) {
          processes[i] := processes[i].(pending := processes[i].pending - {signum});
          var handler := processes[i].handlers[signum];
          if handler == SIG_DFL {
            if Terminates(signum) {
              assert K() == S.Taken(k);
              ExitProcess(processes[i].pid);
              return;
            }
            // The actions 1 (continue) and 2 (stop) share a bit with SIGTERM, so only "ignore" is left.
          } else if handler != SIG_IGN {
            processes[i] := processes[i].(handlingSignal := true);
            // The user's handler runs here.
            processes[i] := processes[i].(handlingSignal := false);
            assert K() == S.Taken(k);
            return;
          }
        }
        signum := signum + 1;
      }
      TakeNothing(processes[i]);
    }

    /** exit_process, for any pid; pid 0 stands for the first free slot */
    method ExitProcess(pid: nat)
      requires Valid()
      modifies this`currentProcessIndex, processes
      ensures Valid() && Shape(old(K())) && K() == C.ExitPid(old(K()), pid)
      decreases S.Others(K(), Find(processes[..], pid)), 2
    {
      hide Inv, Shape, RunSet, S.Schedule, SafeSignals;
      ghost var k := K();
      InvShape(k);
      UsedInTable(k);
      FindProcess(k, pid);
      var i := GetProcess(pid);
      if i == MAX_PROCESSES {
        return;
      }
      UsedSlot(k, i);
      S.DieShape(k, i);
      C.DieKeepsInv(k, i);
      if processes[i].exitSignal != 0 {
        // No code sets an exit signal.
        assert false;
      }
      var parentPid := processes[i].parent;
      if parentPid != 0 {
        var parent := GetProcess(parentPid);
        if parent < MAX_PROCESSES {
          var _ := SignalAddPending(parent, SIGCHLD);
        }
      }
      assert processes[..] == S.Notify(k.procs, k.procs[i].parent);
      AdoptOrphans(pid);
      processes[i] := processes[i].(state := Zombie);
      assert K() == S.Die(k, i);
      Schedule();
    }

    /** The loop of exit_process that gives the children of a dead process to process 1. */
    method AdoptOrphans(pid: nat)
      requires processes.Length == MAX_PROCESSES
      modifies processes
      ensures processes[..] == S.Orphan(old(processes[..]), pid)
    {
      ghost var t := processes[..];
      var j := 0;
      while j < MAX_PROCESSES
        invariant j <= MAX_PROCESSES
        invariant forall x :: 0 <= x < j ==> processes[x] == S.Orphan(t, pid)[x]
        invariant forall x :: j <= x < MAX_PROCESSES ==> processes[x] == t[x]
      {
        if processes[j].pid != 0 && processes[j].parent == pid {
          processes[j] := processes[j].(parent := 1);
        }
        j := j + 1;
      }
    }

    /** signal_add_pending */
    method SignalAddPending(i: nat, signum: nat) returns (r: int)
      requires processes.Length == MAX_PROCESSES && i < MAX_PROCESSES && 0 < signum < MAX_SIGNALS
      modifies processes
      ensures r == 0 && processes[..] == old(processes[..])[i := AddPending(old(processes[i]), signum)]
    {
      r := 0;
      if signum == SIGKILL || signum == SIGSTOP {
        processes[i] := processes[i].(pending := processes[i].pending + {signum});
        return;
      }
      if signum !in processes[i].blocked {
        processes[i] := processes[i].(pending := processes[i].pending + {signum});
      }
    }

    // ---------- calls on processes ----------

    /** create_process; the process starts with no pending or blocked signals and default handlers */
    method CreateProcess(parentPid: nat) returns (pid: nat)
      requires Valid()
      modifies this`nextPid, processes
      ensures (K(), pid) == C.Create(old(K()), parentPid) && (parentPid < old(nextPid) ==> Valid())
    {
      hide Inv;
      ghost var k := K();
      UsedInTable(k);
      if parentPid < nextPid {
        C.CreateInv(k, parentPid);
      }
      var i := GetProcess(0);
      if i == MAX_PROCESSES {
        return 0;
      }
      processes[i] := Process(nextPid, parentPid, Ready, processes[i].sleepUntil, 0, {}, {},
                              seq(MAX_SIGNALS, _ => SIG_DFL), false, 0);
      pid := nextPid;
      nextPid := nextPid + 1;
      assert processes[..] == C.Create(k, parentPid).0.procs;
    }

    /** sys_fork; the result -1 is modelled as pid 0 */
    method SysFork() returns (childPid: nat)
      requires Valid()
      modifies this`nextPid, processes
      ensures Valid() && currentProcessIndex < |old(K()).procs| && (K(), childPid) == C.ForkCurrent(old(K()))
    {
      hide Inv, C.Create;
      ghost var k := K();
      C.CurrentInTable(k);
      UsedInTable(k);
      UsedSlot(k, k.current);
      C.UsedNext(k);
      C.ForkInv(k);
      if processes[currentProcessIndex].pid == 0 {
        return 0;
      }
      var current := processes[currentProcessIndex];
      childPid := CreateProcess(current.pid);
      if childPid == 0 {
        return 0;
      }
      var child := GetProcess(childPid);
      if child == MAX_PROCESSES {
        return 0;
      }
      processes[child] := processes[child].(pending := current.pending, blocked := current.blocked,
                                            handlers := current.handlers);
      assert processes[..] == C.ForkCurrent(k).0.procs;
    }

    /**
     * stop_process and the other calls that set the state of a process and give up the CPU; only the first gets pid 0
     */
    method SetStateAndSchedule(pid: nat, s: State)
      requires Valid() && (pid != 0 || s == Stopped)
      modifies this`currentProcessIndex, processes
      ensures Valid() && Shape(old(K())) && |old(K()).procs| == MAX_PROCESSES
      ensures var i := Find(old(K()).procs, pid);
              if i == MAX_PROCESSES then K() == old(K())
              else Shape(C.SetState(old(K()), i, s)) && K() == S.Schedule(C.SetState(old(K()), i, s)).k
    {
      hide Inv, Shape, S.Schedule;
      ghost var k := K();
      UsedInTable(k);
      InvShape(k);
      FindProcess(k, pid);
      var i := GetProcess(pid);
      if i == MAX_PROCESSES {
        return;
      }
      if pid != 0 {
        C.StateInv(k, i, s);
      } else {
        C.FreeStateInv(k, s);
      }
      InvShape(C.SetState(k, i, s));
      processes[i] := processes[i].(state := s);
      assert K() == C.SetState(k, i, s);
      Schedule();
    }

    /** continue_process */
    method ContinueProcess(pid: nat)
      requires Valid()
      modifies processes
      ensures Valid() && K() == C.Continue(old(K()), pid)
    {
      hide Inv;
      ghost var k := K();
      UsedInTable(k);
      C.ContinueInv(k, pid);
      var i := GetProcess(pid);
      if i == MAX_PROCESSES {
        return;
      }
      if processes[i].state == Stopped {
        processes[i] := processes[i].(state := Ready);
        assert K() == C.SetState(k, i, Ready);
      }
    }

    /** signal_send to the process in slot `i` */
    method SignalSend(i: nat, signum: int) returns (r: int)
      requires Valid() && i < MAX_PROCESSES
      modifies this`currentProcessIndex, processes
      ensures Valid() && Shape(old(K())) && K() == C.Send(old(K()), i, signum)
      ensures r == if signum <= 0 || signum >= MAX_SIGNALS then -1 else 0
    {
      hide Inv, Shape, S.Schedule, C.ExitPid, C.Continue, AddPending;
      ghost var k := K();
      InvShape(k);
      UsedInTable(k);
      C.SendInv(k, i, signum);
      if signum <= 0 || signum >= MAX_SIGNALS {
        return -1;
      }
      if signum == SIGKILL {
        ExitProcess(processes[i].pid);
        return 0;
      } else if signum == SIGSTOP {
        SetStateAndSchedule(processes[i].pid, Stopped);
        return 0;
      } else if signum == SIGCONT {
        if processes[i].state == Stopped {
          ContinueProcess(processes[i].pid);
        }
        return 0;
      }
      r := SignalAddPending(i, signum);
      assert K() == C.Send(k, i, signum);
    }

    /** sys_kill of one process */
    method SysKill(pid: nat, signum: nat) returns (r: int)
      requires Valid()
      modifies this`currentProcessIndex, processes
      ensures Valid() && Shape(old(K())) && K() == C.KillPid(old(K()), pid, signum)
      ensures r == if 0 < signum < MAX_SIGNALS && Find(old(K()).procs, pid) < MAX_PROCESSES then 0 else -1
    {
      hide Inv, Shape, C.Send;
      InvShape(K());
      UsedInTable(K());
      if signum >= MAX_SIGNALS {
        return -1;
      }
      var i := GetProcess(pid);
      if i == MAX_PROCESSES {
        return -1;
      }
      r := SignalSend(i, signum);
    }

    /** The caller may set the handler of this signal. */
    predicate Settable(k: Kernel, signum: int)
      requires k.current < |k.procs|
    {
      0 < signum < MAX_SIGNALS && signum != SIGKILL && signum != SIGSTOP && k.procs[k.current].pid != 0
    }

    /** signal_set_handler; the old handler is returned */
    method SignalSetHandler(signum: int, handler: nat) returns (r: int)
      requires Valid()
      modifies processes
      ensures Valid() && Shape(old(K())) && |old(K()).procs[currentProcessIndex].handlers| == MAX_SIGNALS
      ensures K() == C.PutHandler(old(K()), signum, handler)
      ensures r == if Settable(old(K()), signum)
                   then AsInt(old(K()).procs[currentProcessIndex].handlers[signum]) else -1
    {
      hide Inv, Shape, AsInt;
      ghost var k := K();
      InvShape(k);
      UsedInTable(k);
      C.CurrentShape(k);
      C.CurrentInTable(k);
      C.HandlerInv(k, signum, handler);
      r := -1;
      if signum <= 0 || signum >= MAX_SIGNALS || processes[currentProcessIndex].pid == 0
         || signum == SIGKILL || signum == SIGSTOP
      {
        return;
      }
      var p := processes[currentProcessIndex];
      r := AsInt(p.handlers[signum]);
      processes[currentProcessIndex] := p.(handlers := p.handlers[signum := handler]);
      assert K() == C.PutHandler(k, signum, handler);
    }

    /** signal_set_action; `set` is false for a NULL action, and `old_` is what goes into *oldact */
    method SignalSetAction(signum: int, set_: bool, handler: nat) returns (r: int, old_: nat)
      requires Valid()
      modifies processes
      ensures Valid() && Shape(old(K())) && |old(K()).procs[currentProcessIndex].handlers| == MAX_SIGNALS
      ensures K() == if set_ then C.PutHandler(old(K()), signum, handler) else old(K())
      ensures r == if Settable(old(K()), signum) then 0 else -1
      ensures r == 0 ==> old_ == old(K()).procs[currentProcessIndex].handlers[signum]
    {
      hide Inv, Shape;
      ghost var k := K();
      InvShape(k);
      UsedInTable(k);
      C.CurrentShape(k);
      C.CurrentInTable(k);
      C.HandlerInv(k, signum, handler);
      r, old_ := -1, 0;
      if signum <= 0 || signum >= MAX_SIGNALS || processes[currentProcessIndex].pid == 0
         || signum == SIGKILL || signum == SIGSTOP
      {
        return;
      }
      var p := processes[currentProcessIndex];
      old_ := p.handlers[signum];
      if set_ {
        processes[currentProcessIndex] := p.(handlers := p.handlers[signum := handler]);
        assert K() == C.PutHandler(k, signum, handler);
      }
      r := 0;
    }

    /** signal_proc_mask; `set_` is false for a NULL set, and `oldMask` is what goes into *oldset */
    method SignalProcMask(how: int, set_: bool, mask: set<nat>) returns (r: int, oldMask: set<nat>)
      requires Valid()
      modifies processes
      ensures Valid() && currentProcessIndex < |old(K()).procs|
      ensures K() == if set_ then C.After(old(K()), C.ChangeMask(how, mask)) else old(K())
      ensures r == if old(K()).procs[currentProcessIndex].pid != 0 && (set_ ==> 0 <= how <= 2) then 0 else -1
      ensures old(K()).procs[currentProcessIndex].pid != 0 ==> oldMask == old(K()).procs[currentProcessIndex].blocked
    {
      hide Inv, Shape;
      ghost var k := K();
      UsedInTable(k);
      C.CurrentInTable(k);
      C.CallKeepsInv(k, C.ChangeMask(how, mask));
      r, oldMask := -1, {};
      assert k.procs[k.current := k.procs[k.current]] == k.procs;
      if processes[currentProcessIndex].pid == 0 {
        return;
      }
      oldMask := processes[currentProcessIndex].blocked;
      if !set_ {
        r := 0;
        return;
      }
      var m := mask - {SIGKILL, SIGSTOP};
      if how == 0 {
        processes[currentProcessIndex] := processes[currentProcessIndex].(blocked := oldMask + m);
      } else if how == 1 {
        processes[currentProcessIndex] := processes[currentProcessIndex].(blocked := oldMask - m);
      } else if how == 2 {
        processes[currentProcessIndex] := processes[currentProcessIndex].(blocked := m);
      } else {
        return;
      }
      r := 0;
    }

    /** signal_block; the old mask is the result, unless there is no process */
    method SignalBlock(mask: set<nat>) returns (ok: bool, oldMask: set<nat>)
      requires Valid()
      modifies processes
      ensures Valid() && K() == C.After(old(K()), C.ChangeMask(0, mask)) && currentProcessIndex < |old(K()).procs|
      ensures ok <==> old(K()).procs[currentProcessIndex].pid != 0
      ensures ok ==> oldMask == old(K()).procs[currentProcessIndex].blocked
    {
      hide Inv, Shape;
      ghost var k := K();
      UsedInTable(k);
      C.CurrentInTable(k);
      C.CallKeepsInv(k, C.ChangeMask(0, mask));
      ok, oldMask := processes[currentProcessIndex].pid != 0, processes[currentProcessIndex].blocked;
      if ok {
        processes[currentProcessIndex] :=
          processes[currentProcessIndex].(blocked := oldMask + (mask - {SIGKILL, SIGSTOP}));
      }
    }

    /** signal_unblock, which takes all of `mask` off; what cannot be blocked is not in the old mask either */
    method SignalUnblock(mask: set<nat>) returns (ok: bool, oldMask: set<nat>)
      requires Valid()
      modifies processes
      ensures Valid() && K() == C.After(old(K()), C.ChangeMask(1, mask)) && currentProcessIndex < |old(K()).procs|
      ensures ok <==> old(K()).procs[currentProcessIndex].pid != 0
      ensures ok ==> oldMask == old(K()).procs[currentProcessIndex].blocked
    {
      ghost var k := K();
      UsedInTable(k);
      C.CurrentInTable(k);
      UsedSlot(k, k.current);
      hide Inv, Shape;
      C.CallKeepsInv(k, C.ChangeMask(1, mask));
      ok, oldMask := processes[currentProcessIndex].pid != 0, processes[currentProcessIndex].blocked;
      if ok {
        assert oldMask - mask == oldMask - (mask - {SIGKILL, SIGSTOP});
        processes[currentProcessIndex] := processes[currentProcessIndex].(blocked := oldMask - mask);
      }
    }

    /** signal_set_mask */
    method SignalSetMask(mask: set<nat>) returns (r: int, oldMask: set<nat>)
      requires Valid()
      modifies processes
      ensures Valid() && K() == C.After(old(K()), C.ChangeMask(2, mask)) && currentProcessIndex < |old(K()).procs|
      ensures r == if old(K()).procs[currentProcessIndex].pid != 0 then 0 else -1
      ensures r == 0 ==> oldMask == old(K()).procs[currentProcessIndex].blocked
    {
      hide Inv, Shape;
      ghost var k := K();
      UsedInTable(k);
      C.CurrentInTable(k);
      C.CallKeepsInv(k, C.ChangeMask(2, mask));
      r, oldMask := -1, processes[currentProcessIndex].blocked;
      if processes[currentProcessIndex].pid != 0 {
        processes[currentProcessIndex] := processes[currentProcessIndex].(blocked := mask - {SIGKILL, SIGSTOP});
        r := 0;
      }
    }

    /** sys_exit */
    method SysExit()
      requires Valid()
      modifies this`currentProcessIndex, processes
      ensures Valid() && K() == C.After(old(K()), C.ExitSelf)
    {
      hide Inv, Shape, S.Exit, S.Schedule;
      ghost var k := K();
      UsedInTable(k);
      C.CurrentInTable(k);
      UsedSlot(k, k.current);
      FindProcess(k, k.procs[k.current].pid);
      if processes[currentProcessIndex].pid != 0 {
        ExitProcess(processes[currentProcessIndex].pid);
        Schedule();
      }
    }

    /** sys_sigsuspend, from the point where the mask is in kernel memory */
    method SysSigsuspend(mask: set<nat>)
      requires Valid()
      modifies this`currentProcessIndex, processes
      ensures Valid() && K() == C.After(old(K()), C.Suspend(mask))
    {
      hide Inv, Shape, S.Schedule;
      ghost var k := K();
      UsedInTable(k);
      C.CurrentInTable(k);
      UsedSlot(k, k.current);
      InvShape(k);
      C.CallKeepsInv(k, C.Suspend(mask));
      if processes[currentProcessIndex].pid == 0 {
        return;
      }
      var current := currentProcessIndex;
      var oldMask := processes[current].blocked;
      C.MaskInv(k, current, mask - {SIGKILL, SIGSTOP});
      processes[current] := processes[current].(blocked := mask - {SIGKILL, SIGSTOP});
      assert K() == C.PutMask(k, current, mask - {SIGKILL, SIGSTOP});
      FindProcess(K(), k.procs[k.current].pid);
      SetStateAndSchedule(processes[current].pid, Blocked);
      processes[current] := processes[current].(blocked := oldMask);
    }

    /** How many ticks process_sleep adds; the product is taken in 32 bits. */
    function TicksFor(frequency: nat, ms: nat): nat {
      frequency * ms % 0x1_0000_0000 / 1000
    }

    /** The tick count is right, up to rounding down, exactly if the product fits into 32 bits. */
    lemma TicksForExactly(frequency: nat, ms: nat)
      ensures TicksFor(frequency, ms) <= frequency * ms / 1000
      ensures TicksFor(frequency, ms) == frequency * ms / 1000 <==> frequency * ms < 0x1_0000_0000
    {
      Truncated(frequency * ms);
    }

    lemma Truncated(x: nat)
      ensures x % 0x1_0000_0000 / 1000 <= x / 1000
      ensures x % 0x1_0000_0000 / 1000 == x / 1000 <==> x < 0x1_0000_0000
    {
    }

    /** process_sleep of a process; without one the call spins in timer_sleep and changes nothing here */
    method ProcessSleep(frequency: nat, ms: nat)
      requires Valid()
      modifies this`currentProcessIndex, processes
      ensures Valid() && K() == C.After(old(K()), C.Sleep(old(timerTicks) + TicksFor(frequency, ms)))
    {
      hide Inv, Shape, S.Schedule, TicksFor;
      ghost var k := K();
      UsedInTable(k);
      C.CurrentInTable(k);
      InvShape(k);
      if processes[currentProcessIndex].pid == 0 {
        return;
      }
      var until := timerTicks + TicksFor(frequency, ms);
      SleepUntilSet(k, until);
      processes[currentProcessIndex] := processes[currentProcessIndex].(sleepUntil := until);
      assert K() == k.(procs := k.procs[k.current := k.procs[k.current].(sleepUntil := until)]);
      SetStateAndSchedule(processes[currentProcessIndex].pid, Sleeping);
    }

    /** Setting the wake-up tick of the current process keeps the table sound and the process where it is. */
    lemma SleepUntilSet(k: Kernel, until: nat)
      requires Inv(k) && k.current < |k.procs| && k.procs[k.current].pid != 0
      ensures var k1 := k.(procs := k.procs[k.current := k.procs[k.current].(sleepUntil := until)]);
              Inv(k1) && Find(k1.procs, k.procs[k.current].pid) == k.current < MAX_PROCESSES
    {
      UsedSlot(k, k.current);
      var p := k.procs[k.current].(sleepUntil := until);
      hide Inv;
      SafeFields(k.procs[k.current], p);
      PutKeepsInv(k, k.current, p);
      FindProcess(k.(procs := k.procs[k.current := p]), p.pid);
    }

    /** unblock_process */
    method UnblockProcess(pid: nat)
      requires Valid()
      modifies processes
      ensures Valid() && K() == C.UnblockPid(old(K()), pid)
    {
      hide Inv;
      ghost var k := K();
      UsedInTable(k);
      C.UnblockInv(k, pid);
      var i := GetProcess(pid);
      if i == MAX_PROCESSES {
        return;
      }
      if processes[i].state == Blocked {
        processes[i] := processes[i].(state := Ready);
        assert K() == C.SetState(k, i, Ready);
      }
    }

    /** One round of the wake-up loop of timer_handler, which takes its index for a pid */
    method WakeOne(i: nat)
      requires processes.Length == MAX_PROCESSES
      modifies processes
      ensures processes[..] == C.WakeOne(old(processes[..]), timerTicks, i)
    {
      var j := GetProcess(i);
      if j < MAX_PROCESSES && processes[j].state == Sleeping {
        if timerTicks >= processes[j].sleepUntil {
          processes[j] := processes[j].(state := Ready);
        }
      }
    }

    method WakeSleepers()
      requires processes.Length == MAX_PROCESSES
      modifies processes
      ensures processes[..] == C.Wake(old(processes[..]), timerTicks, 0)
    {
      hide C.WakeOne;
      ghost var t := processes[..];
      var i := 0;
      while i < MAX_PROCESSES
        invariant i <= MAX_PROCESSES
        invariant C.Wake(processes[..], timerTicks, i) == C.Wake(t, timerTicks, 0)
      {
        WakeOne(i);
        i := i + 1;
      }
    }

    /** timer_handler without its callback; below 100 Hz the division would be by zero */
    method TimerHandler(frequency: nat)
      requires Valid() && frequency >= 100
      modifies this, processes
      ensures Valid() && K() == C.TickOnce(old(K()), (old(timerTicks) + 1) % (frequency / 100) == 0)
    {
      hide Inv, Shape, S.Schedule, C.Wake;
      ghost var k := K();
      C.WakeInv(k);
      UsedInTable(k);
      timerTicks := timerTicks + 1;
      WakeSleepers();
      if timerTicks % (frequency / 100) == 0 {
        Schedule();
      }
    }
  }
}
