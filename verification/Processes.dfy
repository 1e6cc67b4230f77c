/** The process table as a value: processes, signal delivery, and the scheduler that exits call back into. */
module Processes {
  const MAX_PROCESSES: nat := 64
  const MAX_SIGNALS: nat := 32

  const SIGKILL: nat := 9
  const SIGCHLD: nat := 17
  const SIGCONT: nat := 18
  const SIGSTOP: nat := 19
  const SIGURG: nat := 23
  const SIGWINCH: nat := 28

  /** SIGTERM, which the table of default actions uses as an action. */
  const TERMINATE: bv8 := 15

  /** Handler values; every other one is a function of the user. */
  const SIG_DFL: nat := 0
  const SIG_IGN: nat := 1

  datatype State = Ready | Running | Blocked | Sleeping | Zombie | Stopped

  /** process_t without registers, memory, files and groups; signal masks are the sets of their signals. */
  datatype Process = Process(
    pid: nat, parent: nat, state: State,
    sleepUntil: nat, cpuTime: nat,
    pending: set<nat>, blocked: set<nat>, handlers: seq<nat>,
    handlingSignal: bool, exitSignal: nat)

  type Table = seq<Process>

  datatype Kernel = Kernel(procs: Table, current: nat, nextPid: nat, ticks: nat)

  /** default_signal_actions: 0 ignores, 1 continues, 2 stops, SIGTERM terminates, 0x80 dumps core. */
  function DefaultAction(signum: nat): bv8 {
    if signum in {0, 17, 23, 28} then 0
    else if signum == 18 then 1
    else if signum in {19, 20, 21, 22} then 2
    else if signum in {3, 4, 5, 6, 7, 8, 11, 31} then TERMINATE | 0x80
    else TERMINATE
  }

  /** The test `action & SIGTERM`, made before the tests for 1 and 2. */
  predicate Terminates(signum: nat) {
    DefaultAction(signum) & TERMINATE != 0
  }

  /** Every action but "ignore" shares a bit with SIGTERM: stop and continue signals terminate as well. */
  lemma OnlyIgnoredSurvive(signum: nat)
    ensures Terminates(signum) <==> DefaultAction(signum) != 0
    ensures Terminates(SIGCONT) && Terminates(20) && Terminates(21) && Terminates(22)
    ensures 0 < signum < MAX_SIGNALS ==> (!Terminates(signum) <==> signum in {SIGCHLD, SIGURG, SIGWINCH})
  {
  }

  predicate Runnable(p: Process) {
    p.pid != 0 && (p.state == Ready || p.state == Running)
  }

  /** Slot `i` holds pid 0 or i + 1, and no code ever sets an exit signal. */
  ghost predicate ShapeAt(p: Process, i: nat) {
    |p.handlers| == MAX_SIGNALS && p.exitSignal == 0 && (p.pid == 0 || p.pid == i + 1)
  }

  ghost predicate Shape(k: Kernel) {
    && |k.procs| == MAX_PROCESSES && k.current < MAX_PROCESSES
    && forall i :: 0 <= i < |k.procs| ==> ShapeAt(k.procs[i], i)
  }

  ghost function RunSet(t: Table): set<nat> {
    set i: nat | i < |t| && Runnable(t[i])
  }

  /** The first slot with this pid; the table's length stands for NULL. */
  function Find(t: Table, pid: nat): (i: nat)
    ensures i <= |t| && (i < |t| ==> t[i].pid == pid)
    ensures forall j :: 0 <= j < i ==> t[j].pid != pid
  {
    if t == [] || t[0].pid == pid then 0 else 1 + Find(t[1..], pid)
  }

  // ---------- signal delivery to one process ----------

  predicate Deliverable(p: Process, signum: nat) {
    signum in p.pending && signum !in p.blocked
  }

  predicate Ignored(p: Process, signum: nat)
    requires signum < |p.handlers|
  {
    p.handlers[signum] == SIG_IGN || (p.handlers[signum] == SIG_DFL && !Terminates(signum))
  }

  /** The loop of signal_handle_pending from `signum` on: the process after it, and whether it must exit. */
  function Take(p: Process, signum: nat): (r: (Process, bool))
    requires |p.handlers| == MAX_SIGNALS
    decreases MAX_SIGNALS - signum
  {
    if signum >= MAX_SIGNALS then (p, false)
    else if !Deliverable(p, signum) then Take(p, signum + 1)
    else
      var q := p.(pending := p.pending - {signum});
      if Ignored(p, signum) then Take(q, signum + 1)
      else (q, p.handlers[signum] == SIG_DFL)
  }

  lemma TakeStep(p: Process, signum: nat)
    requires |p.handlers| == MAX_SIGNALS && signum < MAX_SIGNALS
    ensures Take(p, signum) == if !Deliverable(p, signum) then Take(p, signum + 1)
                               else
                                 var q := p.(pending := p.pending - {signum});
                                 if Ignored(p, signum) then Take(q, signum + 1)
                                 else (q, p.handlers[signum] == SIG_DFL)
  {
    hide Deliverable, Ignored;
  }

  lemma TakeNothing(p: Process)
    requires |p.handlers| == MAX_SIGNALS
    ensures Take(p, MAX_SIGNALS) == (p, false)
  {
  }

  /** signal_handle_pending up to the point where it acts on another part of the kernel. */
  function TakeAll(p: Process): (Process, bool)
    requires |p.handlers| == MAX_SIGNALS
  {
    if p.handlingSignal then (p, false) else Take(p, 1)
  }

  /** The lowest deliverable signal from `signum` on that is not ignored, or MAX_SIGNALS. */
  function Lowest(p: Process, signum: nat): (l: nat)
    requires |p.handlers| == MAX_SIGNALS && signum <= MAX_SIGNALS
    ensures signum <= l <= MAX_SIGNALS
    ensures l < MAX_SIGNALS ==> Deliverable(p, l) && !Ignored(p, l)
    ensures forall x :: signum <= x < l ==> !Deliverable(p, x) || Ignored(p, x)
    decreases MAX_SIGNALS - signum
  {
    if signum == MAX_SIGNALS || (Deliverable(p, signum) && !Ignored(p, signum)) then signum else Lowest(p, signum + 1)
  }

  /** One delivery clears exactly the deliverable signals up to the lowest one that is not ignored. */
  lemma {:induction false} TakeClears(p: Process, signum: nat)
    requires |p.handlers| == MAX_SIGNALS && signum <= MAX_SIGNALS
    ensures var l := Lowest(p, signum);
            Take(p, signum).0 == p.(pending := p.pending - Clearing(p, signum, l))
            && (Take(p, signum).1 <==> l < MAX_SIGNALS && p.handlers[l] == SIG_DFL)
    decreases MAX_SIGNALS - signum
  {
    hide Take, Lowest, Clearing, Deliverable, Ignored;
    LowestStep(p, signum);
    if signum == MAX_SIGNALS {
      TakeNothing(p);
      ClearedNone(p);
    } else {
      TakeStep(p, signum);
      if !Deliverable(p, signum) {
        TakeClears(p, signum + 1);
        ClearedLater(p, signum, Lowest(p, signum));
      } else if Ignored(p, signum) {
        var q := p.(pending := p.pending - {signum});
        TakeClears(q, signum + 1);
        LowestAfter(p, q, signum + 1);
        ClearedFrom(p, signum, Lowest(p, signum));
      } else {
        ClearedFirst(p, signum);
      }
    }
  }

  /** The signals that a delivery clears from `signum` to `l`. */
  ghost function Clearing(p: Process, signum: nat, l: nat): set<nat> {
    set x | x in p.pending && x !in p.blocked && signum <= x <= l && x < MAX_SIGNALS
  }

  lemma LowestStep(p: Process, signum: nat)
    requires |p.handlers| == MAX_SIGNALS && signum <= MAX_SIGNALS
    ensures Lowest(p, signum) == if signum == MAX_SIGNALS || (Deliverable(p, signum) && !Ignored(p, signum)) then signum
                                 else Lowest(p, signum + 1)
    ensures Lowest(p, signum) >= signum
  {
    hide Deliverable, Ignored;
  }

  lemma ClearedNone(p: Process)
    ensures p.pending - Clearing(p, MAX_SIGNALS, MAX_SIGNALS) == p.pending
  {
  }

  lemma ClearedLater(p: Process, signum: nat, l: nat)
    requires !Deliverable(p, signum)
    ensures Clearing(p, signum, l) == Clearing(p, signum + 1, l)
  {
  }

  lemma ClearedFrom(p: Process, signum: nat, l: nat)
    requires signum < l && Deliverable(p, signum) && signum < MAX_SIGNALS
    ensures var q := p.(pending := p.pending - {signum});
            p.pending - Clearing(p, signum, l) == q.pending - Clearing(q, signum + 1, l)
  {
  }

  lemma ClearedFirst(p: Process, signum: nat)
    requires Deliverable(p, signum) && signum < MAX_SIGNALS
    ensures Clearing(p, signum, signum) == {signum}
  {
  }

  lemma {:induction false} LowestAfter(p: Process, q: Process, signum: nat)
    requires |p.handlers| == MAX_SIGNALS && 0 < signum <= MAX_SIGNALS
    requires q == p.(pending := q.pending) && forall x :: x >= signum ==> (x in p.pending <==> x in q.pending)
    ensures Lowest(q, signum) == Lowest(p, signum)
    decreases MAX_SIGNALS - signum
  {
    if signum < MAX_SIGNALS {
      assert Deliverable(p, signum) == Deliverable(q, signum);
      LowestAfter(p, q, signum + 1);
    }
  }

  /** The process would exit when its pending signals are handled. */
  predicate Doomed(p: Process)
    requires |p.handlers| == MAX_SIGNALS
  {
    TakeAll(p).1
  }

  /** A pending signal that would make the process exit: not blocked, and not ignored by its default handler. */
  predicate Lethal(p: Process, x: nat)
    requires |p.handlers| == MAX_SIGNALS
  {
    1 <= x < MAX_SIGNALS && x in p.pending && x !in p.blocked && p.handlers[x] == SIG_DFL
    && x !in {SIGCHLD, SIGURG, SIGWINCH}
  }

  /** A pending signal that a handler of the user takes. */
  predicate Caught(p: Process, x: nat)
    requires |p.handlers| == MAX_SIGNALS
  {
    1 <= x < MAX_SIGNALS && x in p.pending && x !in p.blocked && p.handlers[x] != SIG_DFL && p.handlers[x] != SIG_IGN
  }

  ghost predicate CaughtBefore(p: Process, x: nat)
    requires |p.handlers| == MAX_SIGNALS
  {
    exists y: nat :: y < x && Caught(p, y)
  }

  /** A lethal signal comes before all that the process catches. */
  ghost predicate Fatal(p: Process)
    requires |p.handlers| == MAX_SIGNALS
  {
    exists x: nat :: Lethal(p, x) && !CaughtBefore(p, x)
  }

  /** A process exits by its signals exactly if a lethal one comes before all that it catches, and it handles none. */
  lemma DoomedExactly(p: Process)
    requires |p.handlers| == MAX_SIGNALS
    ensures Doomed(p) <==> !p.handlingSignal && Fatal(p)
  {
    TakeClears(p, 1);
    var l := Lowest(p, 1);
    forall x: nat | 1 <= x < MAX_SIGNALS
      ensures Deliverable(p, x) && !Ignored(p, x) <==> Lethal(p, x) || Caught(p, x)
      ensures Lethal(p, x) ==> p.handlers[x] == SIG_DFL
      ensures Caught(p, x) ==> p.handlers[x] != SIG_DFL
    {
      LethalOrCaught(p, x);
    }
    assert forall x: nat :: Lethal(p, x) || Caught(p, x) ==> 1 <= x < MAX_SIGNALS;
    hide Take, Deliverable, Ignored, Lethal, Caught;
    if Doomed(p) {
      assert Lethal(p, l) && !CaughtBefore(p, l);
    }
    if x: nat :| Lethal(p, x) && !CaughtBefore(p, x) {
      assert l <= x;
    }
  }

  lemma LethalOrCaught(p: Process, x: nat)
    requires |p.handlers| == MAX_SIGNALS && 1 <= x < MAX_SIGNALS
    ensures Deliverable(p, x) && !Ignored(p, x) <==> Lethal(p, x) || Caught(p, x)
    ensures Lethal(p, x) ==> p.handlers[x] == SIG_DFL
    ensures Caught(p, x) ==> p.handlers[x] != SIG_DFL
  {
    OnlyIgnoredSurvive(x);
    hide Terminates;
  }

  // ---------- pending signals ----------

  /** signal_add_pending for signals other than SIGKILL and SIGSTOP: a blocked signal is dropped. */
  function AddPending(p: Process, signum: nat): Process {
    if signum in p.blocked && signum != SIGKILL && signum != SIGSTOP then p
    else p.(pending := p.pending + {signum})
  }

  /**
   * A signal becomes pending as POSIX asks, except when it is dropped: blocked, not pending yet, and neither of the
   * two.
   */
  lemma DroppedExactly(p: Process, signum: nat)
    ensures signum in AddPending(p, signum).pending <==>
            signum !in p.blocked || signum in p.pending || signum == SIGKILL || signum == SIGSTOP
    ensures AddPending(p, signum) == p || AddPending(p, signum) == p.(pending := p.pending + {signum})
  {
  }

  /** A SIGCHLD never dooms a process, because its default action is to ignore it. */
  lemma ChildSignalDoomsNobody(p: Process)
    requires |p.handlers| == MAX_SIGNALS && Doomed(AddPending(p, SIGCHLD))
    ensures Doomed(p)
  {
    var q := AddPending(p, SIGCHLD);
    TakeClears(p, 1);
    TakeClears(q, 1);
    ChildSignalIsNotLowest(p);
    hide Take, Lowest, Clearing, AddPending;
  }

  /** The lowest signal that acts is the same with a SIGCHLD pending, or that SIGCHLD has a handler. */
  lemma ChildSignalIsNotLowest(p: Process)
    requires |p.handlers| == MAX_SIGNALS
    ensures var q := AddPending(p, SIGCHLD);
            q.handlers == p.handlers && q.handlingSignal == p.handlingSignal
            && (Lowest(q, 1) != Lowest(p, 1) ==> Lowest(q, 1) == SIGCHLD && p.handlers[SIGCHLD] != SIG_DFL)
  {
    var q := AddPending(p, SIGCHLD);
    var l, m := Lowest(p, 1), Lowest(q, 1);
    assert forall x :: x != SIGCHLD ==> Deliverable(p, x) == Deliverable(q, x);
    assert forall x :: 1 <= x < MAX_SIGNALS ==> Ignored(p, x) == Ignored(q, x);
    assert l < MAX_SIGNALS ==> Deliverable(q, l) && !Ignored(q, l);
    assert !Terminates(SIGCHLD);
    hide Lowest, Deliverable, AddPending, Terminates;
    assert m <= l;
    assert m < l ==> m == SIGCHLD && !Ignored(p, SIGCHLD);
  }
}
