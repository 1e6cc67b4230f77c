/** The timer: what a tick that reschedules does, and how the ticks share out the CPU. */
module Ticks {
  import opened Processes
  import opened Scheduling
  import opened Fairness
  import opened Invariants
  import opened Calls
  import opened Exits
  import opened CallEffects

  /** The next tick has come, and the due sleepers in slots 0 to 62 are ready. */
  ghost function Awake(k: Kernel): (r: Kernel)
    requires |k.procs| == MAX_PROCESSES
  {
    k.(ticks := k.ticks + 1,
       procs := seq(MAX_PROCESSES, s requires 0 <= s < MAX_PROCESSES =>
                      if s < MAX_PROCESSES - 1 && Due(k.procs[s], k.ticks + 1) then k.procs[s].(state := Ready)
                      else k.procs[s]))
  }

  lemma TickIs(k: Kernel, reschedule: bool)
    requires Inv(k)
    ensures |k.procs| == MAX_PROCESSES && Inv(Awake(k)) && Shape(Awake(k)) && Shape(k)
    ensures After(k, Tick(reschedule)) == if reschedule then Schedule(Awake(k)).k else Awake(k)
  {
    UsedInTable(k);
    hide Inv, Shape, Schedule, Wake, After, Awake;
    TickCalled(k, reschedule);
    InvShape(k);
    WakeInv(k);
    AwakeIs(k);
    InvShape(Awake(k));
  }

  lemma AwakeIs(k: Kernel)
    requires Inv(k) && |k.procs| == MAX_PROCESSES
    ensures k.(ticks := k.ticks + 1, procs := Wake(k.procs, k.ticks + 1, 0)) == Awake(k)
  {
    hide Inv, Wake;
    WakeFrom(k, k.ticks + 1, 0);
    assert Wake(k.procs, k.ticks + 1, 0) == Awake(k).procs;
  }

  lemma TickCalled(k: Kernel, reschedule: bool)
    requires Inv(k)
    ensures After(k, Tick(reschedule)) == TickOnce(k, reschedule)
  {
    hide Inv, Shape, Schedule, Exit, Deliver, KillPid, SuspendCurrent, SleepCurrent, BlockAndSchedule, TickOnce,
         ForkCurrent, Create, PutHandler, UnblockPid, PutMask, Find;
    InvShape(k);
  }

  lemma AwakeIsCalm(k: Kernel)
    requires Shape(k) && AllCalm(k) && Shape(Awake(k))
    ensures AllCalm(Awake(k))
  {
    forall i | 0 <= i < MAX_PROCESSES ensures Calm(Awake(k).procs[i]) {
      assert Calm(k.procs[i]);
    }
  }

  lemma OthersPicked(k: Kernel)
    requires Shape(k)
    ensures Pick(k, 1) < MAX_PROCESSES <==> RunSet(k.procs) - {k.current} != {}
  {
    hide Ahead, Runnable;
    if Pick(k, 1) < MAX_PROCESSES {
      AheadMoves(k, Pick(k, 1));
      assert Ahead(k, Pick(k, 1)) in RunSet(k.procs) - {k.current};
    } else if i :| i in RunSet(k.procs) - {k.current} {
      PickCovers(k, i);
    }
  }

  lemma AheadMoves(k: Kernel, d: nat)
    requires k.current < MAX_PROCESSES && 1 <= d < MAX_PROCESSES
    ensures Ahead(k, d) != k.current
  {
  }

  /** One call of schedule with nobody doomed: the first of the order runs, and nobody else changes. */
  lemma CalmRuns(k: Kernel)
    requires Shape(k) && AllCalm(k) && RunSet(k.procs) - {k.current} != {}
    ensures var r := Schedule(k).k;
            && Order(k) != [] && r.current == Order(k)[0] < MAX_PROCESSES && Order(r) == Order(k)[1..] + [Order(k)[0]]
            && AllCalm(r) && RunSet(r.procs) == RunSet(k.procs) && r.procs[r.current].state == Running
            && (forall i :: 0 <= i < MAX_PROCESSES && i != r.current ==> r.procs[i] == k.procs[i])
            && r.procs[r.current].cpuTime == k.procs[r.current].cpuTime + 1
            && r.procs[r.current].sleepUntil == k.procs[r.current].sleepUntil
  {
    hide Schedule, Pick, AllCalm, Order, Left, RunSet;
    OthersPicked(k);
    CalmCall(k);
    OrderRotates(k, Schedule(k).k);
    ScheduleEnds(k);
    RunsFirst(k);
    forall i | 0 <= i < MAX_PROCESSES && i != Schedule(k).k.current ensures Schedule(k).k.procs[i] == k.procs[i] {
      assert StandsBy(k, i);
      BystandersLeft(k, i);
      LeftByNone(k.procs, i);
    }
  }

  /** The process that runs keeps its wake-up tick. */
  lemma RunsFirst(k: Kernel)
    requires Shape(k) && Pick(k, 1) < MAX_PROCESSES && Schedule(k).dead == []
    ensures var r := Schedule(k).k;
            r.current < MAX_PROCESSES && r.procs[r.current].sleepUntil == k.procs[r.current].sleepUntil
  {
    hide Schedule, Pick, TakeAll, Killed;
    Unfold(k);
    TakenShape(Enter(k, Pick(k, 1)));
  }

  /**
   * A tick that reschedules, with nobody doomed: the process that comes first in the order after the due sleepers have
   * been woken is current and RUNNING with one more unit of CPU time, and goes to the end of the order. Nobody else
   * changes but for the sleepers woken, and they take part in the order. If nobody but the current process can run,
   * they are all that changes.
   */
  lemma TickPreempts(k: Kernel)
    requires Inv(k) && Shape(k) && AllCalm(k)
    ensures |k.procs| == MAX_PROCESSES && Shape(Awake(k)) && Shape(After(k, Tick(true)))
    ensures var w, r := Awake(k), After(k, Tick(true));
            if RunSet(w.procs) == {} || RunSet(w.procs) == {k.current} then r == w
            else
              && Order(w) != [] && r.current == Order(w)[0] && Order(r) == Order(w)[1..] + [Order(w)[0]]
              && r.procs[r.current].state == Running && r.procs[r.current].cpuTime == k.procs[r.current].cpuTime + 1
              && (forall i :: 0 <= i < MAX_PROCESSES && i != r.current ==> r.procs[i] == w.procs[i])
              && (forall s :: 0 <= s < MAX_PROCESSES - 1 && k.procs[s].pid != 0 && Due(k.procs[s], k.ticks + 1) ==>
                    s in Order(w))
  {
    hide Inv, Shape, Schedule, Pick, Order, AllCalm, After, Awake, RunSet;
    TickIs(k, true);
    ShapeSizes(k);
    var w := Awake(k);
    AwakeIsCalm(k);
    WokenRun(k);
    OthersPicked(w);
    OnlyOne(RunSet(w.procs), k.current);
    Unfold(w);
    if RunSet(w.procs) - {w.current} != {} {
      CalmRuns(w);
    }
  }

  lemma OnlyOne(s: set<nat>, x: nat)
    ensures s - {x} == {} <==> s == {} || s == {x}
  {
    if s - {x} == {} && s != {} {
      forall y | y in s ensures y == x {
        assert y !in s - {x};
      }
    }
  }

  /** The sleepers woken take part in the order; times and the current process are as they were. */
  lemma WokenRun(k: Kernel)
    requires |k.procs| == MAX_PROCESSES && Shape(Awake(k))
    ensures Awake(k).current == k.current
    ensures forall i :: 0 <= i < MAX_PROCESSES ==> Awake(k).procs[i].cpuTime == k.procs[i].cpuTime
    ensures forall s :: 0 <= s < MAX_PROCESSES - 1 && k.procs[s].pid != 0 && Due(k.procs[s], k.ticks + 1) ==>
              s in Order(Awake(k))
  {
    var w := Awake(k);
    hide Shape, Order, RunSet;
    forall s | 0 <= s < MAX_PROCESSES - 1 && k.procs[s].pid != 0 && Due(k.procs[s], k.ticks + 1) ensures s in Order(w) {
      RunsAgain(k, s);
      OrderMember(w, s);
    }
  }

  lemma RunsAgain(k: Kernel, s: nat)
    requires |k.procs| == MAX_PROCESSES && s < MAX_PROCESSES - 1 && k.procs[s].pid != 0
    requires Due(k.procs[s], k.ticks + 1)
    ensures s in RunSet(Awake(k).procs)
  {
  }

  /** So does a process that gives up the CPU. */
  lemma YieldPreempts(k: Kernel)
    requires Inv(k) && Shape(k) && AllCalm(k) && RunSet(k.procs) - {k.current} != {}
    ensures var r := After(k, Yield);
            && Order(k) != [] && r.current == Order(k)[0] && |r.procs| == |k.procs| == MAX_PROCESSES
            && r.current < MAX_PROCESSES && r.procs[r.current].cpuTime == k.procs[r.current].cpuTime + 1
  {
    hide Inv, Schedule, Pick, Order, AllCalm;
    CalmRuns(k);
  }

  // ---------- many ticks ----------

  lemma PickTicks(k: Kernel, t: nat)
    requires Shape(k)
    ensures Shape(k.(ticks := t)) && Pick(k.(ticks := t), 1) == Pick(k, 1)
  {
    hide Pick, Runnable;
    ClockShape(k, t);
    assert forall d: nat :: Ahead(k.(ticks := t), d) == Ahead(k, d);
    hide Ahead;
    PickIs(k.(ticks := t), 1, Pick(k, 1));
  }

  lemma ClockShape(k: Kernel, t: nat)
    requires Shape(k)
    ensures Shape(k.(ticks := t))
  {
  }

  /** schedule does not look at the clock. */
  lemma {:induction false} ScheduleTicks(k: Kernel, t: nat)
    requires Shape(k)
    ensures Shape(k.(ticks := t))
    ensures Schedule(k.(ticks := t)) == Result(Schedule(k).k.(ticks := t), Schedule(k).dead)
    decreases |RunSet(k.procs)|
  {
    hide Schedule, Pick, RunSet, Kills, Killed, Ahead, Taken, Enter, Switch, Shape;
    var v := k.(ticks := t);
    PickTicks(k, t);
    Unfold(k);
    Unfold(v);
    if Pick(k, 1) < MAX_PROCESSES {
      LevelTicks(k, t);
      if Kills(k) {
        SmallerSet(RunSet(k.procs), Ahead(k, Pick(k, 1)));
        ScheduleTicks(Killed(k), t);
        SwitchClock(Schedule(Killed(k)).k, t);
      }
    } else {
      NoneScheduled(k, t);
    }
  }

  lemma NoneScheduled(k: Kernel, t: nat)
    requires Shape(k) && Shape(k.(ticks := t)) && Schedule(k) == Result(k, [])
    requires Schedule(k.(ticks := t)) == Result(k.(ticks := t), [])
    ensures Schedule(k.(ticks := t)) == Result(Schedule(k).k.(ticks := t), Schedule(k).dead)
  {
  }

  lemma LevelTicks(k: Kernel, t: nat)
    requires Shape(k) && Shape(k.(ticks := t)) && Pick(k, 1) == Pick(k.(ticks := t), 1) < MAX_PROCESSES
    ensures Ahead(k.(ticks := t), Pick(k, 1)) == Ahead(k, Pick(k, 1))
    ensures Kills(k.(ticks := t)) == Kills(k)
    ensures Killed(k.(ticks := t)) == Killed(k).(ticks := t)
    ensures Shape(Enter(k, Pick(k, 1))) && Shape(Taken(Enter(k, Pick(k, 1))))
    ensures var v := k.(ticks := t);
            Shape(Enter(v, Pick(v, 1))) && Shape(Taken(Enter(v, Pick(v, 1))))
            && Switch(Taken(Enter(v, Pick(v, 1)))) == Switch(Taken(Enter(k, Pick(k, 1)))).(ticks := t)
  {
    hide Pick, TakeAll, Notify, Orphan;
    var v := k.(ticks := t);
    EnterShape(k, Pick(k, 1));
    EnterShape(v, Pick(v, 1));
    TakenShape(Enter(k, Pick(k, 1)));
    TakenShape(Enter(v, Pick(v, 1)));
  }

  lemma SwitchClock(k: Kernel, t: nat)
    requires Shape(k)
    ensures Shape(k.(ticks := t)) && Switch(k.(ticks := t)) == Switch(k).(ticks := t)
  {
  }

  /** After calls of schedule with nobody doomed, the processes that are not runnable are untouched. */
  lemma {:induction false} TimesKeep(k: Kernel, n: nat)
    requires Shape(k) && AllCalm(k) && |RunSet(k.procs)| >= 2
    ensures AllCalm(Times(k, n)) && RunSet(Times(k, n).procs) == RunSet(k.procs)
    ensures |Times(k, n).procs| == |k.procs| == MAX_PROCESSES
    ensures forall i :: 0 <= i < MAX_PROCESSES && i !in RunSet(k.procs) ==> Times(k, n).procs[i] == k.procs[i]
  {
    hide Schedule, AllCalm, Shape, RunSet, Times;
    ShapeSizes(k);
    if n > 0 {
      TimesKeep(k, n - 1);
      OnceKeeps(Times(k, n - 1));
      OneMoreTime(k, n - 1);
    } else {
      NoTimes(k);
    }
  }

  lemma OnceKeeps(k: Kernel)
    requires Shape(k) && AllCalm(k) && |RunSet(k.procs)| >= 2
    ensures var r := Schedule(k).k;
            && AllCalm(r) && RunSet(r.procs) == RunSet(k.procs) && |r.procs| == |k.procs| == MAX_PROCESSES
            && forall i :: 0 <= i < MAX_PROCESSES && i !in RunSet(k.procs) ==> r.procs[i] == k.procs[i]
  {
    ShapeSizes(k);
    hide Schedule, AllCalm, Shape, RunSet, Order;
    MoreThanOne(RunSet(k.procs), k.current);
    CalmRuns(k);
    OrderMember(k, Order(k)[0]);
  }

  lemma MoreThanOne(s: set<nat>, x: nat)
    requires |s| >= 2
    ensures s - {x} != {}
  {
    if s - {x} == {} {
      SubsetCount(s, {x});
    }
  }

  /** Every so many ticks the timer reschedules. */
  function Interval(frequency: nat): (q: nat)
    ensures frequency >= 100 ==> q > 0
  {
    frequency / 100
  }

  /** The state after `n` ticks, of which those reschedule whose number is a multiple of the interval. */
  ghost function Ticking(k: Kernel, frequency: nat, n: nat): (r: Kernel)
    requires Inv(k) && frequency >= 100
    ensures Inv(r)
  {
    if n == 0 then k
    else
      var b := Ticking(k, frequency, n - 1);
      CallKeepsInv(b, Tick((b.ticks + 1) % Interval(frequency) == 0));
      After(b, Tick((b.ticks + 1) % Interval(frequency) == 0))
  }

  /** No sleeper that a tick could wake is due before tick `until`. */
  ghost predicate NoneDue(k: Kernel, until: nat) {
    forall s :: 0 <= s < |k.procs| && s < MAX_PROCESSES - 1 && k.procs[s].state == Sleeping ==>
      k.procs[s].sleepUntil > until
  }

  lemma NobodyWoken(k: Kernel, until: nat)
    requires Shape(k) && NoneDue(k, until) && k.ticks + 1 <= until
    ensures |k.procs| == MAX_PROCESSES && Awake(k) == k.(ticks := k.ticks + 1)
  {
    assert Awake(k).procs == k.procs;
  }

  /** While nobody is woken, `n` ticks do what as many calls of schedule do as there are multiples among them. */
  lemma {:induction false} TicksAreCalls(k: Kernel, frequency: nat, n: nat)
    requires Inv(k) && Shape(k) && AllCalm(k) && |RunSet(k.procs)| >= 2 && frequency >= 100
    requires NoneDue(k, k.ticks + n)
    ensures var q := Interval(frequency);
            var c := (k.ticks + n) / q - k.ticks / q;
            c >= 0 && Ticking(k, frequency, n) == Times(k, c).(ticks := k.ticks + n)
    decreases n
  {
    hide Schedule, AllCalm, Shape, RunSet, Order, Inv, After, Interval;
    var q := Interval(frequency);
    if n == 0 {
      NoTimes(k);
    } else {
      var c := (k.ticks + (n - 1)) / q - k.ticks / q;
      EarlierDue(k, k.ticks + n, k.ticks + (n - 1));
      TicksAreCalls(k, frequency, n - 1);
      NextMultiple(k.ticks + (n - 1), q);
      TimesKeep(k, c);
      var b := Ticking(k, frequency, n - 1);
      StillNoneDue(k, c, k.ticks + n, k.ticks + (n - 1));
      TickIs(b, (b.ticks + 1) % q == 0);
      NobodyWoken(b, k.ticks + n);
      ScheduleTicks(Times(k, c), k.ticks + n);
      OneMoreTime(k, c);
    }
  }

  lemma OneMoreTime(k: Kernel, c: nat)
    requires Shape(k)
    ensures Times(k, c + 1) == Schedule(Times(k, c)).k
  {
    hide Schedule;
  }

  lemma EarlierDue(k: Kernel, until: nat, earlier: nat)
    requires NoneDue(k, until) && earlier <= until
    ensures NoneDue(k, earlier)
  {
  }

  lemma NextMultiple(t: nat, q: nat)
    requires q > 0
    ensures (t + 1) / q == t / q + if (t + 1) % q == 0 then 1 else 0
  {
    var a, b := t / q, t % q;
    assert t == q * a + b;
    if b + 1 == q {
      assert t + 1 == q * (a + 1);
      Quotient(t + 1, q, a + 1, 0);
    } else {
      Quotient(t + 1, q, a, b + 1);
    }
  }

  lemma Quotient(x: nat, q: nat, a: nat, b: nat)
    requires b < q && x == q * a + b
    ensures x / q == a && x % q == b
  {
    var d, e := x / q, x % q;
    assert x == q * d + e;
    if a < d {
      NextProduct(q, a, d);
    } else if d < a {
      NextProduct(q, d, a);
    }
  }

  lemma {:induction false} NextProduct(q: nat, a: nat, b: nat)
    requires a < b
    ensures q * a + q <= q * b
    decreases b - a
  {
    if a + 1 < b {
      NextProduct(q, a, b - 1);
      assert q * (b - 1) <= q * b;
    }
  }

  lemma StillNoneDue(k: Kernel, c: nat, until: nat, now: nat)
    requires Shape(k) && AllCalm(k) && |RunSet(k.procs)| >= 2 && NoneDue(k, until)
    ensures NoneDue(Times(k, c).(ticks := now), until)
  {
    hide Schedule, AllCalm, Times;
    TimesKeep(k, c);
    var t := Times(k, c).procs;
    forall s | 0 <= s < MAX_PROCESSES - 1 && t[s].state == Sleeping ensures t[s].sleepUntil > until {
      assert s !in RunSet(t);
      assert s !in RunSet(k.procs);
    }
  }

  /**
   * With R >= 2 runnable processes, nobody doomed and nobody due to wake, m * R intervals of ticks give every runnable
   * process exactly m units of CPU time and nobody else any, and leave the order as it was.
   */
  lemma TicksShareOut(k: Kernel, frequency: nat, m: nat)
    requires Inv(k) && Shape(k) && AllCalm(k) && |RunSet(k.procs)| >= 2 && frequency >= 100
    requires NoneDue(k, k.ticks + m * |RunSet(k.procs)| * Interval(frequency))
    ensures var n := m * |RunSet(k.procs)| * Interval(frequency);
            var r := Ticking(k, frequency, n);
            && Shape(r) && Order(r) == Order(k) && r.ticks == k.ticks + n
            && |r.procs| == |k.procs| == MAX_PROCESSES
            && forall i :: 0 <= i < MAX_PROCESSES ==>
                 r.procs[i].cpuTime == k.procs[i].cpuTime + if i in RunSet(k.procs) then m else 0
  {
    hide Schedule, AllCalm, Shape, RunSet, Inv, Interval, Ticking, Times, NoneDue, Order;
    ShapeSizes(k);
    var calls := m * |RunSet(k.procs)|;
    TicksAreCalls(k, frequency, calls * Interval(frequency));
    ManyMultiples(k.ticks, Interval(frequency), calls);
    RoundRobin(k, m);
    SameOrder(Times(k, calls), k.ticks + calls * Interval(frequency));
  }

  lemma SameOrder(k: Kernel, t: nat)
    requires Shape(k)
    ensures Shape(k.(ticks := t)) && Order(k.(ticks := t)) == Order(k) && |k.procs| == MAX_PROCESSES
  {
    hide Shape, Segment, Runnable;
    ShapeSizes(k);
    ClockShape(k, t);
  }

  lemma ManyMultiples(t: nat, q: nat, n: nat)
    requires q > 0
    ensures (t + n * q) / q - t / q == n
  {
    Quotient(t + n * q, q, t / q + n, t % q);
  }

  // ---------- sys_exit schedules twice ----------

  lemma DieIsCalm(k: Kernel, slot: nat)
    requires Shape(k) && AllCalm(k) && slot < MAX_PROCESSES
    ensures Shape(Die(k, slot)) && AllCalm(Die(k, slot))
  {
    DieShape(k, slot);
    var d := Die(k, slot);
    assert !Terminates(SIGCHLD);
    hide Die, Terminates, RunSet;
    forall i | 0 <= i < MAX_PROCESSES ensures |d.procs[i].handlers| == MAX_SIGNALS && Calm(d.procs[i]) {
      DieTells(k, slot, i);
      assert Calm(k.procs[i]);
      assert forall x: nat :: x != SIGCHLD && Deliverable(d.procs[i], x) ==> Deliverable(k.procs[i], x);
    }
  }

  /**
   * sys_exit calls exit_process, which schedules, and then schedules again. With nobody doomed the first two of the
   * processes left get one unit of CPU time each, but only the second is current when the call returns.
   */
  lemma ExitPassesOneOver(k: Kernel)
    requires Inv(k) && Shape(k) && AllCalm(k) && k.current < |k.procs| && HasCurrent(k)
    requires |RunSet(k.procs) - {k.current}| >= 2
    ensures Shape(Die(k, k.current)) && RunSet(Die(k, k.current).procs) == RunSet(k.procs) - {k.current}
    ensures var r, left := After(k, ExitSelf), Order(Die(k, k.current));
            && |left| >= 2 && r.current == left[1] && |r.procs| == |k.procs| == MAX_PROCESSES
            && forall i :: 0 <= i < MAX_PROCESSES ==>
                 r.procs[i].cpuTime == k.procs[i].cpuTime + if i == left[0] || i == left[1] then 1 else 0
  {
    hide Inv, Shape, Schedule, AllCalm, RunSet, Order, Die, After, Times;
    ShapeSizes(k);
    var d := Die(k, k.current);
    DieShape(k, k.current);
    DieIsCalm(k, k.current);
    ExitSelfIs(k);
    OrderHolds(d);
    OneRound(d, 1);
    OneRound(d, 2);
    ShapeSizes(d);
    var left := Order(d);
    assert left[..2] == [left[0], left[1]];
    forall i | 0 <= i < MAX_PROCESSES ensures d.procs[i].cpuTime == k.procs[i].cpuTime {
      DieTells(k, k.current, i);
    }
  }

  lemma ExitSelfIs(k: Kernel)
    requires Inv(k) && Shape(k) && k.current < |k.procs| && HasCurrent(k)
    ensures Shape(Die(k, k.current)) && After(k, ExitSelf) == Times(Die(k, k.current), 2)
    ensures |After(k, ExitSelf).procs| == MAX_PROCESSES
  {
    ExitSelfCalled(k);
    hide Inv, Shape, Schedule, After, Die;
    DieShape(k, k.current);
    ExitIs(k, k.current);
    var d := Die(k, k.current);
    NoTimes(d);
    OneMoreTime(d, 0);
    OneMoreTime(d, 1);
    ShapeSizes(Times(d, 1));
  }

  lemma ExitSelfCalled(k: Kernel)
    requires Inv(k) && Shape(k) && k.current < |k.procs| && HasCurrent(k)
    ensures k.current < MAX_PROCESSES && After(k, ExitSelf) == Schedule(Exit(k, k.current).k).k
  {
    hide Inv, Schedule, Exit, Deliver, KillPid, SuspendCurrent, SleepCurrent, BlockAndSchedule, TickOnce, ForkCurrent,
         Create, PutHandler, UnblockPid, PutMask, Find;
  }

  // ---------- who waits or stops gives up the CPU ----------

  /** The first process of the order of `w` has been made current, with one more unit of CPU time. */
  ghost predicate RunsFirstOf(w: Kernel, r: Kernel)
    requires Shape(w)
  {
    && Order(w) != [] && r.current == Order(w)[0] < |r.procs| == |w.procs|
    && r.procs[r.current].state == Running && r.procs[r.current].cpuTime == w.procs[r.current].cpuTime + 1
  }

  lemma FirstRuns(w: Kernel)
    requires Shape(w) && AllCalm(w) && RunSet(w.procs) - {w.current} != {}
    ensures RunsFirstOf(w, Schedule(w).k)
  {
    ShapeSizes(w);
    hide Shape, Schedule, AllCalm, Order, RunSet;
    CalmRuns(w);
  }

  /**
   * A process that sleeps, waits for a signal or blocks gives up the CPU: with nobody doomed and somebody left to run,
   * the first in the order of those left is current when the call returns.
   */
  lemma WaiterGivesUpCpu(k: Kernel, c: Call)
    requires Inv(k) && k.current < |k.procs| && HasCurrent(k) && (c.Sleep? || c.Suspend? || c.Wait?)
    requires var w := if c.Sleep? then Asleep(k, c.until) else if c.Suspend? then Suspended(k, c.temporary)
                      else Parked(k, k.current, Blocked);
             Shape(w) && AllCalm(w) && RunSet(w.procs) != {}
    ensures var w := if c.Sleep? then Asleep(k, c.until) else if c.Suspend? then Suspended(k, c.temporary)
                     else Parked(k, k.current, Blocked);
            && RunSet(w.procs) == RunSet(k.procs) - {k.current}
            && RunsFirstOf(w, After(k, c))
  {
    var w := if c.Sleep? then Asleep(k, c.until) else if c.Suspend? then Suspended(k, c.temporary)
             else Parked(k, k.current, Blocked);
    CurrentAt(k);
    WithoutOne(k.procs, w.procs, k.current);
    hide Inv, Shape, Schedule, AllCalm, RunSet, Order, After;
    match c {
      case Sleep(until) =>
        SleepIs(k, until);
        FirstRuns(w);
      case Suspend(mask) =>
        SuspendIs(k, mask);
        FirstRuns(w);
        MaskRestored(w, Schedule(w).k, k.current, k.procs[k.current].blocked);
      case Wait =>
        WaitIs(k);
        FirstRuns(w);
    }
  }

  /** A process in another state. */
  function Parked(k: Kernel, slot: nat, s: State): Kernel
    requires slot < |k.procs|
  {
    k.(procs := k.procs[slot := k.procs[slot].(state := s)])
  }

  lemma WithoutOne(t: Table, u: Table, slot: nat)
    requires |t| == |u| && slot < |t| && !Runnable(u[slot])
    requires forall i :: 0 <= i < |t| && i != slot ==> u[i] == t[i]
    ensures RunSet(u) == RunSet(t) - {slot}
  {
    hide Runnable;
  }

  lemma MaskRestored(w: Kernel, r: Kernel, slot: nat, mask: set<nat>)
    requires Shape(w) && RunsFirstOf(w, r) && slot < |r.procs|
    ensures RunsFirstOf(w, PutMask(r, slot, mask))
  {
    hide Order, Shape;
  }

  lemma WaitIs(k: Kernel)
    requires Inv(k) && k.current < |k.procs| && HasCurrent(k)
    ensures Shape(Parked(k, k.current, Blocked)) && After(k, Wait) == Schedule(Parked(k, k.current, Blocked)).k
  {
    WaitCalled(k);
    InvShape(k);
    CurrentAt(k);
    hide Inv, Shape, Schedule, After;
    StateShape(k, k.current, Blocked);
  }

  lemma WaitCalled(k: Kernel)
    requires Inv(k) && k.current < |k.procs| && HasCurrent(k)
    ensures Shape(k) && After(k, Wait) == BlockAndSchedule(k)
  {
    hide Inv, Shape, Schedule, Exit, Deliver, KillPid, SuspendCurrent, SleepCurrent, BlockAndSchedule, TickOnce,
         ForkCurrent, Create, PutHandler, UnblockPid, PutMask, Find;
    InvShape(k);
  }

  /** So do SIGSTOP and SIGKILL, whoever gets them: the call schedules. */
  lemma StopSchedules(k: Kernel, pid: nat)
    requires Inv(k) && 0 < pid <= Used(k) && pid - 1 < |k.procs|
    requires var w := Parked(k, pid - 1, Stopped); Shape(w) && AllCalm(w) && RunSet(w.procs) - {k.current} != {}
    ensures var w := Parked(k, pid - 1, Stopped);
            RunSet(w.procs) == RunSet(k.procs) - {pid - 1} && RunsFirstOf(w, After(k, Kill(pid, SIGSTOP)))
  {
    hide *;
    WithoutStopped(k, pid - 1);
    StopIs(k, pid);
    SameCurrent(k, pid - 1, Stopped);
    FirstRuns(Parked(k, pid - 1, Stopped));
  }

  lemma WithoutStopped(k: Kernel, slot: nat)
    requires slot < |k.procs|
    ensures RunSet(Parked(k, slot, Stopped).procs) == RunSet(k.procs) - {slot}
  {
    hide RunSet;
    WithoutOne(k.procs, Parked(k, slot, Stopped).procs, slot);
  }

  lemma SameCurrent(k: Kernel, slot: nat, s: State)
    requires slot < |k.procs|
    ensures Parked(k, slot, s).current == k.current
  {
  }

  lemma StopIs(k: Kernel, pid: nat)
    requires Inv(k) && 0 < pid <= Used(k) && pid - 1 < |k.procs|
    ensures Shape(Parked(k, pid - 1, Stopped))
    ensures After(k, Kill(pid, SIGSTOP)) == Schedule(Parked(k, pid - 1, Stopped)).k
  {
    hide Inv, Shape, Schedule, Find;
    UsedInTable(k);
    InvShape(k);
    ParentAt(k, pid);
    FindProcess(k, pid);
    StateShape(k, pid - 1, Stopped);
  }

  lemma KillSchedules(k: Kernel, pid: nat)
    requires Inv(k) && Shape(k) && AllCalm(k) && 0 < pid <= Used(k) && RunSet(k.procs) - {pid - 1, k.current} != {}
    ensures pid <= MAX_PROCESSES && Shape(Die(k, pid - 1))
    ensures var d := Die(k, pid - 1);
            RunSet(d.procs) == RunSet(k.procs) - {pid - 1} && RunsFirstOf(d, After(k, Kill(pid, SIGKILL)))
  {
    UsedInTable(k);
    hide Inv, Shape, Schedule, AllCalm, RunSet, Order, After, RunsFirstOf, Die, Exit;
    KillExits(k, pid);
    ExitIs(k, pid - 1);
    DieShape(k, pid - 1);
    DieIsCalm(k, pid - 1);
    FirstRuns(Die(k, pid - 1));
  }
}
