/** Round-robin scheduling: which slots consecutive calls of schedule visit, and how often. */
module Fairness {
  import opened Processes
  import opened Scheduling
  import opened Sequences

  /** No pending signal would make the process exit. */
  ghost predicate Calm(p: Process)
    requires |p.handlers| == MAX_SIGNALS
  {
    forall x :: 1 <= x < MAX_SIGNALS && Deliverable(p, x) && p.handlers[x] == SIG_DFL ==> Ignored(p, x)
  }

  ghost predicate AllCalm(k: Kernel)
    requires Shape(k)
  {
    forall i :: 0 <= i < MAX_PROCESSES ==> |k.procs[i].handlers| == MAX_SIGNALS && Calm(k.procs[i])
  }

  lemma CalmIsNotDoomed(p: Process)
    requires |p.handlers| == MAX_SIGNALS && Calm(p)
    ensures !Doomed(p) && |TakeAll(p).0.handlers| == MAX_SIGNALS && Calm(TakeAll(p).0)
  {
    TakeClears(p, 1);
    var q := TakeAll(p).0;
    assert q.handlers == p.handlers;
    assert forall x :: Deliverable(q, x) ==> Deliverable(p, x);
  }

  /** The runnable slots among the `n` that follow `a` cyclically, in order. */
  ghost function Segment(t: Table, a: nat, n: nat): seq<nat>
    requires |t| == MAX_PROCESSES
    decreases n
  {
    if n == 0 then []
    else (if Runnable(t[a % MAX_PROCESSES]) then [a % MAX_PROCESSES] else []) + Segment(t, a + 1, n - 1)
  }

  /** The runnable slots in the order in which schedule comes to them. */
  ghost function Order(k: Kernel): seq<nat>
    requires Shape(k)
  {
    Segment(k.procs, k.current + 1, MAX_PROCESSES)
  }

  lemma {:induction false} SegmentSplit(t: Table, a: nat, m: nat, n: nat)
    requires |t| == MAX_PROCESSES
    ensures Segment(t, a, m + n) == Segment(t, a, m) + Segment(t, a + m, n)
    decreases m
  {
    if m > 0 {
      SegmentSplit(t, a + 1, m - 1, n);
    }
  }

  /** The segment depends on its start only up to full rounds and on the table only through who is runnable. */
  lemma {:induction false} SegmentSame(t: Table, u: Table, a: nat, b: nat, n: nat)
    requires |t| == |u| == MAX_PROCESSES && a % MAX_PROCESSES == b % MAX_PROCESSES
    requires forall i :: 0 <= i < MAX_PROCESSES ==> Runnable(t[i]) == Runnable(u[i])
    ensures Segment(t, a, n) == Segment(u, b, n)
    decreases n
  {
    if n > 0 {
      NextCongruent(a, b);
      SegmentSame(t, u, a + 1, b + 1, n - 1);
    }
  }

  lemma NextCongruent(a: nat, b: nat)
    requires a % MAX_PROCESSES == b % MAX_PROCESSES
    ensures (a + 1) % MAX_PROCESSES == (b + 1) % MAX_PROCESSES
  {
  }

  lemma {:induction false} SegmentEmpty(t: Table, a: nat, n: nat)
    requires |t| == MAX_PROCESSES
    requires forall e :: a <= e < a + n ==> !Runnable(t[e % MAX_PROCESSES])
    ensures Segment(t, a, n) == []
    decreases n
  {
    if n > 0 {
      SegmentEmpty(t, a + 1, n - 1);
    }
  }

  lemma {:induction false} SegmentIn(t: Table, a: nat, n: nat, x: nat)
    requires |t| == MAX_PROCESSES
    ensures x in Segment(t, a, n) <==>
              x < MAX_PROCESSES && Runnable(t[x]) && exists e :: a <= e < a + n && e % MAX_PROCESSES == x
    decreases n
  {
    if n > 0 {
      SegmentIn(t, a + 1, n - 1, x);
      if e :| a <= e < a + n && e % MAX_PROCESSES == x && Runnable(t[x]) {
        assert e == a || a + 1 <= e < a + 1 + (n - 1);
      }
      if x == a % MAX_PROCESSES {
        assert a <= a < a + n && a % MAX_PROCESSES == x;
      }
    }
  }

  lemma {:induction false} SegmentDistinct(t: Table, a: nat, n: nat)
    requires |t| == MAX_PROCESSES && n <= MAX_PROCESSES
    ensures forall i, j :: 0 <= i < j < |Segment(t, a, n)| ==> Segment(t, a, n)[i] != Segment(t, a, n)[j]
    decreases n
  {
    if n > 0 {
      SegmentDistinct(t, a + 1, n - 1);
      NotAgain(t, a, n);
      var rest := Segment(t, a + 1, n - 1);
      assert forall j :: 0 <= j < |rest| ==> rest[j] in rest;
    }
  }

  /** Within one round the segment does not come back to its first slot. */
  lemma NotAgain(t: Table, a: nat, n: nat)
    requires |t| == MAX_PROCESSES && 0 < n <= MAX_PROCESSES
    ensures a % MAX_PROCESSES !in Segment(t, a + 1, n - 1)
  {
    SegmentIn(t, a + 1, n - 1, a % MAX_PROCESSES);
    hide Segment, Runnable;
  }

  lemma OrderMember(k: Kernel, x: nat)
    requires Shape(k)
    ensures x in Order(k) <==> x in RunSet(k.procs)
  {
    hide Segment;
    var a := k.current + 1;
    SegmentIn(k.procs, a, MAX_PROCESSES, x);
    if x < MAX_PROCESSES {
      var e := if x >= a then x else x + MAX_PROCESSES;
      assert a <= e < a + MAX_PROCESSES && e % MAX_PROCESSES == x;
    }
  }

  lemma OrderDistinct(k: Kernel)
    requires Shape(k)
    ensures forall i, j :: 0 <= i < j < |Order(k)| ==> Order(k)[i] != Order(k)[j]
  {
    hide Segment;
    SegmentDistinct(k.procs, k.current + 1, MAX_PROCESSES);
  }

  /** Every runnable slot is in the order exactly once, and no other slot is. */
  lemma OrderHolds(k: Kernel)
    requires Shape(k)
    ensures Elements(Order(k)) == RunSet(k.procs)
    ensures forall i, j :: 0 <= i < j < |Order(k)| ==> Order(k)[i] != Order(k)[j]
    ensures |Order(k)| == |RunSet(k.procs)|
  {
    OrderDistinct(k);
    hide Segment, Order, RunSet, Shape;
    forall x | x in RunSet(k.procs) ensures x in Elements(Order(k)) {
      OrderMember(k, x);
    }
    forall x | x in Elements(Order(k)) ensures x in RunSet(k.procs) {
      OrderMember(k, x);
    }
    DistinctCount(Order(k));
  }

  lemma {:induction false} DistinctCount(s: seq<nat>)
    requires forall i, j :: 0 <= i < j < |s| ==> s[i] != s[j]
    ensures |Elements(s)| == |s|
  {
    if s != [] {
      var rest := s[1..];
      DistinctCount(rest);
      assert s == [s[0]] + rest;
      ElementsCons(s[0], rest);
      assert s[0] !in Elements(rest);
    }
  }

  /** The effect of one call when nobody is doomed: the first slot of the order runs and goes to its end. */
  lemma OneCall(k: Kernel)
    requires Shape(k) && AllCalm(k) && |RunSet(k.procs)| >= 2
    ensures var r := Schedule(k);
            && r.dead == [] && AllCalm(r.k) && RunSet(r.k.procs) == RunSet(k.procs)
            && Order(k) != [] && r.k.current == Order(k)[0]
            && Order(r.k) == Order(k)[1..] + [Order(k)[0]]
    ensures forall i :: 0 <= i < MAX_PROCESSES ==>
              Schedule(k).k.procs[i].cpuTime == k.procs[i].cpuTime + if i == Schedule(k).k.current then 1 else 0
  {
    hide Schedule, Pick, AllCalm, Enter, Taken, Switch, TakeAll, Doomed, Killed, Segment, Ahead;
    Unfold(k);
    TwoRunnable(k);
    var d := Pick(k, 1);
    CalmCall(k);
    OrderRotates(k, Schedule(k).k);
  }

  lemma TwoRunnable(k: Kernel)
    requires Shape(k) && |RunSet(k.procs)| >= 2
    ensures Pick(k, 1) < MAX_PROCESSES
  {
    hide Pick;
    if i :| i in RunSet(k.procs) && i != k.current {
      PickCovers(k, i);
    } else {
      assert RunSet(k.procs) <= {k.current};
      SubsetCount(RunSet(k.procs), {k.current});
    }
  }

  lemma SubsetCount(a: set<nat>, b: set<nat>)
    requires a <= b
    ensures |a| <= |b|
  {
    if a != {} {
      var x :| x in a;
      SubsetCount(a - {x}, b - {x});
    }
  }

  /** The same call on the processes: one runs, and at most its pending signals change otherwise. */
  lemma CalmCall(k: Kernel)
    requires Shape(k) && AllCalm(k) && Pick(k, 1) < MAX_PROCESSES
    ensures var r := Schedule(k);
            && r.dead == [] && AllCalm(r.k) && RunSet(r.k.procs) == RunSet(k.procs)
            && r.k.current == Ahead(k, Pick(k, 1))
    ensures forall i :: 0 <= i < MAX_PROCESSES ==>
              Runnable(Schedule(k).k.procs[i]) == Runnable(k.procs[i])
              && Schedule(k).k.procs[i].cpuTime == k.procs[i].cpuTime + if i == Schedule(k).k.current then 1 else 0
  {
    hide Schedule, Pick, TakeAll, Doomed, Killed;
    Unfold(k);
    var j := Ahead(k, Pick(k, 1));
    var e := Enter(k, Pick(k, 1));
    EnterShape(k, Pick(k, 1));
    CalmIsNotDoomed(k.procs[j]);
    DoomedFields(k.procs[j], e.procs[j]);
    TakenShape(e);
    SwitchKeeps(Taken(e));
    var r := Schedule(k).k;
    forall i | 0 <= i < MAX_PROCESSES ensures Calm(r.procs[i]) && Runnable(r.procs[i]) == Runnable(k.procs[i]) {
      assert Calm(k.procs[i]);
      if i == j {
        assert forall x :: Deliverable(r.procs[j], x) ==> Deliverable(k.procs[j], x);
      }
    }
  }

  /** After a call that made the first slot of the order current, the order is rotated by one. */
  lemma OrderRotates(k: Kernel, k': Kernel)
    requires Shape(k) && Shape(k') && Pick(k, 1) < MAX_PROCESSES && k'.current == Ahead(k, Pick(k, 1))
    requires forall i :: 0 <= i < MAX_PROCESSES ==> Runnable(k'.procs[i]) == Runnable(k.procs[i])
    ensures Order(k) != [] && k'.current == Order(k)[0] && Order(k') == Order(k)[1..] + [Order(k)[0]]
  {
    hide Runnable, Pick, Segment;
    FirstSegment(k);
    RotateSegments(k.procs, k'.procs, k.current, Pick(k, 1), k'.current);
  }

  lemma RotateSegments(t: Table, u: Table, c: nat, d: nat, c': nat)
    requires |t| == |u| == MAX_PROCESSES && c < MAX_PROCESSES && d <= MAX_PROCESSES
    requires forall i :: 0 <= i < MAX_PROCESSES ==> Runnable(t[i]) == Runnable(u[i])
    requires c' == (c + d) % MAX_PROCESSES && Segment(t, c + 1, d) == [c']
    ensures var whole := Segment(t, c + 1, MAX_PROCESSES);
            whole != [] && whole[0] == c' && Segment(u, c' + 1, MAX_PROCESSES) == whole[1..] + [c']
  {
    hide Runnable, Segment;
    Congruent(c, d);
    SegmentSplit(t, c + 1, d, MAX_PROCESSES - d);
    SegmentSplit(u, c' + 1, MAX_PROCESSES - d, d);
    SegmentSame(t, u, c + 1 + d, c' + 1, MAX_PROCESSES - d);
    SegmentSame(t, u, c + 1, c' + 1 + (MAX_PROCESSES - d), d);
  }

  lemma Congruent(c: nat, d: nat)
    requires c < MAX_PROCESSES && d <= MAX_PROCESSES
    ensures var c' := (c + d) % MAX_PROCESSES;
            ((c + 1) + d) % MAX_PROCESSES == (c' + 1) % MAX_PROCESSES
            && (c + 1) % MAX_PROCESSES == (c' + 1 + (MAX_PROCESSES - d)) % MAX_PROCESSES
  {
  }

  lemma FirstSegment(k: Kernel)
    requires Shape(k) && Pick(k, 1) < MAX_PROCESSES
    ensures Segment(k.procs, k.current + 1, Pick(k, 1)) == [Ahead(k, Pick(k, 1))]
  {
    FirstFrom(k, 1);
  }

  lemma {:induction false} FirstFrom(k: Kernel, e: nat)
    requires Shape(k) && 1 <= e <= Pick(k, 1) < MAX_PROCESSES
    ensures Segment(k.procs, k.current + e, Pick(k, 1) - e + 1) == [Ahead(k, Pick(k, 1))]
    decreases MAX_PROCESSES - e
  {
    hide Pick, Runnable;
    if e == Pick(k, 1) {
      LastOne(k.procs, k.current + e);
    } else {
      NoneBefore(k, e);
      FirstFrom(k, e + 1);
    }
  }

  lemma NoneBefore(k: Kernel, e: nat)
    requires Shape(k) && 1 <= e < Pick(k, 1)
    ensures !Runnable(k.procs[(k.current + e) % MAX_PROCESSES])
  {
    hide Pick, Runnable;
    assert !Runnable(k.procs[Ahead(k, e)]);
  }

  lemma LastOne(t: Table, a: nat)
    requires |t| == MAX_PROCESSES && Runnable(t[a % MAX_PROCESSES])
    ensures Segment(t, a, 1) == [a % MAX_PROCESSES]
  {
    assert Segment(t, a + 1, 0) == [];
  }

  // ---------- many calls ----------

  ghost function Times(k: Kernel, n: nat): (r: Kernel)
    requires Shape(k)
    ensures Shape(r)
  {
    if n == 0 then k else Schedule(Times(k, n - 1)).k
  }

  function Rotated(s: seq<nat>, n: nat): (r: seq<nat>)
    requires n <= |s|
    ensures |r| == |s|
  {
    s[n..] + s[..n]
  }

  /** Within one round the calls go through the order. */
  lemma {:induction false} OneRound(k: Kernel, n: nat)
    requires Shape(k) && AllCalm(k) && |RunSet(k.procs)| >= 2 && n <= |Order(k)|
    ensures AllCalm(Times(k, n)) && RunSet(Times(k, n).procs) == RunSet(k.procs)
    ensures Order(Times(k, n)) == Rotated(Order(k), n)
    ensures n < |Order(k)| ==> Times(k, n + 1).current == Order(k)[n]
    ensures forall i :: 0 <= i < MAX_PROCESSES ==>
              Times(k, n).procs[i].cpuTime == k.procs[i].cpuTime + if i in Order(k)[..n] then 1 else 0
  {
    hide Schedule, AllCalm, Shape, RunSet, Order;
    if n > 0 {
      OneRound(k, n - 1);
      var b := Times(k, n - 1);
      OneCall(b);
      OrderHolds(k);
      assert Order(k)[..n] == Order(k)[..n - 1] + [Order(k)[n - 1]];
    }
    if n < |Order(k)| {
      OneCall(Times(k, n));
    }
  }

  lemma {:induction false} TimesAdds(k: Kernel, m: nat, n: nat)
    requires Shape(k)
    ensures Times(k, m + n) == Times(Times(k, m), n)
    decreases n
  {
    hide Schedule, Shape;
    if n > 0 {
      TimesAdds(k, m, n - 1);
      assert Times(k, m + n) == Schedule(Times(k, m + n - 1)).k;
    }
  }

  /**
   * With R >= 2 runnable processes and nobody doomed, m * R calls of schedule leave the order as it was, raise the
   * CPU time of every runnable process by exactly m, and leave that of every other process.
   */
  lemma {:induction false} RoundRobin(k: Kernel, m: nat)
    requires Shape(k) && AllCalm(k) && |RunSet(k.procs)| >= 2
    ensures var r := Times(k, m * |RunSet(k.procs)|);
            && AllCalm(r) && RunSet(r.procs) == RunSet(k.procs) && Order(r) == Order(k)
            && forall i :: 0 <= i < MAX_PROCESSES ==>
                 r.procs[i].cpuTime == k.procs[i].cpuTime + if i in RunSet(k.procs) then m else 0
  {
    hide Schedule, AllCalm, Shape, RunSet, Order, Times;
    var n := |RunSet(k.procs)|;
    if m == 0 {
      NoTimes(k);
    } else {
      RoundRobin(k, m - 1);
      var b := Times(k, (m - 1) * n);
      OrderHolds(b);
      OneRound(b, n);
      assert m * n == (m - 1) * n + n;
      TimesAdds(k, (m - 1) * n, n);
      assert Order(b)[..n] == Order(b);
      forall i: nat ensures i in Order(b) <==> i in RunSet(k.procs) {
        OrderMember(b, i);
      }
    }
  }

  lemma NoTimes(k: Kernel)
    requires Shape(k)
    ensures Times(k, 0) == k
  {
  }

  /** The slot that call n + 1 after m rounds makes current. */
  ghost function Visited(k: Kernel, m: nat, n: nat): nat
    requires Shape(k)
  {
    hide Shape, Schedule, RunSet, Times;
    Times(k, m * |RunSet(k.procs)| + n + 1).current
  }

  /** The slots visited, in cyclic order: after any number of rounds, call n + 1 makes slot n of the order current. */
  lemma VisitsInOrder(k: Kernel, m: nat, n: nat)
    requires Shape(k) && AllCalm(k) && |RunSet(k.procs)| >= 2 && n < |RunSet(k.procs)|
    ensures n < |Order(k)| && Visited(k, m, n) == Order(k)[n]
  {
    hide Schedule, AllCalm, Shape, RunSet, Order, Times;
    RoundRobin(k, m);
    OrderHolds(k);
    var b := Times(k, m * |RunSet(k.procs)|);
    OneRound(b, n);
    TimesAdds(k, m * |RunSet(k.procs)|, n + 1);
  }
}
