/** All pipes and processes together: pipe calls of many processes, interleaved at their yield points. */
module PipeRuns {
  import opened Bytes
  import opened Processes
  import opened Pipes

  const MAX_PIPES: nat := 64

  /** A descriptor: the pipe's id (fd >> 3) and the ends its low bits name. */
  datatype Fd = Fd(id: nat, ends: Ends)

  /** What a process has under way: nothing, or a pipe call that has yielded. The code keeps a pointer to the slot. */
  datatype Frame =
    | Idle
    | InRead(slot: nat, id: nat, count: nat)
    | InWrite(slot: nat, id: nat, buf: seq<byte>, written: nat)

  datatype Event =
    | Opened(slot: nat)
    | Wrote(slot: nat, pid: nat, bytes: seq<byte>)
    | Got(slot: nat, pid: nat, bytes: seq<byte>)
    | Began(pid: nat, buf: seq<byte>)
    | Ended(pid: nat, result: int)

  /** `states` and `frames` are indexed by pid; `log` is the history of what happened. */
  datatype World = World(pipes: seq<Pipe>, nextId: nat, states: seq<State>, frames: seq<Frame>, log: seq<Event>)

  datatype Step =
    | Create(pid: nat)
    | Close(fd: Fd)
    | SetNonblock(fd: Fd, nonblock: bool)
    | Read(pid: nat, fd: Fd, count: nat)
    | Write(pid: nat, fd: Fd, buf: seq<byte>)
    | Resume(pid: nat)
    | Others(states: seq<State>)

  /** pipe_get_by_fd: the first slot with this id; MAX_PIPES stands for NULL. */
  function Lookup(pipes: seq<Pipe>, id: nat): (s: nat)
    ensures s <= |pipes| && (s < |pipes| ==> pipes[s].id == id)
    ensures forall j :: 0 <= j < s ==> pipes[j].id != id
  {
    if pipes == [] || pipes[0].id == id then 0 else 1 + Lookup(pipes[1..], id)
  }

  /** unblock_process, guarded by the callers' test for pid 0. */
  function WakeUp(states: seq<State>, pid: nat): (r: seq<State>)
    ensures |r| == |states|
  {
    if pid != 0 && pid < |states| && states[pid] == Blocked then states[pid := Ready] else states
  }

  /** A process that can run kernel code and is not inside a pipe call. */
  predicate CanCall(w: World, pid: nat) {
    0 < pid < |w.states| && |w.frames| == |w.states| && w.states[pid] == Running && w.frames[pid] == Idle
  }

  /** What the rest of the kernel may do to the states: it blocks no process that is inside a pipe call. */
  predicate Allowed(w: World, states: seq<State>) {
    |states| == |w.states| == |w.frames|
    && forall p :: 0 <= p < |states| && states[p] == Blocked ==> w.states[p] == Blocked || w.frames[p] == Idle
  }

  function Finish(w: World, pid: nat, frame: Frame, outcome: Outcome): World
    requires pid < |w.states| && |w.frames| == |w.states|
  {
    match outcome
    case Done(result) => w.(frames := w.frames[pid := Idle], log := w.log + [Ended(pid, result)])
    case Waits => w.(frames := w.frames[pid := frame], states := w.states[pid := Blocked])
  }

  function ApplyRead(w: World, pid: nat, s: nat, count: nat, r: ReadStep): World
    requires s < |w.pipes| && pid < |w.states| && |w.frames| == |w.states|
  {
    var w1 := w.(pipes := w.pipes[s := r.pipe],
                 states := if r.woke then WakeUp(w.states, r.pipe.writerPid) else w.states,
                 log := w.log + [Got(s, pid, r.got)]);
    Finish(w1, pid, InRead(s, r.pipe.id, count), r.outcome)
  }

  function ApplyWrite(w: World, pid: nat, s: nat, buf: seq<byte>, from: nat, r: WriteStep): World
    requires s < |w.pipes| && pid < |w.states| && |w.frames| == |w.states| && from <= r.written <= |buf|
  {
    var w1 := w.(pipes := w.pipes[s := r.pipe],
                 states := if r.woke then WakeUp(w.states, r.pipe.readerPid) else w.states,
                 log := w.log + [Wrote(s, pid, buf[from..r.written])]);
    Finish(w1, pid, InWrite(s, r.pipe.id, buf, r.written), r.outcome)
  }

  ghost predicate PipesOk(w: World) {
    && |w.pipes| == MAX_PIPES && |w.frames| == |w.states| && w.nextId > 0
    && forall s :: 0 <= s < MAX_PIPES ==> PipeOk(w.pipes[s], w.nextId)
  }

  ghost predicate PipeOk(p: Pipe, nextId: nat) {
    && |p.data| <= PIPE_BUFFER_SIZE && p.id < nextId
    && (p.id == 0 ==> !p.readerOpen && !p.writerOpen)
  }

  ghost predicate FramesFit(w: World) {
    && |w.frames| == |w.states|
    && (|w.frames| > 0 ==> w.frames[0] == Idle)
    && forall p :: 0 <= p < |w.frames| ==> FrameFits(w.frames[p], w.nextId)
  }

  ghost predicate FrameFits(f: Frame, nextId: nat) {
    && (f.InRead? ==> f.slot < MAX_PIPES && 0 < f.id < nextId)
    && (f.InWrite? ==> f.slot < MAX_PIPES && 0 < f.id < nextId && f.written < |f.buf|)
  }

  /** One step; a step that is not possible leaves the world as it is. */
  ghost function After(w: World, step: Step): World
    requires PipesOk(w) && FramesFit(w)
  {
    match step
    case Create(pid) =>
      var s := Lookup(w.pipes, 0);
      if s == MAX_PIPES then w
      else
        var old_ := w.pipes[s];
        var pipe := Pipe(w.nextId, [], false, if pid != 0 then pid else old_.readerPid,
                         if pid != 0 then pid else old_.writerPid, true, true);
        w.(pipes := w.pipes[s := pipe], nextId := w.nextId + 1, log := w.log + [Opened(s)])
    case Close(fd) =>
      var s := Lookup(w.pipes, fd.id);
      if s == MAX_PIPES then w else w.(pipes := w.pipes[s := ClosedEnds(w.pipes[s], fd.ends)])
    case SetNonblock(fd, nonblock) =>
      var s := Lookup(w.pipes, fd.id);
      if s == MAX_PIPES then w else w.(pipes := w.pipes[s := w.pipes[s].(nonblock := nonblock)])
    case Read(pid, fd, count) =>
      var s := Lookup(w.pipes, fd.id);
      if !CanCall(w, pid) || s == MAX_PIPES then w
      else ApplyRead(w, pid, s, count, BeginRead(w.pipes[s], fd.ends, count))
    case Write(pid, fd, buf) =>
      var s := Lookup(w.pipes, fd.id);
      if !CanCall(w, pid) || s == MAX_PIPES then w
      else
        assert PipeOk(w.pipes[s], w.nextId);
        ApplyWrite(w.(log := w.log + [Began(pid, buf)]), pid, s, buf, 0, BeginWrite(w.pipes[s], fd.ends, buf))
    case Resume(pid) =>
      if 0 < pid < |w.frames| && w.states[pid] == Running then
        assert FrameFits(w.frames[pid], w.nextId);
        match w.frames[pid]
        case Idle => w
        case InRead(s, id, count) => ApplyRead(w, pid, s, count, ResumeRead(w.pipes[s], count))
        case InWrite(s, id, buf, written) =>
          assert PipeOk(w.pipes[s], w.nextId);
          ApplyWrite(w, pid, s, buf, written, ResumeWrite(w.pipes[s], buf, written))
      else w
    case Others(states) => if Allowed(w, states) then w.(states := states) else w
  }

  // ---------- what the history says ----------

  /** All bytes that writes put into the pipe in slot `s` since it was created, in order. */
  ghost function Accepted(log: seq<Event>, s: nat): seq<byte> {
    if log == [] then []
    else
      var e, rest := log[|log| - 1], log[..|log| - 1];
      if e == Opened(s) then []
      else Accepted(rest, s) + if e.Wrote? && e.slot == s then e.bytes else []
  }

  /** All bytes that reads took out of it. */
  ghost function Delivered(log: seq<Event>, s: nat): seq<byte> {
    if log == [] then []
    else
      var e, rest := log[|log| - 1], log[..|log| - 1];
      if e == Opened(s) then []
      else Delivered(rest, s) + if e.Got? && e.slot == s then e.bytes else []
  }

  /** The buffer of the latest write of a process. */
  ghost function LastBuffer(log: seq<Event>, pid: nat): seq<byte> {
    if log == [] then []
    else
      var e := log[|log| - 1];
      if e.Began? && e.pid == pid then e.buf else LastBuffer(log[..|log| - 1], pid)
  }

  /** The bytes that write has put into pipes. */
  ghost function Since(log: seq<Event>, pid: nat): seq<byte> {
    if log == [] then []
    else
      var e, rest := log[|log| - 1], log[..|log| - 1];
      if e.Began? && e.pid == pid then []
      else Since(rest, pid) + if e.Wrote? && e.pid == pid then e.bytes else []
  }

  lemma Push(log: seq<Event>, e: Event)
    ensures forall s :: Accepted(log + [e], s) == if e == Opened(s) then []
                        else Accepted(log, s) + if e.Wrote? && e.slot == s then e.bytes else []
    ensures forall s :: Delivered(log + [e], s) == if e == Opened(s) then []
                        else Delivered(log, s) + if e.Got? && e.slot == s then e.bytes else []
    ensures forall p :: LastBuffer(log + [e], p) == if e.Began? && e.pid == p then e.buf else LastBuffer(log, p)
    ensures forall p :: Since(log + [e], p) == if e.Began? && e.pid == p then []
                        else Since(log, p) + if e.Wrote? && e.pid == p then e.bytes else []
  {
    assert (log + [e])[..|log|] == log;
  }

  /** The stream law: what was delivered, followed by what is in the ring, is what was accepted. */
  ghost predicate StreamLaw(w: World) {
    forall s :: 0 <= s < |w.pipes| ==> Accepted(w.log, s) == Delivered(w.log, s) + w.pipes[s].data
  }

  /**
   * Every write, finished or not, has put a prefix of its buffer into the pipe; one under way, as much as it counts.
   */
  ghost predicate WritePrefixes(w: World) {
    && (forall p :: Since(w.log, p) <= LastBuffer(w.log, p))
    && (forall p :: 0 <= p < |w.frames| && w.frames[p].InWrite? && w.frames[p].written <= |w.frames[p].buf| ==>
          LastBuffer(w.log, p) == w.frames[p].buf && Since(w.log, p) == w.frames[p].buf[..w.frames[p].written])
  }

  /** No lost wake-up for process `p` where it created the pipe and both ends are still open. */
  ghost predicate WaitJustified(w: World, p: nat)
    requires p < |w.states| && |w.frames| == |w.states|
  {
    w.states[p] == Blocked ==>
      match w.frames[p]
      case Idle => true
      case InRead(s, id, _) =>
        (s < |w.pipes| && w.pipes[s].id == id && w.pipes[s].readerPid == p
         && w.pipes[s].readerOpen && w.pipes[s].writerOpen) ==> w.pipes[s].data == []
      case InWrite(s, id, _, _) =>
        (s < |w.pipes| && w.pipes[s].id == id && w.pipes[s].writerPid == p
         && w.pipes[s].readerOpen && w.pipes[s].writerOpen) ==> |w.pipes[s].data| == PIPE_BUFFER_SIZE
  }

  ghost predicate NoLostWakeup(w: World) {
    |w.frames| == |w.states| && forall p :: 0 <= p < |w.frames| ==> WaitJustified(w, p)
  }

  ghost predicate Inv(w: World) {
    PipesOk(w) && FramesFit(w) && StreamLaw(w) && WritePrefixes(w) && NoLostWakeup(w)
  }

  // ---------- one stretch of a read ----------

  lemma ReadShape(w: World, pid: nat, s: nat, count: nat, r: ReadStep)
    requires PipesOk(w) && FramesFit(w) && s < MAX_PIPES && 0 < pid < |w.frames|
    requires Takes(w.pipes[s], count, r) && (r.outcome == Waits ==> w.pipes[s].id != 0)
    ensures PipesOk(ApplyRead(w, pid, s, count, r)) && FramesFit(ApplyRead(w, pid, s, count, r))
  {
    assert PipeOk(w.pipes[s], w.nextId);
    var v := ApplyRead(w, pid, s, count, r);
    forall t | 0 <= t < MAX_PIPES ensures PipeOk(v.pipes[t], v.nextId) {
      assert PipeOk(w.pipes[t], w.nextId);
    }
    forall p | 0 <= p < |v.frames| ensures FrameFits(v.frames[p], v.nextId) {
      assert FrameFits(w.frames[p], w.nextId);
    }
  }

  /** What a stretch of a read adds to the history. */
  lemma ReadLog(w: World, pid: nat, s: nat, count: nat, r: ReadStep)
    requires s < |w.pipes| && pid < |w.states| && |w.frames| == |w.states|
    ensures var v := ApplyRead(w, pid, s, count, r);
            && (forall t :: Accepted(v.log, t) == Accepted(w.log, t))
            && (forall t :: Delivered(v.log, t) == Delivered(w.log, t) + if t == s then r.got else [])
            && (forall p :: Since(v.log, p) == Since(w.log, p) && LastBuffer(v.log, p) == LastBuffer(w.log, p))
  {
    var e := Got(s, pid, r.got);
    LogAfterRead(w, pid, s, count, r);
    hide Accepted, Delivered, Since, LastBuffer, ApplyRead;
    Push(w.log, e);
    if r.outcome.Done? {
      Push(w.log + [e], Ended(pid, r.outcome.result));
    }
  }

  lemma LogAfterRead(w: World, pid: nat, s: nat, count: nat, r: ReadStep)
    requires s < |w.pipes| && pid < |w.states| && |w.frames| == |w.states|
    ensures ApplyRead(w, pid, s, count, r).log
         == w.log + [Got(s, pid, r.got)] + if r.outcome.Done? then [Ended(pid, r.outcome.result)] else []
  {
    hide WakeUp;
  }

  lemma ReadStream(w: World, pid: nat, s: nat, count: nat, r: ReadStep)
    requires PipesOk(w) && s < MAX_PIPES && 0 < pid < |w.frames| && Takes(w.pipes[s], count, r)
    requires StreamLaw(w) && WritePrefixes(w)
    ensures StreamLaw(ApplyRead(w, pid, s, count, r)) && WritePrefixes(ApplyRead(w, pid, s, count, r))
  {
    ReadLog(w, pid, s, count, r);
    ReadFrames(w, pid, s, count, r);
    hide Accepted, Delivered, Since, LastBuffer, ApplyRead;
    var v := ApplyRead(w, pid, s, count, r);
    forall t | 0 <= t < |v.pipes| ensures Accepted(v.log, t) == Delivered(v.log, t) + v.pipes[t].data {
      assert Accepted(w.log, t) == Delivered(w.log, t) + w.pipes[t].data;
      Moved(Delivered(w.log, t), if t == s then r.got else [], v.pipes[t].data);
    }
  }

  lemma Moved(a: seq<byte>, b: seq<byte>, c: seq<byte>)
    ensures a + (b + c) == a + b + c && [] + c == c
  {
  }

  lemma ReadFrames(w: World, pid: nat, s: nat, count: nat, r: ReadStep)
    requires s < |w.pipes| && pid < |w.states| && |w.frames| == |w.states|
    ensures var v := ApplyRead(w, pid, s, count, r);
            && v.pipes == w.pipes[s := r.pipe]
            && |v.frames| == |w.frames| && (forall p :: 0 <= p < |w.frames| && p != pid ==> v.frames[p] == w.frames[p])
            && !v.frames[pid].InWrite?
  {
    hide WakeUp;
  }

  lemma ReadWaits(w: World, pid: nat, s: nat, count: nat, r: ReadStep)
    requires PipesOk(w) && FramesFit(w) && s < MAX_PIPES && pid < |w.frames| && Takes(w.pipes[s], count, r)
    requires NoLostWakeup(w)
    ensures NoLostWakeup(ApplyRead(w, pid, s, count, r))
  {
    var v := ApplyRead(w, pid, s, count, r);
    forall p | 0 <= p < |v.frames| ensures WaitJustified(v, p) {
      assert WaitJustified(w, p) && FrameFits(w.frames[p], w.nextId);
    }
  }

  // ---------- one stretch of a write ----------

  ghost predicate Appends(p: Pipe, buf: seq<byte>, from: nat, r: WriteStep) {
    && from <= r.written <= |buf| && |r.pipe.data| <= PIPE_BUFFER_SIZE
    && r.pipe == p.(data := p.data + buf[from..r.written])
    && (r.written > from ==> r.woke)
    && (r.outcome == Waits ==> |r.pipe.data| == PIPE_BUFFER_SIZE && r.written < |buf| && p.id != 0)
    && (r.outcome.Done? ==> r.outcome.result in {AsInt(r.written), PIPE_ERROR_FULL, PIPE_ERROR_CLOSED})
  }

  lemma BeginAppends(p: Pipe, nextId: nat, ends: Ends, buf: seq<byte>)
    requires PipeOk(p, nextId)
    ensures Appends(p, buf, 0, BeginWrite(p, ends, buf))
  {
    WriteLoopAppends(p, buf, 0, false);
    assert p.data + buf[0..0] == p.data;
  }

  lemma ResumedAppends(p: Pipe, nextId: nat, buf: seq<byte>, written: nat)
    requires PipeOk(p, nextId) && written < |buf|
    ensures Appends(p, buf, written, ResumeWrite(p, buf, written))
  {
    ResumeAppends(p, buf, written);
  }

  lemma WriteShape(w: World, pid: nat, s: nat, buf: seq<byte>, from: nat, r: WriteStep)
    requires PipesOk(w) && FramesFit(w) && s < MAX_PIPES && 0 < pid < |w.frames|
    requires Appends(w.pipes[s], buf, from, r)
    ensures PipesOk(ApplyWrite(w, pid, s, buf, from, r)) && FramesFit(ApplyWrite(w, pid, s, buf, from, r))
  {
    assert PipeOk(w.pipes[s], w.nextId);
    var v := ApplyWrite(w, pid, s, buf, from, r);
    forall t | 0 <= t < MAX_PIPES ensures PipeOk(v.pipes[t], v.nextId) {
      assert PipeOk(w.pipes[t], w.nextId);
    }
    forall p | 0 <= p < |v.frames| ensures FrameFits(v.frames[p], v.nextId) {
      assert FrameFits(w.frames[p], w.nextId);
    }
  }

  /** What a stretch of a write adds to the history. */
  lemma WriteLog(w: World, pid: nat, s: nat, buf: seq<byte>, from: nat, r: WriteStep)
    requires s < |w.pipes| && pid < |w.states| && |w.frames| == |w.states| && from <= r.written <= |buf|
    ensures var v := ApplyWrite(w, pid, s, buf, from, r);
            && (forall t :: Accepted(v.log, t) == Accepted(w.log, t) + if t == s then buf[from..r.written] else [])
            && (forall t :: Delivered(v.log, t) == Delivered(w.log, t))
            && (forall p :: Since(v.log, p) == Since(w.log, p) + if p == pid then buf[from..r.written] else [])
            && (forall p :: LastBuffer(v.log, p) == LastBuffer(w.log, p))
  {
    var e := Wrote(s, pid, buf[from..r.written]);
    LogAfterWrite(w, pid, s, buf, from, r);
    hide Accepted, Delivered, Since, LastBuffer, ApplyWrite;
    Push(w.log, e);
    if r.outcome.Done? {
      Push(w.log + [e], Ended(pid, r.outcome.result));
    }
  }

  lemma LogAfterWrite(w: World, pid: nat, s: nat, buf: seq<byte>, from: nat, r: WriteStep)
    requires s < |w.pipes| && pid < |w.states| && |w.frames| == |w.states| && from <= r.written <= |buf|
    ensures ApplyWrite(w, pid, s, buf, from, r).log
         == w.log + [Wrote(s, pid, buf[from..r.written])]
            + if r.outcome.Done? then [Ended(pid, r.outcome.result)] else []
  {
    hide WakeUp;
  }

  lemma WriteStream(w: World, pid: nat, s: nat, buf: seq<byte>, from: nat, r: WriteStep)
    requires PipesOk(w) && s < MAX_PIPES && 0 < pid < |w.frames| && Appends(w.pipes[s], buf, from, r)
    requires StreamLaw(w)
    ensures StreamLaw(ApplyWrite(w, pid, s, buf, from, r))
  {
    WriteLog(w, pid, s, buf, from, r);
    hide Accepted, Delivered, Since, LastBuffer, WakeUp;
    var chunk := buf[from..r.written];
    assert Accepted(w.log, s) + chunk == Delivered(w.log, s) + (w.pipes[s].data + chunk);
  }

  lemma WritePrefix(w: World, pid: nat, s: nat, buf: seq<byte>, from: nat, r: WriteStep)
    requires PipesOk(w) && s < MAX_PIPES && 0 < pid < |w.frames| && Appends(w.pipes[s], buf, from, r)
    requires WritePrefixes(w) && LastBuffer(w.log, pid) == buf && Since(w.log, pid) == buf[..from]
    ensures WritePrefixes(ApplyWrite(w, pid, s, buf, from, r))
  {
    WriteLog(w, pid, s, buf, from, r);
    WriteFrames(w, pid, s, buf, from, r);
    hide Accepted, Delivered, Since, LastBuffer, ApplyWrite, PipesOk;
    var v := ApplyWrite(w, pid, s, buf, from, r);
    assert buf[..from] + buf[from..r.written] == buf[..r.written];
    forall p ensures Since(v.log, p) <= LastBuffer(v.log, p) {
      assert Since(w.log, p) + [] == Since(w.log, p);
    }
    forall p | 0 <= p < |v.frames| && v.frames[p].InWrite? && v.frames[p].written <= |v.frames[p].buf|
      ensures LastBuffer(v.log, p) == v.frames[p].buf && Since(v.log, p) == v.frames[p].buf[..v.frames[p].written]
    {
      assert Since(w.log, p) + [] == Since(w.log, p);
    }
  }

  lemma WriteFrames(w: World, pid: nat, s: nat, buf: seq<byte>, from: nat, r: WriteStep)
    requires s < |w.pipes| && pid < |w.states| && |w.frames| == |w.states| && from <= r.written <= |buf|
    ensures var v := ApplyWrite(w, pid, s, buf, from, r);
            && |v.frames| == |w.frames| && (forall p :: 0 <= p < |w.frames| && p != pid ==> v.frames[p] == w.frames[p])
            && (v.frames[pid].InWrite? ==> v.frames[pid].buf == buf && v.frames[pid].written == r.written)
  {
    hide WakeUp;
  }

  lemma WriteWaits(w: World, pid: nat, s: nat, buf: seq<byte>, from: nat, r: WriteStep)
    requires PipesOk(w) && FramesFit(w) && s < MAX_PIPES && 0 < pid < |w.frames|
    requires Appends(w.pipes[s], buf, from, r) && NoLostWakeup(w)
    ensures NoLostWakeup(ApplyWrite(w, pid, s, buf, from, r))
  {
    var v := ApplyWrite(w, pid, s, buf, from, r);
    forall p | 0 <= p < |v.frames| ensures WaitJustified(v, p) {
      assert WaitJustified(w, p) && FrameFits(w.frames[p], w.nextId);
    }
  }

  // ---------- every step keeps the invariant ----------

  lemma ReadKeepsInv(w: World, pid: nat, s: nat, count: nat, r: ReadStep)
    requires Inv(w) && s < MAX_PIPES && 0 < pid < |w.frames|
    requires Takes(w.pipes[s], count, r) && (r.outcome == Waits ==> w.pipes[s].id != 0)
    ensures Inv(ApplyRead(w, pid, s, count, r))
  {
    hide PipesOk, FramesFit, StreamLaw, WritePrefixes, NoLostWakeup, Takes, ApplyRead;
    ReadShape(w, pid, s, count, r);
    ReadStream(w, pid, s, count, r);
    ReadWaits(w, pid, s, count, r);
  }

  lemma WriteKeepsInv(w: World, pid: nat, s: nat, buf: seq<byte>, from: nat, r: WriteStep)
    requires Inv(w) && s < MAX_PIPES && 0 < pid < |w.frames|
    requires Appends(w.pipes[s], buf, from, r)
    requires LastBuffer(w.log, pid) == buf && Since(w.log, pid) == buf[..from]
    ensures Inv(ApplyWrite(w, pid, s, buf, from, r))
  {
    hide PipesOk, FramesFit, StreamLaw, WritePrefixes, NoLostWakeup, Appends, ApplyWrite;
    WriteShape(w, pid, s, buf, from, r);
    WriteStream(w, pid, s, buf, from, r);
    WritePrefix(w, pid, s, buf, from, r);
    WriteWaits(w, pid, s, buf, from, r);
  }

  lemma PipeAt(w: World, s: nat)
    requires Inv(w) && s < MAX_PIPES
    ensures |w.pipes| == MAX_PIPES && |w.frames| == |w.states| && PipeOk(w.pipes[s], w.nextId)
  {
  }

  lemma FrameAt(w: World, p: nat)
    requires Inv(w) && p < |w.frames|
    ensures FrameFits(w.frames[p], w.nextId)
  {
  }

  /** A write begins: its buffer goes into the history. */
  lemma BeganKeepsInv(w: World, pid: nat, buf: seq<byte>)
    requires Inv(w) && CanCall(w, pid)
    ensures var v := w.(log := w.log + [Began(pid, buf)]);
            Inv(v) && LastBuffer(v.log, pid) == buf && Since(v.log, pid) == []
  {
    Push(w.log, Began(pid, buf));
    hide Accepted, Delivered, Since, LastBuffer;
    var v := w.(log := w.log + [Began(pid, buf)]);
    assert forall s :: Accepted(v.log, s) == Accepted(w.log, s) && Delivered(v.log, s) == Delivered(w.log, s);
    assert StreamLaw(v);
    assert NoLostWakeup(v) by {
      forall p | 0 <= p < |v.frames| ensures WaitJustified(v, p) {
        assert WaitJustified(w, p);
      }
    }
  }

  /** Slot `s` filled in for a new pipe. */
  lemma CreateShape(w: World, s: nat, pipe: Pipe)
    requires PipesOk(w) && FramesFit(w) && s < MAX_PIPES && pipe.id == w.nextId && pipe.data == []
    ensures var v := w.(pipes := w.pipes[s := pipe], nextId := w.nextId + 1, log := w.log + [Opened(s)]);
            PipesOk(v) && FramesFit(v)
  {
    var v := w.(pipes := w.pipes[s := pipe], nextId := w.nextId + 1, log := w.log + [Opened(s)]);
    forall t | 0 <= t < MAX_PIPES ensures PipeOk(v.pipes[t], v.nextId) {
      assert PipeOk(w.pipes[t], w.nextId);
    }
    forall p | 0 <= p < |v.frames| ensures FrameFits(v.frames[p], v.nextId) {
      assert FrameFits(w.frames[p], w.nextId);
    }
  }

  lemma CreateStream(w: World, s: nat, pipe: Pipe)
    requires s < |w.pipes| && pipe.data == [] && StreamLaw(w) && WritePrefixes(w)
    ensures var v := w.(pipes := w.pipes[s := pipe], nextId := w.nextId + 1, log := w.log + [Opened(s)]);
            StreamLaw(v) && WritePrefixes(v)
  {
    Push(w.log, Opened(s));
    hide Accepted, Delivered, Since, LastBuffer;
    var v := w.(pipes := w.pipes[s := pipe], nextId := w.nextId + 1, log := w.log + [Opened(s)]);
    assert forall p :: Since(v.log, p) == Since(w.log, p) && LastBuffer(v.log, p) == LastBuffer(w.log, p);
    assert forall t :: t != s ==>
             Accepted(v.log, t) == Accepted(w.log, t) && Delivered(v.log, t) == Delivered(w.log, t);
  }

  /** A call under way on the slot before it was freed holds an older id, so it does not wait on the new pipe. */
  lemma CreateWaits(w: World, s: nat, pipe: Pipe)
    requires FramesFit(w) && s < |w.pipes| && pipe.id == w.nextId && NoLostWakeup(w)
    ensures NoLostWakeup(w.(pipes := w.pipes[s := pipe], nextId := w.nextId + 1, log := w.log + [Opened(s)]))
  {
    var v := w.(pipes := w.pipes[s := pipe], nextId := w.nextId + 1, log := w.log + [Opened(s)]);
    forall p | 0 <= p < |v.frames| ensures WaitJustified(v, p) {
      assert WaitJustified(w, p) && FrameFits(w.frames[p], w.nextId);
    }
  }

  lemma CreateKeepsInv(w: World, pid: nat)
    requires Inv(w)
    ensures Inv(After(w, Create(pid)))
  {
    var s := Lookup(w.pipes, 0);
    assert |w.pipes| == MAX_PIPES;
    if s < MAX_PIPES {
      var pipe := After(w, Create(pid)).pipes[s];
      CreateShape(w, s, pipe);
      CreateStream(w, s, pipe);
      CreateWaits(w, s, pipe);
      hide PipesOk, FramesFit, StreamLaw, WritePrefixes, NoLostWakeup, Lookup;
    }
  }

  /** Changing flags and open ends of one pipe, possibly freeing its slot. */
  lemma EndsKeepInv(w: World, s: nat, q: Pipe)
    requires Inv(w) && s < MAX_PIPES
    requires var p := w.pipes[s];
             q == p.(id := q.id, nonblock := q.nonblock, readerOpen := q.readerOpen, writerOpen := q.writerOpen)
             && (q.readerOpen ==> p.readerOpen) && (q.writerOpen ==> p.writerOpen)
             && (q.id == p.id || (q.id == 0 && !q.readerOpen && !q.writerOpen))
    ensures Inv(w.(pipes := w.pipes[s := q]))
  {
    PipeAt(w, s);
    var v := w.(pipes := w.pipes[s := q]);
    hide Accepted, Delivered, Since, LastBuffer;
    forall t | 0 <= t < MAX_PIPES ensures PipeOk(v.pipes[t], v.nextId) {
      assert PipeOk(w.pipes[t], w.nextId);
    }
    assert StreamLaw(v);
    forall p | 0 <= p < |v.frames| ensures WaitJustified(v, p) {
      assert WaitJustified(w, p);
    }
  }

  lemma OthersKeepInv(w: World, states: seq<State>)
    requires Inv(w) && Allowed(w, states)
    ensures Inv(w.(states := states))
  {
    var v := w.(states := states);
    hide Accepted, Delivered, Since, LastBuffer;
    assert FramesFit(v) by {
      forall p | 0 <= p < |v.frames| ensures FrameFits(v.frames[p], v.nextId) {
        assert FrameFits(w.frames[p], w.nextId);
      }
    }
    assert StreamLaw(v) && PipesOk(v);
    forall p | 0 <= p < |v.frames| ensures WaitJustified(v, p) {
      assert WaitJustified(w, p);
    }
  }

  lemma ResumeKeepsInv(w: World, pid: nat)
    requires Inv(w)
    ensures Inv(After(w, Resume(pid)))
  {
    hide Inv, ResumeRead, ResumeWrite, ApplyRead, ApplyWrite, PipesOk, FramesFit;
    PipeAt(w, 0);
    if 0 < pid < |w.frames| && w.states[pid] == Running {
      FrameAt(w, pid);
      match w.frames[pid]
      case Idle =>
      case InRead(s, id, count) =>
        PipeAt(w, s);
        ReadTakes(w.pipes[s], Ends(true, true), count);
        WaitsOpen(w.pipes[s], count);
        ReadKeepsInv(w, pid, s, count, ResumeRead(w.pipes[s], count));
      case InWrite(s, id, buf, written) =>
        PipeAt(w, s);
        ResumedAppends(w.pipes[s], w.nextId, buf, written);
        WriteUnderWay(w, pid);
        WriteKeepsInv(w, pid, s, buf, written, ResumeWrite(w.pipes[s], buf, written));
    }
  }

  /** A call that waits found its pipe open, so the slot was not free. */
  lemma WaitsOpen(p: Pipe, count: nat)
    ensures ResumeRead(p, count).outcome == Waits ==> p.writerOpen
    ensures forall ends :: BeginRead(p, ends, count).outcome == Waits ==> p.writerOpen
  {
  }

  lemma WriteUnderWay(w: World, pid: nat)
    requires Inv(w) && pid < |w.frames| && w.frames[pid].InWrite?
    ensures FrameFits(w.frames[pid], w.nextId)
    ensures LastBuffer(w.log, pid) == w.frames[pid].buf
    ensures Since(w.log, pid) == w.frames[pid].buf[..w.frames[pid].written]
  {
    FrameAt(w, pid);
  }

  /** Every step, by whichever process, keeps the invariant. */
  lemma StepKeepsInv(w: World, step: Step)
    requires Inv(w)
    ensures Inv(After(w, step))
  {
    hide Inv, BeginRead, BeginWrite, ApplyRead, ApplyWrite, PipesOk, FramesFit, Lookup, ClosedEnds;
    PipeAt(w, 0);
    match step
    case Create(pid) => CreateKeepsInv(w, pid);
    case Close(fd) =>
      var s := Lookup(w.pipes, fd.id);
      if s < MAX_PIPES {
        ClosedKeeps(w.pipes[s], fd.ends);
        EndsKeepInv(w, s, ClosedEnds(w.pipes[s], fd.ends));
      }
    case SetNonblock(fd, nonblock) =>
      var s := Lookup(w.pipes, fd.id);
      if s < MAX_PIPES {
        EndsKeepInv(w, s, w.pipes[s].(nonblock := nonblock));
      }
    case Read(pid, fd, count) =>
      var s := Lookup(w.pipes, fd.id);
      if CanCall(w, pid) && s < MAX_PIPES {
        PipeAt(w, s);
        ReadTakes(w.pipes[s], fd.ends, count);
        WaitsOpen(w.pipes[s], count);
        ReadKeepsInv(w, pid, s, count, BeginRead(w.pipes[s], fd.ends, count));
      }
    case Write(pid, fd, buf) =>
      var s := Lookup(w.pipes, fd.id);
      if CanCall(w, pid) && s < MAX_PIPES {
        PipeAt(w, s);
        BeginAppends(w.pipes[s], w.nextId, fd.ends, buf);
        BeganKeepsInv(w, pid, buf);
        WriteKeepsInv(w.(log := w.log + [Began(pid, buf)]), pid, s, buf, 0, BeginWrite(w.pipes[s], fd.ends, buf));
      }
    case Resume(pid) => ResumeKeepsInv(w, pid);
    case Others(states) =>
      if Allowed(w, states) {
        OthersKeepInv(w, states);
      }
  }

  lemma ClosedKeeps(p: Pipe, ends: Ends)
    ensures var q := ClosedEnds(p, ends);
            q == p.(id := q.id, readerOpen := q.readerOpen, writerOpen := q.writerOpen)
            && (q.readerOpen ==> p.readerOpen) && (q.writerOpen ==> p.writerOpen)
            && (q.id == p.id || (q.id == 0 && !q.readerOpen && !q.writerOpen))
  {
  }

  // ---------- runs ----------

  /** No pipes, and `n` processes of which none is inside a call. */
  function Start(n: nat): World {
    World(seq(MAX_PIPES, _ => Pipe(0, [], false, 0, 0, false, false)), 1, seq(n, _ => Ready), seq(n, _ => Idle), [])
  }

  lemma StartInv(n: nat)
    ensures Inv(Start(n))
  {
    assert forall s :: Accepted([], s) == Delivered([], s) == [];
  }

  ghost function Run(w: World, steps: seq<Step>): (end: World)
    requires Inv(w)
    ensures Inv(end)
    decreases steps
  {
    if steps == [] then w
    else
      StepKeepsInv(w, steps[0]);
      Run(After(w, steps[0]), steps[1..])
  }

  /**
   * Whatever the interleaving: the bytes read from a pipe followed by those in its ring are the bytes written to it,
   * in order; and what a write has put into the pipe, even one that returned an error, is a prefix of its buffer.
   */
  lemma StreamsInOrder(n: nat, steps: seq<Step>, s: nat, pid: nat)
    requires s < MAX_PIPES
    ensures Inv(Start(n))
    ensures var w := Run(Start(n), steps);
            && |w.pipes| == MAX_PIPES
            && Accepted(w.log, s) == Delivered(w.log, s) + w.pipes[s].data && |w.pipes[s].data| <= PIPE_BUFFER_SIZE
            && Since(w.log, pid) <= LastBuffer(w.log, pid)
  {
    hide Run, Accepted, Delivered, Since, LastBuffer;
    StartInv(n);
    PipeAt(Run(Start(n), steps), s);
  }

  /**
   * In every reachable state, a process blocked in a read of a pipe it created, with both ends open, faces an empty
   * ring, and one blocked in a write a full one.
   */
  lemma CreatorsWaitForCause(n: nat, steps: seq<Step>, p: nat)
    requires p < n
    ensures Inv(Start(n))
    ensures var w := Run(Start(n), steps);
            |w.frames| == |w.states| && (p < |w.frames| ==> WaitJustified(w, p))
  {
    hide Run;
    StartInv(n);
  }

  /** A write into an open, empty pipe stores bytes and wakes the process recorded as the reader. */
  lemma WriteIntoEmpty(p: Pipe, ends: Ends, buf: seq<byte>)
    requires p.readerOpen && p.writerOpen && ends.writable && p.data == [] && buf != []
    ensures var r := BeginWrite(p, ends, buf);
            r.woke && r.pipe == p.(data := r.pipe.data) && r.pipe.data != []
  {
    WriteLoopAppends(p, buf, 0, false);
    WriteLoopAppends(PutChunk(p, buf, 0), buf, Chunk(p, buf, 0), true);
  }

  /**
   * Only the creator is covered: any other reader stays blocked when bytes arrive, because the write wakes the creator.
   */
  lemma OtherReadersAreNotWoken(w: World, writer: nat, reader: nat, fd: Fd, buf: seq<byte>)
    requires Inv(w) && CanCall(w, writer) && reader < |w.states| && reader != writer && w.states[reader] == Blocked
    requires var s := Lookup(w.pipes, fd.id);
             s < MAX_PIPES && w.frames[reader].InRead? && w.frames[reader].slot == s
             && w.pipes[s].readerOpen && w.pipes[s].writerOpen && fd.ends.writable && w.pipes[s].data == []
    requires buf != []
    ensures var s := Lookup(w.pipes, fd.id);
            var v := After(w, Write(writer, fd, buf));
            v.pipes[s].data != [] && (v.states[reader] == Blocked <==> reader != w.pipes[s].readerPid)
  {
    assert reader != 0;
    var s := Lookup(w.pipes, fd.id);
    PipeAt(w, s);
    WriteIntoEmpty(w.pipes[s], fd.ends, buf);
    hide Inv, Lookup, BeginWrite, PipesOk, FramesFit;
  }
}
