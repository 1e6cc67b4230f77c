/** Which steps wake a process that is blocked in a pipe call, and who is left blocked when an end is closed. */
module PipeWakeups {
  import opened Bytes
  import opened Processes
  import opened Pipes
  import opened PipeRuns

  // ---------- when a stretch of a call wakes the other side ----------

  /** A read wakes the recorded writer exactly if it finds bytes, even if it takes none of them. */
  lemma ReadWakes(p: Pipe, ends: Ends, count: nat)
    ensures BeginRead(p, ends, count).woke <==> p.readerOpen && ends.readable && p.data != []
    ensures ResumeRead(p, count).woke <==> p.data != []
    ensures BeginRead(p, ends, count).pipe.writerPid == ResumeRead(p, count).pipe.writerPid == p.writerPid
  {
  }

  /** A write wakes the recorded reader exactly if it stores a byte. */
  lemma WriteWakes(p: Pipe, ends: Ends, buf: seq<byte>)
    requires |p.data| <= PIPE_BUFFER_SIZE
    ensures BeginWrite(p, ends, buf).woke <==>
            p.writerOpen && p.readerOpen && ends.writable && buf != [] && |p.data| < PIPE_BUFFER_SIZE
    ensures BeginWrite(p, ends, buf).pipe.readerPid == p.readerPid
  {
    WriteOutcome(p, ends, buf);
    hide BeginWrite;
  }

  /**
   * A resumed write wakes the recorded reader exactly if the read end is open: also if the ring is still full, when it
   * has nothing to store.
   */
  lemma ResumedWriteWakes(p: Pipe, buf: seq<byte>, written: nat)
    requires written < |buf| && |p.data| <= PIPE_BUFFER_SIZE
    ensures var r := ResumeWrite(p, buf, written);
            && (r.woke <==> p.readerOpen) && r.pipe.readerPid == p.readerPid
            && (r.written > written <==> p.readerOpen && |p.data| < PIPE_BUFFER_SIZE)
  {
    if p.readerOpen {
      WriteLoopAppends(PutChunk(p, buf, written), buf, written + Chunk(p, buf, written), true);
    }
    hide WriteLoop;
  }

  /** The step wakes process `p`, blocked in whatever call. */
  ghost predicate Wakes(w: World, step: Step, p: nat)
    requires PipesOk(w) && FramesFit(w) && p < |w.states|
  {
    match step
    case Create(_) => false
    case Close(_) => false
    case SetNonblock(_, _) => false
    case Read(pid, fd, _) =>
      var s := Lookup(w.pipes, fd.id);
      CanCall(w, pid) && s < MAX_PIPES && w.pipes[s].readerOpen && fd.ends.readable && w.pipes[s].data != []
      && w.pipes[s].writerPid == p
    case Write(pid, fd, buf) =>
      var s := Lookup(w.pipes, fd.id);
      CanCall(w, pid) && s < MAX_PIPES && w.pipes[s].writerOpen && w.pipes[s].readerOpen && fd.ends.writable
      && buf != [] && |w.pipes[s].data| < PIPE_BUFFER_SIZE && w.pipes[s].readerPid == p
    case Resume(pid) =>
      0 < pid < |w.frames| && w.states[pid] == Running && ResumeWakes(w, w.frames[pid], p)
    case Others(states) => Allowed(w, states) && states[p] != Blocked
  }

  ghost predicate ResumeWakes(w: World, f: Frame, p: nat)
    requires PipesOk(w) && FrameFits(f, w.nextId)
  {
    match f
    case Idle => false
    case InRead(s, _, _) => w.pipes[s].data != [] && w.pipes[s].writerPid == p
    case InWrite(s, _, _, _) => w.pipes[s].readerOpen && w.pipes[s].readerPid == p
  }

  lemma AppliedRead(w: World, pid: nat, s: nat, count: nat, r: ReadStep, p: nat)
    requires s < |w.pipes| && pid < |w.states| && |w.frames| == |w.states|
    requires 0 < p < |w.states| && w.states[p] == Blocked && p != pid
    ensures var v := ApplyRead(w, pid, s, count, r);
            |v.states| == |w.states| && (v.states[p] != Blocked <==> r.woke && r.pipe.writerPid == p)
  {
  }

  lemma AppliedWrite(w: World, pid: nat, s: nat, buf: seq<byte>, from: nat, r: WriteStep, p: nat)
    requires s < |w.pipes| && pid < |w.states| && |w.frames| == |w.states| && from <= r.written <= |buf|
    requires 0 < p < |w.states| && w.states[p] == Blocked && p != pid
    ensures var v := ApplyWrite(w, pid, s, buf, from, r);
            |v.states| == |w.states| && (v.states[p] != Blocked <==> r.woke && r.pipe.readerPid == p)
  {
  }

  /** A blocked process is woken by exactly these steps. */
  lemma WokenExactly(w: World, step: Step, p: nat)
    requires Inv(w) && 0 < p < |w.states| && w.states[p] == Blocked
    ensures |After(w, step).states| == |w.states|
    ensures After(w, step).states[p] != Blocked <==> Wakes(w, step, p)
  {
    hide StreamLaw, WritePrefixes, NoLostWakeup, PipeOk, FrameFits, BeginRead, BeginWrite, ResumeRead, ResumeWrite,
         Lookup, ClosedEnds, ApplyRead, ApplyWrite;
    match step
    case Create(_) =>
    case Close(_) =>
    case SetNonblock(_, _) =>
    case Read(pid, fd, count) =>
      var s := Lookup(w.pipes, fd.id);
      if CanCall(w, pid) && s < MAX_PIPES {
        ReadWakes(w.pipes[s], fd.ends, count);
        AppliedRead(w, pid, s, count, BeginRead(w.pipes[s], fd.ends, count), p);
      }
    case Write(pid, fd, buf) =>
      var s := Lookup(w.pipes, fd.id);
      if CanCall(w, pid) && s < MAX_PIPES {
        WrittenExactly(w, pid, s, fd, buf, p);
      }
    case Resume(pid) =>
      if 0 < pid < |w.frames| && w.states[pid] == Running {
        ResumedExactly(w, pid, p);
      }
    case Others(states) =>
  }

  /** The process that makes the step. */
  predicate Makes(step: Step, p: nat) {
    match step
    case Read(pid, _, _) => pid == p
    case Write(pid, _, _) => pid == p
    case Resume(pid) => pid == p
    case _ => false
  }

  /** A step on pipes changes the state of no other process but by waking it, and then that one is READY. */
  lemma WokenAreReady(w: World, step: Step, p: nat)
    requires Inv(w) && 0 < p < |w.states| && !Makes(step, p) && !step.Others?
    ensures |After(w, step).states| == |w.states|
    ensures After(w, step).states[p] == w.states[p] || (w.states[p] == Blocked && After(w, step).states[p] == Ready)
  {
    PipeAt(w, 0);
    hide StreamLaw, WritePrefixes, NoLostWakeup, BeginRead, BeginWrite, ResumeRead, ResumeWrite, Lookup, ClosedEnds,
         ApplyRead, ApplyWrite;
    match step
    case Create(_) =>
    case Close(_) =>
    case SetNonblock(_, _) =>
    case Read(pid, fd, count) =>
      var s := Lookup(w.pipes, fd.id);
      if CanCall(w, pid) && s < MAX_PIPES {
        ReadStates(w, pid, s, count, BeginRead(w.pipes[s], fd.ends, count), p);
      }
    case Write(pid, fd, buf) =>
      var s := Lookup(w.pipes, fd.id);
      if CanCall(w, pid) && s < MAX_PIPES {
        PipeAt(w, s);
        WriteStates(w.(log := w.log + [Began(pid, buf)]), pid, s, buf, 0, BeginWrite(w.pipes[s], fd.ends, buf), p);
      }
    case Resume(pid) =>
      if 0 < pid < |w.frames| && w.states[pid] == Running {
        FrameAt(w, pid);
        match w.frames[pid]
        case Idle =>
        case InRead(s, id, count) =>
          ReadStates(w, pid, s, count, ResumeRead(w.pipes[s], count), p);
        case InWrite(s, id, buf, written) =>
          PipeAt(w, s);
          WriteStates(w, pid, s, buf, written, ResumeWrite(w.pipes[s], buf, written), p);
      }
  }

  lemma ReadStates(w: World, pid: nat, s: nat, count: nat, r: ReadStep, p: nat)
    requires s < |w.pipes| && pid < |w.states| && |w.frames| == |w.states| && p < |w.states| && p != pid
    ensures var v := ApplyRead(w, pid, s, count, r).states;
            |v| == |w.states| && (v[p] == w.states[p] || (w.states[p] == Blocked && v[p] == Ready))
  {
  }

  lemma WriteStates(w: World, pid: nat, s: nat, buf: seq<byte>, from: nat, r: WriteStep, p: nat)
    requires s < |w.pipes| && pid < |w.states| && |w.frames| == |w.states| && from <= r.written <= |buf|
    requires p < |w.states| && p != pid
    ensures var v := ApplyWrite(w, pid, s, buf, from, r).states;
            |v| == |w.states| && (v[p] == w.states[p] || (w.states[p] == Blocked && v[p] == Ready))
  {
  }

  lemma WrittenExactly(w: World, pid: nat, s: nat, fd: Fd, buf: seq<byte>, p: nat)
    requires Inv(w) && 0 < p < |w.states| && w.states[p] == Blocked
    requires CanCall(w, pid) && s == Lookup(w.pipes, fd.id) && s < MAX_PIPES
    ensures |After(w, Write(pid, fd, buf)).states| == |w.states|
    ensures After(w, Write(pid, fd, buf)).states[p] != Blocked <==> Wakes(w, Write(pid, fd, buf), p)
  {
    PipeAt(w, s);
    hide BeginWrite, Lookup, ApplyWrite, StreamLaw, WritePrefixes, NoLostWakeup;
    WriteWakes(w.pipes[s], fd.ends, buf);
    AppliedWrite(w.(log := w.log + [Began(pid, buf)]), pid, s, buf, 0, BeginWrite(w.pipes[s], fd.ends, buf), p);
  }

  lemma ResumedExactly(w: World, pid: nat, p: nat)
    requires Inv(w) && 0 < p < |w.states| && w.states[p] == Blocked
    requires 0 < pid < |w.frames| && w.states[pid] == Running
    ensures |After(w, Resume(pid)).states| == |w.states|
    ensures After(w, Resume(pid)).states[p] != Blocked <==> Wakes(w, Resume(pid), p)
  {
    FrameAt(w, pid);
    hide StreamLaw, WritePrefixes, NoLostWakeup, ResumeRead, ResumeWrite, ApplyRead, ApplyWrite;
    match w.frames[pid]
    case Idle =>
    case InRead(s, id, count) =>
      PipeAt(w, s);
      ReadWakes(w.pipes[s], Ends(true, true), count);
      AppliedRead(w, pid, s, count, ResumeRead(w.pipes[s], count), p);
    case InWrite(s, id, buf, written) =>
      PipeAt(w, s);
      ResumedWriteWakes(w.pipes[s], buf, written);
      AppliedWrite(w, pid, s, buf, written, ResumeWrite(w.pipes[s], buf, written), p);
  }

  /** A new pipe takes the first free slot: it is empty, blocking, open at both ends, and its id has not been used. */
  lemma CreatedIs(w: World, pid: nat)
    requires Inv(w) && pid != 0
    ensures var s, v := Lookup(w.pipes, 0), After(w, Create(pid));
            if s == MAX_PIPES then v == w
            else
              && s < MAX_PIPES == |w.pipes| && v.nextId == v.pipes[s].id + 1
              && v.pipes == w.pipes[s := Pipe(v.pipes[s].id, [], false, pid, pid, true, true)]
              && (forall t :: 0 <= t < MAX_PIPES ==> w.pipes[t].id < v.pipes[s].id)
              && (forall p :: 0 <= p < |w.frames| && w.frames[p] != Idle ==> w.frames[p].id < v.pipes[s].id)
              && v == w.(pipes := v.pipes, nextId := v.nextId, log := v.log)
  {
    PipeAt(w, 0);
    forall t | 0 <= t < MAX_PIPES ensures w.pipes[t].id < w.nextId {
      PipeAt(w, t);
    }
    forall p | 0 <= p < |w.frames| ensures w.frames[p] != Idle ==> w.frames[p].id < w.nextId {
      FrameAt(w, p);
    }
    hide Inv, Lookup, PipesOk, FramesFit;
  }

  // ---------- when a call blocks ----------

  /**
   * A process that reads blocks, inside its call, exactly if the ring is empty, the pipe is blocking and both ends are
   * open to it; otherwise its call has ended.
   */
  lemma ReaderBlocks(w: World, pid: nat, fd: Fd, count: nat)
    requires Inv(w) && CanCall(w, pid) && Lookup(w.pipes, fd.id) < MAX_PIPES
    ensures var s, v := Lookup(w.pipes, fd.id), After(w, Read(pid, fd, count));
            && |w.pipes| == MAX_PIPES && |v.states| == |w.states| == |v.frames|
            && var p := w.pipes[s];
               if p.readerOpen && fd.ends.readable && p.data == [] && !p.nonblock && p.writerOpen
               then v.states[pid] == Blocked && v.frames[pid] == InRead(s, p.id, count) && v.pipes == w.pipes
               else v.states[pid] == Running && v.frames[pid] == Idle
  {
    var s := Lookup(w.pipes, fd.id);
    PipeAt(w, s);
    ReadOutcome(w.pipes[s], fd.ends, count);
    assert w.pipes[s].data[0..] == w.pipes[s].data;
    hide Inv, BeginRead, Lookup, StreamLaw, WritePrefixes, NoLostWakeup;
  }

  /** The blocking mode decides what a read of an empty pipe does: it ends with an error, or blocks. */
  lemma FlagDecides(w: World, pid: nat, fd: Fd, nonblock: bool, count: nat)
    requires Inv(w) && CanCall(w, pid) && Lookup(w.pipes, fd.id) < MAX_PIPES && |w.pipes| == MAX_PIPES
    requires var p := w.pipes[Lookup(w.pipes, fd.id)];
             p.readerOpen && fd.ends.readable && p.writerOpen && p.data == []
    ensures Inv(After(w, SetNonblock(fd, nonblock)))
    ensures var v := After(After(w, SetNonblock(fd, nonblock)), Read(pid, fd, count));
            && pid < |v.states| && (v.states[pid] == Blocked <==> !nonblock)
            && (nonblock ==> v.log != [] && v.log[|v.log| - 1] == Ended(pid, PIPE_ERROR_EMPTY))
  {
    StepKeepsInv(w, SetNonblock(fd, nonblock));
    var s := Lookup(w.pipes, fd.id);
    var u := After(w, SetNonblock(fd, nonblock));
    SameLookup(w.pipes, u.pipes, fd.id);
    ReaderBlocks(u, pid, fd, count);
    ReadOutcome(u.pipes[s], fd.ends, count);
    hide Inv, BeginRead, Lookup;
  }

  lemma {:induction false} SameLookup(a: seq<Pipe>, b: seq<Pipe>, id: nat)
    requires |a| == |b| && forall s :: 0 <= s < |a| ==> a[s].id == b[s].id
    ensures Lookup(a, id) == Lookup(b, id)
  {
    if a != [] {
      SameLookup(a[1..], b[1..], id);
    }
  }

  /** A process that writes blocks exactly if its buffer does not fit, the pipe is blocking and both ends are open. */
  lemma WriterBlocks(w: World, pid: nat, fd: Fd, buf: seq<byte>)
    requires Inv(w) && CanCall(w, pid) && Lookup(w.pipes, fd.id) < MAX_PIPES
    ensures var s, v := Lookup(w.pipes, fd.id), After(w, Write(pid, fd, buf));
            && |w.pipes| == MAX_PIPES && |v.states| == |w.states| == |v.frames|
            && var p := w.pipes[s];
               if p.readerOpen && p.writerOpen && fd.ends.writable && !p.nonblock
                  && PIPE_BUFFER_SIZE - |p.data| < |buf|
               then v.states[pid] == Blocked
                    && v.frames[pid] == InWrite(s, p.id, buf, PIPE_BUFFER_SIZE - |p.data|)
               else v.states[pid] == Running && v.frames[pid] == Idle
  {
    var s := Lookup(w.pipes, fd.id);
    PipeAt(w, s);
    WriteOutcome(w.pipes[s], fd.ends, buf);
    hide Inv, BeginWrite, Lookup, StreamLaw, WritePrefixes, NoLostWakeup;
  }

  /** A process that comes back to its call blocks again exactly if what it waits for is still missing. */
  lemma ResumedBlocksAgain(w: World, pid: nat)
    requires Inv(w) && 0 < pid < |w.frames| && pid < |w.states| && w.states[pid] == Running && w.frames[pid] != Idle
    ensures var f, v := w.frames[pid], After(w, Resume(pid));
            && f.slot < |w.pipes| && |v.states| == |w.states| == |v.frames|
            && var p := w.pipes[f.slot];
               var waits := if f.InRead? then p.data == [] && p.writerOpen
                            else f.written <= |f.buf| && |p.data| <= PIPE_BUFFER_SIZE && p.readerOpen && !p.nonblock
                                 && PIPE_BUFFER_SIZE - |p.data| < |f.buf| - f.written;
               if waits then v.states[pid] == Blocked && v.frames[pid] != Idle
               else v.states[pid] == Running && v.frames[pid] == Idle
  {
    FrameAt(w, pid);
    PipeAt(w, w.frames[pid].slot);
    match w.frames[pid]
    case InRead(s, id, count) =>
      ResumedReadOutcome(w.pipes[s], count);
      hide Inv, ResumeRead, ResumeWrite, StreamLaw, WritePrefixes, NoLostWakeup;
    case InWrite(s, id, buf, written) =>
      ResumedWriteOutcome(w.pipes[s], buf, written);
      hide Inv, ResumeRead, ResumeWrite, StreamLaw, WritePrefixes, NoLostWakeup;
  }

  // ---------- closing an end ----------

  /**
   * Process `p` is blocked in a call on the pipe in slot `s` although the call would return at once: a read of an empty
   * pipe whose write end is closed, or a write to a pipe whose read end is closed; and no call of the other kind is
   * under way on that pipe.
   */
  ghost predicate Stranded(w: World, p: nat, s: nat)
    requires PipesOk(w) && FramesFit(w)
  {
    && 0 < p < |w.states| && w.states[p] == Blocked && s < MAX_PIPES
    && match w.frames[p]
       case Idle => false
       case InRead(slot, _, _) => slot == s && w.pipes[s].data == [] && !w.pipes[s].writerOpen && NoneWrites(w, s)
       case InWrite(slot, _, _, _) => slot == s && !w.pipes[s].readerOpen && NoneReads(w, s)
  }

  ghost predicate NoneWrites(w: World, s: nat) {
    forall q :: 0 <= q < |w.frames| && w.frames[q].InWrite? ==> w.frames[q].slot != s
  }

  ghost predicate NoneReads(w: World, s: nat) {
    forall q :: 0 <= q < |w.frames| && w.frames[q].InRead? ==> w.frames[q].slot != s
  }

  /** The call it is blocked in would return: the end of the stream, or an error. */
  lemma StrandedWouldReturn(w: World, p: nat, s: nat)
    requires Inv(w) && Stranded(w, p, s)
    ensures match w.frames[p]
            case Idle => false
            case InRead(_, _, count) => ResumeRead(w.pipes[s], count).outcome == Done(0)
            case InWrite(_, _, buf, written) =>
              written < |buf| && |w.pipes[s].data| <= PIPE_BUFFER_SIZE
              && ResumeWrite(w.pipes[s], buf, written).outcome == Done(PIPE_ERROR_CLOSED)
  {
    PipeAt(w, s);
    FrameAt(w, p);
    hide StreamLaw, WritePrefixes, NoLostWakeup, NoneWrites, NoneReads;
  }

  /**
   * Closing the write end under a blocked reader of an empty pipe strands it; closing the read end, a blocked writer.
   */
  lemma CloseStrands(w: World, fd: Fd, p: nat)
    requires Inv(w) && 0 < p < |w.states| && w.states[p] == Blocked && w.frames[p] != Idle
    requires w.frames[p].slot == Lookup(w.pipes, fd.id)
    requires var s := w.frames[p].slot;
             s < MAX_PIPES && if w.frames[p].InRead? then fd.ends.writable && w.pipes[s].data == [] && NoneWrites(w, s)
                              else fd.ends.readable && NoneReads(w, s)
    ensures var v := After(w, Close(fd));
            Inv(v) && Stranded(v, p, w.frames[p].slot)
  {
    var v := After(w, Close(fd));
    StepKeepsInv(w, Close(fd));
    ClosedKeeps(w.pipes[w.frames[p].slot], fd.ends);
    hide StreamLaw, WritePrefixes, NoLostWakeup, Lookup, PipeOk, FrameFits;
  }

  /** The step is one on the pipe in slot `s`. */
  ghost predicate OnPipe(w: World, step: Step, s: nat) {
    match step
    case Create(_) => false
    case Close(fd) => Lookup(w.pipes, fd.id) == s
    case SetNonblock(fd, _) => Lookup(w.pipes, fd.id) == s
    case Read(_, fd, _) => Lookup(w.pipes, fd.id) == s
    case Write(_, fd, _) => Lookup(w.pipes, fd.id) == s
    case Resume(pid) => pid < |w.frames| && w.frames[pid] != Idle && w.frames[pid].slot == s
    case Others(_) => false
  }

  /** No step on its pipe wakes a stranded process. */
  lemma OwnPipeNeverWakes(w: World, step: Step, p: nat, s: nat)
    requires Inv(w) && Stranded(w, p, s) && OnPipe(w, step, s)
    ensures !Wakes(w, step, p)
  {
    hide StreamLaw, WritePrefixes, NoLostWakeup, Lookup, PipeOk, FrameFits;
  }

  /** The step is pipe_create reusing slot `s`, which needs both ends closed. */
  ghost predicate Reopens(w: World, step: Step, s: nat) {
    step.Create? && Lookup(w.pipes, 0) == s
  }

  lemma AfterRead(w: World, pid: nat, s: nat, count: nat, r: ReadStep, t: nat)
    requires PipesOk(w) && FramesFit(w) && s < MAX_PIPES && pid < |w.frames| && Takes(w.pipes[s], count, r)
             && t < MAX_PIPES
    ensures var v := ApplyRead(w, pid, s, count, r);
            && |v.frames| == |w.frames| && |v.pipes| == MAX_PIPES
            && (forall q :: 0 <= q < |w.frames| && q != pid ==> v.frames[q] == w.frames[q])
            && !v.frames[pid].InWrite? && (v.frames[pid].InRead? ==> v.frames[pid].slot == s && r.outcome == Waits)
            && v.pipes[t] == w.pipes[t].(data := v.pipes[t].data) && (w.pipes[t].data == [] ==> v.pipes[t].data == [])
  {
    hide WakeUp;
    assert w.pipes[s].(data := w.pipes[s].data) == w.pipes[s];
  }

  lemma AfterWrite(w: World, pid: nat, s: nat, buf: seq<byte>, from: nat, r: WriteStep, t: nat)
    requires PipesOk(w) && FramesFit(w) && s < MAX_PIPES && pid < |w.frames| && t < MAX_PIPES
    requires Appends(w.pipes[s], buf, from, r)
    ensures var v := ApplyWrite(w, pid, s, buf, from, r);
            && |v.frames| == |w.frames| && |v.pipes| == MAX_PIPES
            && (forall q :: 0 <= q < |w.frames| && q != pid ==> v.frames[q] == w.frames[q])
            && !v.frames[pid].InRead? && (v.frames[pid].InWrite? ==> v.frames[pid].slot == s && r.outcome == Waits)
            && v.pipes[t] == w.pipes[t].(data := v.pipes[t].data)
            && (t != s || r.written == from ==> v.pipes[t] == w.pipes[t])
  {
    hide WakeUp;
    assert w.pipes[s].data + buf[from..from] == w.pipes[s].data;
    assert forall q: Pipe :: q.(data := q.data) == q;
  }

  /** A stranded process that is not woken from elsewhere, in a slot that is not reused, stays stranded. */
  lemma StrandedStays(w: World, step: Step, p: nat, s: nat)
    requires Inv(w) && Stranded(w, p, s) && !Wakes(w, step, p) && !Reopens(w, step, s)
    ensures Inv(After(w, step)) && Stranded(After(w, step), p, s)
  {
    StepKeepsInv(w, step);
    WokenExactly(w, step, p);
    match step
    case Create(pid) => StrandedCreate(w, pid, p, s);
    case Close(fd) => StrandedEnds(w, step, p, s);
    case SetNonblock(fd, nonblock) => StrandedEnds(w, step, p, s);
    case Read(pid, fd, count) => StrandedRead(w, pid, fd, count, p, s);
    case Write(pid, fd, buf) => StrandedWrite(w, pid, fd, buf, p, s);
    case Resume(pid) => StrandedResume(w, pid, p, s);
    case Others(states) =>
      hide StreamLaw, WritePrefixes, NoLostWakeup, PipeOk, FrameFits;
  }

  lemma StrandedCreate(w: World, pid: nat, p: nat, s: nat)
    requires Inv(w) && Stranded(w, p, s) && !Reopens(w, Create(pid), s) && Inv(After(w, Create(pid)))
    ensures Stranded(After(w, Create(pid)), p, s)
  {
    hide StreamLaw, WritePrefixes, NoLostWakeup, Lookup, PipeOk, FrameFits;
  }

  lemma StrandedEnds(w: World, step: Step, p: nat, s: nat)
    requires Inv(w) && Stranded(w, p, s) && Inv(After(w, step)) && (step.Close? || step.SetNonblock?)
    ensures Stranded(After(w, step), p, s)
  {
    var t := Lookup(w.pipes, step.fd.id);
    if t < MAX_PIPES {
      ClosedKeeps(w.pipes[t], step.fd.ends);
    }
    hide StreamLaw, WritePrefixes, NoLostWakeup, Lookup, ClosedEnds, PipeOk, FrameFits;
  }

  /** Process `pid` has made a stretch of a call that leaves the pipe of slot `s` without help for `p`. */
  lemma StrandedKept(w: World, v: World, pid: nat, p: nat, s: nat)
    requires PipesOk(w) && FramesFit(w) && PipesOk(v) && FramesFit(v) && Stranded(w, p, s)
    requires |v.states| == |w.states| && v.states[p] == Blocked && pid < |w.frames| && pid != p
    requires forall q :: 0 <= q < |w.frames| && q != pid ==> v.frames[q] == w.frames[q]
    requires v.pipes[s] == w.pipes[s].(data := v.pipes[s].data)
    requires w.frames[p].InRead? ==>
               v.pipes[s].data == [] && (v.frames[pid].InWrite? ==> v.frames[pid].slot != s)
    requires w.frames[p].InWrite? && v.frames[pid].InRead? ==> v.frames[pid].slot != s
    ensures Stranded(v, p, s)
  {
    hide PipeOk, FrameFits;
  }

  /** What `Stranded` says without its quantifiers. */
  lemma StrandedAt(w: World, p: nat, s: nat)
    requires Inv(w) && Stranded(w, p, s)
    ensures 0 < p < |w.states| == |w.frames| && w.states[p] == Blocked && s < MAX_PIPES == |w.pipes|
    ensures w.frames[p] != Idle && PipesOk(w) && FramesFit(w)
    ensures w.frames[p].InRead? ==> w.pipes[s].data == [] && !w.pipes[s].writerOpen
    ensures w.frames[p].InWrite? ==> !w.pipes[s].readerOpen
  {
    hide PipeOk, FrameFits, NoneWrites, NoneReads;
  }

  lemma StrandedRead(w: World, pid: nat, fd: Fd, count: nat, p: nat, s: nat)
    requires Inv(w) && Stranded(w, p, s) && Inv(After(w, Read(pid, fd, count)))
    requires |After(w, Read(pid, fd, count)).states| == |w.states|
             && After(w, Read(pid, fd, count)).states[p] == Blocked
    ensures Stranded(After(w, Read(pid, fd, count)), p, s)
  {
    StrandedAt(w, p, s);
    hide Inv, Stranded, PipesOk, FramesFit, Lookup, BeginRead, ApplyRead, Takes;
    var t := Lookup(w.pipes, fd.id);
    if CanCall(w, pid) && t < MAX_PIPES {
      var v := After(w, Read(pid, fd, count));
      ReadTakes(w.pipes[t], fd.ends, count);
      AfterRead(w, pid, t, count, BeginRead(w.pipes[t], fd.ends, count), s);
      ReadWaitsOpen(w.pipes[t], fd.ends, count);
      InvShapes(v);
      StrandedKept(w, v, pid, p, s);
    }
  }

  lemma InvShapes(w: World)
    requires Inv(w)
    ensures PipesOk(w) && FramesFit(w)
  {
  }

  lemma ReadWaitsOpen(p: Pipe, ends: Ends, count: nat)
    ensures BeginRead(p, ends, count).outcome == Waits ==> p.readerOpen && p.writerOpen
    ensures ResumeRead(p, count).outcome == Waits ==> p.writerOpen
  {
  }

  lemma StrandedWrite(w: World, pid: nat, fd: Fd, buf: seq<byte>, p: nat, s: nat)
    requires Inv(w) && Stranded(w, p, s) && Inv(After(w, Write(pid, fd, buf)))
    requires |After(w, Write(pid, fd, buf)).states| == |w.states| && After(w, Write(pid, fd, buf)).states[p] == Blocked
    ensures Stranded(After(w, Write(pid, fd, buf)), p, s)
  {
    StrandedAt(w, p, s);
    var t := Lookup(w.pipes, fd.id);
    if CanCall(w, pid) && t < MAX_PIPES {
      PipeAt(w, t);
      BeganShapes(w, pid, buf);
      hide Inv, Stranded, PipesOk, FramesFit, Lookup, BeginWrite, ApplyWrite, Appends;
      var v := After(w, Write(pid, fd, buf));
      BeginAppends(w.pipes[t], w.nextId, fd.ends, buf);
      WriteNeedsEnds(w.pipes[t], fd.ends, buf);
      AfterWrite(w.(log := w.log + [Began(pid, buf)]), pid, t, buf, 0, BeginWrite(w.pipes[t], fd.ends, buf), s);
      InvShapes(v);
      StrandedKept(w, v, pid, p, s);
    }
  }

  lemma BeganShapes(w: World, pid: nat, buf: seq<byte>)
    requires PipesOk(w) && FramesFit(w)
    ensures PipesOk(w.(log := w.log + [Began(pid, buf)])) && FramesFit(w.(log := w.log + [Began(pid, buf)]))
  {
  }

  lemma WriteNeedsEnds(p: Pipe, ends: Ends, buf: seq<byte>)
    requires |p.data| <= PIPE_BUFFER_SIZE
    ensures var r := BeginWrite(p, ends, buf);
            (r.written > 0 || r.outcome == Waits) ==> p.readerOpen && p.writerOpen
  {
    WriteOutcome(p, ends, buf);
    hide WriteLoop;
  }

  lemma StrandedResume(w: World, pid: nat, p: nat, s: nat)
    requires Inv(w) && Stranded(w, p, s) && Inv(After(w, Resume(pid)))
    requires |After(w, Resume(pid)).states| == |w.states| && After(w, Resume(pid)).states[p] == Blocked
    ensures Stranded(After(w, Resume(pid)), p, s)
  {
    StrandedAt(w, p, s);
    if 0 < pid < |w.frames| && w.states[pid] == Running {
      FrameAt(w, pid);
      match w.frames[pid]
      case Idle =>
      case InRead(t, id, count) => StrandedResumeRead(w, pid, p, s);
      case InWrite(t, id, buf, written) => StrandedResumeWrite(w, pid, p, s);
    }
  }

  lemma StrandedResumeRead(w: World, pid: nat, p: nat, s: nat)
    requires Inv(w) && Stranded(w, p, s) && Inv(After(w, Resume(pid)))
    requires 0 < pid < |w.frames| && w.states[pid] == Running && w.frames[pid].InRead?
    requires |After(w, Resume(pid)).states| == |w.states| && After(w, Resume(pid)).states[p] == Blocked
    ensures Stranded(After(w, Resume(pid)), p, s)
  {
    StrandedAt(w, p, s);
    FrameAt(w, pid);
    OtherKind(w, pid, p, s);
    hide Inv, Stranded, PipesOk, FramesFit, ResumeRead, ApplyRead, Takes;
    var v, t, count := After(w, Resume(pid)), w.frames[pid].slot, w.frames[pid].count;
    ReadTakes(w.pipes[t], Ends(true, true), count);
    AfterRead(w, pid, t, count, ResumeRead(w.pipes[t], count), s);
    InvShapes(v);
    StrandedKept(w, v, pid, p, s);
  }

  lemma StrandedResumeWrite(w: World, pid: nat, p: nat, s: nat)
    requires Inv(w) && Stranded(w, p, s) && Inv(After(w, Resume(pid)))
    requires 0 < pid < |w.frames| && w.states[pid] == Running && w.frames[pid].InWrite?
    requires |After(w, Resume(pid)).states| == |w.states| && After(w, Resume(pid)).states[p] == Blocked
    ensures Stranded(After(w, Resume(pid)), p, s)
  {
    StrandedAt(w, p, s);
    FrameAt(w, pid);
    OtherKind(w, pid, p, s);
    PipeAt(w, w.frames[pid].slot);
    hide Inv, Stranded, PipesOk, FramesFit, ResumeWrite, ApplyWrite, Appends;
    var v, t := After(w, Resume(pid)), w.frames[pid].slot;
    var buf, written := w.frames[pid].buf, w.frames[pid].written;
    ResumedAppends(w.pipes[t], w.nextId, buf, written);
    AfterWrite(w, pid, t, buf, written, ResumeWrite(w.pipes[t], buf, written), s);
    InvShapes(v);
    StrandedKept(w, v, pid, p, s);
  }

  /** No call of the other kind is under way on the pipe of a stranded process. */
  lemma OtherKind(w: World, pid: nat, p: nat, s: nat)
    requires Inv(w) && Stranded(w, p, s) && pid < |w.frames|
    ensures p < |w.frames|
    ensures w.frames[p].InRead? && w.frames[pid].InWrite? ==> w.frames[pid].slot != s
    ensures w.frames[p].InWrite? && w.frames[pid].InRead? ==> w.frames[pid].slot != s
  {
    hide PipeOk, FrameFits;
  }

  /** Some step of a run reuses the slot, or wakes the process from outside its pipe. */
  ghost predicate EverHelped(w: World, steps: seq<Step>, p: nat, s: nat)
    requires Inv(w) && p < |w.states|
    decreases |steps|
  {
    steps != []
    && (Reopens(w, steps[0], s) || (Wakes(w, steps[0], p) && !OnPipe(w, steps[0], s))
        || (StepKeepsInv(w, steps[0]);
            p < |After(w, steps[0]).states| && EverHelped(After(w, steps[0]), steps[1..], p, s)))
  }

  /**
   * Whatever happens on its pipe, a stranded process stays blocked: over every run that neither reuses the slot nor
   * wakes it from outside the pipe.
   */
  lemma {:induction false} StrandedForGood(w: World, steps: seq<Step>, p: nat, s: nat)
    requires Inv(w) && Stranded(w, p, s) && !EverHelped(w, steps, p, s)
    ensures Stranded(Run(w, steps), p, s)
    decreases |steps|
  {
    hide PipesOk, FramesFit, StreamLaw, WritePrefixes, NoLostWakeup, Stranded, After, Wakes, OnPipe, Reopens;
    if steps != [] {
      StepKeepsInv(w, steps[0]);
      if OnPipe(w, steps[0], s) {
        OwnPipeNeverWakes(w, steps[0], p, s);
      }
      StrandedStays(w, steps[0], p, s);
      StrandedIn(After(w, steps[0]), p, s);
      StrandedForGood(After(w, steps[0]), steps[1..], p, s);
    }
  }

  lemma StrandedIn(w: World, p: nat, s: nat)
    requires Inv(w) && Stranded(w, p, s)
    ensures p < |w.states|
  {
  }

  // ---------- descriptors ----------

  /** fd >> 3 and the low bits of a descriptor. */
  function FdOf(fd: nat): Fd {
    Fd(fd / 8, Ends(fd % 2 == 1, fd / 2 % 2 == 1))
  }

  /**
   * A descriptor below 8 finds a pipe exactly if some slot is free, namely the first free one: reading and writing it
   * fail as on a closed pipe, and closing it succeeds without any effect. Every other descriptor finds a slot in use.
   */
  lemma LowDescriptorsFindFreeSlots(w: World, fd: nat, count: nat, buf: seq<byte>)
    requires Inv(w)
    ensures |w.pipes| == MAX_PIPES
    ensures var s := Lookup(w.pipes, FdOf(fd).id);
            && (fd < 8 ==> (s < MAX_PIPES <==> exists t :: 0 <= t < MAX_PIPES && w.pipes[t].id == 0))
            && (s < MAX_PIPES ==> (fd < 8 <==> w.pipes[s].id == 0))
            && (fd < 8 && s < MAX_PIPES ==>
                  && BeginRead(w.pipes[s], FdOf(fd).ends, count).outcome == Done(PIPE_ERROR_CLOSED)
                  && |w.pipes[s].data| <= PIPE_BUFFER_SIZE
                  && BeginWrite(w.pipes[s], FdOf(fd).ends, buf).outcome == Done(PIPE_ERROR_CLOSED)
                  && After(w, Close(FdOf(fd))) == w)
  {
    var s := Lookup(w.pipes, FdOf(fd).id);
    PipeAt(w, 0);
    if s < MAX_PIPES {
      PipeAt(w, s);
      if fd < 8 {
        ClosingTwice(w.pipes[s], FdOf(fd).ends);
      }
      assert w.pipes[s := w.pipes[s]] == w.pipes;
    }
    hide StreamLaw, WritePrefixes, NoLostWakeup, ClosedEnds, WriteLoop;
  }

  lemma ClosingTwice(p: Pipe, ends: Ends)
    requires !p.readerOpen && !p.writerOpen && p.id == 0
    ensures ClosedEnds(p, ends) == p
  {
  }
}
