/** One pipe: a ring buffer of 4096 bytes with two ends, and the code of its calls between their yield points. */
module Pipes {
  import opened Bytes

  const PIPE_BUFFER_SIZE: nat := 4096

  const PIPE_ERROR_FULL: int := -1
  const PIPE_ERROR_EMPTY: int := -2
  const PIPE_ERROR_CLOSED: int := -3

  /** The low bits of a descriptor: which ends it stands for. */
  datatype Ends = Ends(readable: bool, writable: bool)

  /** pipe_t with the ring as the sequence of the bytes in it; id 0 marks a free slot. */
  datatype Pipe = Pipe(id: nat, data: seq<byte>, nonblock: bool, readerPid: nat, writerPid: nat,
                       readerOpen: bool, writerOpen: bool)

  /** How a stretch of a call up to its next yield point or its end comes out. */
  datatype Outcome =
    | Done(result: int)
    | Waits

  /** After a stretch of pipe_read: the pipe, the bytes copied out, and whether the writer was woken. */
  datatype ReadStep = ReadStep(pipe: Pipe, got: seq<byte>, woke: bool, outcome: Outcome)

  /**
   * After a stretch of pipe_write: the pipe, how much of the buffer is accepted by now, and whether the reader was
   * woken.
   */
  datatype WriteStep = WriteStep(pipe: Pipe, written: nat, woke: bool, outcome: Outcome)

  function Min(a: nat, b: nat): nat {
    if a < b then a else b
  }

  /** The copying part of pipe_read. */
  function CopyOut(p: Pipe, count: nat): ReadStep {
    var n := Min(count, |p.data|);
    ReadStep(p.(data := p.data[n..]), p.data[..n], true, Done(n))
  }

  /** pipe_read from its beginning. */
  function BeginRead(p: Pipe, ends: Ends, count: nat): ReadStep {
    if !p.readerOpen || !ends.readable then ReadStep(p, [], false, Done(PIPE_ERROR_CLOSED))
    else if p.data != [] then CopyOut(p, count)
    else if p.nonblock then ReadStep(p, [], false, Done(PIPE_ERROR_EMPTY))
    else if !p.writerOpen then ReadStep(p, [], false, Done(0))
    else ReadStep(p, [], false, Waits)
  }

  /** pipe_read after schedule has come back to it. */
  function ResumeRead(p: Pipe, count: nat): ReadStep {
    if p.data != [] then CopyOut(p, count)
    else if p.writerOpen then ReadStep(p, [], false, Waits)
    else ReadStep(p, [], false, Done(0))
  }

  /** One round of the write loop that finds room, or has just been resumed. */
  function Chunk(p: Pipe, buf: seq<byte>, written: nat): (n: nat)
    requires written <= |buf| && |p.data| <= PIPE_BUFFER_SIZE
    ensures written + n <= |buf| && |p.data| + n <= PIPE_BUFFER_SIZE
  {
    Min(|buf| - written, PIPE_BUFFER_SIZE - |p.data|)
  }

  function PutChunk(p: Pipe, buf: seq<byte>, written: nat): (q: Pipe)
    requires written <= |buf| && |p.data| <= PIPE_BUFFER_SIZE
    ensures |q.data| <= PIPE_BUFFER_SIZE
  {
    p.(data := p.data + buf[written..written + Chunk(p, buf, written)])
  }

  /** pipe_close: the slot is free again when both ends are closed. */
  function ClosedEnds(p: Pipe, ends: Ends): Pipe {
    var q := p.(readerOpen := p.readerOpen && !ends.readable, writerOpen := p.writerOpen && !ends.writable);
    if !q.readerOpen && !q.writerOpen then q.(id := 0) else q
  }

  /** The write loop of pipe_write. */
  function WriteLoop(p: Pipe, buf: seq<byte>, written: nat, woke: bool): (r: WriteStep)
    requires written <= |buf| && |p.data| <= PIPE_BUFFER_SIZE
    ensures written <= r.written <= |buf| && |r.pipe.data| <= PIPE_BUFFER_SIZE
    decreases |buf| - written
  {
    if written == |buf| then WriteStep(p, written, woke, Done(AsInt(written)))
    else if |p.data| == PIPE_BUFFER_SIZE then
      WriteStep(p, written, woke,
                if !p.nonblock then Waits else Done(if written > 0 then AsInt(written) else PIPE_ERROR_FULL))
    else WriteLoop(PutChunk(p, buf, written), buf, written + Chunk(p, buf, written), true)
  }

  /** pipe_write from its beginning. */
  function BeginWrite(p: Pipe, ends: Ends, buf: seq<byte>): (r: WriteStep)
    requires |p.data| <= PIPE_BUFFER_SIZE
    ensures r.written <= |buf| && |r.pipe.data| <= PIPE_BUFFER_SIZE
  {
    if !p.writerOpen || !ends.writable || !p.readerOpen then WriteStep(p, 0, false, Done(PIPE_ERROR_CLOSED))
    else WriteLoop(p, buf, 0, false)
  }

  /** pipe_write after schedule has come back to it: the round goes on even if the ring is still full. */
  function ResumeWrite(p: Pipe, buf: seq<byte>, written: nat): (r: WriteStep)
    requires written < |buf| && |p.data| <= PIPE_BUFFER_SIZE
    ensures written <= r.written <= |buf| && |r.pipe.data| <= PIPE_BUFFER_SIZE
  {
    if !p.readerOpen then WriteStep(p, written, false, Done(PIPE_ERROR_CLOSED))
    else WriteLoop(PutChunk(p, buf, written), buf, written + Chunk(p, buf, written), true)
  }

  /**
   * What any stretch of a write does: it appends the next bytes of its buffer and nothing else; if it appended any it
   * woke the reader; if it waits, the ring is full; when it ends, the result is what was accepted, converted to an int,
   * or an error if the ring was full and nothing was.
   */
  lemma {:induction false} WriteLoopAppends(p: Pipe, buf: seq<byte>, written: nat, woke: bool)
    requires written <= |buf| && |p.data| <= PIPE_BUFFER_SIZE
    ensures var r := WriteLoop(p, buf, written, woke);
            && r.pipe == p.(data := p.data + buf[written..r.written])
            && (r.woke <==> woke || r.written > written)
            && (r.outcome == Waits ==> |r.pipe.data| == PIPE_BUFFER_SIZE && !p.nonblock && r.written < |buf|)
            && (r.outcome.Done? ==>
                  r.outcome.result == if r.written == 0 < |buf| then PIPE_ERROR_FULL else AsInt(r.written))
            && (r.outcome.Done? && r.written < |buf| ==> p.nonblock && |r.pipe.data| == PIPE_BUFFER_SIZE)
    decreases |buf| - written
  {
    if written < |buf| && |p.data| < PIPE_BUFFER_SIZE {
      var q, n := PutChunk(p, buf, written), Chunk(p, buf, written);
      WriteLoopAppends(q, buf, written + n, true);
      var r := WriteLoop(q, buf, written + n, true);
      assert p.data + buf[written..written + n] + buf[written + n..r.written] == p.data + buf[written..r.written];
    } else {
      assert p.data + buf[written..written] == p.data;
    }
  }

  lemma ResumeAppends(p: Pipe, buf: seq<byte>, written: nat)
    requires written < |buf| && |p.data| <= PIPE_BUFFER_SIZE
    ensures var r := ResumeWrite(p, buf, written);
            && r.pipe == p.(data := p.data + buf[written..r.written])
            && (r.written > written ==> r.woke)
            && (r.outcome == Waits ==> |r.pipe.data| == PIPE_BUFFER_SIZE && r.written < |buf| && r.woke)
            && (r.outcome.Done? ==>
                  r.outcome.result == if !p.readerOpen then PIPE_ERROR_CLOSED
                                      else if r.written == 0 then PIPE_ERROR_FULL else AsInt(r.written))
  {
    assert p.data + buf[written..written] == p.data;
    if p.readerOpen {
      var q, n := PutChunk(p, buf, written), Chunk(p, buf, written);
      WriteLoopAppends(q, buf, written + n, true);
      var r := WriteLoop(q, buf, written + n, true);
      assert p.data + buf[written..written + n] + buf[written + n..r.written] == p.data + buf[written..r.written];
    }
  }

  /** What any stretch of a read does: it takes bytes off the front, and waits only on an empty ring. */
  ghost predicate Takes(p: Pipe, count: nat, r: ReadStep) {
    && p.data == r.got + r.pipe.data && r.pipe == p.(data := r.pipe.data)
    && (r.got != [] ==> r.woke)
    && (r.outcome == Waits ==> r.pipe == p && p.data == [])
    && (r.outcome.Done? && r.outcome.result >= 0 ==> r.outcome.result == |r.got| <= count)
    && (r.outcome.Done? && r.outcome.result < 0 ==> r.got == [])
  }

  lemma ReadTakes(p: Pipe, ends: Ends, count: nat)
    ensures Takes(p, count, BeginRead(p, ends, count)) && Takes(p, count, ResumeRead(p, count))
  {
    var n := Min(count, |p.data|);
    assert p.data == p.data[..n] + p.data[n..];
    assert p.data == [] + p.data && p.(data := p.data) == p;
  }

  /**
   * A read from its beginning, in every case: without the open end or the permission it fails; with bytes in the ring
   * it takes up to `count` of them off the front, wakes the writer, and returns their number; on an empty ring it fails
   * if the pipe is nonblocking, ends with 0 if no writer is left, and waits otherwise.
   */
  lemma ReadOutcome(p: Pipe, ends: Ends, count: nat)
    ensures var r := BeginRead(p, ends, count);
            var allowed := p.readerOpen && ends.readable;
            && (r.outcome == Waits <==> allowed && p.data == [] && !p.nonblock && p.writerOpen)
            && (r.outcome == Done(PIPE_ERROR_CLOSED) <==> !allowed)
            && (r.outcome == Done(PIPE_ERROR_EMPTY) <==> allowed && p.data == [] && p.nonblock)
            && (r.outcome == Done(0) <==>
                  allowed && if p.data == [] then !p.nonblock && !p.writerOpen else count == 0)
            && (allowed && p.data != [] ==> r.outcome == Done(Min(count, |p.data|)))
            && (r.woke <==> allowed && p.data != [])
            && (r.got == if allowed then p.data[..Min(count, |p.data|)] else [])
            && r.pipe == p.(data := p.data[|r.got|..])
  {
    assert p.data[0..] == p.data;
  }

  /**
   * From a yield on only the ring and the write end count: with bytes the read takes them, without a writer it ends,
   * and otherwise it waits again; the read end and the blocking mode are not looked at any more.
   */
  lemma ResumedReadOutcome(p: Pipe, count: nat)
    ensures var r := ResumeRead(p, count);
            && (r.outcome == Waits <==> p.data == [] && p.writerOpen)
            && (r.outcome == Done(0) <==> if p.data == [] then !p.writerOpen else count == 0)
            && (p.data != [] ==> r.outcome == Done(Min(count, |p.data|)))
            && (r.woke <==> p.data != [])
            && r.got == p.data[..Min(count, |p.data|)] && r.pipe == p.(data := p.data[|r.got|..])
  {
    assert p.data[0..] == p.data;
  }

  /** A write on open ends stores what fits at once; what happens to the rest depends on the blocking mode alone. */
  lemma WriteOutcome(p: Pipe, ends: Ends, buf: seq<byte>)
    requires |p.data| <= PIPE_BUFFER_SIZE
    ensures var r := BeginWrite(p, ends, buf);
            if !p.readerOpen || !p.writerOpen || !ends.writable then
              r == WriteStep(p, 0, false, Done(PIPE_ERROR_CLOSED))
            else
              && r.written == Min(|buf|, PIPE_BUFFER_SIZE - |p.data|) && r.pipe == p.(data := p.data + buf[..r.written])
              && (r.woke <==> r.written > 0)
              && r.outcome == if r.written < |buf| && !p.nonblock then Waits
                              else if r.written < |buf| && r.written == 0 then Done(PIPE_ERROR_FULL)
                              else Done(r.written)
  {
    WriteLoopAppends(p, buf, 0, false);
    LoopWaits(p, buf, 0, false);
    hide WriteLoop;
    var r := WriteLoop(p, buf, 0, false);
    assert |r.pipe.data| == |p.data| + r.written;
  }

  /**
   * A write from a yield on: if the read end has been closed it fails, whatever it had stored; otherwise it stores what
   * fits now, wakes the reader in any case, and waits again exactly if something is left and the pipe is blocking.
   */
  lemma ResumedWriteOutcome(p: Pipe, buf: seq<byte>, written: nat)
    requires written < |buf| && |p.data| <= PIPE_BUFFER_SIZE
    ensures var r := ResumeWrite(p, buf, written);
            if !p.readerOpen then r == WriteStep(p, written, false, Done(PIPE_ERROR_CLOSED))
            else
              && r.written == written + Min(|buf| - written, PIPE_BUFFER_SIZE - |p.data|) && r.woke
              && r.pipe == p.(data := p.data + buf[written..r.written])
              && r.outcome == if r.written < |buf| && !p.nonblock then Waits
                              else if r.written == 0 then Done(PIPE_ERROR_FULL)
                              else Done(AsInt(r.written))
  {
    ResumeAppends(p, buf, written);
    if p.readerOpen {
      var q, n := PutChunk(p, buf, written), Chunk(p, buf, written);
      WriteLoopAppends(q, buf, written + n, true);
      LoopWaits(q, buf, written + n, true);
      hide WriteLoop;
      assert |ResumeWrite(p, buf, written).pipe.data| == |p.data| + (ResumeWrite(p, buf, written).written - written);
    }
  }

  /** Closing closes exactly the ends named, and frees the slot exactly if both are closed then. */
  lemma ClosedExactly(p: Pipe, ends: Ends)
    ensures var q := ClosedEnds(p, ends);
            && q == p.(id := q.id, readerOpen := q.readerOpen, writerOpen := q.writerOpen)
            && (q.readerOpen <==> p.readerOpen && !ends.readable)
            && (q.writerOpen <==> p.writerOpen && !ends.writable)
            && q.id == if q.readerOpen || q.writerOpen then p.id else 0
  {
  }

  /** The loop waits exactly if there is a rest and the pipe is blocking. */
  lemma {:induction false} LoopWaits(p: Pipe, buf: seq<byte>, written: nat, woke: bool)
    requires written <= |buf| && |p.data| <= PIPE_BUFFER_SIZE
    ensures var r := WriteLoop(p, buf, written, woke);
            r.outcome == Waits <==> r.written < |buf| && !p.nonblock
    decreases |buf| - written
  {
    if written < |buf| && |p.data| < PIPE_BUFFER_SIZE {
      LoopWaits(PutChunk(p, buf, written), buf, written + Chunk(p, buf, written), true);
    }
  }

  /** Two reads in a row take what one read of both counts takes, also when the pipe runs empty in between. */
  lemma ReadInTwo(p: Pipe, ends: Ends, a: nat, b: nat)
    ensures var r := BeginRead(p, ends, a);
            var t, whole := BeginRead(r.pipe, ends, b), BeginRead(p, ends, a + b);
            r.got + t.got == whole.got && t.pipe == whole.pipe
  {
    ReadIs(p, ends, a);
    ReadIs(p, ends, a + b);
    ReadIs(BeginRead(p, ends, a).pipe, ends, b);
    TakenInTwo(p.data, a, b);
    hide BeginRead, Min;
  }

  lemma ReadIs(p: Pipe, ends: Ends, count: nat)
    ensures var r, n := BeginRead(p, ends, count), if p.readerOpen && ends.readable then Min(count, |p.data|) else 0;
            n <= |p.data| && r.got == p.data[..n] && r.pipe == p.(data := p.data[n..])
  {
    assert p.data == p.data[0..] && p.(data := p.data) == p;
  }

  lemma TakenInTwo(s: seq<byte>, a: nat, b: nat)
    ensures var m := Min(a, |s|);
            var n, whole := Min(b, |s[m..]|), Min(a + b, |s|);
            s[..m] + s[m..][..n] == s[..whole] && s[m..][n..] == s[whole..]
  {
    var m := Min(a, |s|);
    var n := Min(b, |s[m..]|);
    assert Min(a + b, |s|) == m + n;
    hide Min;
  }

  /** Two writes in a row, the first of which is accepted whole, store what one write of both buffers stores. */
  lemma WriteInTwo(p: Pipe, ends: Ends, a: seq<byte>, b: seq<byte>)
    requires |p.data| <= PIPE_BUFFER_SIZE && BeginWrite(p, ends, a).written == |a|
    ensures var r := BeginWrite(p, ends, a);
            var t, whole := BeginWrite(r.pipe, ends, b), BeginWrite(p, ends, a + b);
            t.pipe == whole.pipe && (a != [] ==> |a| + t.written == whole.written)
  {
    var r := BeginWrite(p, ends, a);
    WriteOutcome(p, ends, a);
    WriteOutcome(r.pipe, ends, b);
    WriteOutcome(p, ends, a + b);
    hide BeginWrite;
    if p.readerOpen && p.writerOpen && ends.writable {
      StoredInTwo(p.data, a, b, BeginWrite(r.pipe, ends, b).written);
    } else if a == [] {
      assert a + b == b;
    }
  }

  lemma StoredInTwo(data: seq<byte>, a: seq<byte>, b: seq<byte>, n: nat)
    requires n <= |b|
    ensures data + a[..|a|] + b[..n] == data + (a + b)[..|a| + n] && a[..|a|] == a
  {
    assert (a + b)[..|a| + n] == a + b[..n];
  }

  /** What was in the pipe and what a write has stored comes out again, in order. */
  lemma WriteThenRead(p: Pipe, ends: Ends, buf: seq<byte>, readEnds: Ends)
    requires |p.data| <= PIPE_BUFFER_SIZE && p.readerOpen && p.writerOpen && ends.writable && readEnds.readable
    ensures var r := BeginWrite(p, ends, buf);
            var t := BeginRead(r.pipe, readEnds, |r.pipe.data|);
            t.got == p.data + buf[..r.written] && t.pipe.data == []
  {
    WriteOutcome(p, ends, buf);
    hide BeginWrite;
    var data := BeginWrite(p, ends, buf).pipe.data;
    assert data[..|data|] == data && data[|data|..] == [];
  }
}
