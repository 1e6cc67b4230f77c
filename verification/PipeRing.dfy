/** The pipe in memory: a byte array used as a ring, with read and write positions. */
module PipeRing {
  import opened Bytes
  import opened Pipes

  function Slot(start: nat, i: nat): (r: nat)
    ensures r < PIPE_BUFFER_SIZE
  {
    (start + i) % PIPE_BUFFER_SIZE
  }

  /** The `size` bytes of a ring from position `start` on. */
  ghost function RingAt(b: seq<byte>, start: nat, size: nat): (s: seq<byte>)
    requires |b| == PIPE_BUFFER_SIZE
    ensures |s| == size
  {
    seq(size, i requires 0 <= i => b[Slot(start, i)])
  }

  /** Moving the read position forward drops the oldest bytes. */
  lemma RingDrop(b: seq<byte>, start: nat, size: nat, n: nat)
    requires |b| == PIPE_BUFFER_SIZE && n <= size
    ensures RingAt(b, Slot(start, n), size - n) == RingAt(b, start, size)[n..]
    ensures Slot(Slot(start, n), size - n) == Slot(start, size)
  {
    hide Slot;
    var l, r := RingAt(b, Slot(start, n), size - n), RingAt(b, start, size)[n..];
    forall i | 0 <= i < size - n ensures l[i] == r[i] {
      SlotAdd(start, n, i);
    }
    SlotAdd(start, n, size - n);
  }

  lemma SlotAdd(start: nat, n: nat, i: nat)
    ensures Slot(Slot(start, n), i) == Slot(start, n + i)
  {
  }

  lemma SlotStart(start: nat)
    ensures start < PIPE_BUFFER_SIZE ==> Slot(start, 0) == start
  {
  }

  lemma SlotNext(start: nat, i: nat)
    ensures (Slot(start, i) + 1) % PIPE_BUFFER_SIZE == Slot(start, i + 1)
  {
  }

  lemma RingByte(b: seq<byte>, start: nat, size: nat, i: nat)
    requires |b| == PIPE_BUFFER_SIZE && i < size
    ensures RingAt(b, start, size)[i] == b[Slot(start, i)]
  {
  }

  /** Storing at the write position appends a byte, as long as the ring is not full. */
  lemma RingPush(b: seq<byte>, start: nat, size: nat, x: byte)
    requires |b| == PIPE_BUFFER_SIZE && size < PIPE_BUFFER_SIZE
    ensures RingAt(b[Slot(start, size) := x], start, size + 1) == RingAt(b, start, size) + [x]
  {
    forall i | 0 <= i < size ensures Slot(start, i) != Slot(start, size) {
    }
  }

  lemma OneMore(data: seq<byte>, buf: seq<byte>, from: nat, i: nat)
    requires from + i < |buf|
    ensures data + buf[from..from + i] + [buf[from + i]] == data + buf[from..from + (i + 1)]
  {
  }

  class PipeObject {
    const buffer: array<byte>
    var id: nat
    var readPos: nat
    var writePos: nat
    var dataSize: nat
    var nonblock: bool
    var readerPid: nat
    var writerPid: nat
    var readerOpen: bool
    var writerOpen: bool

    ghost predicate Valid()
      reads this
    {
      && buffer.Length == PIPE_BUFFER_SIZE
      && readPos < PIPE_BUFFER_SIZE && dataSize <= PIPE_BUFFER_SIZE
      && writePos == Slot(readPos, dataSize)
    }

    /** The bytes in the ring, oldest first. */
    ghost function Contents(): (s: seq<byte>)
      requires Valid()
      reads this, buffer
      ensures |s| == dataSize
    {
      RingAt(buffer[..], readPos, dataSize)
    }

    ghost function P(): Pipe
      requires Valid()
      reads this, buffer
    {
      Pipe(id, Contents(), nonblock, readerPid, writerPid, readerOpen, writerOpen)
    }

    /** A slot as pipe_init leaves it. */
    constructor ()
      ensures Valid() && fresh(buffer) && P() == Pipe(0, [], false, 0, 0, false, false)
    {
      buffer := new byte[PIPE_BUFFER_SIZE](_ => 0);
      id, readPos, writePos, dataSize := 0, 0, 0, 0;
      nonblock, readerOpen, writerOpen := false, false, false;
      readerPid, writerPid := 0, 0;
    }

    /** The part of pipe_create that fills in a free slot; `pid` is 0 if there is no current process. */
    method Open(newId: nat, pid: nat)
      requires Valid()
      modifies this
      ensures Valid()
      ensures P() == Pipe(newId, [], false, if pid != 0 then pid else old(readerPid),
                          if pid != 0 then pid else old(writerPid), true, true)
    {
      id := newId;
      readPos, writePos, dataSize := 0, 0, 0;
      nonblock := false;
      readerOpen, writerOpen := true, true;
      if pid != 0 {
        readerPid, writerPid := pid, pid;
      }
    }

    /** The copy loop of pipe_read and the update of the data size. */
    method Take(count: nat, out: array<byte>) returns (n: nat)
      requires Valid() && count <= out.Length && out != buffer
      modifies this`readPos, this`dataSize, out
      ensures Valid() && n == Min(count, |old(Contents())|)
      ensures Contents() == old(Contents())[n..]
      ensures out[..n] == old(Contents())[..n] && out[n..] == old(out[n..])
    {
      ghost var data, start := Contents(), readPos;
      SlotStart(start);
      hide Slot, RingAt;
      n := Min(count, dataSize);
      var i := 0;
      while i < n
        invariant i <= n && dataSize == |data| && readPos == Slot(start, i)
        invariant data == RingAt(buffer[..], start, |data|)
        invariant forall j :: 0 <= j < i ==> out[j] == data[j]
        invariant out[n..] == old(out[n..])
      {
        RingByte(buffer[..], start, |data|, i);
        SlotNext(start, i);
        out[i] := buffer[readPos];
        readPos := (readPos + 1) % PIPE_BUFFER_SIZE;
        i := i + 1;
      }
      dataSize := dataSize - n;
      RingDrop(buffer[..], start, |data|, n);
    }

    /** The copy loop of pipe_write and the update of the data size. */
    method Put(buf: seq<byte>, written: nat) returns (n: nat)
      requires Valid() && written <= |buf|
      modifies this`writePos, this`dataSize, buffer
      ensures Valid() && n == Min(|buf| - written, PIPE_BUFFER_SIZE - |old(Contents())|)
      ensures Contents() == old(Contents()) + buf[written..written + n]
    {
      ghost var data := Contents();
      hide Slot, RingAt;
      n := Min(|buf| - written, PIPE_BUFFER_SIZE - dataSize);
      var i := 0;
      while i < n
        invariant i <= n && dataSize == |data|
        invariant writePos == Slot(readPos, dataSize + i)
        invariant RingAt(buffer[..], readPos, dataSize + i) == data + buf[written..written + i]
      {
        RingPush(buffer[..], readPos, dataSize + i, buf[written + i]);
        SlotNext(readPos, dataSize + i);
        ghost var b := buffer[..];
        buffer[writePos] := buf[written + i];
        assert buffer[..] == b[Slot(readPos, dataSize + i) := buf[written + i]];
        OneMore(data, buf, written, i);
        writePos := (writePos + 1) % PIPE_BUFFER_SIZE;
        i := i + 1;
      }
      dataSize := dataSize + n;
    }

    /** One round of the write loop. */
    method PutNext(buf: seq<byte>, written: nat) returns (n: nat)
      requires Valid() && written <= |buf|
      modifies this`writePos, this`dataSize, buffer
      ensures Valid() && n == Chunk(old(P()), buf, written) && P() == PutChunk(old(P()), buf, written)
    {
      hide RingAt, Slot;
      n := Put(buf, written);
    }

    // ---------- the stretches of the calls ----------

    /** The end of pipe_read once there are bytes. */
    method CopyOut(count: nat, out: array<byte>) returns (ghost r: ReadStep, result: int, wake: nat)
      requires Valid() && count <= out.Length && out != buffer
      modifies this`readPos, this`dataSize, out
      ensures Valid() && r == Pipes.CopyOut(old(P()), count) && P() == r.pipe && r.outcome == Done(result)
      ensures result == |r.got| && out[..result] == r.got && wake == writerPid
    {
      ghost var p := P();
      var n := Take(count, out);
      r, result, wake := Pipes.CopyOut(p, count), n, writerPid;
    }

    /** pipe_read up to its first yield or its end; `wake` is the process to unblock, 0 for none. */
    method BeginRead(readable: bool, count: nat, out: array<byte>)
      returns (ghost r: ReadStep, waits: bool, result: int, wake: nat)
      requires Valid() && count <= out.Length && out != buffer
      modifies this`readPos, this`dataSize, out
      ensures Valid() && P() == r.pipe && (forall w :: r == Pipes.BeginRead(old(P()), Ends(readable, w), count))
      ensures r.outcome == if waits then Waits else Done(result)
      ensures |r.got| <= count && out[..|r.got|] == r.got && wake == if r.woke then writerPid else 0
    {
      ghost var p := P();
      r, waits, result, wake := Pipes.BeginRead(p, Ends(readable, false), count), false, 0, 0;
      if !readerOpen || !readable {
        result := PIPE_ERROR_CLOSED;
        return;
      }
      if dataSize == 0 {
        if nonblock {
          result := PIPE_ERROR_EMPTY;
          return;
        }
        waits := writerOpen;
        return;
      }
      r, result, wake := CopyOut(count, out);
    }

    /** pipe_read from a yield up to the next one or its end. */
    method ResumeRead(count: nat, out: array<byte>)
      returns (ghost r: ReadStep, waits: bool, result: int, wake: nat)
      requires Valid() && count <= out.Length && out != buffer
      modifies this`readPos, this`dataSize, out
      ensures Valid() && P() == r.pipe && r == Pipes.ResumeRead(old(P()), count)
      ensures r.outcome == if waits then Waits else Done(result)
      ensures |r.got| <= count && out[..|r.got|] == r.got && wake == if r.woke then writerPid else 0
    {
      r, waits, result, wake := Pipes.ResumeRead(P(), count), false, 0, 0;
      if dataSize == 0 {
        waits := writerOpen;
        return;
      }
      r, result, wake := CopyOut(count, out);
    }

    /** The write loop of pipe_write up to its next yield or its end. */
    method WriteLoop(buf: seq<byte>, from: nat, ghost woken: bool)
      returns (ghost r: WriteStep, waits: bool, result: int, written: nat, woke: bool)
      requires Valid() && from <= |buf|
      modifies this`writePos, this`dataSize, buffer
      ensures Valid() && P() == r.pipe && r == Pipes.WriteLoop(old(P()), buf, from, woken)
      ensures r.outcome == (if waits then Waits else Done(result)) && r.written == written
              && (r.woke <==> woken || woke)
    {
      hide RingAt, Slot, PutChunk, AsInt;
      ghost var p := P();
      written, woke, waits, result := from, false, false, 0;
      r := Pipes.WriteLoop(p, buf, from, woken);
      while written < |buf|
        invariant Valid() && from <= written <= |buf|
        invariant P().nonblock == p.nonblock && r == Pipes.WriteLoop(P(), buf, written, woken || woke)
      {
        if dataSize == PIPE_BUFFER_SIZE {
          if nonblock {
            result := if written > 0 then AsInt(written) else PIPE_ERROR_FULL;
          } else {
            waits := true;
          }
          return;
        }
        var n := PutNext(buf, written);
        written := written + n;
        woke := true;
      }
      result := AsInt(written);
    }

    /** pipe_write up to its first yield or its end; `wake` is the process to unblock, 0 for none. */
    method BeginWrite(writable: bool, buf: seq<byte>)
      returns (ghost r: WriteStep, waits: bool, result: int, written: nat, wake: nat)
      requires Valid()
      modifies this`writePos, this`dataSize, buffer
      ensures Valid() && P() == r.pipe && (forall x :: r == Pipes.BeginWrite(old(P()), Ends(x, writable), buf))
      ensures r.outcome == (if waits then Waits else Done(result)) && r.written == written
      ensures wake == if r.woke then readerPid else 0
    {
      r, waits, result, written, wake := Pipes.BeginWrite(P(), Ends(false, writable), buf), false, 0, 0, 0;
      if !writerOpen || !writable || !readerOpen {
        result := PIPE_ERROR_CLOSED;
        return;
      }
      var woke;
      r, waits, result, written, woke := WriteLoop(buf, 0, false);
      wake := if woke then readerPid else 0;
    }

    /** pipe_write from a yield up to the next one or its end. */
    method ResumeWrite(buf: seq<byte>, from: nat)
      returns (ghost r: WriteStep, waits: bool, result: int, written: nat, wake: nat)
      requires Valid() && from < |buf|
      modifies this`writePos, this`dataSize, buffer
      ensures Valid() && P() == r.pipe && r == Pipes.ResumeWrite(old(P()), buf, from)
      ensures r.outcome == (if waits then Waits else Done(result)) && r.written == written
      ensures wake == if r.woke then readerPid else 0
    {
      r, waits, result, written, wake := Pipes.ResumeWrite(P(), buf, from), false, 0, from, 0;
      if !readerOpen {
        result := PIPE_ERROR_CLOSED;
        return;
      }
      var n := PutNext(buf, from);
      var woke;
      r, waits, result, written, woke := WriteLoop(buf, from + n, true);
      wake := readerPid;
    }

    /** pipe_close on this slot; it wakes nobody. */
    method Close(readable: bool, writable: bool)
      requires Valid()
      modifies this`readerOpen, this`writerOpen, this`id
      ensures Valid() && P() == ClosedEnds(old(P()), Ends(readable, writable))
    {
      if readable {
        readerOpen := false;
      }
      if writable {
        writerOpen := false;
      }
      if !readerOpen && !writerOpen {
        id := 0;
      }
    }
  }
}
