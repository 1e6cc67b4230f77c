/** The kernel heap in memory: first fit over a linked list of in-band headers, splitting, and one-pass merging. */
module Heap {
  import opened Bytes
  import opened Blocks
  import opened HeapModel
  import opened HeapMemory

  const NULL: nat := 0

  class KernelHeap {
    /** The arena: `memory[a - MEMORY_START]` is the byte at address `a`. */
    const memory: array<byte>
    var memoryStart: nat
    var initialized: bool
    /** The blocks, in address order. */
    ghost var blocks: seq<Block>

    ghost predicate Valid()
      reads this, memory
    {
      && memory.Length == MEMORY_SIZE
      && (initialized ==> memoryStart == MEMORY_START && Sound(blocks) && Represents(memory[..], blocks))
    }

    constructor (arena: array<byte>)
      requires arena.Length == MEMORY_SIZE
      ensures Valid() && memory == arena && !initialized
    {
      memory := arena;
      memoryStart, initialized, blocks := NULL, false, [];
    }

    // ---------- header fields through a pointer ----------

    predicate IsHeader(p: nat)
      reads this
    {
      MEMORY_START <= p && p + HEADER <= MEMORY_START + memory.Length
    }

    function Size(p: nat): nat
      requires IsHeader(p)
      reads this, memory
    {
      U64At(memory[..], p - MEMORY_START)
    }

    function IsFree(p: nat): bool
      requires IsHeader(p)
      reads this, memory
    {
      memory[p - MEMORY_START + 8] != 0
    }

    function Next(p: nat): nat
      requires IsHeader(p)
      reads this, memory
    {
      U64At(memory[..], p - MEMORY_START + 16)
    }

    method PutSize(p: nat, v: nat)
      requires IsHeader(p) && v < TWO_64
      modifies memory
      ensures memory[..] == SetSize(old(memory[..]), p - MEMORY_START, v)
    {
      StoreU64(memory, p - MEMORY_START, v);
    }

    method PutIsFree(p: nat, v: byte)
      requires IsHeader(p)
      modifies memory
      ensures memory[..] == SetFree(old(memory[..]), p - MEMORY_START, v)
    {
      memory[p - MEMORY_START + 8] := v;
    }

    method PutNext(p: nat, v: nat)
      requires IsHeader(p) && v < TWO_64
      modifies memory
      ensures memory[..] == SetNext(old(memory[..]), p - MEMORY_START, v)
    {
      StoreU64(memory, p - MEMORY_START + 16, v);
    }

    /** The fields behind a pointer to the header of block `i`. */
    lemma Fields(i: nat)
      requires Represents(memory[..], blocks) && i < |blocks|
      ensures IsHeader(blocks[i].addr)
      ensures Size(blocks[i].addr) == blocks[i].size && IsFree(blocks[i].addr) == blocks[i].free
      ensures Next(blocks[i].addr) == if i + 1 < |blocks| then blocks[i + 1].addr else NULL
    {
      hide U64At;
      RepresentsEach(memory[..], blocks, i);
    }

    // ---------- memory_init ----------

    method MemoryInit()
      requires Valid()
      modifies this, memory
      ensures Valid() && initialized
      ensures old(initialized) ==> blocks == old(blocks) && memory[..] == old(memory[..])
      ensures !old(initialized) ==> blocks == Initial()
    {
      hide HeaderAt, SetSize, SetFree, SetNext, Tiles, NoFreeNeighbours, U64At;
      if initialized {
        return;
      }
      memoryStart := MEMORY_START;
      PutSize(memoryStart, MEMORY_SIZE - HEADER);
      PutIsFree(memoryStart, 1);
      PutNext(memoryStart, NULL);
      WholeHeader(old(memory[..]), 0, MEMORY_SIZE - HEADER, 1, NULL);
      blocks := Initial();
      initialized := true;
      InitialSound();
    }

    // ---------- kmalloc ----------

    /** Cuts the block found by the search if it is big enough, and marks it as in use. */
    method TakeBlock(current: nat, size: nat, ghost i: nat)
      requires Valid() && initialized && size % 8 == 0
      requires i < |blocks| && current == blocks[i].addr && blocks[i].free && blocks[i].size >= size
      modifies this`blocks, memory
      ensures blocks == old(blocks)[..i] + Carved(old(blocks)[i], size) + old(blocks)[i + 1..]
      ensures Represents(memory[..], blocks) && KeepsPayload(old(memory[..]), memory[..], old(blocks))
    {
      hide Represents, Tiles, KeepsPayload, HeaderAt, U64At, SetSize, SetNext, SetFree, NoFreeNeighbours;
      ghost var bs, m := blocks, memory[..];
      Fields(i);
      RepresentsEach(m, bs, i);
      KeepsSame(m, bs);
      if Size(current) > size + HEADER + BLOCK_SIZE {
        var newBlock := current + HEADER + size;
        var rest, next := Size(current) - size - HEADER, Next(current);
        PutSize(newBlock, rest);
        PutIsFree(newBlock, 1);
        PutNext(newBlock, next);
        ghost var m1 := memory[..];
        PutSize(current, size);
        PutNext(current, newBlock);
        WholeHeader(m, newBlock - MEMORY_START, rest, 1, next);
        TwoFields(m1, current - MEMORY_START, size, newBlock);
        Cut(m, bs, m1, memory[..], i, size);
        blocks := Halved(bs, i, size);
        RepresentsEach(memory[..], blocks, i);
      }
      ghost var m2 := memory[..];
      PutIsFree(current, 0);
      RepresentsMark(m2, blocks, i, false);
      HeaderWriteKeepsPayload(m2, memory[..], bs, i);
      KeepsTwice(m, m2, memory[..], bs);
      blocks := blocks[i := blocks[i].(free := false)];
    }

    /** The heap that a call works on: the first call makes the initial one. */
    ghost function Found(): seq<Block>
      reads this
    {
      if initialized then blocks else Initial()
    }

    /**
     * Allocates `size` bytes from the first free block that is big enough; 0 when there is none. A size that rounding
     * wraps to 0 gets a block all the same, and that is too small for it.
     */
    method Kmalloc(size: nat) returns (p: nat)
      requires Valid() && size < TWO_64
      modifies this, memory
      ensures Valid() && initialized
      ensures size == 0 ==> p == NULL && blocks == old(Found())
      ensures size > 0 ==> blocks == Allocate(old(Found()), Rounded(size))
      ensures size > 0 ==>
                var i := FirstFit(old(Found()), Rounded(size));
                p == if i == |old(Found())| then NULL else old(Found())[i].addr + HEADER
      ensures p != NULL ==>
                p % 8 == 0 && InUse(blocks, p - HEADER)
                && (blocks[IndexOf(blocks, p - HEADER)].size >= size <==> size <= TWO_64 - 8)
      ensures size > 0 ==> (p == NULL <==> forall lo :: !RoomAt(Live(old(Found())), lo, Rounded(size)))
      ensures old(initialized) ==> KeepsPayload(old(memory[..]), memory[..], old(blocks))
    {
      hide Represents, Sound, KeepsPayload, U64At, Live, Carved, RoomAt, Allocate, InUse, IndexOf, FirstFit, Initial;
      MemoryInit();
      ghost var bs, m := blocks, memory[..];
      KeepsSame(m, bs);
      p := NULL;
      if size == 0 {
        return;
      }
      var rounded := Rounded(size);
      RoundedIs(size);
      var current := memoryStart;
      ghost var i := 0;
      FirstBlock(bs);
      while current != NULL
        invariant Valid() && initialized && blocks == bs && memory[..] == m
        invariant i < |bs| ==> bs[i].addr >= MEMORY_START
        invariant i <= |bs| && current == if i < |bs| then bs[i].addr else NULL
        invariant forall j :: 0 <= j < i ==> !(bs[j].free && bs[j].size >= rounded)
        decreases |bs| - i
      {
        Fields(i);
        if IsFree(current) && Size(current) >= rounded {
          FirstFitIs(bs, rounded, i);
          TakeBlock(current, rounded, i);
          p := current + HEADER;
          Allocated(bs, rounded);
          return;
        }
        current := Next(current);
        i := i + 1;
        if i < |bs| {
          RepresentsEach(m, bs, i);
        }
      }
      FirstFitIs(bs, rounded, i);
      NoRoomAnywhere(bs, rounded);
    }

    lemma NoRoomAnywhere(bs: seq<Block>, n: nat)
      requires Sound(bs) && FirstFit(bs, n) == |bs|
      ensures Allocate(bs, n) == bs
      ensures forall lo: nat :: !RoomAt(Live(bs), lo, n)
    {
      assert Allocate(bs, n) == bs;
      hide Allocate, Sound, RoomAt, Live, FirstFit;
      forall lo: nat ensures !RoomAt(Live(bs), lo, n) {
        FailsOnlyWithoutRoom(bs, n, lo);
      }
    }

    /** What a successful allocation leaves behind. */
    lemma Allocated(bs: seq<Block>, n: nat)
      requires Sound(bs) && n % 8 == 0 && FirstFit(bs, n) < |bs|
      ensures var i := FirstFit(bs, n);
              var after := Allocate(bs, n);
              after == bs[..i] + Carved(bs[i], n) + bs[i + 1..]
              && Sound(after) && (bs[i].addr + HEADER) % 8 == 0 && RoomAt(Live(bs), bs[i].addr, n)
              && InUse(after, bs[i].addr)
              && n <= after[IndexOf(after, bs[i].addr)].size <= MEMORY_END - MEMORY_START
    {
      hide Tiles, Live, NoFreeNeighbours, Carved, RoomAt, FirstFit, Allocate, InUse, IndexOf;
      AllocateSound(bs, n);
      FitsWhereFound(bs, n);
      TilesAligned(bs, MEMORY_START, MEMORY_END);
      TakenBlock(bs, n);
    }

    lemma TakenBlock(bs: seq<Block>, n: nat)
      requires Tiles(Allocate(bs, n), MEMORY_START, MEMORY_END) && FirstFit(bs, n) < |bs|
      ensures var i := FirstFit(bs, n);
              var after := Allocate(bs, n);
              after == bs[..i] + Carved(bs[i], n) + bs[i + 1..]
              && InUse(after, bs[i].addr)
              && n <= after[IndexOf(after, bs[i].addr)].size <= MEMORY_END - MEMORY_START
    {
      hide Tiles, Live, Carved, FirstFit, IndexOf;
      var i := FirstFit(bs, n);
      TilesBounds(Allocate(bs, n), MEMORY_START, MEMORY_END);
      CarvedLive(bs[i], n);
      assert Allocate(bs, n)[i] == Carved(bs[i], n)[0];
      IndexOfUnique(Allocate(bs, n), MEMORY_START, MEMORY_END, i);
    }

    lemma FirstBlock(bs: seq<Block>)
      requires Sound(bs)
      ensures bs != [] && bs[0].addr == MEMORY_START
    {
      TilesBounds(bs, MEMORY_START, MEMORY_END);
    }

    // ---------- kfree ----------

    /** Merges the free block at `current` with the free block behind it. */
    method Absorb(current: nat, ghost i: nat)
      requires memory.Length == MEMORY_SIZE && Represents(memory[..], blocks) && Tiles(blocks, MEMORY_START, MEMORY_END)
      requires i + 1 < |blocks| && current == blocks[i].addr && blocks[i].free && blocks[i + 1].free
      modifies this`blocks, memory
      ensures blocks == Merge(old(blocks), i) && i < |blocks| && blocks[i].addr == current
      ensures Represents(memory[..], blocks) && Tiles(blocks, MEMORY_START, MEMORY_END)
      ensures KeepsPayload(old(memory[..]), memory[..], blocks)
    {
      hide Represents, Tiles, KeepsPayload, HeaderAt, U64At, SetSize, SetNext, Merge;
      ghost var bs, m := blocks, memory[..];
      Fields(i);
      Fields(i + 1);
      RepresentsEach(m, bs, i);
      RepresentsEach(m, bs, i + 1);
      var next := Next(current);
      var size, after := Size(current) + HEADER + Size(next), Next(next);
      PutSize(current, size);
      PutNext(current, after);
      TwoFields(m, current - MEMORY_START, size, after);
      RepresentsMerge(m, bs, memory[..], i);
      MergeKeeps(bs, i, MEMORY_START, MEMORY_END);
      HeaderWriteKeepsPayload(m, memory[..], bs, i);
      MergePayload(m, memory[..], bs, i);
      blocks := Merge(bs, i);
      assert blocks[i].addr == current by { MergedAt(bs, i); }
    }

    lemma MergedAt(bs: seq<Block>, i: nat)
      requires i + 1 < |bs|
      ensures Merge(bs, i)[i].addr == bs[i].addr
    {
    }

    /** Frees the block whose payload is at `p`, then merges every run of free blocks. */
    method Kfree(p: nat)
      requires Valid()
      requires p != NULL && initialized ==> p >= HEADER && InUse(blocks, p - HEADER)
      modifies this`blocks, memory
      ensures Valid()
      ensures p == NULL || !initialized ==> blocks == old(blocks) && memory[..] == old(memory[..])
      ensures p != NULL && initialized ==> blocks == Release(old(blocks), p - HEADER)
      ensures KeepsPayload(old(memory[..]), memory[..], blocks)
    {
      hide Represents, Tiles, KeepsPayload, NoFreeNeighbours, U64At, SetFree, Merge, HeaderAt;
      KeepsSame(memory[..], blocks);
      if p == NULL || !initialized {
        return;
      }
      ghost var m, bs := memory[..], blocks;
      ghost var i := IndexOf(bs, p - HEADER);
      Fields(i);
      RepresentsEach(m, bs, i);
      PutIsFree(p - HEADER, 1);
      ReleaseSound(bs, p - HEADER);
      RepresentsMark(m, bs, i, true);
      MarkKeepsTiles(bs, i, MEMORY_START, MEMORY_END);
      HeaderWriteKeepsPayload(m, memory[..], bs, i);
      MarkPayload(m, memory[..], bs, i);
      blocks := bs[i := bs[i].(free := true)];
      MergeAll(m, Release(bs, p - HEADER));
    }

    /** The merging pass of kfree. */
    method MergeAll(ghost m: Memory, ghost end: seq<Block>)
      requires initialized && memory.Length == MEMORY_SIZE && memoryStart == MEMORY_START
      requires Represents(memory[..], blocks) && Tiles(blocks, MEMORY_START, MEMORY_END)
      requires KeepsPayload(m, memory[..], blocks) && end == Coalesce(blocks, 0)
      modifies this`blocks, memory
      ensures blocks == end && Represents(memory[..], blocks) && KeepsPayload(m, memory[..], blocks)
    {
      hide Represents, Tiles, KeepsPayload, U64At, Merge;
      var current := memoryStart;
      ghost var k := 0;
      assert blocks != [] && blocks[0].addr == MEMORY_START by { TilesBounds(blocks, MEMORY_START, MEMORY_END); }
      Fields(0);
      while current != NULL && Next(current) != NULL
        invariant Represents(memory[..], blocks) && Tiles(blocks, MEMORY_START, MEMORY_END)
        invariant KeepsPayload(m, memory[..], blocks)
        invariant k < |blocks| && current == blocks[k].addr && IsHeader(current)
        invariant Coalesce(blocks, k) == end
        decreases |blocks| - k
      {
        Fields(k);
        if k + 1 < |blocks| {
          Fields(k + 1);
        }
        if IsFree(current) && IsFree(Next(current)) {
          ghost var m1, bs := memory[..], blocks;
          Absorb(current, k);
          MergePayload(m, m1, bs, k);
          KeepsTwice(m, m1, memory[..], blocks);
          Fields(k);
        } else {
          current := Next(current);
          k := k + 1;
        }
      }
      Fields(k);
      if k + 1 < |blocks| {
        Fields(k + 1);
      }
    }
  }
}
