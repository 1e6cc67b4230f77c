/** How the list of blocks is laid out in memory: a 24-byte header in front of every payload. */
module HeapMemory {
  import opened Bytes
  import opened Blocks
  import opened HeapModel

  type Memory = seq<byte>

  /** memory_block_t: `size` at offset 0, `is_free` at 8, `next` at 16. */
  datatype Header = Header(size: nat, isFree: byte, next: nat)

  function HeaderAt(m: Memory, o: nat): Header
    requires o + HEADER <= |m|
  {
    Header(U64At(m, o), m[o + 8], U64At(m, o + 16))
  }

  /** The header that block `i` of the list has; the last one's `next` is NULL. */
  function HeaderOf(bs: seq<Block>, i: nat): Header
    requires i < |bs|
  {
    Header(bs[i].size, if bs[i].free then 1 else 0, if i + 1 < |bs| then bs[i + 1].addr else 0)
  }

  /** Block `i` lies in the arena and its header is in memory. */
  ghost predicate HeaderIs(m: Memory, bs: seq<Block>, i: nat)
    requires i < |bs|
  {
    && |m| == MEMORY_SIZE && MEMORY_START <= bs[i].addr && bs[i].End() <= MEMORY_END
    && HeaderAt(m, bs[i].addr - MEMORY_START) == HeaderOf(bs, i)
  }

  ghost predicate Represents(m: Memory, bs: seq<Block>) {
    |m| == MEMORY_SIZE && forall i :: 0 <= i < |bs| ==> HeaderIs(m, bs, i)
  }

  /** The header of a block in the bytes of memory: its size, whether it is free, and the address of the next block. */
  lemma HeaderBytes(m: Memory, bs: seq<Block>, i: nat)
    requires Represents(m, bs) && i < |bs|
    ensures var o := bs[i].addr - MEMORY_START;
            && 0 <= o && o + HEADER <= |m|
            && LittleEndian(m, o, 8) == bs[i].size
            && (m[o + 8] != 0 <==> bs[i].free)
            && LittleEndian(m, o + 16, 8) == if i + 1 < |bs| then bs[i + 1].addr else 0
  {
    assert HeaderIs(m, bs, i);
    hide U64At, LittleEndian;
    WordsAreLittleEndian(m, bs[i].addr - MEMORY_START);
    WordsAreLittleEndian(m, bs[i].addr - MEMORY_START + 16);
  }

  /** The address belongs to the payload of a block in use. */
  ghost predicate InPayload(bs: seq<Block>, a: nat) {
    exists i :: 0 <= i < |bs| && !bs[i].free && bs[i].addr + HEADER <= a < bs[i].End()
  }

  ghost predicate ChangedWithin(m: Memory, m': Memory, o: nat) {
    |m'| == |m| && forall k :: 0 <= k < |m| && !(o <= k < o + HEADER) ==> m'[k] == m[k]
  }

  lemma SameHeader(m: Memory, m': Memory, o: nat)
    requires |m'| == |m| && o + HEADER <= |m|
    requires forall k :: o <= k < o + HEADER ==> m'[k] == m[k]
    ensures HeaderAt(m', o) == HeaderAt(m, o)
  {
  }

  function SetSize(m: Memory, o: nat, v: nat): (r: Memory)
    requires o + HEADER <= |m| && v < TWO_64
    ensures |r| == |m|
  {
    PutU64(m, o, v)
  }

  function SetFree(m: Memory, o: nat, v: byte): (r: Memory)
    requires o + HEADER <= |m|
    ensures |r| == |m|
  {
    m[o + 8 := v]
  }

  function SetNext(m: Memory, o: nat, v: nat): (r: Memory)
    requires o + HEADER <= |m| && v < TWO_64
    ensures |r| == |m|
  {
    PutU64(m, o + 16, v)
  }

  lemma SetSizeHeader(m: Memory, o: nat, v: nat)
    requires o + HEADER <= |m| && v < TWO_64
    ensures HeaderAt(SetSize(m, o, v), o) == HeaderAt(m, o).(size := v) && ChangedWithin(m, SetSize(m, o, v), o)
  {
    PutU64Get(m, o, v);
    hide PutU64;
  }

  lemma SetFreeHeader(m: Memory, o: nat, v: byte)
    requires o + HEADER <= |m|
    ensures HeaderAt(SetFree(m, o, v), o) == HeaderAt(m, o).(isFree := v) && ChangedWithin(m, SetFree(m, o, v), o)
  {
  }

  lemma SetNextHeader(m: Memory, o: nat, v: nat)
    requires o + HEADER <= |m| && v < TWO_64
    ensures HeaderAt(SetNext(m, o, v), o) == HeaderAt(m, o).(next := v) && ChangedWithin(m, SetNext(m, o, v), o)
  {
    PutU64Get(m, o + 16, v);
    hide PutU64;
  }

  /** Writing `size` and `next`. */
  lemma TwoFields(m: Memory, o: nat, size: nat, next: nat)
    requires o + HEADER <= |m| && size < TWO_64 && next < TWO_64
    ensures HeaderAt(SetNext(SetSize(m, o, size), o, next), o) == HeaderAt(m, o).(size := size, next := next)
    ensures ChangedWithin(m, SetNext(SetSize(m, o, size), o, next), o)
  {
    hide HeaderAt, SetSize, SetNext;
    SetSizeHeader(m, o, size);
    SetNextHeader(SetSize(m, o, size), o, next);
  }

  /** Writing all three fields makes exactly that header. */
  lemma WholeHeader(m: Memory, o: nat, size: nat, isFree: byte, next: nat)
    requires o + HEADER <= |m| && size < TWO_64 && next < TWO_64
    ensures HeaderAt(SetNext(SetFree(SetSize(m, o, size), o, isFree), o, next), o) == Header(size, isFree, next)
    ensures ChangedWithin(m, SetNext(SetFree(SetSize(m, o, size), o, isFree), o, next), o)
  {
    hide HeaderAt, SetSize, SetFree, SetNext;
    SetSizeHeader(m, o, size);
    SetFreeHeader(SetSize(m, o, size), o, isFree);
    SetNextHeader(SetFree(SetSize(m, o, size), o, isFree), o, next);
  }

  /** A header that was not written belongs to the same block of the new list. */
  lemma Carry(m: Memory, bs: seq<Block>, j: nat, m': Memory, cs: seq<Block>, k: nat)
    requires j < |bs| && k < |cs| && HeaderIs(m, bs, j) && |m'| == |m|
    requires forall o :: bs[j].addr - MEMORY_START <= o < bs[j].addr - MEMORY_START + HEADER ==> m'[o] == m[o]
    requires cs[k] == bs[j] && HeaderOf(cs, k) == HeaderOf(bs, j)
    ensures HeaderIs(m', cs, k)
  {
    SameHeader(m, m', bs[j].addr - MEMORY_START);
  }

  /** The headers of two blocks do not overlap. */
  lemma HeadersApart(bs: seq<Block>, i: nat, j: nat)
    requires Tiles(bs, MEMORY_START, MEMORY_END) && i < |bs| && j < |bs| && i != j
    ensures bs[i].End() <= bs[j].addr || bs[j].End() <= bs[i].addr
  {
    if i < j {
      TilesOrdered(bs, MEMORY_START, MEMORY_END, i, j);
    } else {
      TilesOrdered(bs, MEMORY_START, MEMORY_END, j, i);
    }
  }

  /** Setting `is_free` of one block. */
  lemma RepresentsMark(m: Memory, bs: seq<Block>, i: nat, free: bool)
    requires Represents(m, bs) && Tiles(bs, MEMORY_START, MEMORY_END) && i < |bs| && HeaderIs(m, bs, i)
    ensures Represents(SetFree(m, bs[i].addr - MEMORY_START, if free then 1 else 0), bs[i := bs[i].(free := free)])
    ensures ChangedWithin(m, SetFree(m, bs[i].addr - MEMORY_START, if free then 1 else 0), bs[i].addr - MEMORY_START)
  {
    var flag: byte := if free then 1 else 0;
    var o := bs[i].addr - MEMORY_START;
    var m', cs := SetFree(m, o, flag), bs[i := bs[i].(free := free)];
    hide HeaderAt, Tiles, SetFree, Represents, HeaderOf, HeaderIs;
    SetFreeHeader(m, o, flag);
    MarkedHere(m, bs, i, free, m');
    forall j | 0 <= j < |cs| && j != i ensures HeaderIs(m', cs, j) {
      RepresentsEach(m, bs, j);
      HeadersApart(bs, i, j);
      MarkedElsewhere(bs, i, j, free);
      Carry(m, bs, j, m', cs, j);
    }
    RepresentsAll(m', cs);
  }

  lemma MarkedHere(m: Memory, bs: seq<Block>, i: nat, free: bool, m': Memory)
    requires i < |bs| && HeaderIs(m, bs, i) && |m'| == |m|
    requires var o := bs[i].addr - MEMORY_START; HeaderAt(m', o) == HeaderAt(m, o).(isFree := if free then 1 else 0)
    ensures HeaderIs(m', bs[i := bs[i].(free := free)], i)
  {
    hide HeaderAt;
  }

  lemma MarkedElsewhere(bs: seq<Block>, i: nat, j: nat, free: bool)
    requires i < |bs| && j < |bs| && j != i
    ensures var cs := bs[i := bs[i].(free := free)];
            cs[j] == bs[j] && HeaderOf(cs, j) == HeaderOf(bs, j)
  {
  }

  lemma RepresentsEach(m: Memory, bs: seq<Block>, i: nat)
    requires Represents(m, bs) && i < |bs|
    ensures |m| == MEMORY_SIZE && HeaderIs(m, bs, i)
  {
  }

  lemma RepresentsAll(m: Memory, bs: seq<Block>)
    requires |m| == MEMORY_SIZE && forall i :: 0 <= i < |bs| ==> HeaderIs(m, bs, i)
    ensures Represents(m, bs)
  {
  }

  lemma OtherHeaders(bs: seq<Block>, i: nat, j: nat)
    requires i + 1 < |bs| && j < |bs| - 1 && j != i
    ensures var k := if j < i then j else j + 1;
            Merge(bs, i)[j] == bs[k] && HeaderOf(Merge(bs, i), j) == HeaderOf(bs, k)
  {
  }

  lemma MergedHeaders(m: Memory, bs: seq<Block>, m': Memory, i: nat)
    requires Represents(m, bs) && Tiles(bs, MEMORY_START, MEMORY_END) && i + 1 < |bs| && HeaderIs(m, bs, i)
    requires |m'| == MEMORY_SIZE
    requires HeaderAt(m', bs[i].addr - MEMORY_START)
          == Header(bs[i].size + HEADER + bs[i + 1].size, HeaderOf(bs, i).isFree, HeaderOf(bs, i + 1).next)
    ensures HeaderIs(m, bs, i + 1) && HeaderIs(m', Merge(bs, i), i)
  {
    hide HeaderAt, Tiles, Represents;
    TilesBounds(bs, MEMORY_START, MEMORY_END);
    RepresentsEach(m, bs, i + 1);
    MergedHeader(bs, i);
  }

  lemma MergedHeader(bs: seq<Block>, i: nat)
    requires i + 1 < |bs|
    ensures |Merge(bs, i)| == |bs| - 1 && Merge(bs, i)[i].addr == bs[i].addr
    ensures Merge(bs, i)[i].End() == bs[i].addr + HEADER + bs[i].size + HEADER + bs[i + 1].size
    ensures HeaderOf(Merge(bs, i), i)
         == Header(bs[i].size + HEADER + bs[i + 1].size, HeaderOf(bs, i).isFree, HeaderOf(bs, i + 1).next)
  {
  }

  /** Absorbing the next block: `size` and `next` of the first are rewritten. */
  lemma RepresentsMerge(m: Memory, bs: seq<Block>, m': Memory, i: nat)
    requires Represents(m, bs) && Tiles(bs, MEMORY_START, MEMORY_END) && i + 1 < |bs| && HeaderIs(m, bs, i)
    requires ChangedWithin(m, m', bs[i].addr - MEMORY_START)
    requires HeaderAt(m', bs[i].addr - MEMORY_START)
          == Header(bs[i].size + HEADER + bs[i + 1].size, HeaderOf(bs, i).isFree, HeaderOf(bs, i + 1).next)
    ensures Represents(m', Merge(bs, i))
  {
    hide HeaderAt, Tiles, Merge, HeaderOf, Represents;
    var cs := Merge(bs, i);
    assert |cs| == |bs| - 1 && HeaderIs(m, bs, i + 1) && HeaderIs(m', cs, i) by { MergedHeaders(m, bs, m', i); }
    forall j | 0 <= j < |cs| && j != i ensures HeaderIs(m', cs, j) {
      var k := if j < i then j else j + 1;
      HeadersApart(bs, i, k);
      assert HeaderIs(m, bs, k) by { RepresentsEach(m, bs, k); }
      OtherHeaders(bs, i, j);
      Carry(m, bs, k, m', cs, j);
    }
    assert |m'| == MEMORY_SIZE by { RepresentsEach(m, bs, i); }
    RepresentsAll(m', cs);
  }

  /** Block `i` cut in two free blocks, the first with `n` bytes. */
  function Halved(bs: seq<Block>, i: nat, n: nat): seq<Block>
    requires i < |bs| && n + HEADER <= bs[i].size
  {
    bs[..i]
    + [Block(bs[i].addr, n, true), Block(bs[i].addr + HEADER + n, bs[i].size - n - HEADER, true)]
    + bs[i + 1..]
  }

  lemma HalvedTiles(bs: seq<Block>, i: nat, n: nat)
    requires Tiles(bs, MEMORY_START, MEMORY_END) && i < |bs| && n + HEADER <= bs[i].size && n % 8 == 0
    ensures Tiles(Halved(bs, i, n), MEMORY_START, MEMORY_END)
  {
    hide Tiles;
    TilesBounds(bs, MEMORY_START, MEMORY_END);
    HalvesTile(bs[i], n);
    TilesReplace(bs, MEMORY_START, MEMORY_END, i, i + 1,
                 [Block(bs[i].addr, n, true), Block(bs[i].addr + HEADER + n, bs[i].size - n - HEADER, true)]);
  }

  lemma HalvesTile(b: Block, n: nat)
    requires n + HEADER <= b.size && n % 8 == 0 && b.size % 8 == 0
    ensures Tiles([Block(b.addr, n, true), Block(b.addr + HEADER + n, b.size - n - HEADER, true)], b.addr, b.End())
  {
    var rest := Block(b.addr + HEADER + n, b.size - n - HEADER, true);
    assert [Block(b.addr, n, true), rest][1..] == [rest];
    assert Tiles([rest], rest.addr, b.End());
  }

  /** Cutting a free block: a header is made inside it, then `size` and `next` of its own header are rewritten. */
  lemma RepresentsHalved(m: Memory, bs: seq<Block>, m1: Memory, m2: Memory, i: nat, n: nat)
    requires Represents(m, bs) && Tiles(bs, MEMORY_START, MEMORY_END)
    requires i < |bs| && HeaderIs(m, bs, i) && n + HEADER <= bs[i].size
    requires ChangedWithin(m, m1, bs[i].addr + HEADER + n - MEMORY_START)
    requires ChangedWithin(m1, m2, bs[i].addr - MEMORY_START)
    requires HeaderAt(m1, bs[i].addr + HEADER + n - MEMORY_START)
          == Header(bs[i].size - n - HEADER, 1, HeaderOf(bs, i).next)
    requires HeaderAt(m2, bs[i].addr - MEMORY_START) == Header(n, 1, bs[i].addr + HEADER + n)
    ensures Represents(m2, Halved(bs, i, n))
  {
    hide HeaderAt, Tiles;
    var cs := Halved(bs, i, n);
    SameHeader(m1, m2, bs[i].addr + HEADER + n - MEMORY_START);
    assert HeaderIs(m2, cs, i) && HeaderIs(m2, cs, i + 1);
    forall j | 0 <= j < |cs| && j != i && j != i + 1 ensures HeaderIs(m2, cs, j) {
      var k := if j < i then j else j - 1;
      HeadersApart(bs, i, k);
      Carry(m, bs, k, m2, cs, j);
    }
  }

  /** Writing into the header of one block changes no byte of a payload in use. */
  lemma HeadersAreNoPayload(bs: seq<Block>, i: nat, a: nat)
    requires Tiles(bs, MEMORY_START, MEMORY_END) && i < |bs| && InPayload(bs, a)
    ensures !(bs[i].addr <= a < bs[i].addr + HEADER) && (bs[i].free ==> !(bs[i].addr <= a < bs[i].End()))
  {
    var j :| 0 <= j < |bs| && !bs[j].free && bs[j].addr + HEADER <= a < bs[j].End();
    if i < j {
      TilesOrdered(bs, MEMORY_START, MEMORY_END, i, j);
    } else if j < i {
      TilesOrdered(bs, MEMORY_START, MEMORY_END, j, i);
    }
  }

  /** The bytes of all payloads in use on the list are the same in both memories. */
  ghost predicate KeepsPayload(m: Memory, m': Memory, bs: seq<Block>) {
    && |m'| == |m|
    && forall o :: 0 <= o < |m| && InPayload(bs, o + MEMORY_START) ==> m'[o] == m[o]
  }

  lemma HeaderWriteKeepsPayload(m: Memory, m': Memory, bs: seq<Block>, i: nat)
    requires Tiles(bs, MEMORY_START, MEMORY_END) && i < |bs| && bs[i].addr >= MEMORY_START
    requires ChangedWithin(m, m', bs[i].addr - MEMORY_START)
    ensures KeepsPayload(m, m', bs)
  {
    hide Tiles, InPayload;
    forall o | 0 <= o < |m| && InPayload(bs, o + MEMORY_START) ensures m'[o] == m[o] {
      HeadersAreNoPayload(bs, i, o + MEMORY_START);
    }
  }

  /** A new header inside a free block is outside every payload in use. */
  lemma InnerWriteKeepsPayload(m: Memory, m': Memory, bs: seq<Block>, i: nat, n: nat)
    requires Tiles(bs, MEMORY_START, MEMORY_END) && i < |bs| && bs[i].addr >= MEMORY_START
    requires bs[i].free && n + HEADER <= bs[i].size
    requires ChangedWithin(m, m', bs[i].addr + HEADER + n - MEMORY_START)
    ensures KeepsPayload(m, m', bs)
  {
    hide Tiles, InPayload;
    forall o | 0 <= o < |m| && InPayload(bs, o + MEMORY_START) ensures m'[o] == m[o] {
      HeadersAreNoPayload(bs, i, o + MEMORY_START);
    }
  }

  lemma KeepsSame(m: Memory, bs: seq<Block>)
    ensures KeepsPayload(m, m, bs)
  {
  }

  lemma KeepsTwice(m: Memory, m1: Memory, m2: Memory, bs: seq<Block>)
    requires KeepsPayload(m, m1, bs) && KeepsPayload(m1, m2, bs)
    ensures KeepsPayload(m, m2, bs)
  {
    hide InPayload;
  }

  /** Everything about cutting block `i`: what is represented, and that no payload in use changed. */
  lemma Cut(m: Memory, bs: seq<Block>, m1: Memory, m2: Memory, i: nat, n: nat)
    requires Represents(m, bs) && Tiles(bs, MEMORY_START, MEMORY_END)
    requires i < |bs| && HeaderIs(m, bs, i) && bs[i].free && n + HEADER <= bs[i].size && n % 8 == 0
    requires ChangedWithin(m, m1, bs[i].addr + HEADER + n - MEMORY_START)
    requires ChangedWithin(m1, m2, bs[i].addr - MEMORY_START)
    requires HeaderAt(m1, bs[i].addr + HEADER + n - MEMORY_START)
          == Header(bs[i].size - n - HEADER, 1, HeaderOf(bs, i).next)
    requires HeaderAt(m2, bs[i].addr - MEMORY_START)
          == HeaderAt(m1, bs[i].addr - MEMORY_START).(size := n, next := bs[i].addr + HEADER + n)
    ensures Represents(m2, Halved(bs, i, n)) && Tiles(Halved(bs, i, n), MEMORY_START, MEMORY_END)
    ensures KeepsPayload(m, m2, bs)
  {
    hide HeaderAt, Tiles, KeepsPayload, Represents, Halved;
    SameHeader(m, m1, bs[i].addr - MEMORY_START);
    RepresentsHalved(m, bs, m1, m2, i, n);
    HalvedTiles(bs, i, n);
    InnerWriteKeepsPayload(m, m1, bs, i, n);
    HeaderWriteKeepsPayload(m1, m2, bs, i);
    KeepsTwice(m, m1, m2, bs);
  }

  /** A payload in use after merging two free blocks, or after freeing one, was in use before. */
  lemma MergePayload(m: Memory, m': Memory, bs: seq<Block>, i: nat)
    requires i + 1 < |bs| && bs[i].free && KeepsPayload(m, m', bs)
    ensures KeepsPayload(m, m', Merge(bs, i))
  {
    forall a: nat | InPayload(Merge(bs, i), a) ensures InPayload(bs, a) {
      var j :| 0 <= j < |Merge(bs, i)| && !Merge(bs, i)[j].free
               && Merge(bs, i)[j].addr + HEADER <= a < Merge(bs, i)[j].End();
      assert Merge(bs, i)[j] == bs[if j < i then j else j + 1];
    }
    hide InPayload;
  }

  lemma MarkPayload(m: Memory, m': Memory, bs: seq<Block>, i: nat)
    requires i < |bs| && KeepsPayload(m, m', bs)
    ensures KeepsPayload(m, m', bs[i := bs[i].(free := true)])
  {
    var cs := bs[i := bs[i].(free := true)];
    forall a: nat | InPayload(cs, a) ensures InPayload(bs, a) {
      var j :| 0 <= j < |cs| && !cs[j].free && cs[j].addr + HEADER <= a < cs[j].End();
      assert bs[j] == cs[j];
    }
    hide InPayload;
  }
}
