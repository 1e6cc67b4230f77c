/** The kernel heap as the list of its blocks in address order. */
module Blocks {

  const MEMORY_START: nat := 0x10_0000
  const MEMORY_SIZE: nat := 0x10_0000
  const MEMORY_END: nat := MEMORY_START + MEMORY_SIZE
  const BLOCK_SIZE: nat := 4096
  /** sizeof(memory_block_t) */
  const HEADER: nat := 24

  /** `addr` is the address of the header, `size` that of the payload. */
  datatype Block = Block(addr: nat, size: nat, free: bool) {
    function End(): nat {
      addr + HEADER + size
    }
  }

  /** The blocks fill the addresses from `start` to `end`, each beginning where the one before ends. */
  ghost predicate Tiles(bs: seq<Block>, start: nat, end: nat) {
    if bs == [] then start == end
    else bs[0].addr == start && bs[0].size % 8 == 0 && Tiles(bs[1..], bs[0].End(), end)
  }

  ghost predicate NoFreeNeighbours(bs: seq<Block>) {
    forall i :: 0 <= i < |bs| - 1 ==> !(bs[i].free && bs[i + 1].free)
  }

  /** What every reachable heap satisfies. */
  ghost predicate Sound(bs: seq<Block>) {
    Tiles(bs, MEMORY_START, MEMORY_END) && NoFreeNeighbours(bs)
  }

  /** The blocks in use, in address order. */
  function Live(bs: seq<Block>): seq<Block> {
    if bs == [] then [] else if bs[0].free then Live(bs[1..]) else [bs[0]] + Live(bs[1..])
  }

  function Initial(): seq<Block> {
    [Block(MEMORY_START, MEMORY_SIZE - HEADER, true)]
  }

  // ---------- tilings ----------

  lemma {:induction false} TilesBounds(bs: seq<Block>, start: nat, end: nat)
    requires Tiles(bs, start, end)
    ensures start <= end
    ensures forall i :: 0 <= i < |bs| ==> start <= bs[i].addr && bs[i].End() <= end && bs[i].size % 8 == 0
    ensures forall i :: 0 <= i < |bs| - 1 ==> bs[i + 1].addr == bs[i].End()
    ensures if bs == [] then start == end else bs[0].addr == start && bs[|bs| - 1].End() == end
  {
    if bs != [] {
      TilesBounds(bs[1..], bs[0].End(), end);
      forall i | 0 <= i < |bs| - 1 ensures bs[i + 1].addr == bs[i].End() {
        assert bs[i + 1] == bs[1..][i];
        if i > 0 {
          assert bs[i] == bs[1..][i - 1];
        }
      }
    }
  }

  /** Blocks are disjoint. */
  lemma {:induction false} TilesOrdered(bs: seq<Block>, start: nat, end: nat, i: nat, j: nat)
    requires Tiles(bs, start, end) && i < j < |bs|
    ensures bs[i].End() <= bs[j].addr
  {
    if i == 0 {
      TilesBounds(bs[1..], bs[0].End(), end);
    } else {
      TilesOrdered(bs[1..], bs[0].End(), end, i - 1, j - 1);
    }
  }

  lemma {:induction false} TilesAppend(a: seq<Block>, b: seq<Block>, start: nat, mid: nat, end: nat)
    requires Tiles(a, start, mid) && Tiles(b, mid, end)
    ensures Tiles(a + b, start, end)
  {
    if a == [] {
      assert a + b == b;
    } else {
      assert (a + b)[1..] == a[1..] + b;
      TilesAppend(a[1..], b, a[0].End(), mid, end);
    }
  }

  lemma {:induction false} TilesCut(bs: seq<Block>, start: nat, end: nat, i: nat) returns (mid: nat)
    requires Tiles(bs, start, end) && i <= |bs|
    ensures Tiles(bs[..i], start, mid) && Tiles(bs[i..], mid, end)
    ensures i < |bs| ==> mid == bs[i].addr
  {
    if i == 0 {
      mid := start;
      assert bs[..0] == [] && bs[0..] == bs;
    } else {
      mid := TilesCut(bs[1..], bs[0].End(), end, i - 1);
      assert bs[..i][1..] == bs[1..][..i - 1] && bs[i..] == bs[1..][i - 1..];
    }
  }

  /** Replacing the blocks from `i` to `j` by blocks that fill the same addresses. */
  lemma TilesReplace(bs: seq<Block>, start: nat, end: nat, i: nat, j: nat, put: seq<Block>)
    requires Tiles(bs, start, end) && i < j <= |bs| && Tiles(put, bs[i].addr, bs[j - 1].End())
    ensures Tiles(bs[..i] + put + bs[j..], start, end)
  {
    var m := TilesCut(bs, start, end, i);
    var k := TilesCut(bs[i..], m, end, j - i);
    assert bs[i..][j - i..] == bs[j..];
    TilesBounds(bs[i..][..j - i], m, k);
    TilesAppend(bs[..i], put, start, m, k);
    TilesAppend(bs[..i] + put, bs[j..], start, k, end);
  }

  /** Every address of the arena lies in some block. */
  lemma {:induction false} TilesCover(bs: seq<Block>, start: nat, end: nat, a: nat) returns (i: nat)
    requires Tiles(bs, start, end) && start <= a < end
    ensures i < |bs| && bs[i].addr <= a < bs[i].End()
  {
    if a < bs[0].End() {
      i := 0;
    } else {
      i := TilesCover(bs[1..], bs[0].End(), end, a);
      i := i + 1;
    }
  }

  // ---------- the blocks in use determine the heap ----------

  lemma {:induction false} LiveBounds(bs: seq<Block>, start: nat, end: nat)
    requires Tiles(bs, start, end)
    ensures forall i :: 0 <= i < |Live(bs)| ==>
              start <= Live(bs)[i].addr && Live(bs)[i].End() <= end && Live(bs)[i] in bs
  {
    if bs != [] {
      TilesBounds(bs, start, end);
      LiveBounds(bs[1..], bs[0].End(), end);
    }
  }

  lemma {:induction false} LiveAppend(a: seq<Block>, b: seq<Block>)
    ensures Live(a + b) == Live(a) + Live(b)
  {
    if a == [] {
      assert a + b == b;
    } else {
      assert (a + b)[1..] == a[1..] + b;
      LiveAppend(a[1..], b);
    }
  }

  lemma LiveOne(b: Block)
    ensures Live([b]) == if b.free then [] else [b]
  {
    assert [b][1..] == [];
  }

  lemma LiveReplace(bs: seq<Block>, i: nat, j: nat, put: seq<Block>)
    requires i <= j <= |bs|
    ensures Live(bs[..i] + put + bs[j..]) == Live(bs[..i]) + Live(put) + Live(bs[j..])
    ensures Live(bs) == Live(bs[..i]) + Live(bs[i..j]) + Live(bs[j..])
  {
    LiveAppend(bs[..i] + put, bs[j..]);
    LiveAppend(bs[..i], put);
    assert bs == bs[..i] + bs[i..j] + bs[j..];
    LiveAppend(bs[..i] + bs[i..j], bs[j..]);
    LiveAppend(bs[..i], bs[i..j]);
  }

  lemma LiveMember(bs: seq<Block>, b: Block)
    ensures b in Live(bs) <==> b in bs && !b.free
  {
    if bs != [] {
      LiveMember(bs[1..], b);
      assert bs == [bs[0]] + bs[1..];
    }
  }

  lemma TailKeepsGaps(bs: seq<Block>)
    requires bs != [] && NoFreeNeighbours(bs)
    ensures NoFreeNeighbours(bs[1..])
  {
    forall i | 0 <= i < |bs[1..]| - 1 ensures !(bs[1..][i].free && bs[1..][i + 1].free) {
      assert !(bs[i + 1].free && bs[i + 2].free);
    }
  }

  /** Two tilings of the same range without free neighbours that have the same blocks in use are equal. */
  lemma {:induction false} LiveDetermines(a: seq<Block>, b: seq<Block>, start: nat, end: nat)
    requires Tiles(a, start, end) && Tiles(b, start, end)
    requires NoFreeNeighbours(a) && NoFreeNeighbours(b) && Live(a) == Live(b)
    ensures a == b
    decreases |a|
  {
    TilesBounds(a, start, end);
    TilesBounds(b, start, end);
    if a != [] && b != [] {
      TailKeepsGaps(a);
      TailKeepsGaps(b);
      SameHead(a, b, start, end);
      LiveDetermines(a[1..], b[1..], a[0].End(), end);
      assert a == [a[0]] + a[1..] && b == [b[0]] + b[1..];
    }
  }

  lemma SameHead(a: seq<Block>, b: seq<Block>, start: nat, end: nat)
    requires a != [] && b != [] && Tiles(a, start, end) && Tiles(b, start, end)
    requires NoFreeNeighbours(a) && NoFreeNeighbours(b) && Live(a) == Live(b)
    ensures a[0] == b[0] && Live(a[1..]) == Live(b[1..])
  {
    if a[0].free {
      FreeHeadEnd(a, start, end);
    } else {
      assert Live(a)[0] == a[0] && Live(a)[1..] == Live(a[1..]);
    }
    if b[0].free {
      FreeHeadEnd(b, start, end);
    } else {
      assert Live(b)[0] == b[0] && Live(b)[1..] == Live(b[1..]);
    }
  }

  /** A free first block ends where the first block in use begins. */
  lemma FreeHeadEnd(a: seq<Block>, start: nat, end: nat)
    requires a != [] && a[0].free && Tiles(a, start, end) && NoFreeNeighbours(a)
    ensures a[0].End() == if Live(a) == [] then end else Live(a)[0].addr
  {
    if |a| > 1 {
      assert !a[1].free;
      assert a[1..][0] == a[1];
    }
  }
}
