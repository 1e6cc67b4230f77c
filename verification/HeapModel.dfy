/** kmalloc and kfree on the list of blocks, and what holds of them over every run. */
module HeapModel {
  import opened Bytes
  import opened Blocks

  /** Sizes are rounded up to a multiple of 8; the largest wrap around to 0. */
  function Rounded(size: nat): nat {
    (if size % 8 != 0 then size + (8 - size % 8) else size) % TWO_64
  }

  lemma RoundedEven(size: nat)
    ensures Rounded(size) % 8 == 0
  {
  }

  lemma RoundedIs(size: nat)
    requires size < TWO_64
    ensures Rounded(size) % 8 == 0
    ensures if size <= TWO_64 - 8 then size <= Rounded(size) < size + 8 else Rounded(size) == 0
  {
  }

  /** The first free block that is big enough, or the number of blocks if there is none. */
  function FirstFit(bs: seq<Block>, n: nat): (i: nat)
    ensures i <= |bs| && (i < |bs| ==> bs[i].free && bs[i].size >= n)
    ensures forall j :: 0 <= j < i ==> !(bs[j].free && bs[j].size >= n)
  {
    if bs == [] then 0 else if bs[0].free && bs[0].size >= n then 0 else 1 + FirstFit(bs[1..], n)
  }

  /** The search stops at the first block that fits. */
  lemma FirstFitIs(bs: seq<Block>, n: nat, i: nat)
    requires i <= |bs| && (i < |bs| ==> bs[i].free && bs[i].size >= n)
    requires forall j :: 0 <= j < i ==> !(bs[j].free && bs[j].size >= n)
    ensures FirstFit(bs, n) == i
  {
  }

  /** The blocks that take the place of free block `b` when `n` bytes of it are allocated. */
  function Carved(b: Block, n: nat): (r: seq<Block>)
    requires n <= b.size
    ensures r != []
  {
    if b.size > n + HEADER + BLOCK_SIZE then
      [Block(b.addr, n, false), Block(b.addr + HEADER + n, b.size - n - HEADER, true)]
    else
      [b.(free := false)]
  }

  /** The heap after kmalloc of a rounded size. */
  function Allocate(bs: seq<Block>, n: nat): seq<Block> {
    var i := FirstFit(bs, n);
    if i == |bs| then bs else bs[..i] + Carved(bs[i], n) + bs[i + 1..]
  }

  function Merge(bs: seq<Block>, i: nat): (r: seq<Block>)
    requires i + 1 < |bs|
    ensures |r| == |bs| - 1
  {
    bs[..i] + [Block(bs[i].addr, bs[i].size + HEADER + bs[i + 1].size, bs[i].free)] + bs[i + 2..]
  }

  /** The merging loop of kfree, from block `i` on. */
  function Coalesce(bs: seq<Block>, i: nat): seq<Block>
    requires i <= |bs|
    decreases |bs| - i
  {
    if i + 1 >= |bs| then bs
    else if bs[i].free && bs[i + 1].free then Coalesce(Merge(bs, i), i)
    else Coalesce(bs, i + 1)
  }

  function IndexOf(bs: seq<Block>, addr: nat): (i: nat)
    ensures i <= |bs| && (i < |bs| ==> bs[i].addr == addr)
    ensures forall j :: 0 <= j < i ==> bs[j].addr != addr
  {
    if bs == [] || bs[0].addr == addr then 0 else 1 + IndexOf(bs[1..], addr)
  }

  /** The block whose header is at `addr` is in use. */
  predicate InUse(bs: seq<Block>, addr: nat) {
    var i := IndexOf(bs, addr);
    i < |bs| && !bs[i].free
  }

  /** The heap after kfree of the payload behind the header at `addr`. */
  function Release(bs: seq<Block>, addr: nat): seq<Block>
    requires InUse(bs, addr)
  {
    var i := IndexOf(bs, addr);
    Coalesce(bs[i := bs[i].(free := true)], 0)
  }

  // ---------- every step keeps the heap sound ----------

  lemma AllocateSound(bs: seq<Block>, n: nat)
    requires Sound(bs) && n % 8 == 0
    ensures Sound(Allocate(bs, n))
  {
    var i := FirstFit(bs, n);
    if i < |bs| {
      var put := Carved(bs[i], n);
      TilesBounds(bs, MEMORY_START, MEMORY_END);
      if |put| == 2 {
        assert put[1..] == [put[1]];
      }
      TilesReplace(bs, MEMORY_START, MEMORY_END, i, i + 1, put);
      var r := bs[..i] + put + bs[i + 1..];
      forall k | 0 <= k < |r| - 1 ensures !(r[k].free && r[k + 1].free) {
        if k + 1 < i {
          assert r[k] == bs[k] && r[k + 1] == bs[k + 1];
        } else if k >= i + |put| {
          assert r[k] == bs[k - |put| + 1] && r[k + 1] == bs[k - |put| + 2];
        } else if k == i + |put| - 1 {
          assert r[k + 1] == bs[i + 1];
        }
      }
    }
  }

  lemma CarvedLive(b: Block, n: nat)
    requires n <= b.size
    ensures var c := Carved(b, n)[0];
            !c.free && c.addr == b.addr && n <= c.size <= n + HEADER + BLOCK_SIZE && Live(Carved(b, n)) == [c]
  {
    var put := Carved(b, n);
    LiveOne(put[0]);
    if |put| == 2 {
      LiveOne(put[1]);
      LiveAppend([put[0]], [put[1]]);
      assert put == [put[0]] + [put[1]];
    }
  }

  /** kmalloc adds exactly one block to those in use; it begins where a free block began and has the size asked for. */
  lemma AllocateLive(bs: seq<Block>, n: nat) returns (c: Block)
    requires FirstFit(bs, n) < |bs|
    ensures var i := FirstFit(bs, n);
            !c.free && c.addr == bs[i].addr && n <= c.size <= n + HEADER + BLOCK_SIZE
            && Live(Allocate(bs, n)) == Live(bs[..i]) + [c] + Live(bs[i + 1..])
            && Live(bs) == Live(bs[..i]) + Live(bs[i + 1..])
  {
    hide Live, Carved;
    var i := FirstFit(bs, n);
    CarvedLive(bs[i], n);
    c := Carved(bs[i], n)[0];
    LiveReplace(bs, i, i + 1, Carved(bs[i], n));
    assert bs[i..i + 1] == [bs[i]];
    LiveOne(bs[i]);
  }

  /**
   * Where kmalloc cuts the block that it has found, it takes exactly the size asked for and leaves a free block of more
   * than BLOCK_SIZE bytes directly behind; it cuts exactly when so much would be left, and otherwise takes the block as
   * it is. No other block changes.
   */
  lemma CutExactly(bs: seq<Block>, n: nat)
    requires FirstFit(bs, n) < |bs|
    ensures var i, after := FirstFit(bs, n), Allocate(bs, n);
            var b := bs[i];
            if b.size - n - HEADER > BLOCK_SIZE then
              && |after| == |bs| + 1 && after[..i] == bs[..i] && after[i + 2..] == bs[i + 1..]
              && after[i] == b.(size := n, free := false)
              && after[i + 1].free && after[i + 1].addr == after[i].End() && after[i + 1].End() == b.End()
              && after[i + 1].size > BLOCK_SIZE
            else
              |after| == |bs| && after[..i] == bs[..i] && after[i + 1..] == bs[i + 1..] && after[i] == b.(free := false)
  {
    var i := FirstFit(bs, n);
    var put := Carved(bs[i], n);
    var after := Allocate(bs, n);
    assert after == bs[..i] + put + bs[i + 1..];
    assert after[i + |put|..] == bs[i + 1..];
  }

  lemma MergeKeeps(bs: seq<Block>, i: nat, start: nat, end: nat)
    requires i + 1 < |bs| && bs[i].free && bs[i + 1].free && Tiles(bs, start, end)
    ensures Tiles(Merge(bs, i), start, end) && Live(Merge(bs, i)) == Live(bs)
  {
    hide Live;
    var put := Merge(bs, i)[i];
    TilesBounds(bs, start, end);
    assert Tiles([put][1..], put.End(), put.End());
    TilesReplace(bs, start, end, i, i + 2, [put]);
    LiveReplace(bs, i, i + 2, [put]);
    assert bs[i..i + 2] == [bs[i]] + [bs[i + 1]];
    LiveAppend([bs[i]], [bs[i + 1]]);
    LiveOne(bs[i]);
    LiveOne(bs[i + 1]);
    LiveOne(put);
  }

  /** One pass of merging leaves no free neighbours and keeps every block in use. */
  lemma {:induction false} CoalesceKeeps(bs: seq<Block>, i: nat, start: nat, end: nat)
    requires i <= |bs| && Tiles(bs, start, end)
    requires forall k :: 0 <= k < i && k + 1 < |bs| ==> !(bs[k].free && bs[k + 1].free)
    ensures Tiles(Coalesce(bs, i), start, end) && Live(Coalesce(bs, i)) == Live(bs)
    ensures NoFreeNeighbours(Coalesce(bs, i))
    decreases |bs| - i
  {
    if i + 1 < |bs| {
      if bs[i].free && bs[i + 1].free {
        MergeKeeps(bs, i, start, end);
        CoalesceKeeps(Merge(bs, i), i, start, end);
      } else {
        CoalesceKeeps(bs, i + 1, start, end);
      }
    }
  }

  lemma {:induction false} IndexOfUnique(bs: seq<Block>, start: nat, end: nat, i: nat)
    requires Tiles(bs, start, end) && i < |bs|
    ensures IndexOf(bs, bs[i].addr) == i
  {
    if IndexOf(bs, bs[i].addr) < i {
      TilesOrdered(bs, start, end, IndexOf(bs, bs[i].addr), i);
    }
  }

  lemma MarkKeepsTiles(bs: seq<Block>, i: nat, start: nat, end: nat)
    requires Tiles(bs, start, end) && i < |bs|
    ensures Tiles(bs[i := bs[i].(free := true)], start, end)
  {
    var put := [bs[i].(free := true)];
    TilesBounds(bs, start, end);
    assert Tiles(put[1..], put[0].End(), put[0].End());
    TilesReplace(bs, start, end, i, i + 1, put);
    assert bs[i := put[0]] == bs[..i] + put + bs[i + 1..];
  }

  /** kfree takes exactly its own block out of those in use and leaves a sound heap. */
  lemma ReleaseSound(bs: seq<Block>, addr: nat)
    requires Sound(bs) && InUse(bs, addr)
    ensures Sound(Release(bs, addr))
    ensures var i := IndexOf(bs, addr);
            Live(Release(bs, addr)) == Live(bs[..i]) + Live(bs[i + 1..])
            && Live(bs) == Live(bs[..i]) + [bs[i]] + Live(bs[i + 1..])
  {
    hide Live, Tiles, Coalesce;
    var i := IndexOf(bs, addr);
    var b := bs[i].(free := true);
    MarkKeepsTiles(bs, i, MEMORY_START, MEMORY_END);
    CoalesceKeeps(bs[i := b], 0, MEMORY_START, MEMORY_END);
    assert bs[i := b] == bs[..i] + [b] + bs[i + 1..] && bs[i..i + 1] == [bs[i]];
    LiveReplace(bs, i, i + 1, [b]);
    LiveOne(bs[i]);
    LiveOne(b);
  }

  // ---------- what one call undoes, and in which order calls may come ----------

  /** Freeing what was just allocated gives back the very heap there was. */
  lemma ReleaseUndoesAllocate(bs: seq<Block>, n: nat)
    requires Sound(bs) && n % 8 == 0 && FirstFit(bs, n) < |bs|
    ensures var addr := bs[FirstFit(bs, n)].addr;
            InUse(Allocate(bs, n), addr) && Release(Allocate(bs, n), addr) == bs
  {
    hide Live, Tiles, Coalesce, NoFreeNeighbours, Carved;
    var i := FirstFit(bs, n);
    var after := Allocate(bs, n);
    AllocateSound(bs, n);
    CarvedLive(bs[i], n);
    assert after[i] == Carved(bs[i], n)[0];
    IndexOfUnique(after, MEMORY_START, MEMORY_END, i);
    ReleaseSound(after, bs[i].addr);
    var c := AllocateLive(bs, n);
    assert after[..i] == bs[..i];
    LiveReplace(after, i, i + 1, []);
    assert after[i..i + 1] == [after[i]];
    LiveOne(after[i]);
    var rest := Carved(bs[i], n)[1..];
    assert after[i + 1..] == rest + bs[i + 1..];
    assert Live(rest) == [] by { CarvedRest(bs[i], n); }
    LiveAppend(rest, bs[i + 1..]);
    LiveDetermines(Release(after, bs[i].addr), bs, MEMORY_START, MEMORY_END);
  }

  lemma CarvedRest(b: Block, n: nat)
    requires n <= b.size
    ensures Live(Carved(b, n)[1..]) == []
  {
    var rest := Carved(b, n)[1..];
    if rest != [] {
      assert rest == [rest[0]];
      LiveOne(rest[0]);
    }
  }

  /** The blocks of a list other than the one at `addr`. */
  function Without(live: seq<Block>, addr: nat): seq<Block> {
    if live == [] then [] else (if live[0].addr == addr then [] else [live[0]]) + Without(live[1..], addr)
  }

  ghost function Addresses(live: seq<Block>): set<nat> {
    set b | b in live :: b.addr
  }

  lemma {:induction false} WithoutAppend(a: seq<Block>, b: seq<Block>, addr: nat)
    ensures Without(a + b, addr) == Without(a, addr) + Without(b, addr)
  {
    if a == [] {
      assert a + b == b;
    } else {
      assert (a + b)[1..] == a[1..] + b;
      WithoutAppend(a[1..], b, addr);
    }
  }

  lemma {:induction false} WithoutAbsent(a: seq<Block>, addr: nat)
    requires forall b :: b in a ==> b.addr != addr
    ensures Without(a, addr) == a
  {
    if a != [] {
      WithoutAbsent(a[1..], addr);
    }
  }

  lemma {:induction false} WithoutAddresses(a: seq<Block>, addr: nat)
    ensures Addresses(Without(a, addr)) == Addresses(a) - {addr}
  {
    if a != [] {
      WithoutAddresses(a[1..], addr);
      assert a == [a[0]] + a[1..];
      assert Addresses(a) == {a[0].addr} + Addresses(a[1..]);
      if a[0].addr != addr {
        assert Without(a, addr) == [a[0]] + Without(a[1..], addr);
        assert Addresses(Without(a, addr)) == {a[0].addr} + Addresses(Without(a[1..], addr));
      } else {
        assert Without(a, addr) == Without(a[1..], addr);
      }
    }
  }

  lemma {:induction false} WithoutCommutes(live: seq<Block>, a: nat, b: nat)
    ensures Without(Without(live, a), b) == Without(Without(live, b), a)
  {
    if live != [] {
      var h := if live[0].addr == a then [] else [live[0]];
      var k := if live[0].addr == b then [] else [live[0]];
      WithoutAppend(h, Without(live[1..], a), b);
      WithoutAppend(k, Without(live[1..], b), a);
      WithoutCommutes(live[1..], a, b);
    }
  }

  /** kfree takes away the block at its address and no other. */
  lemma ReleaseLive(bs: seq<Block>, addr: nat)
    requires Sound(bs) && InUse(bs, addr)
    ensures Live(Release(bs, addr)) == Without(Live(bs), addr)
  {
    hide Live, Release, Tiles, NoFreeNeighbours;
    var i := IndexOf(bs, addr);
    ReleaseSound(bs, addr);
    OthersElsewhere(bs, i);
    WithoutMiddle(Live(bs[..i]), bs[i], Live(bs[i + 1..]));
  }

  lemma {:induction false} WithoutMiddle(l: seq<Block>, b: Block, r: seq<Block>)
    requires (forall c :: c in l ==> c.addr != b.addr) && (forall c :: c in r ==> c.addr != b.addr)
    ensures Without(l + [b] + r, b.addr) == l + r
  {
    var all := l + [b] + r;
    if l == [] {
      assert all[1..] == r;
      WithoutAbsent(r, b.addr);
    } else {
      assert all[1..] == l[1..] + [b] + r;
      WithoutMiddle(l[1..], b, r);
      assert [l[0]] + (l[1..] + r) == l + r;
    }
  }

  lemma OthersElsewhere(bs: seq<Block>, i: nat)
    requires Sound(bs) && i < |bs|
    ensures forall b :: b in Live(bs[..i]) ==> b.addr != bs[i].addr
    ensures forall b :: b in Live(bs[i + 1..]) ==> b.addr != bs[i].addr
  {
    hide Live, Tiles, NoFreeNeighbours;
    forall b | b in Live(bs[..i]) ensures b.addr != bs[i].addr {
      LiveMember(bs[..i], b);
      var j :| 0 <= j < |bs[..i]| && bs[..i][j] == b;
      TilesOrdered(bs, MEMORY_START, MEMORY_END, j, i);
    }
    forall b | b in Live(bs[i + 1..]) ensures b.addr != bs[i].addr {
      LiveMember(bs[i + 1..], b);
      var j :| 0 <= j < |bs[i + 1..]| && bs[i + 1..][j] == b;
      TilesOrdered(bs, MEMORY_START, MEMORY_END, i, i + 1 + j);
    }
  }

  /** A block is in use exactly when its address is among those of the blocks in use. */
  lemma InUseIffLive(bs: seq<Block>, addr: nat)
    requires Sound(bs)
    ensures InUse(bs, addr) <==> addr in Addresses(Live(bs))
  {
    hide Live, Tiles;
    if InUse(bs, addr) {
      LiveMember(bs, bs[IndexOf(bs, addr)]);
    }
    if b :| b in Live(bs) && b.addr == addr {
      LiveMember(bs, b);
      var i :| 0 <= i < |bs| && bs[i] == b;
      IndexOfUnique(bs, MEMORY_START, MEMORY_END, i);
    }
  }

  /** The order of two calls to kfree makes no difference to the heap. */
  lemma ReleaseCommutes(bs: seq<Block>, a: nat, b: nat)
    requires Sound(bs) && InUse(bs, a) && InUse(bs, b) && a != b
    ensures InUse(Release(bs, a), b) && InUse(Release(bs, b), a)
    ensures Release(Release(bs, a), b) == Release(Release(bs, b), a)
  {
    hide Live, Release, Tiles, InUse, Without;
    var x, y := Release(bs, a), Release(bs, b);
    ReleaseSound(bs, a);
    ReleaseSound(bs, b);
    ReleaseLive(bs, a);
    ReleaseLive(bs, b);
    WithoutAddresses(Live(bs), a);
    WithoutAddresses(Live(bs), b);
    InUseIffLive(bs, a);
    InUseIffLive(bs, b);
    InUseIffLive(x, b);
    InUseIffLive(y, a);
    ReleaseSound(x, b);
    ReleaseSound(y, a);
    ReleaseLive(x, b);
    ReleaseLive(y, a);
    WithoutCommutes(Live(bs), a, b);
    LiveDetermines(Release(x, b), Release(y, a), MEMORY_START, MEMORY_END);
  }

  // ---------- runs ----------

  datatype Call = Malloc(size: nat) | Free(addr: nat)

  /** Callers free only blocks that are in use. */
  predicate Possible(bs: seq<Block>, c: Call) {
    c.Malloc? || InUse(bs, c.addr)
  }

  function After(bs: seq<Block>, c: Call): seq<Block>
    requires Possible(bs, c)
  {
    match c
    case Malloc(size) => if size == 0 then bs else Allocate(bs, Rounded(size))
    case Free(addr) => Release(bs, addr)
  }

  /** The calls lead from one heap to the other. */
  ghost predicate Leads(bs: seq<Block>, calls: seq<Call>, end: seq<Block>)
    decreases calls
  {
    if calls == [] then end == bs else Possible(bs, calls[0]) && Leads(After(bs, calls[0]), calls[1..], end)
  }

  /** Every heap that any run of calls leads to is sound. */
  lemma {:induction false} RunsStaySound(bs: seq<Block>, calls: seq<Call>, end: seq<Block>)
    requires Sound(bs) && Leads(bs, calls, end)
    ensures Sound(end)
    decreases calls
  {
    if calls != [] {
      match calls[0] {
        case Malloc(size) => RoundedEven(size); AllocateSound(bs, Rounded(size));
        case Free(addr) => ReleaseSound(bs, addr);
      }
      RunsStaySound(After(bs, calls[0]), calls[1..], end);
    }
  }

  /**
   * What a call does to the blocks in use: kmalloc of a size other than 0 adds one, where the first free block that is
   * big enough began, exactly if there is such a block; kfree takes its own away.
   */
  lemma CallsChangeLive(bs: seq<Block>, c: Call)
    requires Sound(bs) && Possible(bs, c)
    ensures c.Malloc? ==>
              var i := FirstFit(bs, Rounded(c.size));
              if c.size == 0 || i == |bs| then After(bs, c) == bs
              else |Live(After(bs, c))| == |Live(bs)| + 1 && InUse(After(bs, c), bs[i].addr)
    ensures c.Free? ==> Live(After(bs, c)) == Without(Live(bs), c.addr)
  {
    if c.Free? {
      ReleaseLive(bs, c.addr);
    } else if FirstFit(bs, Rounded(c.size)) < |bs| {
      NewlyInUse(bs, Rounded(c.size));
      RoundedEven(c.size);
    }
    hide Live, Tiles, NoFreeNeighbours, Rounded, FirstFit, Without, Carved, InUse;
  }

  lemma NewlyInUse(bs: seq<Block>, n: nat)
    requires Sound(bs) && FirstFit(bs, n) < |bs| && n % 8 == 0
    ensures |Live(Allocate(bs, n))| == |Live(bs)| + 1 && InUse(Allocate(bs, n), bs[FirstFit(bs, n)].addr)
  {
    hide Live, Tiles, Carved, NoFreeNeighbours;
    var i := FirstFit(bs, n);
    var after := Allocate(bs, n);
    var c := AllocateLive(bs, n);
    AllocateSound(bs, n);
    CarvedLive(bs[i], n);
    assert after[i] == Carved(bs[i], n)[0];
    IndexOfUnique(after, MEMORY_START, MEMORY_END, i);
  }

  lemma {:induction false} TilesAligned(bs: seq<Block>, start: nat, end: nat)
    requires Tiles(bs, start, end) && start % 8 == 0
    ensures forall i :: 0 <= i < |bs| ==> bs[i].addr % 8 == 0
  {
    if bs != [] {
      TilesAligned(bs[1..], bs[0].End(), end);
    }
  }

  lemma InitialSound()
    ensures Sound(Initial()) && Live(Initial()) == []
  {
    assert Initial()[1..] == [];
  }

  function Frees(order: seq<nat>): (calls: seq<Call>)
    ensures |calls| == |order|
  {
    seq(|order|, i requires 0 <= i < |order| => Free(order[i]))
  }

  /** Freeing all blocks in use, in any order, leads to the single block that memory_init makes. */
  lemma {:induction false} FreeingAllIsInitial(bs: seq<Block>, order: seq<nat>)
    requires Sound(bs)
    requires forall a :: a in order <==> a in Addresses(Live(bs))
    requires forall i, j :: 0 <= i < j < |order| ==> order[i] != order[j]
    ensures Leads(bs, Frees(order), Initial())
    decreases order
  {
    hide Live, Release, Tiles, InUse, Without, NoFreeNeighbours;
    if order == [] {
      InitialSound();
      assert Live(bs) == [] by {
        if Live(bs) != [] {
          assert Live(bs)[0].addr in Addresses(Live(bs));
        }
      }
      LiveDetermines(bs, Initial(), MEMORY_START, MEMORY_END);
    } else {
      var a := order[0];
      InUseIffLive(bs, a);
      ReleaseSound(bs, a);
      ReleaseLive(bs, a);
      WithoutAddresses(Live(bs), a);
      assert forall x :: x in order <==> x == a || x in order[1..];
      FreeingAllIsInitial(Release(bs, a), order[1..]);
      assert Frees(order)[1..] == Frees(order[1..]);
    }
  }

  // ---------- when an allocation can succeed at all ----------

  /** A header and `n` bytes fit at address `lo` without touching a block in use. */
  ghost predicate RoomAt(live: seq<Block>, lo: nat, n: nat) {
    && MEMORY_START <= lo && lo + HEADER + n <= MEMORY_END
    && forall b :: b in live ==> b.End() <= lo || lo + HEADER + n <= b.addr
  }

  /** kmalloc fails only when no place in the whole arena could hold the block. */
  lemma FailsOnlyWithoutRoom(bs: seq<Block>, n: nat, lo: nat)
    requires Sound(bs) && FirstFit(bs, n) == |bs|
    ensures !RoomAt(Live(bs), lo, n)
  {
    hide Live, Tiles;
    if RoomAt(Live(bs), lo, n) {
      var k := TilesCover(bs, MEMORY_START, MEMORY_END, lo);
      TilesBounds(bs, MEMORY_START, MEMORY_END);
      LiveMember(bs, bs[k]);
      if k + 1 < |bs| {
        LiveMember(bs, bs[k + 1]);
      }
    }
  }

  /** And where kmalloc finds a block there is such a place: the block it takes. */
  lemma FitsWhereFound(bs: seq<Block>, n: nat)
    requires Sound(bs) && FirstFit(bs, n) < |bs|
    ensures RoomAt(Live(bs), bs[FirstFit(bs, n)].addr, n)
  {
    hide Live, Tiles;
    var i := FirstFit(bs, n);
    TilesBounds(bs, MEMORY_START, MEMORY_END);
    forall b | b in Live(bs) ensures b.End() <= bs[i].addr || bs[i].End() <= b.addr {
      LiveMember(bs, b);
      var j :| 0 <= j < |bs| && bs[j] == b;
      if j < i {
        TilesOrdered(bs, MEMORY_START, MEMORY_END, j, i);
      } else {
        TilesOrdered(bs, MEMORY_START, MEMORY_END, i, j);
      }
    }
  }
}
