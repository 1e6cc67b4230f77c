/** Physical memory and the page calls as the kernel keeps them: a bitmap, frames and counters updated in place. */
module Paging {
  import opened Bytes
  import opened PageTables
  import opened PageCalls
  import opened KernelPages
  import opened UserPages
  import opened UserPointers

  // ---------- the bitmap ----------

  /** `1 << k` in a byte. */
  function Mask(k: nat): bv8
    requires k < 8
  {
    if k == 0 then 0x01 else if k == 1 then 0x02 else if k == 2 then 0x04 else if k == 3 then 0x08
    else if k == 4 then 0x10 else if k == 5 then 0x20 else if k == 6 then 0x40 else 0x80
  }

  /** `byte & mask` is not zero. */
  predicate Hit(b: bv8, mask: bv8) {
    b & mask != 0
  }

  function With(b: bv8, mask: bv8): bv8 {
    b | mask
  }

  function Without(b: bv8, mask: bv8): bv8 {
    b & !mask
  }

  predicate BitIn(b: bv8, k: nat)
    requires k < 8
  {
    Hit(b, Mask(k))
  }

  lemma MasksDiffer(k: nat, j: nat)
    requires k < 8 && j < 8
    ensures Mask(k) != 0 && (k != j ==> Mask(k) & Mask(j) == 0)
  {
  }

  lemma OtherBits(b: bv8, m: bv8, n: bv8)
    requires m & n == 0
    ensures Hit(With(b, m), n) == Hit(b, n) && Hit(Without(b, m), n) == Hit(b, n)
  {
    assert (b | m) & n == b & n;
    assert (b & !m) & n == b & n;
  }

  lemma ThatBit(b: bv8, m: bv8)
    requires m != 0
    ensures Hit(With(b, m), m) && !Hit(Without(b, m), m)
  {
    assert (b | m) & m == m;
    assert (b & !m) & m == 0;
  }

  lemma MasksApart(b: bv8, k: nat, j: nat)
    requires k < 8 && j < 8
    ensures BitIn(With(b, Mask(k)), j) <==> j == k || BitIn(b, j)
    ensures BitIn(Without(b, Mask(k)), j) <==> j != k && BitIn(b, j)
  {
    hide Mask, Hit, With, Without;
    MasksDiffer(k, j);
    if j == k {
      ThatBit(b, Mask(k));
    } else {
      OtherBits(b, Mask(k), Mask(j));
    }
  }

  predicate BitSet(bitmap: seq<bv8>, i: nat)
    requires i < 8 * |bitmap|
  {
    BitIn(bitmap[i / 8], i % 8)
  }

  ghost function UsedOf(bitmap: seq<bv8>): set<nat> {
    set i: nat | i < 8 * |bitmap| && BitSet(bitmap, i)
  }

  /** The bits after one bit of a byte is set or cleared. */
  lemma BitAfter(bitmap: seq<bv8>, i: nat, j: nat)
    requires i < 8 * |bitmap| && j < 8 * |bitmap|
    ensures BitSet(bitmap[i / 8 := With(bitmap[i / 8], Mask(i % 8))], j) <==> j == i || BitSet(bitmap, j)
    ensures BitSet(bitmap[i / 8 := Without(bitmap[i / 8], Mask(i % 8))], j) <==> j != i && BitSet(bitmap, j)
  {
    hide BitIn, Mask, With, Without;
    MasksApart(bitmap[i / 8], i % 8, j % 8);
  }

  /** It changes the set of used frames by that frame. */
  lemma BitChanges(bitmap: seq<bv8>, i: nat)
    requires i < 8 * |bitmap|
    ensures UsedOf(bitmap[i / 8 := With(bitmap[i / 8], Mask(i % 8))]) == UsedOf(bitmap) + {i}
    ensures UsedOf(bitmap[i / 8 := Without(bitmap[i / 8], Mask(i % 8))]) == UsedOf(bitmap) - {i}
  {
    hide BitSet, BitIn, Mask, With, Without;
    var on := bitmap[i / 8 := With(bitmap[i / 8], Mask(i % 8))];
    var off := bitmap[i / 8 := Without(bitmap[i / 8], Mask(i % 8))];
    forall j: nat | j < 8 * |bitmap|
      ensures BitSet(on, j) <==> j == i || BitSet(bitmap, j)
      ensures BitSet(off, j) <==> j != i && BitSet(bitmap, j)
    {
      BitAfter(bitmap, i, j);
    }
  }

  lemma WalkUnfolds(m: Memory, t: nat, p: Page, level: nat, alloc: bool, flags: set<Flag>)
    requires 1 < level <= 4
    ensures var r := NextTable(m, t, At(p, level), alloc, flags);
            WalkFrom(m, t, p, level, alloc, flags)
            == if r.frame.None? then r
               else if level == 2 then r
               else WalkFrom(r.memory, r.frame.value, p, level - 1, alloc, flags)
  {
    hide NextTable;
  }

  lemma InUse(bitmap: seq<bv8>, i: nat)
    ensures i in UsedOf(bitmap) <==> i < 8 * |bitmap| && BitSet(bitmap, i)
  {
  }

  /** The frames below a number. */
  ghost function FirstFrames(n: nat): (s: set<nat>)
    ensures forall i: nat :: i in s <==> i < n
  {
    if n == 0 then {} else FirstFrames(n - 1) + {n - 1}
  }

  class PageManager {
    const bitmap: array<bv8>
    const frames: array<Table>
    var freeMemory: nat
    var usedMemory: nat
    var pml4: nat
    var kernelHeap: nat
    ghost var roots: set<nat>

    /** Frame 0 is in use: the code could not tell its address from NULL. */
    ghost predicate Valid()
      reads this, bitmap
    {
      frames.Length == 8 * bitmap.Length && bitmap.Length > 0 && BitSet(bitmap[..], 0)
    }

    ghost function M(): Memory
      reads this, bitmap, frames
    {
      Memory(UsedOf(bitmap[..]), frames[..], freeMemory, usedMemory)
    }

    ghost function X(): Machine
      reads this, bitmap, frames
    {
      Machine(M(), pml4, kernelHeap, roots)
    }

    /** A bitmap with the first `reserved` frames marked, as paging_init marks those of the kernel and of the bitmap. */
    constructor (bytes: nat, reserved: nat, free: nat, used: nat, root: nat)
      requires 0 < reserved <= 8 * bytes
      ensures Valid() && fresh(bitmap) && fresh(frames) && frames.Length == 8 * bytes
      ensures M() == Memory(FirstFrames(reserved), seq(8 * bytes, _ => Zeroed()), free, used)
      ensures pml4 == root && kernelHeap == KERNEL_BASE && roots == {}
    {
      bitmap := new bv8[bytes](_ => 0);
      frames := new Table[8 * bytes](_ => Zeroed());
      freeMemory, usedMemory, pml4, kernelHeap, roots := free, used, root, KERNEL_BASE, {};
      new;
      assert forall i: nat :: i < 8 * bytes ==> bitmap[i / 8] == 0;
      assert UsedOf(bitmap[..]) == {};
      assert frames[..] == seq(8 * bytes, _ => Zeroed());
      hide BitSet, UsedOf;
      MarkFirst(reserved);
      InUse(bitmap[..], 0);
    }

    /** The loop that marks the first frames of an empty bitmap. */
    method MarkFirst(n: nat)
      requires UsedOf(bitmap[..]) == {} && n <= 8 * bitmap.Length
      modifies bitmap
      ensures UsedOf(bitmap[..]) == FirstFrames(n)
    {
      hide BitSet, With, Mask, UsedOf;
      var i := 0;
      while i < n
        invariant i <= n && UsedOf(bitmap[..]) == FirstFrames(i)
      {
        ghost var bits := bitmap[..];
        BitChanges(bits, i);
        bitmap[i / 8] := With(bitmap[i / 8], Mask(i % 8));
        assert bitmap[..] == bits[i / 8 := With(bits[i / 8], Mask(i % 8))];
        i := i + 1;
      }
    }

    /** pmm_alloc_page */
    method PmmAllocPage() returns (ok: bool, frame: nat)
      requires Valid()
      modifies this`freeMemory, this`usedMemory, bitmap, frames
      ensures Valid() && M() == AllocPage(old(M())).memory
      ensures AllocPage(old(M())).frame == if ok then Some(frame) else None
      ensures if ok then frame != 0 else M() == old(M())
    {
      ghost var m := M();
      var i := 0;
      while i < bitmap.Length * 8
        invariant i <= 8 * bitmap.Length && M() == m
        invariant FirstClear(m.used, 0, |m.tables|) == FirstClear(m.used, i, |m.tables|)
      {
        if !BitSet(bitmap[..], i) {
          Take(i);
          return true, i;
        }
        i := i + 1;
      }
      return false, 0;
    }

    /** Mark a frame, move the counters and zero it. */
    method Take(i: nat)
      requires Valid() && i < frames.Length
      modifies this`freeMemory, this`usedMemory, bitmap, frames
      ensures Valid()
      ensures M() == Memory(old(M()).used + {i}, old(M()).tables[i := Zeroed()],
                            Wrap(old(M()).freeMemory - PAGE_SIZE), Wrap(old(M()).usedMemory + PAGE_SIZE))
    {
      hide UsedOf, BitSet, Zeroed, Wrap;
      ghost var bits := bitmap[..];
      BitChanges(bits, i);
      BitAfter(bits, i, 0);
      bitmap[i / 8] := With(bitmap[i / 8], Mask(i % 8));
      assert bitmap[..] == bits[i / 8 := With(bits[i / 8], Mask(i % 8))];
      freeMemory := Wrap(freeMemory - PAGE_SIZE);
      usedMemory := Wrap(usedMemory + PAGE_SIZE);
      frames[i] := Zeroed();
    }

    /** pmm_free_page; no frame beyond the bitmap is in use, and no caller frees the address that reads as NULL. */
    method PmmFreePage(address: nat)
      requires Valid() && address != 0
      modifies this`freeMemory, this`usedMemory, bitmap
      ensures Valid() && M() == FreePage(old(M()), address)
    {
      var f := address / PAGE_SIZE;
      if address % PAGE_SIZE != 0 || f >= frames.Length || !BitSet(bitmap[..], f) {
        return;
      }
      ghost var bits := bitmap[..];
      BitChanges(bits, f);
      BitAfter(bits, f, 0);
      assert f in UsedOf(bits);
      bitmap[f / 8] := Without(bitmap[f / 8], Mask(f % 8));
      assert bitmap[..] == bits[f / 8 := Without(bits[f / 8], Mask(f % 8))];
      hide UsedOf, Wrap, BitSet;
      freeMemory := Wrap(freeMemory + PAGE_SIZE);
      usedMemory := Wrap(usedMemory - PAGE_SIZE);
    }

    /** An entry of the table in a frame; beyond memory there is none. */
    method Read(t: nat, i: Index) returns (e: Entry)
      requires Valid()
      ensures e == Look(M(), t, i)
    {
      e := if t < frames.Length then frames[t][i] else EMPTY;
    }

    method Write(t: nat, i: Index, e: Entry)
      requires Valid()
      modifies frames
      ensures Valid() && M() == Put(old(M()), t, i, e)
    {
      if t < frames.Length {
        frames[t] := frames[t][i := e];
      }
    }

    // ---------- walking and mapping ----------

    /** One level of paging_walk. */
    method NextLevel(t: nat, i: Index, alloc: bool, flags: set<Flag>) returns (ok: bool, next: nat)
      requires Valid()
      modifies this`freeMemory, this`usedMemory, bitmap, frames
      ensures Valid() && M() == NextTable(old(M()), t, i, alloc, flags).memory
      ensures NextTable(old(M()), t, i, alloc, flags).frame == if ok then Some(next) else None
    {
      hide AllocPage, Look, Put;
      var e := Read(t, i);
      if e.Here() {
        return true, e.frame;
      }
      if !alloc {
        return false, 0;
      }
      ok, next := PmmAllocPage();
      if ok {
        Write(t, i, Entry(next, {Present, Writable} + flags));
      }
    }

    /** paging_walk: the PT that holds the page's entry. */
    method PagingWalk(p: Page, alloc: bool, flags: set<Flag>) returns (ok: bool, pt: nat)
      requires Valid()
      modifies this`freeMemory, this`usedMemory, bitmap, frames
      ensures Valid() && M() == Walk(old(M()), pml4, p, alloc, flags).memory
      ensures Walk(old(M()), pml4, p, alloc, flags).frame == if ok then Some(pt) else None
    {
      hide NextTable;
      ghost var m0 := M();
      var pdpt, pd: nat;
      ok, pdpt := NextLevel(pml4, p.a, alloc, flags);
      ghost var m1 := M();
      WalkUnfolds(m0, pml4, p, 4, alloc, flags);
      if !ok {
        return false, 0;
      }
      ok, pd := NextLevel(pdpt, p.b, alloc, flags);
      ghost var m2 := M();
      WalkUnfolds(m1, pdpt, p, 3, alloc, flags);
      if !ok {
        return false, 0;
      }
      ok, pt := NextLevel(pd, p.c, alloc, flags);
      WalkUnfolds(m2, pd, p, 2, alloc, flags);
      hide WalkFrom;
    }

    /** paging_map_page; the result is 0 for NULL. */
    method PagingMapPage(frame: nat, va: nat, flags: set<Flag>) returns (address: nat)
      requires Valid()
      modifies this`freeMemory, this`usedMemory, bitmap, frames
      ensures Valid() && var r := MapPage(old(M()), pml4, frame, PageOf(va), flags);
              M() == r.memory && address == if r.ok then PageStart(va) else 0
    {
      hide Walk, Look, Put, PageOf;
      var start := PageStart(va);
      SamePage(va);
      var p := PageOf(start);
      var ok, pt := PagingWalk(p, true, flags);
      if !ok {
        return 0;
      }
      var e := Read(pt, p.d);
      if e.Here() {
        return 0;
      }
      Write(pt, p.d, Entry(frame, {Present} + flags));
      return start;
    }

    /** paging_unmap_page */
    method PagingUnmapPage(va: nat)
      requires Valid()
      modifies this`freeMemory, this`usedMemory, bitmap, frames
      ensures Valid() && M() == UnmapPage(old(M()), pml4, PageOf(va))
    {
      LookingChangesNothing(M(), pml4, PageOf(va), 4);
      hide WalkFrom, Look, Put, PageOf;
      var ok, pt := PagingWalk(PageOf(va), false, {});
      if ok {
        Write(pt, PageOf(va).d, EMPTY);
      }
    }

    /** paging_get_physical_address; the result is 0 for NULL. */
    method PagingGetPhysicalAddress(va: nat) returns (address: nat)
      requires Valid()
      modifies this`freeMemory, this`usedMemory, bitmap, frames
      ensures Valid() && M() == old(M()) && address == PhysicalAddress(M(), pml4, va)
    {
      LookingChangesNothing(M(), pml4, PageOf(va), 4);
      hide WalkFrom, Look, PageOf;
      var ok, pt := PagingWalk(PageOf(va), false, {});
      if !ok {
        return 0;
      }
      var e := Read(pt, PageOf(va).d);
      return e.frame * PAGE_SIZE + va % PAGE_SIZE;
    }

    // ---------- the kernel's calls ----------

    /** Take a frame, map it, and give it back if mapping returns NULL. */
    method TakeAndMap(va: nat, flags: set<Flag>) returns (address: nat)
      requires Valid()
      modifies this`freeMemory, this`usedMemory, bitmap, frames
      ensures Valid() && var g := MapFresh(old(M()), pml4, va, flags);
              M() == g.memory && address == g.address
    {
      hide AllocPage, MapPage, FreePage, PageOf;
      var ok, frame := PmmAllocPage();
      if !ok {
        return 0;
      }
      address := PagingMapPage(frame, va, flags);
      if address == 0 {
        PmmFreePage(frame * PAGE_SIZE);
      }
    }

    /** kmalloc_page */
    method KmallocPage() returns (address: nat)
      requires Valid()
      modifies this`freeMemory, this`usedMemory, this`kernelHeap, bitmap, frames
      ensures Valid() && var r := KernelPages.KmallocPage(old(X()));
              X() == r.machine && address == r.address
    {
      hide MapFresh, Wrap;
      address := TakeAndMap(kernelHeap, {Writable});
      if address != 0 {
        kernelHeap := Wrap(kernelHeap + PAGE_SIZE);
      }
    }

    /** kfree_page */
    method KfreePage(va: nat)
      requires Valid()
      modifies this`freeMemory, this`usedMemory, bitmap, frames
      ensures Valid() && M() == Release(old(M()), pml4, va)
    {
      hide PhysicalAddress, UnmapPage, FreePage, PageOf;
      var address := PagingGetPhysicalAddress(va);
      if address == 0 {
        return;
      }
      PagingUnmapPage(va);
      PmmFreePage(address);
    }

    /** kfree_pages */
    method KfreePages(va: nat, count: nat)
      requires Valid()
      modifies this`freeMemory, this`usedMemory, bitmap, frames
      ensures Valid() && M() == KernelPages.KfreePages(old(M()), pml4, va, 0, count)
    {
      hide Release;
      ghost var m := M();
      var i := 0;
      while i < count
        invariant Valid()
        invariant KernelPages.KfreePages(m, pml4, va, 0, count) == KernelPages.KfreePages(M(), pml4, va, i, count)
      {
        KfreePage(Nth(va, i));
        i := i + 1;
      }
    }

    /** kmalloc_pages */
    method KmallocPages(count: nat) returns (address: nat)
      requires Valid()
      modifies this`freeMemory, this`usedMemory, this`kernelHeap, bitmap, frames
      ensures Valid() && var r := KernelPages.KmallocPages(old(X()), count);
              X() == r.machine && address == r.address
    {
      hide MapFresh, Wrap;
      address := KmallocPage();
      if address == 0 {
        return;
      }
      ghost var x := X();
      var i := 1;
      while i < count
        invariant Valid() && X() == x.(memory := M())
        invariant KmallocRest(x.memory, pml4, address, 1, count) == KmallocRest(M(), pml4, address, i, count)
      {
        var page := TakeAndMap(Nth(address, i), {Writable});
        if page == 0 {
          KfreePages(address, i);
          return 0;
        }
        i := i + 1;
      }
    }

    // ---------- user spaces ----------

    /** paging_create_user_address_space; the PML4's frame, 0 for NULL. */
    method CreateUserAddressSpace() returns (ok: bool, root: nat)
      requires Valid() && pml4 < frames.Length
      modifies this`freeMemory, this`usedMemory, this`roots, bitmap, frames
      ensures Valid() && var c := CreateSpace(old(X()));
              X() == c.machine && c.root == if ok then Some(root) else None
    {
      ghost var a := AllocPage(M());
      AllocTakesLeast(M());
      hide AllocPage, UsedOf;
      ok, root := PmmAllocPage();
      if !ok {
        return;
      }
      ghost var before, bits := frames[..], bitmap[..];
      assert M() == a.memory && UsedOf(bits) == a.memory.used;
      assert before == a.memory.tables;
      assert forall j: Index :: Look(a.memory, pml4, j) == before[pml4][j];
      assert forall j: Index :: before[root][j] == Look(a.memory, root, j) == EMPTY;
      var i := KERNEL_HALF;
      frames[root] := Zeroed();
      while i < 512
        modifies frames
        invariant KERNEL_HALF <= i <= 512 && Valid()
        invariant frames[..] == before[root := frames[root]]
        invariant forall j: Index :: frames[root][j] == if KERNEL_HALF <= j < i then Look(a.memory, pml4, j) else EMPTY
      {
        frames[root] := frames[root][i := frames[pml4][i]];
        i := i + 1;
      }
      assert frames[root] == KernelHalfOf(a.memory, pml4);
      assert frames[..] == before[root := KernelHalfOf(a.memory, pml4)];
      assert bitmap[..] == bits;
      assert M() == Fill(a.memory, root, KernelHalfOf(a.memory, pml4));
      roots := roots + {root};
    }

    /** paging_alloc_user_page */
    method AllocUserPage(root: nat, va: nat, flags: set<Flag>) returns (address: nat)
      requires Valid()
      modifies this`freeMemory, this`usedMemory, this`pml4, bitmap, frames
      ensures Valid() && var r := UserPages.AllocUserPage(old(X()), root, va, flags);
              X() == r.machine && address == r.address
    {
      hide AllocPage, MapPage, FreePage, PageOf;
      if va >= KERNEL_BASE {
        return 0;
      }
      var ok, frame := PmmAllocPage();
      if !ok {
        return 0;
      }
      var original := pml4;
      pml4 := root;
      address := PagingMapPage(frame, va, flags + {User});
      pml4 := original;
      if address == 0 {
        PmmFreePage(frame * PAGE_SIZE);
      }
    }

    /** paging_free_user_page */
    method FreeUserPage(root: nat, va: nat)
      requires Valid()
      modifies this`freeMemory, this`usedMemory, this`pml4, bitmap, frames
      ensures Valid() && X() == UserPages.FreeUserPage(old(X()), root, va)
    {
      hide PhysicalAddress, UnmapPage, FreePage, PageOf;
      var original := pml4;
      pml4 := root;
      var address := PagingGetPhysicalAddress(va);
      PagingUnmapPage(va);
      if address != 0 {
        PmmFreePage(address);
      }
      pml4 := original;
    }

    /**
     * usermode_validate_pointer: whether the leaf entries of the range's pages allow user access, in the tables at
     * `pml4`. Switching to another address space leaves that field alone, so this is the kernel's PML4 unless a page
     * call has put another one there for its duration.
     */
    method ValidatePointer(ptr: nat, size: nat, write: bool) returns (ok: bool)
      requires Valid() && Returns(M(), pml4, ptr, size, write)
      modifies this`freeMemory, this`usedMemory, bitmap, frames
      ensures Valid() && M() == old(M()) && ok == Validate(M(), pml4, ptr, size, write)
    {
      hide PhysicalAddress, PageOf, WalkFrom, Look;
      if ptr < USER_BASE || ptr >= USER_STACK_TOP {
        return false;
      }
      ghost var m := M();
      var page, last := PageStart(ptr), LastPage(ptr, size);
      ghost var bad: nat := 0;
      if last >= TWO_64 - PAGE_SIZE {
        bad :| bad < TWO_64 && bad % PAGE_SIZE == 0 && !PageFine(m, pml4, bad, write);
      }
      while page <= last
        invariant Valid() && M() == m && page % PAGE_SIZE == 0 && 0 <= page < TWO_64
        invariant last < TWO_64 - PAGE_SIZE ==>
                    PagesFine(m, pml4, PageStart(ptr), last, write) == PagesFine(m, pml4, page, last, write)
        decreases if last < TWO_64 - PAGE_SIZE then last + PAGE_SIZE - page
                  else if page <= bad then bad - page else bad + TWO_64 - page
      {
        var fine := CheckPage(page, write);
        if !fine {
          return false;
        }
        page := (page + PAGE_SIZE) % TWO_64;
      }
      return true;
    }

    /** The checks of one page. */
    method CheckPage(page: nat, write: bool) returns (fine: bool)
      requires Valid()
      modifies this`freeMemory, this`usedMemory, bitmap, frames
      ensures Valid() && M() == old(M()) && fine == PageFine(M(), pml4, page, write)
    {
      LookingChangesNothing(M(), pml4, PageOf(page), 4);
      hide PhysicalAddress, PageOf, WalkFrom, Look;
      var address := PagingGetPhysicalAddress(page);
      if address == 0 {
        return false;
      }
      var ok, pt := PagingWalk(PageOf(page), false, {});
      if !ok {
        return false;
      }
      var e := Read(pt, PageOf(page).d);
      if !e.Here() || User !in e.flags {
        return false;
      }
      return write ==> Writable in e.flags;
    }
  }
}
