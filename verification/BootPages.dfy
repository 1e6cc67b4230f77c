/**
 * The check of pointers as the kernel makes it: on `vmm.pml4`, whose lower half has the tables that the boot code made.
 * These map the first GiB by big pages, and paging_walk takes the frame of a big page for a PT.
 */
module BootPages {
  import opened Bytes
  import opened PageTables
  import opened PageTrees
  import opened PageCalls
  import opened KernelPages
  import opened UserPages
  import opened PageRuns
  import opened UserPointers
  import opened UserRanges
  import opened StaticTables

  const GIB: nat := 0x4000_0000

  const BIG_PAGE: nat := 0x20_0000

  /** The entries of a table that has only the first one. */
  function FirstOnly(i: Index, t: nat): Entry {
    if i == 0 then Entry(t, {Present, Writable}) else EMPTY
  }

  /**
   * The lower half of the kernel's PML4 as the boot code leaves it: one PDPT and one PD, with an entry for every 2 MiB
   * of the first GiB. Their big-page bit is left out, since paging_walk masks it away.
   */
  ghost predicate BootTables(m: Memory, kroot: nat, pdpt: nat, pd: nat) {
    && (forall i: Index :: i < KERNEL_HALF ==> Look(m, kroot, i) == FirstOnly(i, pdpt))
    && (forall i: Index :: Look(m, pdpt, i) == FirstOnly(i, pd))
    && (forall i: Index :: Look(m, pd, i) == Entry(512 * i, {Present, Writable}))
  }

  /** The frame whose contents the walk takes for the PT of an address below 1 GiB: the first of its big page. */
  function PtFrame(a: nat): nat {
    512 * (a / BIG_PAGE)
  }

  /** The word that the walk takes for the leaf entry. */
  function Word(m: Memory, a: nat): Entry {
    Look(m, PtFrame(a), a / PAGE_SIZE % 512)
  }

  /** A word that the check takes for the entry of an accessible page. */
  predicate Opens(e: Entry, write: bool) {
    e.Here() && e.frame != 0 && User in e.flags && (write ==> Writable in e.flags)
  }

  lemma BootIndices(a: nat)
    requires a < LOWER_HALF_END
    ensures var p := PageOf(a);
            && p.a < KERNEL_HALF && (p.a == 0 && p.b == 0 <==> a < GIB)
            && p.d == a / PAGE_SIZE % 512 && (a < GIB ==> p.c == a / BIG_PAGE)
  {
  }

  /** Below 1 GiB the walk ends at that word, where the processor would stop at the big page; above it finds nothing. */
  lemma BootWalk(m: Memory, kroot: nat, pdpt: nat, pd: nat, a: nat)
    requires BootTables(m, kroot, pdpt, pd) && a < LOWER_HALF_END
    ensures Translate(m, kroot, PageOf(a)) == if a < GIB && Word(m, a).Here() then Some(Word(m, a)) else None
  {
    BootIndices(a);
    var p := PageOf(a);
    hide Look, PageOf;
    if a < GIB {
      assert Follow(m, pd, p, 2) == Follow(m, PtFrame(a), p, 1);
      assert Follow(m, pdpt, p, 3) == Follow(m, pd, p, 2);
    } else if p.a == 0 {
      assert Look(m, pdpt, p.b) == EMPTY;
      assert Follow(m, pdpt, p, 3) == None;
    } else {
      assert Look(m, kroot, p.a) == EMPTY;
    }
  }

  lemma BootAccess(m: Memory, kroot: nat, pdpt: nat, pd: nat, a: nat, write: bool)
    requires BootTables(m, kroot, pdpt, pd) && a < LOWER_HALF_END
    ensures Accessible(m, kroot, a, write) <==> a < GIB && Opens(Word(m, a), write)
  {
    hide BootTables, PageOf, Translate, Word;
    BootWalk(m, kroot, pdpt, pd, a);
  }

  /**
   * The check accepts a non-empty range that does not wrap around exactly if it lies in user memory below 1 GiB and,
   * for every byte of it, the word at the page's index in the first frame of the byte's big page looks like the entry
   * of an accessible page. Whether any program has the page mapped does not enter. The call always returns.
   */
  lemma KernelCheckExactly(m: Memory, kroot: nat, pdpt: nat, pd: nat, ptr: nat, size: nat, write: bool)
    requires BootTables(m, kroot, pdpt, pd) && size > 0 && ptr + size <= TWO_64
    ensures Returns(m, kroot, ptr, size, write)
    ensures Validate(m, kroot, ptr, size, write) <==>
            && USER_BASE <= ptr && ptr + size <= GIB
            && forall a: nat :: ptr <= a < ptr + size ==> Opens(Word(m, a), write)
  {
    hide BootTables, Accessible, Opens, Word, Validate, PageFine;
    forall a: nat | a < LOWER_HALF_END
      ensures Accessible(m, kroot, a, write) <==> a < GIB && Opens(Word(m, a), write)
    {
      BootAccess(m, kroot, pdpt, pd, a, write);
    }
    ValidateMeans(m, kroot, ptr, size, write);
    PageFineMeans(m, kroot, GIB, write);
    if ptr < USER_STACK_TOP && GIB < ptr + size {
      var beyond := if ptr < GIB then GIB else ptr;
      assert !Accessible(m, kroot, beyond, write);
    }
  }

  // ---------- who decides the answer ----------

  /** A byte whose page the check looks at: the first, also of an empty range, and those of the range. */
  predicate Checked(ptr: nat, size: nat, a: nat) {
    a == ptr || ptr <= a < ptr + size
  }

  lemma BootStatic(m: Memory, v: Memory, fixed: set<nat>, kroot: nat, pdpt: nat, pd: nat)
    requires Static(m, v, fixed, kroot) && BootTables(m, kroot, pdpt, pd) && pdpt in fixed && pd in fixed
    ensures BootTables(v, kroot, pdpt, pd)
    ensures forall a: nat :: PtFrame(a) in fixed ==> Word(v, a) == Word(m, a)
  {
    hide Look;
  }

  lemma SameWords(m: Memory, v: Memory, kroot: nat, pdpt: nat, pd: nat, ptr: nat, size: nat, write: bool)
    requires BootTables(m, kroot, pdpt, pd) && BootTables(v, kroot, pdpt, pd) && size < TWO_64
    requires forall a: nat :: Checked(ptr, size, a) && a < GIB ==> Word(v, a) == Word(m, a)
    ensures Validate(v, kroot, ptr, size, write) == Validate(m, kroot, ptr, size, write)
  {
    hide BootTables, Opens, Word, Validate, Returns;
    if 0 < size && ptr + size <= TWO_64 {
      KernelCheckExactly(m, kroot, pdpt, pd, ptr, size, write);
      KernelCheckExactly(v, kroot, pdpt, pd, ptr, size, write);
    } else {
      OneOrNoPage(m, kroot, ptr, size, write);
      OneOrNoPage(v, kroot, ptr, size, write);
      hide Accessible, LastPage, PageStart;
      if ptr < USER_STACK_TOP {
        BootAccess(m, kroot, pdpt, pd, ptr, write);
        BootAccess(v, kroot, pdpt, pd, ptr, write);
      }
    }
  }

  /** Where all these frames are reserved, no run of page calls changes the answer. */
  lemma KernelCheckStays(x: Machine, own: Owners, reserved: set<nat>, pdpt: nat, pd: nat, calls: seq<PageCall>,
                         ptr: nat, size: nat, write: bool)
    requires Sound(x, own, reserved) && !EverMapsZero(x, calls)
    requires BootTables(x.memory, x.kroot, pdpt, pd) && pdpt in reserved && pd in reserved
    requires size < TWO_64 && forall a: nat :: Checked(ptr, size, a) && a < GIB ==> PtFrame(a) in reserved
    ensures Validate(Run(x, calls).memory, x.kroot, ptr, size, write) == Validate(x.memory, x.kroot, ptr, size, write)
  {
    hide Sound, BootTables, Static, Run, EverMapsZero, Validate, Word, PtFrame;
    RunStatic(x, own, reserved, reserved, calls);
    BootStatic(x.memory, Run(x, calls).memory, reserved, x.kroot, pdpt, pd);
    SameWords(x.memory, Run(x, calls).memory, x.kroot, pdpt, pd, ptr, size, write);
  }

  /** What the check says of a range in one big page, as a function of the words in that page's first frame. */
  predicate AllOpen(data: Table, ptr: nat, size: nat, write: bool) {
    forall a: nat :: ptr <= a < ptr + size ==> Opens(data[a / PAGE_SIZE % 512], write)
  }

  lemma WordsOfFrame(m: Memory, kroot: nat, pdpt: nat, pd: nat, n: nat, data: Table, ptr: nat, size: nat, write: bool)
    requires BootTables(m, kroot, pdpt, pd) && size > 0 && USER_BASE <= ptr
    requires n * BIG_PAGE <= ptr && ptr + size <= (n + 1) * BIG_PAGE && ptr + size <= GIB
    requires forall i: Index :: Look(m, 512 * n, i) == data[i]
    ensures Validate(m, kroot, ptr, size, write) <==> AllOpen(data, ptr, size, write)
  {
    hide BootTables, Opens, Validate, Returns, Look;
    KernelCheckExactly(m, kroot, pdpt, pd, ptr, size, write);
    forall a: nat | ptr <= a < ptr + size ensures Word(m, a) == data[a / PAGE_SIZE % 512] {
      InBigPage(a, n);
    }
  }

  lemma InBigPage(a: nat, n: nat)
    requires n * BIG_PAGE <= a < (n + 1) * BIG_PAGE
    ensures PtFrame(a) == 512 * n
  {
  }

  /**
   * Otherwise the answer is in the hands of whoever has the frame. If a page of any space translates to the first frame
   * of a big page, a store to that page decides the answer for every range in the big page, whatever its own pages are.
   */
  lemma KernelCheckByOwner(x: Machine, own: Owners, reserved: set<nat>, pdpt: nat, pd: nat, root: nat, p: Page, n: nat,
                           data: Table, ptr: nat, size: nat, write: bool)
    requires Sound(x, own, reserved) && Allowed(x, Store(root, p, data))
    requires BootTables(x.memory, x.kroot, pdpt, pd) && pdpt in reserved && pd in reserved
    requires Translate(x.memory, root, p).Some? && Translate(x.memory, root, p).value.frame == 512 * n
    requires size > 0 && USER_BASE <= ptr && ptr + size <= GIB
    requires n * BIG_PAGE <= ptr && ptr + size <= (n + 1) * BIG_PAGE
    ensures var v := After(x, Store(root, p, data)).memory;
            Validate(v, x.kroot, ptr, size, write) <==> AllOpen(data, ptr, size, write)
  {
    hide BootTables, Validate, AllOpen, Static;
    var v := After(x, Store(root, p, data)).memory;
    StoredThere(x, own, reserved, root, p, data);
    hide Sound, Allowed, Translate, After;
    StepStatic(x, own, reserved, reserved, Store(root, p, data));
    BootStatic(x.memory, v, reserved, x.kroot, pdpt, pd);
    WordsOfFrame(v, x.kroot, pdpt, pd, n, data, ptr, size, write);
  }

  lemma AfterStore(x: Machine, root: nat, p: Page, data: Table)
    requires Allowed(x, Store(root, p, data))
    ensures After(x, Store(root, p, data)).memory == StoreInto(x.memory, root, p, data)
  {
    hide StoreInto;
  }

  lemma StoredThere(x: Machine, own: Owners, reserved: set<nat>, root: nat, p: Page, data: Table)
    requires Sound(x, own, reserved) && Allowed(x, Store(root, p, data)) && Translate(x.memory, root, p).Some?
    ensures var v, f := After(x, Store(root, p, data)).memory, Translate(x.memory, root, p).value.frame;
            forall i: Index :: Look(v, f, i) == data[i]
  {
    assert Space(own, x.kroot, root, p);
    AfterStore(x, root, p, data);
    hide Inv, RootsAre, Translate, Allowed, Depth, Space, After;
    LeafAt(x.memory, own, x.kroot, reserved, root, p);
  }

  /**
   * This happens at boot: with the first 4 MiB reserved, the first page that kmalloc_page hands out is the frame that
   * the walk takes for the PT of the first 2 MiB of user memory. What the kernel stores there decides the answer for
   * them.
   */
  lemma FirstPageDecides(x: Machine, own: Owners, reserved: set<nat>, pdpt: nat, pd: nat, data: Table, ptr: nat,
                         size: nat, write: bool)
    requires Sound(x, own, reserved) && KernelRun(x.heap, 1) && KmallocPage(x).address != 0
    requires BootTables(x.memory, x.kroot, pdpt, pd) && pdpt in reserved && pd in reserved
    requires (forall f: nat :: f < USER_BASE / PAGE_SIZE ==> f in x.memory.used)
    requires USER_BASE / PAGE_SIZE !in x.memory.used
    requires size > 0 && USER_BASE <= ptr && ptr + size <= USER_BASE + BIG_PAGE
    ensures var y := After(KmallocPage(x).machine, Store(x.kroot, PageOf(x.heap), data));
            Validate(y.memory, x.kroot, ptr, size, write) <==> AllOpen(data, ptr, size, write)
  {
    hide Inv, BootTables, Validate, AllOpen, Static, KmallocPage, KernelRun, PageOf, Translate, After, Served,
         SameRoots, RootsKept, NearlyFull, FlagsPass, RootsAre;
    var y := KmallocPage(x).machine;
    PageAsked(x);
    PageStatic(x, own, reserved, reserved);
    BootStatic(x.memory, y.memory, reserved, x.kroot, pdpt, pd);
    var now := KmallocPageKeeps(x, own, reserved);
    RootsStayThose(x, y, own, now);
    FirstPage(x, own);
    FirstFrame(x, own, reserved);
    KernelCheckByOwner(y, now, reserved, pdpt, pd, x.kroot, PageOf(x.heap), 2, data, ptr, size, write);
  }

  lemma FirstFrame(x: Machine, own: Owners, reserved: set<nat>)
    requires Inv(x.memory, own, x.kroot, reserved) && KernelRun(x.heap, 1) && KmallocPage(x).address != 0
    requires (forall f: nat :: f < 1024 ==> f in x.memory.used) && 1024 !in x.memory.used
    ensures var t := Translate(KmallocPage(x).machine.memory, x.kroot, PageOf(x.heap));
            t.Some? && t.value.frame == 1024
  {
    assert PlacesOk(own, x.kroot);
    FirstPage(x, own);
    PageAsked(x);
    AllocTakesLeast(x.memory);
    AllocKeeps(x.memory, own, x.kroot, reserved);
    NotReserved(x.memory, own, x.kroot, reserved, 1024);
    hide Inv, AllocPage, MapPage, FreePage, PageOf, Translate, KmallocPage, KernelRun, PageStart, Mappable, RootsKept,
         SameRoots, FlagsPass, OnlyPage, Shows, PlacesOk, Look;
    var a := AllocPage(x.memory);
    var f := a.frame.value;
    var now := MapKeeps(a.memory, own, x.kroot, reserved + {f}, x.kroot, f, PageOf(x.heap), {Writable});
  }
}
