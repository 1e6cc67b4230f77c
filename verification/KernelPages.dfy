/** The page calls of the kernel and of user spaces: a frame is taken and mapped, or unmapped and given back. */
module KernelPages {
  import opened Bytes
  import opened PageTables
  import opened PageTrees
  import opened PageWalks
  import opened PageCalls

  /** A memory and the virtual address a call returns in it, 0 for NULL. */
  datatype Granted = Granted(memory: Memory, address: nat)

  function PageStart(va: nat): nat {
    va - va % PAGE_SIZE
  }

  /** Take a frame, map it, and give it back if the mapping call returns NULL: the common part of all page calls. */
  function MapFresh(m: Memory, root: nat, va: nat, flags: set<Flag>): Granted {
    var a := AllocPage(m);
    if a.frame.None? then Granted(m, 0)
    else
      var r := MapPage(a.memory, root, a.frame.value, PageOf(va), flags);
      if !r.ok || PageStart(va) == 0 then Granted(FreePage(r.memory, a.frame.value * PAGE_SIZE), 0)
      else Granted(r.memory, PageStart(va))
  }

  /** Unmap a page and give its frame back: the common part of kfree_page and paging_free_user_page. */
  function Release(m: Memory, root: nat, va: nat): Memory {
    var address := PhysicalAddress(m, root, va);
    if address == 0 then m else FreePage(UnmapPage(m, root, PageOf(va)), address)
  }

  /** At most one frame is left. */
  ghost predicate NearlyFull(m: Memory) {
    forall f, g :: 0 <= f < g < |m.tables| ==> f in m.used || g in m.used
  }

  lemma AllocSame(m: Memory, own: Owners, kroot: nat, reserved: set<nat>)
    requires Inv(m, own, kroot, reserved)
    ensures var a := AllocPage(m).memory;
            SameTranslations(m, a, own, kroot) && RootsKept(m, a, own, kroot) && FlagsPass(m, own, a, own, kroot, true)
  {
    AllocKeeps(m, own, kroot, reserved);
    var a := AllocPage(m).memory;
    hide AllocPage, Look, FlagsPass;
    SameTablesSame(m, a, own, kroot);
    SameTablesFlags(m, a, own, kroot);
  }

  /** The translations after a call that took a frame first, in terms of those before. */
  lemma AfterAlloc(m: Memory, a: Memory, v: Memory, own: Owners, kroot: nat, root: nat, p: Page)
    requires SameTranslations(m, a, own, kroot) && RootsKept(m, a, own, kroot) && RootsKept(a, v, own, kroot)
    requires Space(own, kroot, root, p)
    ensures Translate(a, root, p) == Translate(m, root, p) && RootsKept(m, v, own, kroot)
    ensures OnlyPage(a, v, own, kroot, root, p) ==> OnlyPage(m, v, own, kroot, root, p)
    ensures Shows(a, own, kroot, root, p, None) ==> Shows(m, own, kroot, root, p, None)
    ensures SameTranslations(a, v, own, kroot) ==> SameTranslations(m, v, own, kroot)
  {
    hide Translate, Look;
  }

  /** What a frame taken and mapped looks like afterwards. */
  ghost predicate FreshlyMapped(m: Memory, v: Memory, own: Owners, kroot: nat, root: nat, p: Page, flags: set<Flag>) {
    && OnlyPage(m, v, own, kroot, root, p) && Shows(m, own, kroot, root, p, None) && Translate(m, root, p) == None
    && Translate(v, root, p).Some? && Translate(v, root, p).value.frame !in m.used
    && Translate(v, root, p).value.flags == {Present} + flags
    && Shows(v, own, kroot, root, p, Translate(v, root, p))
  }

  /**
   * Taking and mapping a frame either maps a frame that was free at exactly the one page, or changes no translation and
   * gives the frame back; it fails only if the page is mapped already or memory is nearly used up.
   */
  lemma MapFreshKeeps(m: Memory, own: Owners, kroot: nat, reserved: set<nat>, root: nat, va: nat, flags: set<Flag>)
    returns (now: Owners)
    requires Inv(m, own, kroot, reserved) && Mappable(own, kroot, root, PageOf(va)) && va >= PAGE_SIZE
    ensures var r, p := MapFresh(m, root, va, flags), PageOf(va);
            && Inv(r.memory, now, kroot, reserved) && SameRoots(own, now) && RootsKept(m, r.memory, own, kroot)
            && (r.address != 0 ==> r.address == PageStart(va) && FreshlyMapped(m, r.memory, own, kroot, root, p, flags))
            && (r.address == 0 ==> SameTranslations(m, r.memory, own, kroot)
                                   && (Translate(m, root, p).Some? || NearlyFull(r.memory)))
            && FlagsPass(m, own, r.memory, now, kroot, FlagsFor(p, flags))
  {
    now := own;
    FlagsSame(m, own, kroot, FlagsFor(PageOf(va), flags));
    hide Inv, AllocPage, MapPage, FreePage, PageOf, Translate, SameTranslations, RootsKept, FreshlyMapped, FlagsPass,
         FlagsFor;
    AllocTakesLeast(m);
    AllocKeeps(m, own, kroot, reserved);
    AllocSame(m, own, kroot, reserved);
    var a := AllocPage(m);
    if a.frame.Some? {
      hide SameRoots, NearlyFull;
      NotReserved(m, own, kroot, reserved, a.frame.value);
      now := MapTaken(m, a.memory, own, kroot, reserved, root, a.frame.value, va, flags);
    } else {
      assert SameRoots(own, own) && NearlyFull(m);
    }
  }

  lemma NotReserved(m: Memory, own: Owners, kroot: nat, reserved: set<nat>, f: nat)
    requires Inv(m, own, kroot, reserved) && f !in m.used
    ensures f !in reserved
  {
    hide Tree, Linked, Shares, PlacesOk, Distinct;
  }

  lemma FreeShowsNothing(m: Memory, address: nat, own: Owners, kroot: nat)
    ensures var v := FreePage(m, address);
            SameTranslations(m, v, own, kroot) && RootsKept(m, v, own, kroot)
            && (forall r, p: Page :: Translate(v, r, p) == Translate(m, r, p))
            && FlagsPass(m, own, v, own, kroot, true)
  {
    var v := FreePage(m, address);
    SameTablesFlags(m, v, own, kroot);
    hide FlagsPass;
    forall r, p: Page ensures Translate(v, r, p) == Translate(m, r, p) {
      TablesDecide(v, m, r, p, 4);
    }
  }

  lemma MapTaken(m: Memory, a: Memory, own: Owners, kroot: nat, reserved: set<nat>, root: nat, f: nat, va: nat,
                 flags: set<Flag>)
    returns (now: Owners)
    requires Inv(a, own, kroot, reserved + {f}) && f !in m.used && f !in reserved && f != 0
    requires Mappable(own, kroot, root, PageOf(va))
    requires SameTranslations(m, a, own, kroot) && RootsKept(m, a, own, kroot) && FlagsPass(m, own, a, own, kroot, true)
    ensures var r, p := MapPage(a, root, f, PageOf(va), flags), PageOf(va);
            var v := if r.ok then r.memory else FreePage(r.memory, f * PAGE_SIZE);
            && Inv(v, now, kroot, reserved) && SameRoots(own, now) && RootsKept(m, v, own, kroot)
            && (r.ok ==> FreshlyMapped(m, v, own, kroot, root, p, flags))
            && (!r.ok ==> SameTranslations(m, v, own, kroot) && (Translate(m, root, p).Some? || NearlyFull(v)))
            && FlagsPass(m, own, v, now, kroot, FlagsFor(p, flags))
  {
    var p := PageOf(va);
    assert Space(own, kroot, root, p);
    hide Inv, MapPage, FreePage, PageOf, Translate, SameTranslations, RootsKept, SameRoots, OnlyPage, Shows, NearlyFull,
         FlagsPass, FlagsFor, Mappable, Space;
    now := MapKeeps(a, own, kroot, reserved + {f}, root, f, p, flags);
    assert reserved + {f} - {f} == reserved;
    var r := MapPage(a, root, f, p, flags);
    TakenFlags(m, own, a, r.memory, now, kroot, FlagsFor(p, flags));
    hide FreshlyMapped;
    if r.ok {
      TakenShows(m, a, r.memory, own, kroot, root, f, p, flags);
    } else {
      MapGivesBack(m, a, r.memory, own, now, kroot, reserved, root, f, p);
      FreedFlags(m, own, r.memory, now, kroot, f * PAGE_SIZE, FlagsFor(p, flags));
    }
  }

  lemma TakenShows(
    m: Memory, a: Memory, w: Memory, own: Owners, kroot: nat, root: nat, f: nat, p: Page, flags: set<Flag>)
    requires SameTranslations(m, a, own, kroot) && RootsKept(m, a, own, kroot) && RootsKept(a, w, own, kroot)
    requires Space(own, kroot, root, p) && f !in m.used && OnlyPage(a, w, own, kroot, root, p)
    requires Shows(a, own, kroot, root, p, None) && Translate(a, root, p) == None
    requires Shows(w, own, kroot, root, p, Some(Entry(f, {Present} + flags)))
    requires Translate(w, root, p) == Some(Entry(f, {Present} + flags))
    ensures FreshlyMapped(m, w, own, kroot, root, p, flags) && RootsKept(m, w, own, kroot)
  {
    hide SameTranslations, RootsKept, Space, OnlyPage, Shows, Translate;
    AfterAlloc(m, a, w, own, kroot, root, p);
  }

  lemma TakenFlags(m: Memory, own: Owners, a: Memory, w: Memory, now: Owners, kroot: nat, fits: bool)
    requires FlagsPass(m, own, a, own, kroot, true) && FlagsPass(a, own, w, now, kroot, fits)
    ensures FlagsPass(m, own, w, now, kroot, fits)
  {
    hide FlagsPass;
    FlagsUnder(m, own, a, own, kroot, true, fits);
    FlagsTwice(m, own, a, own, w, now, kroot, fits);
  }

  lemma FreedFlags(m: Memory, own: Owners, w: Memory, now: Owners, kroot: nat, address: nat, fits: bool)
    requires FlagsPass(m, own, w, now, kroot, fits)
    ensures FlagsPass(m, own, FreePage(w, address), now, kroot, fits)
  {
    SameTablesFlags(w, FreePage(w, address), now, kroot);
    hide FlagsPass, FreePage;
    FlagsUnder(w, now, FreePage(w, address), now, kroot, true, fits);
    FlagsTwice(m, own, w, now, FreePage(w, address), now, kroot, fits);
  }

  lemma MapGivesBack(m: Memory, a: Memory, w: Memory, own: Owners, now: Owners, kroot: nat, reserved: set<nat>,
                     root: nat, f: nat, p: Page)
    requires Inv(w, now, kroot, reserved + {f}) && f !in reserved && f != 0 && Space(own, kroot, root, p)
    requires SameTranslations(m, a, own, kroot) && RootsKept(m, a, own, kroot)
    requires SameTranslations(a, w, own, kroot) && RootsKept(a, w, own, kroot)
    requires Translate(a, root, p).Some? || forall g :: 0 <= g < |w.tables| ==> g in w.used
    ensures var v := FreePage(w, f * PAGE_SIZE);
            && Inv(v, now, kroot, reserved) && RootsKept(m, v, own, kroot) && SameTranslations(m, v, own, kroot)
            && (Translate(m, root, p).Some? || NearlyFull(v))
  {
    FreeKeeps(w, now, kroot, reserved + {f}, f);
    assert reserved + {f} - {f} == reserved;
    FreeShowsNothing(w, f * PAGE_SIZE, own, kroot);
    hide Inv, Translate, Look;
  }

  // ---------- looking up and giving back ----------

  /** A mapped page's physical address is in its frame; for an unmapped one the call returns at most the page offset. */
  lemma PhysicalAddressIs(m: Memory, own: Owners, kroot: nat, reserved: set<nat>, root: nat, va: nat)
    requires Inv(m, own, kroot, reserved) && Space(own, kroot, root, PageOf(va))
    ensures match Translate(m, root, PageOf(va))
            case None => PhysicalAddress(m, root, va) == 0 || PhysicalAddress(m, root, va) == va % PAGE_SIZE
            case Some(e) => e.frame != 0 && PhysicalAddress(m, root, va) == e.frame * PAGE_SIZE + va % PAGE_SIZE
  {
    var p := PageOf(va);
    LookedUp(m, own, kroot, root, p);
    FollowReaches(m, own, kroot, root, p, 4) by { assert PlaceOk(root, own[root].place); }
    assert 0 in reserved && forall f :: f in own ==> f in own.Keys;
    hide Inv, PageOf, Walk, Look, Follow;
  }

  /**
   * Giving a page back ends the translation of exactly that page, in every space that shares it. Its frame is free
   * again if the address was page-aligned; with any other address the frame is lost, in use but mapped nowhere.
   */
  lemma ReleaseKeeps(m: Memory, own: Owners, kroot: nat, reserved: set<nat>, root: nat, va: nat)
    returns (now: Owners, kept: set<nat>)
    requires Inv(m, own, kroot, reserved) && Mappable(own, kroot, root, PageOf(va))
    ensures var v, p := Release(m, root, va), PageOf(va);
            && Inv(v, now, kroot, kept) && SameRoots(own, now) && RootsKept(m, v, own, kroot)
            && OnlyPage(m, v, own, kroot, root, p) && Shows(v, own, kroot, root, p, None)
            && Translate(v, root, p) == None
            && match Translate(m, root, p)
               case None => v == m && kept == reserved
               case Some(e) =>
                 if va % PAGE_SIZE == 0 then kept == reserved && v.used == m.used - {e.frame} && e.frame in m.used
                 else kept == reserved + {e.frame} && v.used == m.used
    ensures FlagsPass(m, own, Release(m, root, va), now, kroot, true)
  {
    var p := PageOf(va);
    match Translate(m, root, p)
    case None =>
      now, kept := own, reserved;
      ReleaseUnmapped(m, own, kroot, reserved, root, va);
      hide *;
    case Some(e) =>
      now, kept := ReleaseMapped(m, own, kroot, reserved, root, va, e);
      hide *;
  }

  lemma ReleaseUnmapped(m: Memory, own: Owners, kroot: nat, reserved: set<nat>, root: nat, va: nat)
    requires Inv(m, own, kroot, reserved) && Mappable(own, kroot, root, PageOf(va))
             && Translate(m, root, PageOf(va)) == None
    ensures var p := PageOf(va);
            && Release(m, root, va) == m && SameRoots(own, own) && RootsKept(m, m, own, kroot)
            && OnlyPage(m, m, own, kroot, root, p) && Shows(m, own, kroot, root, p, None)
            && FlagsPass(m, own, m, own, kroot, true)
  {
    FlagsSame(m, own, kroot, true);
    assert SameRoots(own, own);
    hide Inv, PageOf, UnmapPage, Release, Translate, RootsKept, OnlyPage, Shows, Mappable, SameRoots, FlagsPass;
    UnmapKeeps(m, own, kroot, reserved, root, PageOf(va));
    Released(m, own, kroot, reserved, root, va);
  }

  lemma ReleaseMapped(m: Memory, own: Owners, kroot: nat, reserved: set<nat>, root: nat, va: nat, e: Entry)
    returns (now: Owners, kept: set<nat>)
    requires Inv(m, own, kroot, reserved) && Mappable(own, kroot, root, PageOf(va))
             && Translate(m, root, PageOf(va)) == Some(e)
    ensures var v, p := Release(m, root, va), PageOf(va);
            && Inv(v, now, kroot, kept) && SameRoots(own, now) && RootsKept(m, v, own, kroot)
            && OnlyPage(m, v, own, kroot, root, p) && Shows(v, own, kroot, root, p, None)
            && Translate(v, root, p) == None
            && e.frame in m.used
            && if va % PAGE_SIZE == 0 then kept == reserved && v.used == m.used - {e.frame}
               else kept == reserved + {e.frame} && v.used == m.used
    ensures FlagsPass(m, own, Release(m, root, va), now, kroot, true)
  {
    hide *;
    UnmapKeeps(m, own, kroot, reserved, root, PageOf(va));
    Released(m, own, kroot, reserved, root, va);
    now, kept := GiveBack(m, UnmapPage(m, root, PageOf(va)), own, kroot, reserved, root, va, e.frame);
  }

  lemma Released(m: Memory, own: Owners, kroot: nat, reserved: set<nat>, root: nat, va: nat)
    requires Inv(m, own, kroot, reserved) && Mappable(own, kroot, root, PageOf(va))
    ensures var u := UnmapPage(m, root, PageOf(va));
            && u.used == m.used
            && match Translate(m, root, PageOf(va))
               case None => Release(m, root, va) == m
               case Some(e) => Release(m, root, va) == FreePage(u, e.frame * PAGE_SIZE + va % PAGE_SIZE)
  {
    UnmapUses(m, root, PageOf(va));
    assert Space(own, kroot, root, PageOf(va));
    hide Inv, PageOf, UnmapPage, Translate, PhysicalAddress, FreePage, Mappable, Space;
    PhysicalAddressIs(m, own, kroot, reserved, root, va);
    match Translate(m, root, PageOf(va))
    case None =>
      UnmapNothing(m, own, kroot, reserved, root, va);
    case Some(e) =>
  }

  /** Giving back an unmapped page changes nothing, whatever the call takes for its address. */
  lemma UnmapNothing(m: Memory, own: Owners, kroot: nat, reserved: set<nat>, root: nat, va: nat)
    requires Inv(m, own, kroot, reserved) && Mappable(own, kroot, root, PageOf(va))
             && Translate(m, root, PageOf(va)) == None
    requires PhysicalAddress(m, root, va) == 0 || PhysicalAddress(m, root, va) == va % PAGE_SIZE
    ensures PhysicalAddress(m, root, va) != 0 ==>
              FreePage(UnmapPage(m, root, PageOf(va)), PhysicalAddress(m, root, va)) == m
  {
    hide Inv, PageOf, UnmapPage, Translate, PhysicalAddress, FreePage, RootsKept, OnlyPage, Shows, Mappable, Depth,
         FlagsPass;
    UnmapKeeps(m, own, kroot, reserved, root, PageOf(va));
    OffsetOf(0, va);
    Unaligned(m, PhysicalAddress(m, root, va));
  }

  lemma UnmapUses(m: Memory, root: nat, p: Page)
    ensures UnmapPage(m, root, p).used == m.used
  {
    hide Walk, Look;
  }

  lemma Unaligned(m: Memory, address: nat)
    ensures address % PAGE_SIZE != 0 ==> FreePage(m, address) == m
  {
  }

  lemma GiveBack(m: Memory, u: Memory, own: Owners, kroot: nat, reserved: set<nat>, root: nat, va: nat, f: nat)
    returns (now: Owners, kept: set<nat>)
    requires f in own && f != 0 && f !in reserved && Depth(own[f].place) == 4 && f in u.used && u.used == m.used
    requires Inv(u, own - {f}, kroot, reserved + {f}) && RootsKept(m, u, own, kroot)
    requires OnlyPage(m, u, own, kroot, root, PageOf(va)) && Shows(u, own, kroot, root, PageOf(va), None)
    requires Translate(u, root, PageOf(va)) == None && FlagsPass(m, own, u, own - {f}, kroot, true)
    ensures var v, p := FreePage(u, f * PAGE_SIZE + va % PAGE_SIZE), PageOf(va);
            && FlagsPass(m, own, v, now, kroot, true)
            && Inv(v, now, kroot, kept) && SameRoots(own, now) && RootsKept(m, v, own, kroot)
            && OnlyPage(m, v, own, kroot, root, p) && Shows(v, own, kroot, root, p, None)
            && Translate(v, root, p) == None
            && if va % PAGE_SIZE == 0 then kept == reserved && v.used == m.used - {f}
               else kept == reserved + {f} && v == u
  {
    hide Inv, PageOf, Translate, FreePage, SameRoots, OnlyPage, Shows, RootsKept, FlagsPass;
    now, kept := own - {f}, if va % PAGE_SIZE == 0 then reserved else reserved + {f};
    RootsWithout(own, f);
    hide Depth;
    var address := f * PAGE_SIZE + va % PAGE_SIZE;
    FreedShows(m, u, address, own, kroot, root, PageOf(va));
    FreedFlags(m, own, u, now, kroot, address, true);
    if va % PAGE_SIZE == 0 {
      FreeKeeps(u, now, kroot, reserved + {f}, f);
      assert reserved + {f} - {f} == reserved;
    } else {
      OffsetOf(f, va);
      Unaligned(u, address);
    }
  }

  lemma OffsetOf(f: nat, va: nat)
    ensures (f * PAGE_SIZE + va % PAGE_SIZE) % PAGE_SIZE == va % PAGE_SIZE
  {
  }

  lemma RootsWithout(own: Owners, f: nat)
    requires f in own && Depth(own[f].place) == 4
    ensures SameRoots(own, own - {f})
  {
  }

  lemma FreedShows(m: Memory, u: Memory, address: nat, own: Owners, kroot: nat, root: nat, p: Page)
    requires RootsKept(m, u, own, kroot) && OnlyPage(m, u, own, kroot, root, p) && Shows(u, own, kroot, root, p, None)
    requires Translate(u, root, p) == None
    ensures var v := FreePage(u, address);
            && RootsKept(m, v, own, kroot) && OnlyPage(m, v, own, kroot, root, p) && Shows(v, own, kroot, root, p, None)
            && Translate(v, root, p) == None
  {
    FreeShowsNothing(u, address, own, kroot);
    hide FreePage, Translate, Look;
  }

  // ---------- the kernel's calls ----------

  /** Memory, the kernel's PML4, the next kernel address to hand out, and the PML4s of user spaces. */
  datatype Machine = Machine(memory: Memory, kroot: nat, heap: nat, roots: set<nat>)

  datatype Reply = Reply(machine: Machine, address: nat)

  /** kmalloc_page */
  function KmallocPage(x: Machine): Reply {
    var g := MapFresh(x.memory, x.kroot, x.heap, {Writable});
    Reply(x.(memory := g.memory, heap := if g.address != 0 then Wrap(x.heap + PAGE_SIZE) else x.heap), g.address)
  }

  /** Address number `i` of a run of pages. */
  function Nth(first: nat, i: nat): nat {
    first + i * PAGE_SIZE
  }

  /** kfree_pages from page `i` of the run on. */
  function KfreePages(m: Memory, kroot: nat, first: nat, i: nat, count: nat): Memory
    decreases count - i
  {
    if i >= count then m else KfreePages(Release(m, kroot, Nth(first, i)), kroot, first, i + 1, count)
  }

  /** The loop of kmalloc_pages from page `i` on. */
  function KmallocRest(m: Memory, kroot: nat, first: nat, i: nat, count: nat): Granted
    decreases count - i
  {
    if i >= count then Granted(m, first)
    else
      var g := MapFresh(m, kroot, Nth(first, i), {Writable});
      if g.address == 0 then Granted(KfreePages(g.memory, kroot, first, 0, i), 0)
      else KmallocRest(g.memory, kroot, first, i + 1, count)
  }

  /** kmalloc_pages */
  function KmallocPages(x: Machine, count: nat): Reply {
    var r := KmallocPage(x);
    if r.address == 0 then r
    else
      var g := KmallocRest(r.machine.memory, x.kroot, r.address, 1, count);
      Reply(r.machine.(memory := g.memory), g.address)
  }

  /** `count` page-aligned kernel addresses that do not wrap around. */
  predicate KernelRun(first: nat, count: nat) {
    KERNEL_BASE <= first && first % PAGE_SIZE == 0 && Nth(first, count) <= TWO_64
  }

  lemma NthOfRun(first: nat, i: nat, count: nat)
    requires KernelRun(first, count) && i < count
    ensures var va := Nth(first, i);
            PageOf(va).a >= KERNEL_HALF && va % PAGE_SIZE == 0 && PageStart(va) == va && va >= PAGE_SIZE && va < TWO_64
  {
    hide PageOf, PageStart, Nth;
    NthAligned(first, i, count);
    KernelPage(Nth(first, i));
    AlignedStart(Nth(first, i));
  }

  lemma NthAligned(first: nat, i: nat, count: nat)
    requires KernelRun(first, count) && i < count
    ensures Nth(first, i) % PAGE_SIZE == 0 && KERNEL_BASE <= Nth(first, i) < TWO_64
  {
  }

  lemma AlignedStart(va: nat)
    requires va % PAGE_SIZE == 0
    ensures PageStart(va) == va
  {
  }

  lemma KernelPage(va: nat)
    requires KERNEL_BASE <= va < TWO_64
    ensures PageOf(va).a == 511
  {
  }

  /** `q` is one of the pages `lo` to `hi` of a run. */
  ghost predicate InRun(q: Page, first: nat, lo: nat, hi: nat) {
    exists j: nat :: lo <= j < hi && q == PageOf(Nth(first, j))
  }

  lemma InLongerRun(q: Page, first: nat, lo: nat, hi: nat)
    requires lo < hi
    ensures InRun(q, first, lo, hi) <==> q == PageOf(Nth(first, lo)) || InRun(q, first, lo + 1, hi)
    ensures InRun(q, first, lo, hi) <==> q == PageOf(Nth(first, hi - 1)) || InRun(q, first, lo, hi - 1)
  {
    hide PageOf, Nth;
    var l, h: nat := lo, hi - 1;
    assert lo <= l < hi && lo <= h < hi;
  }

  /** Page `q` of space `s` is one of the pages `lo` to `hi` of a run, and the kernel's. */
  ghost predicate Hit(own: Owners, s: nat, q: Page, first: nat, lo: nat, hi: nat) {
    s in own && Common(own[s].place, q.a) && InRun(q, first, lo, hi)
  }

  /** The run is unmapped in every space that has it in common, and no other page has changed. */
  ghost predicate Cleared(m: Memory, v: Memory, own: Owners, kroot: nat, first: nat, lo: nat, hi: nat) {
    forall s, q: Page :: Space(own, kroot, s, q) ==>
      Translate(v, s, q) == if Hit(own, s, q, first, lo, hi) then None else Translate(m, s, q)
  }

  /** kfree_pages unmaps its pages in every space, changes no other page, and frees their frames. */
  lemma {:induction false} KfreePagesKeeps(m: Memory, own: Owners, kroot: nat, reserved: set<nat>, first: nat, i: nat,
                                           count: nat)
    returns (now: Owners)
    requires Inv(m, own, kroot, reserved) && KernelRun(first, count)
    ensures var v := KfreePages(m, kroot, first, i, count);
            && Inv(v, now, kroot, reserved) && SameRoots(own, now) && RootsKept(m, v, own, kroot)
            && Cleared(m, v, own, kroot, first, i, count) && FlagsPass(m, own, v, now, kroot, true)
    decreases count - i
  {
    FlagsSame(m, own, kroot, true);
    hide PlacesOk, FlagsPass;
    hide Inv, KernelRun, SameRoots, RootsKept, Cleared, OnlyPage, Shows, Release, Nth, PageOf;
    if i >= count {
      now := own;
      NothingCleared(m, own, kroot, first, i, count);
    } else {
      now := KfreeOne(m, own, kroot, reserved, first, i, count);
      var u, v := Release(m, kroot, Nth(first, i)), KfreePages(m, kroot, first, i, count);
      var end := KfreePagesKeeps(u, now, kroot, reserved, first, i + 1, count);
      ClearedOneMore(m, u, v, own, now, kroot, first, i, count);
      ThenRoots(m, u, v, own, now, end, kroot);
      FlagsTwice(m, own, u, now, v, end, kroot, true);
      now := end;
    }
  }

  lemma NothingCleared(m: Memory, own: Owners, kroot: nat, first: nat, lo: nat, hi: nat)
    requires lo >= hi
    ensures SameRoots(own, own) && RootsKept(m, m, own, kroot) && Cleared(m, m, own, kroot, first, lo, hi)
  {
    hide PageOf, Nth, Translate, Look;
  }

  lemma KfreeOne(m: Memory, own: Owners, kroot: nat, reserved: set<nat>, first: nat, i: nat, count: nat)
    returns (now: Owners)
    requires Inv(m, own, kroot, reserved) && KernelRun(first, count) && i < count
    ensures var v, p := Release(m, kroot, Nth(first, i)), PageOf(Nth(first, i));
            && Inv(v, now, kroot, reserved) && SameRoots(own, now) && RootsKept(m, v, own, kroot)
            && OnlyPage(m, v, own, kroot, kroot, p) && Shows(v, own, kroot, kroot, p, None) && p.a >= KERNEL_HALF
            && FlagsPass(m, own, v, now, kroot, true) && PlacesOk(own, kroot)
  {
    NthOfRun(first, i, count);
    assert Mappable(own, kroot, kroot, PageOf(Nth(first, i)));
    hide *;
    var kept: set<nat>;
    now, kept := ReleaseKeeps(m, own, kroot, reserved, kroot, Nth(first, i));
  }

  lemma ClearedOneMore(m: Memory, u: Memory, v: Memory, own: Owners, mid: Owners, kroot: nat, first: nat, i: nat,
                       count: nat)
    requires i < count && SameRoots(own, mid) && PageOf(Nth(first, i)).a >= KERNEL_HALF
    requires PlacesOk(own, kroot) && OnlyPage(m, u, own, kroot, kroot, PageOf(Nth(first, i)))
             && Shows(u, own, kroot, kroot, PageOf(Nth(first, i)), None)
    requires Cleared(u, v, mid, kroot, first, i + 1, count)
    ensures Cleared(m, v, own, kroot, first, i, count)
  {
    var p := PageOf(Nth(first, i));
    SameMappable(own, mid, kroot, kroot, p);
    hide PageOf, Nth, Translate, Space, SameRoots, InRun;
    forall s, q: Page | Space(own, kroot, s, q)
      ensures Translate(v, s, q) == if Hit(own, s, q, first, i, count) then None else Translate(m, s, q)
    {
      InLongerRun(q, first, i, count);
      assert Space(mid, kroot, s, q);
    }
  }

  lemma ThenRoots(m: Memory, u: Memory, v: Memory, own: Owners, mid: Owners, now: Owners, kroot: nat)
    requires SameRoots(own, mid) && SameRoots(mid, now) && RootsKept(m, u, own, kroot) && RootsKept(u, v, mid, kroot)
    ensures SameRoots(own, now) && RootsKept(m, v, own, kroot)
  {
    hide Look;
  }

  /** The pages of a run were unmapped wherever they are the kernel's; only their translations have changed. */
  ghost predicate OnlyRun(m: Memory, v: Memory, own: Owners, kroot: nat, first: nat, n: nat) {
    forall s, q: Page :: Space(own, kroot, s, q) ==>
      if Hit(own, s, q, first, 0, n) then Translate(m, s, q) == None else Translate(v, s, q) == Translate(m, s, q)
  }

  ghost predicate MappedAt(m: Memory, kroot: nat, va: nat) {
    var t := Translate(m, kroot, PageOf(va));
    t.Some? && t.value.flags == {Present, Writable}
  }

  /** All pages of a run are mapped for the kernel. */
  ghost predicate MappedRun(m: Memory, kroot: nat, first: nat, n: nat) {
    forall j: nat :: j < n ==> MappedAt(m, kroot, Nth(first, j))
  }

  lemma RunGrows(m0: Memory, m: Memory, v: Memory, own: Owners, mid: Owners, kroot: nat, first: nat, i: nat)
    requires PlacesOk(mid, kroot) && SameRoots(own, mid) && OnlyRun(m0, m, own, kroot, first, i)
    requires PageOf(Nth(first, i)).a >= KERNEL_HALF
    requires FreshlyMapped(m, v, mid, kroot, kroot, PageOf(Nth(first, i)), {Writable})
    ensures OnlyRun(m0, v, own, kroot, first, i + 1)
  {
    var p := PageOf(Nth(first, i));
    assert Common(mid[kroot].place, p.a) && (kroot in own ==> own[kroot].place == mid[kroot].place);
    hide PageOf, Nth, Translate, InRun, SameRoots, Space;
    SameMappable(mid, own, kroot, kroot, p);
    forall s, q: Page | Space(own, kroot, s, q)
      ensures if Hit(own, s, q, first, 0, i + 1) then Translate(m0, s, q) == None
              else Translate(v, s, q) == Translate(m0, s, q)
    {
      InLongerRun(q, first, 0, i + 1);
      assert Space(mid, kroot, s, q);
    }
  }

  lemma MappedGrows(m: Memory, v: Memory, own: Owners, kroot: nat, first: nat, i: nat)
    requires MappedRun(m, kroot, first, i) && PlacesOk(own, kroot)
    requires forall j: nat :: j < i + 1 ==> PageOf(Nth(first, j)).a >= KERNEL_HALF
    requires FreshlyMapped(m, v, own, kroot, kroot, PageOf(Nth(first, i)), {Writable})
    ensures MappedRun(v, kroot, first, i + 1)
  {
    hide PageOf, Translate, Nth, Shows, PlaceOk;
    forall j: nat | j < i + 1 ensures MappedAt(v, kroot, Nth(first, j)) {
      assert Space(own, kroot, kroot, PageOf(Nth(first, j)));
      if j < i {
        assert MappedAt(m, kroot, Nth(first, j));
      }
    }
  }

  lemma FirstOfRun(m: Memory, v: Memory, own: Owners, kroot: nat, first: nat)
    requires FreshlyMapped(m, v, own, kroot, kroot, PageOf(Nth(first, 0)), {Writable}) && PlacesOk(own, kroot)
    requires PageOf(Nth(first, 0)).a >= KERNEL_HALF
    ensures OnlyRun(m, v, own, kroot, first, 1) && MappedRun(v, kroot, first, 1)
  {
    hide PageOf, Translate, Nth;
    assert SameRoots(own, own) && OnlyRun(m, m, own, kroot, first, 0);
    RunGrows(m, m, v, own, own, kroot, first, 0);
    MappedGrows(m, v, own, kroot, first, 0);
  }

  /** Undoing a run whose pages had been unmapped restores all translations. */
  lemma RunUndone(m0: Memory, m: Memory, u: Memory, v: Memory, own: Owners, mid: Owners, now: Owners, kroot: nat,
                  first: nat, i: nat)
    requires SameRoots(own, mid) && SameRoots(mid, now) && OnlyRun(m0, m, own, kroot, first, i)
    requires SameTranslations(m, u, mid, kroot) && Cleared(u, v, now, kroot, first, 0, i)
    ensures SameTranslations(m0, v, own, kroot)
  {
    hide PageOf, Nth, Translate, InRun, SameRoots, Space;
    forall s, q: Page | Space(own, kroot, s, q) ensures Translate(v, s, q) == Translate(m0, s, q) {
      SameMappable(own, mid, kroot, s, q);
      SameMappable(mid, now, kroot, s, q);
      assert Space(mid, kroot, s, q) && Space(now, kroot, s, q);
    }
  }

  /** What a call that maps `n` kernel pages from `first` on has done when it returns `address`. */
  ghost predicate Served(m: Memory, v: Memory, own: Owners, kroot: nat, first: nat, n: nat, address: nat) {
    if address == 0 then SameTranslations(m, v, own, kroot)
    else address == first && OnlyRun(m, v, own, kroot, first, n) && MappedRun(v, kroot, first, n)
  }

  function Max(a: nat, b: nat): nat {
    if a < b then b else a
  }

  /** What the loop has done when it returns `g`, from the memory `m` on that it had reached. */
  ghost predicate RestDone(m0: Memory, own0: Owners, m: Memory, own: Owners, g: Granted, now: Owners, kroot: nat,
                           reserved: set<nat>, first: nat, n: nat) {
    && Inv(g.memory, now, kroot, reserved) && SameRoots(own0, now) && RootsKept(m0, g.memory, own0, kroot)
    && Served(m0, g.memory, own0, kroot, first, n, g.address) && FlagsPass(m, own, g.memory, now, kroot, true)
  }

  lemma {:induction false} KmallocRestKeeps(m0: Memory, m: Memory, own0: Owners, own: Owners, kroot: nat,
                                            reserved: set<nat>, first: nat, i: nat, count: nat)
    returns (now: Owners)
    requires Inv(m, own, kroot, reserved) && KernelRun(first, Max(i, count))
    requires SameRoots(own0, own) && RootsKept(m0, m, own0, kroot)
    requires OnlyRun(m0, m, own0, kroot, first, i) && MappedRun(m, kroot, first, i)
    ensures RestDone(m0, own0, m, own, KmallocRest(m, kroot, first, i, count), now, kroot, reserved, first,
                     Max(i, count))
    decreases count - i
  {
    hide Inv, KernelRun, SameRoots, RootsKept, OnlyRun, MappedRun, MapFresh, Nth, PageOf, KfreePages, SameTranslations,
         FlagsPass, RestDone, KmallocRest;
    if i >= count {
      now := own;
      RestEnds(m0, own0, m, own, kroot, reserved, first, i, count);
    } else {
      var g := MapFresh(m, kroot, Nth(first, i), {Writable});
      RestUnfolds(m, kroot, first, i, count);
      var mid := RestStep(m0, m, own0, own, kroot, reserved, first, i, count);
      if g.address == 0 {
        now := RestFails(m0, m, g.memory, own0, own, mid, kroot, reserved, first, i, count);
        RestFailed(m0, own0, m, own, g.memory, mid, now, kroot, reserved, first, i, Max(i, count));
      } else {
        now := KmallocRestKeeps(m0, g.memory, own0, mid, kroot, reserved, first, i + 1, count);
        RestWent(m0, own0, m, own, g.memory, mid, KmallocRest(g.memory, kroot, first, i + 1, count), now, kroot,
                 reserved, first, Max(i, count));
      }
    }
  }

  lemma RestEnds(m0: Memory, own0: Owners, m: Memory, own: Owners, kroot: nat, reserved: set<nat>, first: nat, i: nat,
                 count: nat)
    requires i >= count && KernelRun(first, Max(i, count)) && Inv(m, own, kroot, reserved)
    requires SameRoots(own0, own) && RootsKept(m0, m, own0, kroot)
    requires OnlyRun(m0, m, own0, kroot, first, i) && MappedRun(m, kroot, first, i)
    ensures RestDone(m0, own0, m, own, KmallocRest(m, kroot, first, i, count), own, kroot, reserved, first,
                     Max(i, count))
  {
    assert first != 0;
    FlagsSame(m, own, kroot, true);
    hide Inv, KernelRun, SameRoots, RootsKept, OnlyRun, MappedRun, FlagsPass, SameTranslations;
  }

  lemma RestFailed(m0: Memory, own0: Owners, m: Memory, own: Owners, u: Memory, mid: Owners, now: Owners, kroot: nat,
                   reserved: set<nat>, first: nat, i: nat, n: nat)
    requires FlagsPass(m, own, u, mid, kroot, true)
    requires var v := KfreePages(u, kroot, first, 0, i);
             && Inv(v, now, kroot, reserved) && SameRoots(own0, now) && RootsKept(m0, v, own0, kroot)
             && SameTranslations(m0, v, own0, kroot) && FlagsPass(u, mid, v, now, kroot, true)
    ensures RestDone(m0, own0, m, own, Granted(KfreePages(u, kroot, first, 0, i), 0), now, kroot, reserved, first, n)
  {
    hide Inv, SameRoots, RootsKept, OnlyRun, MappedRun, FlagsPass, SameTranslations, KfreePages;
    FlagsTwice(m, own, u, mid, KfreePages(u, kroot, first, 0, i), now, kroot, true);
  }

  lemma RestWent(m0: Memory, own0: Owners, m: Memory, own: Owners, u: Memory, mid: Owners, g: Granted, now: Owners,
                 kroot: nat, reserved: set<nat>, first: nat, n: nat)
    requires FlagsPass(m, own, u, mid, kroot, true)
    requires RestDone(m0, own0, u, mid, g, now, kroot, reserved, first, n)
    ensures RestDone(m0, own0, m, own, g, now, kroot, reserved, first, n)
  {
    hide Inv, SameRoots, RootsKept, Served, FlagsPass;
    FlagsTwice(m, own, u, mid, g.memory, now, kroot, true);
  }

  lemma RestUnfolds(m: Memory, kroot: nat, first: nat, i: nat, count: nat)
    requires i < count
    ensures var g := MapFresh(m, kroot, Nth(first, i), {Writable});
            KmallocRest(m, kroot, first, i, count)
            == if g.address == 0 then Granted(KfreePages(g.memory, kroot, first, 0, i), 0)
               else KmallocRest(g.memory, kroot, first, i + 1, count)
    ensures Max(i, count) == Max(i + 1, count)
  {
    hide MapFresh, KfreePages, Nth;
  }

  /** The flags that kernel calls give fit kernel pages. */
  lemma KernelFlags(p: Page)
    ensures p.a >= KERNEL_HALF ==> FlagsFor(p, {Writable})
  {
  }

  lemma RestStep(m0: Memory, m: Memory, own0: Owners, own: Owners, kroot: nat, reserved: set<nat>, first: nat, i: nat,
                 count: nat)
    returns (now: Owners)
    requires Inv(m, own, kroot, reserved) && i < count && KernelRun(first, count)
    requires SameRoots(own0, own) && RootsKept(m0, m, own0, kroot)
    requires OnlyRun(m0, m, own0, kroot, first, i) && MappedRun(m, kroot, first, i)
    ensures var g := MapFresh(m, kroot, Nth(first, i), {Writable});
            && Inv(g.memory, now, kroot, reserved) && SameRoots(own, now) && SameRoots(own0, now)
            && RootsKept(m, g.memory, own, kroot) && RootsKept(m0, g.memory, own0, kroot)
            && (g.address == 0 ==> SameTranslations(m, g.memory, own, kroot))
            && (g.address != 0 ==>
                  OnlyRun(m0, g.memory, own0, kroot, first, i + 1) && MappedRun(g.memory, kroot, first, i + 1))
            && FlagsPass(m, own, g.memory, now, kroot, true)
  {
    forall j: nat | j < i + 1 ensures PageOf(Nth(first, j)).a >= KERNEL_HALF {
      NthOfRun(first, j, count);
    }
    NthOfRun(first, i, count);
    assert Mappable(own, kroot, kroot, PageOf(Nth(first, i)));
    KernelFlags(PageOf(Nth(first, i)));
    hide KernelRun, SameRoots, RootsKept, OnlyRun, MappedRun, MapFresh, Nth, PageOf, SameTranslations, Mappable,
         Translate, Tree, Linked, Shares, Counted, Distinct, PlacesOk, FreshlyMapped, FlagsPass, FlagsFor, NearlyFull;
    now := MapFreshKeeps(m, own, kroot, reserved, kroot, Nth(first, i), {Writable});
    var g := MapFresh(m, kroot, Nth(first, i), {Writable});
    ThenRoots(m0, m, g.memory, own0, own, now, kroot);
    FlagsUnder(m, own, g.memory, now, kroot, FlagsFor(PageOf(Nth(first, i)), {Writable}), true);
    if g.address != 0 {
      RunGrows(m0, m, g.memory, own0, own, kroot, first, i);
      MappedGrows(m, g.memory, own, kroot, first, i);
    }
  }

  lemma RestFails(m0: Memory, m: Memory, u: Memory, own0: Owners, own: Owners, mid: Owners, kroot: nat,
                  reserved: set<nat>, first: nat, i: nat, count: nat)
    returns (now: Owners)
    requires Inv(u, mid, kroot, reserved) && i <= count && KernelRun(first, count)
    requires SameRoots(own0, own) && SameRoots(own, mid) && SameRoots(own0, mid) && RootsKept(m0, u, own0, kroot)
    requires OnlyRun(m0, m, own0, kroot, first, i) && SameTranslations(m, u, own, kroot)
    ensures var v := KfreePages(u, kroot, first, 0, i);
            && Inv(v, now, kroot, reserved) && SameRoots(own0, now) && RootsKept(m0, v, own0, kroot)
            && SameTranslations(m0, v, own0, kroot) && FlagsPass(u, mid, v, now, kroot, true)
  {
    assert KernelRun(first, i);
    hide Inv, KernelRun, SameRoots, RootsKept, OnlyRun, Nth, PageOf, KfreePages, SameTranslations, Cleared, FlagsPass;
    now := KfreePagesKeeps(u, mid, kroot, reserved, first, 0, i);
    var v := KfreePages(u, kroot, first, 0, i);
    ThenRoots(m0, u, v, own0, mid, now, kroot);
    RunUndone(m0, m, u, v, own0, own, mid, kroot, first, i);
  }

  // ---------- kmalloc_page and kmalloc_pages ----------

  /** kmalloc_page maps the next kernel page to a free frame, or fails and changes no translation. */
  lemma KmallocPageKeeps(x: Machine, own: Owners, reserved: set<nat>) returns (now: Owners)
    requires Inv(x.memory, own, x.kroot, reserved) && KernelRun(x.heap, 1)
    ensures var r := KmallocPage(x);
            && Inv(r.machine.memory, now, x.kroot, reserved) && SameRoots(own, now)
            && RootsKept(x.memory, r.machine.memory, own, x.kroot)
            && Served(x.memory, r.machine.memory, own, x.kroot, x.heap, 1, r.address)
            && (r.address == 0 ==> r.machine.heap == x.heap
                                   && (Translate(x.memory, x.kroot, PageOf(x.heap)).Some?
                                       || NearlyFull(r.machine.memory)))
            && (r.address != 0 ==> r.machine.heap == Wrap(x.heap + PAGE_SIZE))
            && FlagsPass(x.memory, own, r.machine.memory, now, x.kroot, true)
  {
    KernelFlags(PageOf(x.heap));
    hide KernelRun, SameRoots, RootsKept, Served, MapFresh, Nth, PageOf, SameTranslations, Mappable, Translate,
         KmallocPage, Tree, Linked, Shares, Counted, Distinct, PlacesOk, FreshlyMapped, NearlyFull, PageStart, Wrap,
         FlagsPass, FlagsFor;
    FirstPage(x, own);
    PageAsked(x);
    now := MapFreshKeeps(x.memory, own, x.kroot, reserved, x.kroot, x.heap, {Writable});
    FlagsUnder(x.memory, own, KmallocPage(x).machine.memory, now, x.kroot, FlagsFor(PageOf(x.heap), {Writable}), true);
    PageServed(x, own, KmallocPage(x));
  }

  /** What kmalloc_page asks for. */
  lemma FirstPage(x: Machine, own: Owners)
    requires KernelRun(x.heap, 1)
    ensures PlacesOk(own, x.kroot) ==> Mappable(own, x.kroot, x.kroot, PageOf(x.heap))
    ensures x.heap >= PAGE_SIZE && PageStart(x.heap) == x.heap == Nth(x.heap, 0) && PageOf(x.heap).a >= KERNEL_HALF
  {
    NthOfRun(x.heap, 0, 1);
    assert Nth(x.heap, 0) == x.heap;
    hide PageOf, KernelRun, Nth, PageStart, PlaceOk;
  }

  lemma PageAsked(x: Machine)
    ensures var g, r := MapFresh(x.memory, x.kroot, x.heap, {Writable}), KmallocPage(x);
            && r.machine.memory == g.memory && r.machine.kroot == x.kroot && r.machine.roots == x.roots
            && r.address == g.address
            && r.machine.heap == if g.address != 0 then Wrap(x.heap + PAGE_SIZE) else x.heap
  {
    hide MapFresh, Wrap;
  }

  lemma PageServed(x: Machine, own: Owners, r: Reply)
    requires PlacesOk(own, x.kroot) && x.heap == Nth(x.heap, 0) && x.heap != 0 && PageOf(x.heap).a >= KERNEL_HALF
    requires r.address == 0 ==> SameTranslations(x.memory, r.machine.memory, own, x.kroot)
    requires r.address != 0 ==>
               r.address == x.heap
               && FreshlyMapped(x.memory, r.machine.memory, own, x.kroot, x.kroot, PageOf(x.heap), {Writable})
    ensures Served(x.memory, r.machine.memory, own, x.kroot, x.heap, 1, r.address)
  {
    hide PageOf, PlacesOk, SameTranslations, FreshlyMapped, OnlyRun, MappedRun, Nth;
    if r.address != 0 {
      FirstOfRun(x.memory, r.machine.memory, own, x.kroot, x.heap);
    }
  }

  /**
   * kmalloc_pages either maps all its pages, the first at the next kernel address, or changes no translation in any
   * space: every data frame it took is free again.
   */
  lemma KmallocPagesKeeps(x: Machine, own: Owners, reserved: set<nat>, count: nat) returns (now: Owners)
    requires Inv(x.memory, own, x.kroot, reserved) && KernelRun(x.heap, Max(1, count))
    ensures var r := KmallocPages(x, count);
            && Inv(r.machine.memory, now, x.kroot, reserved) && SameRoots(own, now)
            && RootsKept(x.memory, r.machine.memory, own, x.kroot)
            && Served(x.memory, r.machine.memory, own, x.kroot, x.heap, Max(1, count), r.address)
            && (r.address != 0 ==> r.machine.heap == Wrap(x.heap + PAGE_SIZE))
            && FlagsPass(x.memory, own, r.machine.memory, now, x.kroot, true)
  {
    assert KernelRun(x.heap, 1);
    hide Inv, KernelRun, SameRoots, RootsKept, OnlyRun, MappedRun, KmallocRest, Nth, PageOf, SameTranslations,
         KmallocPage, NearlyFull, Translate, Wrap, FlagsPass;
    now := KmallocPageKeeps(x, own, reserved);
    var r := KmallocPage(x);
    if r.address != 0 {
      var mid := now;
      now := KmallocRestKeeps(x.memory, r.machine.memory, own, mid, x.kroot, reserved, x.heap, 1, count);
      assert Max(1, count) == if count > 1 then count else 1;
      FlagsTwice(x.memory, own, r.machine.memory, mid, KmallocPages(x, count).machine.memory, now, x.kroot, true);
    }
  }

  /** After kmalloc_pages has handed out several pages, kmalloc_page tries the second of them again and fails. */
  lemma NextCallCollides(x: Machine, own: Owners, reserved: set<nat>, count: nat)
    requires Inv(x.memory, own, x.kroot, reserved) && KernelRun(x.heap, count) && count >= 2
    requires KmallocPages(x, count).address != 0
    ensures KmallocPage(KmallocPages(x, count).machine).address == 0
  {
    hide KernelRun, SameRoots, RootsKept, Served, Nth, PageOf, Translate, KmallocPage, KmallocPages, Tree, Linked,
         Shares, Counted, Distinct, PlacesOk, NearlyFull, Wrap;
    var r := KmallocPages(x, count);
    SameKernel(x, count);
    var now := KmallocPagesKeeps(x, own, reserved, count);
    SecondPage(x.memory, r.machine.memory, own, x.kroot, x.heap, count, r.address);
    SameKernel(r.machine, count);
    var later := KmallocPageKeeps(r.machine, now, reserved);
    SecondPageTaken(r.machine, now, KmallocPage(r.machine));
  }

  lemma SameKernel(x: Machine, count: nat)
    ensures KmallocPages(x, count).machine.kroot == KmallocPage(x).machine.kroot == x.kroot
  {
  }

  /** The second page of a run is mapped, and is where kmalloc_page goes on. */
  lemma SecondPage(m: Memory, v: Memory, own: Owners, kroot: nat, first: nat, count: nat, address: nat)
    requires KernelRun(first, count) && count >= 2 && address != 0 && Served(m, v, own, kroot, first, count, address)
    ensures Wrap(first + PAGE_SIZE) == Nth(first, 1) && Nth(Nth(first, 1), 0) == Nth(first, 1)
    ensures KernelRun(Nth(first, 1), 1) && PageOf(Nth(first, 1)).a >= KERNEL_HALF
    ensures Translate(v, kroot, PageOf(Nth(first, 1))).Some?
  {
    assert MappedAt(v, kroot, Nth(first, 1));
    NthOfRun(first, 1, count);
    hide PageOf, Translate, OnlyRun;
  }

  lemma SecondPageTaken(x: Machine, own: Owners, r: Reply)
    requires Translate(x.memory, x.kroot, PageOf(x.heap)).Some? && Nth(x.heap, 0) == x.heap
    requires PageOf(x.heap).a >= KERNEL_HALF
    requires Served(x.memory, r.machine.memory, own, x.kroot, x.heap, 1, r.address) && PlacesOk(own, x.kroot)
    ensures r.address == 0
  {
    hide PageOf, Nth, Translate, MappedRun, SameTranslations;
    var p, j: nat := PageOf(x.heap), 0;
    assert 0 <= j < 1 && p == PageOf(Nth(x.heap, j));
    assert InRun(p, x.heap, 0, 1) && Space(own, x.kroot, x.kroot, p) && Common(own[x.kroot].place, p.a);
  }
}
