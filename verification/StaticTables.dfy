/** What no page call ever writes: reserved frames, and the lower half of the kernel's PML4. */
module StaticTables {
  import opened PageTables
  import opened PageTrees
  import opened PageWalks
  import opened PageCalls
  import opened KernelPages
  import opened FrameNeeds
  import opened SharedPages
  import opened UserPages
  import opened PageRuns

  /** The fixed frames and the lower half of the kernel's PML4 are as before. */
  ghost predicate Static(m: Memory, v: Memory, fixed: set<nat>, kroot: nat) {
    forall t, i: Index :: t in fixed || (t == kroot && i < KERNEL_HALF) ==> Look(v, t, i) == Look(m, t, i)
  }

  lemma StaticTwice(m: Memory, u: Memory, v: Memory, fixed: set<nat>, kroot: nat)
    requires Static(m, u, fixed, kroot) && Static(u, v, fixed, kroot)
    ensures Static(m, v, fixed, kroot)
  {
    hide Look;
  }

  lemma StaticPut(m: Memory, t: nat, i: Index, e: Entry, fixed: set<nat>, kroot: nat)
    requires t !in fixed && Tracked(kroot, t, i)
    ensures Static(m, Put(m, t, i, e), fixed, kroot)
  {
    if t < |m.tables| {
      LookPut(m, t, i, e);
    }
    hide Look;
  }

  /** The frames in use that hang in no tree. */
  lemma FixedFrames(m: Memory, own: Owners, kroot: nat, reserved: set<nat>, fixed: set<nat>)
    requires Inv(m, own, kroot, reserved) && fixed <= reserved
    ensures fixed <= m.used && kroot in m.used && forall t :: t in own ==> t !in fixed
  {
    assert forall t :: t in own ==> t in own.Keys;
    hide Tree, Linked, Shares, Distinct, PlaceOk;
  }

  lemma AllocStatic(m: Memory, own: Owners, kroot: nat, reserved: set<nat>, fixed: set<nat>)
    requires Inv(m, own, kroot, reserved) && fixed <= reserved
    ensures Static(m, AllocPage(m).memory, fixed, kroot)
  {
    FixedFrames(m, own, kroot, reserved, fixed);
    AllocTakesLeast(m);
    hide Inv, AllocPage, Look;
  }

  lemma FreeStatic(m: Memory, address: nat, fixed: set<nat>, kroot: nat)
    ensures Static(m, FreePage(m, address), fixed, kroot)
  {
    FreedTables(m, address);
    hide FreePage, Look;
  }

  // ---------- walking, mapping and unmapping ----------

  lemma NextStatic(m: Memory, own: Owners, kroot: nat, reserved: set<nat>, fixed: set<nat>, t: nat, p: Page, level: nat,
                   flags: set<Flag>)
    requires Inv(m, own, kroot, reserved) && fixed <= reserved && level > 1 && Walking(own, kroot, t, p, level)
    ensures Static(m, NextTable(m, t, At(p, level), true, flags).memory, fixed, kroot)
  {
    FixedFrames(m, own, kroot, reserved, fixed);
    AllocStatic(m, own, kroot, reserved, fixed);
    hide Inv, AllocPage, Put, Look, Static;
    StaticSame(m, fixed, kroot);
    var a := AllocPage(m);
    if a.frame.Some? {
      var e := Entry(a.frame.value, {Present, Writable} + flags);
      StaticPut(a.memory, t, At(p, level), e, fixed, kroot);
      StaticTwice(m, a.memory, Put(a.memory, t, At(p, level), e), fixed, kroot);
    }
  }

  lemma StaticSame(m: Memory, fixed: set<nat>, kroot: nat)
    ensures Static(m, m, fixed, kroot)
  {
  }

  lemma {:induction false} WalkStatic(m: Memory, own: Owners, kroot: nat, reserved: set<nat>, fixed: set<nat>, t: nat,
                                      p: Page, level: nat, flags: set<Flag>)
    requires Inv(m, own, kroot, reserved) && fixed <= reserved && Walking(own, kroot, t, p, level)
    ensures 1 <= level <= 4 && Static(m, WalkFrom(m, t, p, level, true, flags).memory, fixed, kroot)
    decreases level
  {
    InTrees(own, kroot, t, p, level);
    if level == 1 {
      StaticSame(m, fixed, kroot);
    } else {
      WalkStepOn(m, t, p, level, flags);
      hide *;
      NextStatic(m, own, kroot, reserved, fixed, t, p, level, flags);
      var now := NextKeeps(m, own, kroot, reserved, t, p, level, flags);
      var r := NextTable(m, t, At(p, level), true, flags);
      if r.frame.Some? {
        WalksOn(m, own, now, kroot, reserved, r.memory, t, r.frame.value, p, level);
        WalkStatic(r.memory, now, kroot, reserved, fixed, r.frame.value, p, level - 1, flags);
        StaticTwice(m, r.memory, WalkFrom(r.memory, r.frame.value, p, level - 1, true, flags).memory, fixed, kroot);
      }
    }
  }

  lemma MapStatic(m: Memory, own: Owners, kroot: nat, reserved: set<nat>, fixed: set<nat>, root: nat, frame: nat,
                  p: Page, flags: set<Flag>)
    requires Inv(m, own, kroot, reserved) && fixed <= reserved && Mappable(own, kroot, root, p)
    ensures Static(m, MapPage(m, root, frame, p, flags).memory, fixed, kroot)
  {
    RootWalks(m, own, kroot, reserved, root, p);
    WalkStatic(m, own, kroot, reserved, fixed, root, p, 4, flags);
    hide Inv, WalkFrom, Look, Put, Static, Grown, SameTranslations, EntriesKept, FlagsPass, WalkFits, Follow, Reached,
         Depth, PlaceFrom, Walking, Mappable;
    var now := WalkKeeps(m, own, kroot, reserved, root, p, 4, flags);
    var w := Walk(m, root, p, true, flags);
    if w.frame.Some? {
      var pt, e := w.frame.value, Entry(frame, {Present} + flags);
      FixedFrames(w.memory, now, kroot, reserved, fixed);
      StaticPut(w.memory, pt, p.d, e, fixed, kroot);
      StaticTwice(m, w.memory, Put(w.memory, pt, p.d, e), fixed, kroot);
    }
  }

  lemma UnmapStatic(m: Memory, own: Owners, kroot: nat, reserved: set<nat>, fixed: set<nat>, root: nat, p: Page)
    requires Inv(m, own, kroot, reserved) && fixed <= reserved && Space(own, kroot, root, p)
    ensures Static(m, UnmapPage(m, root, p), fixed, kroot)
  {
    LookedUp(m, own, kroot, root, p);
    FixedFrames(m, own, kroot, reserved, fixed);
    StaticSame(m, fixed, kroot);
    hide Inv, WalkFrom, Look, Put, Static, Follow, Reached, Depth, PlaceFrom;
    match Walk(m, root, p, false, {}).frame
    case None =>
    case Some(pt) =>
      StaticPut(m, pt, p.d, EMPTY, fixed, kroot);
  }

  lemma FreshStatic(m: Memory, own: Owners, kroot: nat, reserved: set<nat>, fixed: set<nat>, root: nat, va: nat,
                    flags: set<Flag>)
    requires Inv(m, own, kroot, reserved) && fixed <= reserved && Mappable(own, kroot, root, PageOf(va))
    ensures Static(m, MapFresh(m, root, va, flags).memory, fixed, kroot)
  {
    hide Inv, AllocPage, MapPage, FreePage, PageOf, PageStart, Look, Static, Mappable;
    AllocStatic(m, own, kroot, reserved, fixed);
    AllocKeeps(m, own, kroot, reserved);
    AllocNone(m);
    var a := AllocPage(m);
    if a.frame.Some? {
      var f := a.frame.value;
      MapStatic(a.memory, own, kroot, reserved + {f}, fixed, root, f, PageOf(va), flags);
      var v := MapPage(a.memory, root, f, PageOf(va), flags).memory;
      StaticTwice(m, a.memory, v, fixed, kroot);
      FreeStatic(v, f * PAGE_SIZE, fixed, kroot);
      StaticTwice(m, v, FreePage(v, f * PAGE_SIZE), fixed, kroot);
    }
  }

  lemma ReleaseStatic(m: Memory, own: Owners, kroot: nat, reserved: set<nat>, fixed: set<nat>, root: nat, va: nat)
    requires Inv(m, own, kroot, reserved) && fixed <= reserved && Mappable(own, kroot, root, PageOf(va))
    ensures Static(m, Release(m, root, va), fixed, kroot)
  {
    assert Space(own, kroot, root, PageOf(va));
    hide Inv, UnmapPage, FreePage, PageOf, PhysicalAddress, Look, Static, Space, Mappable;
    StaticSame(m, fixed, kroot);
    UnmapStatic(m, own, kroot, reserved, fixed, root, PageOf(va));
    var u, address := UnmapPage(m, root, PageOf(va)), PhysicalAddress(m, root, va);
    FreeStatic(u, address, fixed, kroot);
    StaticTwice(m, u, FreePage(u, address), fixed, kroot);
  }

  lemma {:induction false} KfreePagesStatic(m: Memory, own: Owners, kroot: nat, reserved: set<nat>, fixed: set<nat>,
                                            first: nat, i: nat, count: nat)
    requires Inv(m, own, kroot, reserved) && fixed <= reserved && KernelRun(first, count)
    ensures Static(m, KfreePages(m, kroot, first, i, count), fixed, kroot)
    decreases count - i
  {
    hide *;
    FreeUnfolds(m, kroot, first, i, count);
    if i >= count {
      StaticSame(m, fixed, kroot);
    } else {
      NthMappable(m, own, kroot, reserved, first, i, count);
      ReleaseStatic(m, own, kroot, reserved, fixed, kroot, Nth(first, i));
      var now := KfreeOne(m, own, kroot, reserved, first, i, count);
      var u := Release(m, kroot, Nth(first, i));
      KfreePagesStatic(u, now, kroot, reserved, fixed, first, i + 1, count);
      StaticTwice(m, u, KfreePages(u, kroot, first, i + 1, count), fixed, kroot);
    }
  }

  lemma FreeUnfolds(m: Memory, kroot: nat, first: nat, i: nat, count: nat)
    ensures KfreePages(m, kroot, first, i, count)
         == if i >= count then m else KfreePages(Release(m, kroot, Nth(first, i)), kroot, first, i + 1, count)
  {
    hide Release, Nth;
  }

  lemma NthMappable(m: Memory, own: Owners, kroot: nat, reserved: set<nat>, first: nat, i: nat, count: nat)
    requires Inv(m, own, kroot, reserved) && KernelRun(first, count) && i < count
    ensures Mappable(own, kroot, kroot, PageOf(Nth(first, i))) && Nth(first, i) >= PAGE_SIZE
  {
    NthOfRun(first, i, count);
    assert PlacesOk(own, kroot);
    hide Inv, PageOf, Nth, KernelRun, PageStart, PlaceOk;
  }

  lemma {:induction false} KmallocRestStatic(m: Memory, own: Owners, kroot: nat, reserved: set<nat>, fixed: set<nat>,
                                             first: nat, i: nat, count: nat)
    requires Inv(m, own, kroot, reserved) && fixed <= reserved && KernelRun(first, Max(i, count))
    ensures Static(m, KmallocRest(m, kroot, first, i, count).memory, fixed, kroot)
    decreases count - i
  {
    hide *;
    if i >= count {
      StaticSame(m, fixed, kroot);
      RestIsOver(m, kroot, first, i, count);
    } else {
      ShorterRun(first, i, count);
      NthMappable(m, own, kroot, reserved, first, i, count);
      RestUnfolds(m, kroot, first, i, count);
      FreshStatic(m, own, kroot, reserved, fixed, kroot, Nth(first, i), {Writable});
      var now := MapFreshKeeps(m, own, kroot, reserved, kroot, Nth(first, i), {Writable});
      var g := MapFresh(m, kroot, Nth(first, i), {Writable});
      if g.address == 0 {
        KfreePagesStatic(g.memory, now, kroot, reserved, fixed, first, 0, i);
        StaticTwice(m, g.memory, KfreePages(g.memory, kroot, first, 0, i), fixed, kroot);
      } else {
        KmallocRestStatic(g.memory, now, kroot, reserved, fixed, first, i + 1, count);
        StaticTwice(m, g.memory, KmallocRest(g.memory, kroot, first, i + 1, count).memory, fixed, kroot);
      }
    }
  }

  lemma RestIsOver(m: Memory, kroot: nat, first: nat, i: nat, count: nat)
    requires i >= count
    ensures KmallocRest(m, kroot, first, i, count).memory == m
  {
  }

  lemma ShorterRun(first: nat, i: nat, count: nat)
    requires KernelRun(first, Max(i, count)) && i < count
    ensures KernelRun(first, count) && KernelRun(first, i) && KernelRun(first, Max(i + 1, count))
  {
  }

  // ---------- the calls ----------

  lemma PageStatic(x: Machine, own: Owners, reserved: set<nat>, fixed: set<nat>)
    requires Inv(x.memory, own, x.kroot, reserved) && fixed <= reserved && KernelRun(x.heap, 1)
    ensures Static(x.memory, KmallocPage(x).machine.memory, fixed, x.kroot)
  {
    assert PlacesOk(own, x.kroot);
    FirstPage(x, own);
    PageAsked(x);
    hide Inv, MapFresh, PageOf, KernelRun, Static, KmallocPage, PageStart, Nth, Mappable, PlacesOk;
    FreshStatic(x.memory, own, x.kroot, reserved, fixed, x.kroot, x.heap, {Writable});
  }

  lemma PagesStatic(x: Machine, own: Owners, reserved: set<nat>, fixed: set<nat>, count: nat)
    requires Inv(x.memory, own, x.kroot, reserved) && fixed <= reserved && KernelRun(x.heap, Max(1, count))
    ensures Static(x.memory, KmallocPages(x, count).machine.memory, fixed, x.kroot)
  {
    assert KernelRun(x.heap, 1);
    PageAsked(x);
    hide Inv, KernelRun, Static, KmallocPage, KmallocRest, SameRoots, RootsKept, OnlyRun, MappedRun, SameTranslations,
         NearlyFull, Translate, Wrap, FlagsPass, Max, MapFresh;
    PageStatic(x, own, reserved, fixed);
    var now := KmallocPageKeeps(x, own, reserved);
    var r := KmallocPage(x);
    if r.address != 0 {
      KmallocRestStatic(r.machine.memory, now, x.kroot, reserved, fixed, r.address, 1, count);
      StaticTwice(x.memory, r.machine.memory, KmallocRest(r.machine.memory, x.kroot, r.address, 1, count).memory, fixed,
                  x.kroot);
    }
  }

  lemma SpaceStatic(x: Machine, own: Owners, reserved: set<nat>, fixed: set<nat>)
    requires Sound(x, own, reserved) && fixed <= reserved
    ensures Static(x.memory, CreateSpace(x).machine.memory, fixed, x.kroot)
  {
    FixedFrames(x.memory, own, x.kroot, reserved, fixed);
    AllocTakesLeast(x.memory);
    AllocStatic(x.memory, own, x.kroot, reserved, fixed);
    hide Inv, RootsAre, AllocPage, KernelHalfOf;
  }

  lemma AllocUserStatic(x: Machine, own: Owners, reserved: set<nat>, fixed: set<nat>, root: nat, va: nat,
                        flags: set<Flag>)
    requires Sound(x, own, reserved) && fixed <= reserved && UserSpace(x, root)
    ensures Static(x.memory, AllocUserPage(x, root, va, flags).machine.memory, fixed, x.kroot)
  {
    StaticSame(x.memory, fixed, x.kroot);
    hide Inv, RootsAre, MapFresh, Static, PageOf, Look, PageStart, Mappable, SharedPage;
    if SharedPage(x, root, va) {
      SharedMappable(x, own, reserved, root, va);
      SharedAlloc(x, own, reserved, root, va, flags + {User});
      FreshStatic(x.memory, own, x.kroot, reserved, fixed, x.kroot, va, flags + {User});
    } else {
      UserMappable(x, own, reserved, root, va);
      FreshStatic(x.memory, own, x.kroot, reserved, fixed, root, va, flags + {User});
    }
  }

  lemma SharedAlloc(x: Machine, own: Owners, reserved: set<nat>, root: nat, va: nat, flags: set<Flag>)
    requires Sound(x, own, reserved) && SharedPage(x, root, va) && root in own
    ensures MapFresh(x.memory, root, va, flags) == MapFresh(x.memory, x.kroot, va, flags)
  {
    hide Inv, MapFresh, PageOf, Look;
    SharedFresh(x.memory, own, x.kroot, reserved, root, va, flags);
  }

  lemma FreeUserStatic(x: Machine, own: Owners, reserved: set<nat>, fixed: set<nat>, root: nat, va: nat)
    requires Sound(x, own, reserved) && fixed <= reserved && UserSpace(x, root)
    ensures Static(x.memory, FreeUserPage(x, root, va).memory, fixed, x.kroot)
  {
    hide Inv, RootsAre, FreeUserPage, Release, Static, PageOf, SharedPage, Mappable;
    FreeUserReleases(x, own, reserved, root, va);
    ReleaseStatic(x.memory, own, x.kroot, reserved, fixed, Home(x, root, va), va);
  }

  lemma StoreStatic(x: Machine, own: Owners, reserved: set<nat>, fixed: set<nat>, root: nat, p: Page, data: Table)
    requires Sound(x, own, reserved) && fixed <= reserved && Allowed(x, Store(root, p, data))
    ensures Static(x.memory, StoreInto(x.memory, root, p, data), fixed, x.kroot)
  {
    assert own[x.kroot].place == Root(x.kroot, {}) && Depth(own[x.kroot].place) == 0;
    hide Inv, RootsAre, Translate, Allowed, Depth, Static;
    MappedIsLeaf(x, own, reserved, root, p);
    FixedFrames(x.memory, own, x.kroot, reserved, fixed);
    StaticSame(x.memory, fixed, x.kroot);
    var t := Translate(x.memory, root, p);
    if t.Some? && t.value.frame < |x.memory.tables| {
      FrameStatic(x.memory, t.value.frame, data, fixed, x.kroot);
    }
  }

  lemma FrameStatic(m: Memory, f: nat, data: Table, fixed: set<nat>, kroot: nat)
    requires f < |m.tables| && f !in fixed && f != kroot
    ensures Static(m, Memory(m.used, m.tables[f := data], m.freeMemory, m.usedMemory), fixed, kroot)
  {
  }

  /** No page call writes to the fixed frames or to the lower half of the kernel's PML4. */
  lemma StepStatic(x: Machine, own: Owners, reserved: set<nat>, fixed: set<nat>, c: PageCall)
    requires Sound(x, own, reserved) && fixed <= reserved
    ensures Static(x.memory, After(x, c).memory, fixed, x.kroot) && After(x, c).kroot == x.kroot
  {
    StaticSame(x.memory, fixed, x.kroot);
    if Allowed(x, c) {
      hide Inv, RootsAre, Static, KmallocPage, KmallocPages, Release, KfreePages, CreateSpace, AllocUserPage,
           FreeUserPage, StoreInto, KernelRun, PageOf, UserSpace, Mappable;
      match c
      case MallocPage => PageStatic(x, own, reserved, fixed); PageAsked(x);
      case MallocPages(count) => PagesStatic(x, own, reserved, fixed, count); PagesAsked(x, count);
      case FreeAt(va) =>
        KernelMappable(x, own, reserved, PageOf(va));
        ReleaseStatic(x.memory, own, x.kroot, reserved, fixed, x.kroot, va);
      case FreeRun(va, count) => KfreePagesStatic(x.memory, own, x.kroot, reserved, fixed, va, 0, count);
      case MakeSpace => SpaceStatic(x, own, reserved, fixed); SameKernelRoot(x);
      case AllocUser(root, va, flags) =>
        AllocUserSame(x, root, va, flags);
        if va < KERNEL_BASE {
          AllocUserStatic(x, own, reserved, fixed, root, va, flags);
        } else {
          RefusedSame(x, root, va, flags);
        }
      case FreeUser(root, va) => FreeUserStatic(x, own, reserved, fixed, root, va); FreeUserSame(x, root, va);
      case Store(root, p, data) => StoreStatic(x, own, reserved, fixed, root, p, data);
    }
  }

  lemma KernelMappable(x: Machine, own: Owners, reserved: set<nat>, p: Page)
    requires Sound(x, own, reserved) && p.a >= KERNEL_HALF
    ensures Mappable(own, x.kroot, x.kroot, p)
  {
    assert PlacesOk(own, x.kroot);
    hide Inv, PlaceOk;
  }

  lemma SameKernelRoot(x: Machine)
    ensures CreateSpace(x).machine.kroot == x.kroot
  {
  }

  lemma RefusedSame(x: Machine, root: nat, va: nat, flags: set<Flag>)
    requires va >= KERNEL_BASE
    ensures AllocUserPage(x, root, va, flags).machine == x
  {
  }

  lemma {:induction false} RunStatic(x: Machine, own: Owners, reserved: set<nat>, fixed: set<nat>, calls: seq<PageCall>)
    requires Sound(x, own, reserved) && fixed <= reserved && !EverMapsZero(x, calls)
    ensures Static(x.memory, Run(x, calls).memory, fixed, x.kroot)
    decreases |calls|
  {
    if calls == [] {
      StaticSame(x.memory, fixed, x.kroot);
    } else {
      hide Inv, RootsAre, RootsKept, RootsGrow, After, Static, MapsZero, Aligned, StaysLow, FlagsPass;
      StepStatic(x, own, reserved, fixed, calls[0]);
      var mid, held := StepKeeps(x, own, reserved, calls[0]);
      var y := After(x, calls[0]);
      RunStatic(y, mid, held, fixed, calls[1..]);
      StaticTwice(x.memory, y.memory, Run(y, calls[1..]).memory, fixed, x.kroot);
    }
  }
}
