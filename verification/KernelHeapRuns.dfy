/**
 * The kernel pages that callers hold over a run of calls, and exactly when kmalloc_page gets the next kernel address.
 */
module KernelHeapRuns {
  import opened Bytes
  import opened PageTables
  import opened PageTrees
  import opened PageWalks
  import opened PageCalls
  import opened KernelPages
  import opened UserPages
  import opened PageRuns
  import opened FrameNeeds

  ghost function RunPages(first: nat, n: nat): set<Page> {
    set j: nat | j < n :: PageOf(Nth(first, j))
  }

  lemma RunPagesAre(q: Page, first: nat, n: nat)
    ensures q in RunPages(first, n) <==> InRun(q, first, 0, n)
  {
    hide PageOf, Nth;
  }

  /**
   * The kernel pages handed out and not given back, after one more call; also a user call gets or gives back such a
   * page, behind an entry that its space shares with the kernel.
   */
  ghost function HeldAfter(x: Machine, c: PageCall, held: set<Page>): set<Page> {
    if !Allowed(x, c) then held
    else
      match c
      case MallocPage => if KmallocPage(x).address != 0 then held + RunPages(x.heap, 1) else held
      case MallocPages(n) => if KmallocPages(x, n).address != 0 then held + RunPages(x.heap, Max(1, n)) else held
      case FreeAt(va) => held - {PageOf(va)}
      case FreeRun(va, n) => held - RunPages(va, n)
      case AllocUser(root, va, flags) =>
        if AllocUserPage(x, root, va, flags).address != 0 && SharedPage(x, root, va) then held + {PageOf(va)} else held
      case FreeUser(root, va) => if SharedPage(x, root, va) then held - {PageOf(va)} else held
      case _ => held
  }

  /** The kernel pages that are mapped are those held. */
  ghost predicate HeldExactly(x: Machine, held: set<Page>) {
    forall p: Page :: p.a >= KERNEL_HALF ==> (Translate(x.memory, x.kroot, p).Some? <==> p in held)
  }

  ghost predicate KernelIn(own: Owners, kroot: nat) {
    kroot in own && own[kroot].place == Root(kroot, {})
  }

  lemma KernelSpace(x: Machine, own: Owners, reserved: set<nat>)
    requires Sound(x, own, reserved)
    ensures KernelIn(own, x.kroot)
  {
    assert PlacesOk(own, x.kroot);
    hide Inv, PlaceOk;
  }

  lemma KernelCommon(own: Owners, kroot: nat)
    requires KernelIn(own, kroot)
    ensures forall p: Page :: p.a >= KERNEL_HALF ==> Space(own, kroot, kroot, p) && Common(own[kroot].place, p.a)
  {
  }

  lemma ServedHolds(x: Machine, v: Machine, own: Owners, held: set<Page>, n: nat, address: nat)
    requires HeldExactly(x, held) && v.kroot == x.kroot
    requires KernelIn(own, x.kroot)
    requires Served(x.memory, v.memory, own, x.kroot, x.heap, n, address)
    ensures HeldExactly(v, if address != 0 then held + RunPages(x.heap, n) else held)
  {
    hide Translate, PageOf, Nth, RunPages, Space, InRun;
    KernelCommon(own, x.kroot);
    forall p: Page | p.a >= KERNEL_HALF
      ensures Translate(v.memory, x.kroot, p).Some? <==> p in held || (address != 0 && p in RunPages(x.heap, n))
    {
      RunPagesAre(p, x.heap, n);
      assert Space(own, x.kroot, x.kroot, p);
      if address != 0 && InRun(p, x.heap, 0, n) {
        MappedInRun(v.memory, x.kroot, x.heap, n, p);
      }
    }
  }

  lemma MappedInRun(m: Memory, kroot: nat, first: nat, n: nat, p: Page)
    requires MappedRun(m, kroot, first, n) && InRun(p, first, 0, n)
    ensures Translate(m, kroot, p).Some?
  {
    hide Translate, PageOf, Nth;
    var j: nat :| 0 <= j < n && p == PageOf(Nth(first, j));
    assert MappedAt(m, kroot, Nth(first, j));
  }

  lemma ClearedHolds(x: Machine, v: Machine, own: Owners, held: set<Page>, first: nat, n: nat)
    requires HeldExactly(x, held) && v.kroot == x.kroot
    requires KernelIn(own, x.kroot)
    requires Cleared(x.memory, v.memory, own, x.kroot, first, 0, n)
    ensures HeldExactly(v, held - RunPages(first, n))
  {
    hide Translate, PageOf, Nth, RunPages, Space, InRun;
    KernelCommon(own, x.kroot);
    forall p: Page | p.a >= KERNEL_HALF
      ensures Translate(v.memory, x.kroot, p).Some? <==> p in held && p !in RunPages(first, n)
    {
      RunPagesAre(p, first, n);
      assert Space(own, x.kroot, x.kroot, p);
    }
  }

  lemma ReleasedHolds(x: Machine, v: Machine, own: Owners, held: set<Page>, q: Page)
    requires HeldExactly(x, held) && v.kroot == x.kroot
    requires KernelIn(own, x.kroot)
    requires OnlyPage(x.memory, v.memory, own, x.kroot, x.kroot, q) && Translate(v.memory, x.kroot, q) == None
    ensures HeldExactly(v, held - {q})
  {
    KernelCommon(own, x.kroot);
    hide Translate, Space;
  }

  lemma SameHolds(x: Machine, v: Machine, own: Owners, held: set<Page>)
    requires HeldExactly(x, held) && v.kroot == x.kroot
    requires KernelIn(own, x.kroot)
    requires SameTranslations(x.memory, v.memory, own, x.kroot)
    ensures HeldExactly(v, held)
  {
    KernelCommon(own, x.kroot);
    hide Translate, Space;
  }

  lemma OthersHold(x: Machine, v: Machine, own: Owners, held: set<Page>, root: nat)
    requires HeldExactly(x, held) && v.kroot == x.kroot && root != x.kroot
    requires KernelIn(own, x.kroot)
    requires OthersUntouched(x.memory, v.memory, own, x.kroot, root)
    ensures HeldExactly(v, held)
  {
    KernelCommon(own, x.kroot);
    hide Translate, Space;
  }

  lemma MallocHolds(x: Machine, own: Owners, reserved: set<nat>, held: set<Page>, c: PageCall)
    requires Sound(x, own, reserved) && HeldExactly(x, held) && Allowed(x, c) && (c.MallocPage? || c.MallocPages?)
    ensures HeldExactly(After(x, c), HeldAfter(x, c, held))
  {
    hide Inv, RootsAre, KmallocPage, KmallocPages, KernelRun, HeldExactly, Served, RunPages, SameRoots, RootsKept, Wrap,
         NearlyFull, Translate, PageOf, Space;
    KernelSpace(x, own, reserved);
    match c
    case MallocPage =>
      var now := KmallocPageKeeps(x, own, reserved);
      PageAsked(x);
      ServedHolds(x, After(x, c), own, held, 1, KmallocPage(x).address);
    case MallocPages(n) =>
      var now := KmallocPagesKeeps(x, own, reserved, n);
      PagesAsked(x, n);
      ServedHolds(x, After(x, c), own, held, Max(1, n), KmallocPages(x, n).address);
  }

  lemma FreeHolds(x: Machine, own: Owners, reserved: set<nat>, held: set<Page>, c: PageCall)
    requires Sound(x, own, reserved) && HeldExactly(x, held) && Allowed(x, c) && (c.FreeAt? || c.FreeRun?)
    ensures HeldExactly(After(x, c), HeldAfter(x, c, held))
  {
    KernelSpace(x, own, reserved);
    hide Inv, RootsAre, Release, KfreePages, KernelRun, HeldExactly, RunPages, SameRoots, RootsKept, Cleared, OnlyPage,
         Shows, Translate, PageOf, Space;
    match c
    case FreeAt(va) =>
      assert Mappable(own, x.kroot, x.kroot, PageOf(va));
      var now, kept := ReleaseKeeps(x.memory, own, x.kroot, reserved, x.kroot, va);
      ReleasedHolds(x, After(x, c), own, held, PageOf(va));
    case FreeRun(va, n) =>
      var now := KfreePagesKeeps(x.memory, own, x.kroot, reserved, va, 0, n);
      ClearedHolds(x, After(x, c), own, held, va, n);
  }

  lemma MappedHolds(x: Machine, v: Machine, own: Owners, held: set<Page>, q: Page, flags: set<Flag>)
    requires HeldExactly(x, held) && v.kroot == x.kroot && q.a >= KERNEL_HALF
    requires KernelIn(own, x.kroot)
    requires FreshlyMapped(x.memory, v.memory, own, x.kroot, x.kroot, q, flags)
    ensures HeldExactly(v, held + {q})
  {
    KernelCommon(own, x.kroot);
    hide Translate, Space, Shows;
  }

  lemma UserAllocHolds(x: Machine, own: Owners, reserved: set<nat>, held: set<Page>, c: PageCall)
    requires Sound(x, own, reserved) && HeldExactly(x, held) && Allowed(x, c) && c.AllocUser? && !MapsZero(x, c)
    ensures HeldExactly(After(x, c), HeldAfter(x, c, held))
  {
    KernelSpace(x, own, reserved);
    AllocMayBe(x, c);
    AllocUserSame(x, c.root, c.va, c.flags);
    AllocCalled(x, c);
    AllocHeld(x, c, held);
    hide Sound, HeldExactly, SameRoots, RootsKept, SameTranslations, FreshlyMapped, PageOf, Space, MapsPageZero,
         AllocUserPage, UserSpace, SharedPage, FlagsPass, PageStart, MapsZero, OthersUntouched, After, HeldAfter,
         Allowed, KernelIn;
    var now := AllocUserKeeps(x, own, reserved, c.root, c.va, c.flags);
    var r := AllocUserPage(x, c.root, c.va, c.flags);
    if r.address == 0 {
      SameHolds(x, r.machine, own, held);
    } else if SharedPage(x, c.root, c.va) {
      SharedUpper(x, c.root, c.va);
      MappedHolds(x, r.machine, own, held, PageOf(c.va), c.flags + {User});
    } else {
      OwnMapped(x, own, reserved, c.root, c.va, c.flags);
      OthersHold(x, r.machine, own, held, c.root);
    }
  }

  lemma AllocHeld(x: Machine, c: PageCall, held: set<Page>)
    requires Allowed(x, c) && c.AllocUser?
    ensures HeldAfter(x, c, held)
         == if AllocUserPage(x, c.root, c.va, c.flags).address != 0 && SharedPage(x, c.root, c.va)
            then held + {PageOf(c.va)} else held
  {
    hide AllocUserPage, SharedPage, PageOf, Allowed;
  }

  lemma OwnMapped(x: Machine, own: Owners, reserved: set<nat>, root: nat, va: nat, flags: set<Flag>)
    requires Sound(x, own, reserved) && UserPage(x, root, va)
    requires var v := AllocUserPage(x, root, va, flags).machine;
             FreshlyMapped(x.memory, v.memory, own, x.kroot, root, PageOf(va), flags + {User})
    ensures root != x.kroot
    ensures OthersUntouched(x.memory, AllocUserPage(x, root, va, flags).machine.memory, own, x.kroot, root)
  {
    UserMappable(x, own, reserved, root, va);
    Isolated(x.memory, AllocUserPage(x, root, va, flags).machine.memory, own, x.kroot, root, PageOf(va));
    hide Sound, AllocUserPage, PageOf, SharedPage, OnlyPage, OthersUntouched, Shows, Translate, SameTranslations;
  }

  lemma SharedUpper(x: Machine, root: nat, va: nat)
    ensures SharedPage(x, root, va) ==> PageOf(va).a >= KERNEL_HALF
  {
  }

  lemma UserFreeHolds(x: Machine, own: Owners, reserved: set<nat>, held: set<Page>, root: nat, va: nat)
    requires Sound(x, own, reserved) && HeldExactly(x, held) && UserSpace(x, root)
    ensures HeldExactly(FreeUserPage(x, root, va), if SharedPage(x, root, va) then held - {PageOf(va)} else held)
  {
    KernelSpace(x, own, reserved);
    hide Sound, HeldExactly, SameRoots, RootsKept, OnlyPage, Translate, PageOf, Space, FreeUserPage, FlagsPass,
         SharedPage, OthersUntouched, Mappable;
    FreeUserSame(x, root, va);
    var now, kept := FreeUserKeeps(x, own, reserved, root, va);
    if SharedPage(x, root, va) {
      ReleasedHolds(x, FreeUserPage(x, root, va), own, held, PageOf(va));
    } else {
      UserMappable(x, own, reserved, root, va);
      Isolated(x.memory, FreeUserPage(x, root, va).memory, own, x.kroot, root, PageOf(va));
      OthersHold(x, FreeUserPage(x, root, va), own, held, root);
    }
  }

  lemma UserCallHolds(x: Machine, own: Owners, reserved: set<nat>, held: set<Page>, c: PageCall)
    requires Sound(x, own, reserved) && HeldExactly(x, held) && Allowed(x, c)
    requires (c.MakeSpace? || c.AllocUser? || c.FreeUser? || c.Store?) && !MapsZero(x, c)
    ensures HeldExactly(After(x, c), HeldAfter(x, c, held))
  {
    hide *;
    if c.AllocUser? {
      UserAllocHolds(x, own, reserved, held, c);
    } else if c.FreeUser? {
      FreeUserCalled(x, c, held);
      UserFreeHolds(x, own, reserved, held, c.root, c.va);
    } else if c.MakeSpace? {
      MakeSpaceHolds(x, own, reserved, held);
    } else {
      StoreHolds(x, own, reserved, held, c);
    }
  }

  lemma FreeUserCalled(x: Machine, c: PageCall, held: set<Page>)
    requires Allowed(x, c) && c.FreeUser?
    ensures UserSpace(x, c.root) && After(x, c) == FreeUserPage(x, c.root, c.va)
    ensures HeldAfter(x, c, held) == if SharedPage(x, c.root, c.va) then held - {PageOf(c.va)} else held
  {
    hide FreeUserPage, SharedPage, PageOf, UserSpace;
  }

  lemma MakeSpaceHolds(x: Machine, own: Owners, reserved: set<nat>, held: set<Page>)
    requires Sound(x, own, reserved) && HeldExactly(x, held)
    ensures HeldExactly(After(x, MakeSpace), HeldAfter(x, MakeSpace, held))
  {
    hide *;
    KernelSpace(x, own, reserved);
    MakeSpaceCalled(x, held);
    var now := CreateSpaceKeeps(x, own, reserved);
    SameHolds(x, CreateSpace(x).machine, own, held);
  }

  lemma MakeSpaceCalled(x: Machine, held: set<Page>)
    ensures After(x, MakeSpace) == CreateSpace(x).machine && HeldAfter(x, MakeSpace, held) == held
  {
    hide CreateSpace;
  }

  lemma StoreHolds(x: Machine, own: Owners, reserved: set<nat>, held: set<Page>, c: PageCall)
    requires Sound(x, own, reserved) && HeldExactly(x, held) && Allowed(x, c) && c.Store?
    ensures HeldExactly(After(x, c), HeldAfter(x, c, held))
  {
    KernelSpace(x, own, reserved);
    hide Sound, StoreInto, HeldExactly, RootsKept, SameTranslations, FlagsPass, KernelIn, Allowed;
    StoreKeeps(x, own, reserved, c.root, c.page, c.data);
    SameHolds(x, After(x, c), own, held);
  }

  /** Each call maps and unmaps exactly the kernel pages that change hands. */
  lemma StepHolds(x: Machine, own: Owners, reserved: set<nat>, held: set<Page>, c: PageCall)
    requires Sound(x, own, reserved) && HeldExactly(x, held) && !MapsZero(x, c)
    ensures HeldExactly(After(x, c), HeldAfter(x, c, held))
  {
    hide Sound, HeldExactly, MapsZero;
    if Allowed(x, c) {
      hide Allowed, After, HeldAfter;
      if c.MallocPage? || c.MallocPages? {
        MallocHolds(x, own, reserved, held, c);
      } else if c.FreeAt? || c.FreeRun? {
        FreeHolds(x, own, reserved, held, c);
      } else {
        UserCallHolds(x, own, reserved, held, c);
      }
    }
  }

  /** The kernel pages handed out and not given back over a run. */
  ghost function HeldOver(x: Machine, calls: seq<PageCall>, held: set<Page>): set<Page>
    decreases |calls|
  {
    if calls == [] then held else HeldOver(After(x, calls[0]), calls[1..], HeldAfter(x, calls[0], held))
  }

  /** In every reachable state the kernel pages that are mapped are exactly those handed out and not given back. */
  lemma {:induction false} RunHolds(x: Machine, own: Owners, reserved: set<nat>, held: set<Page>, calls: seq<PageCall>)
    requires Sound(x, own, reserved) && HeldExactly(x, held) && !EverMapsZero(x, calls)
    ensures HeldExactly(Run(x, calls), HeldOver(x, calls, held))
    decreases |calls|
  {
    hide HeldExactly, HeldAfter, After, Inv, RootsAre, RootsKept, RootsGrow, Aligned, MapsZero;
    if calls != [] {
      StepHolds(x, own, reserved, held, calls[0]);
      var now, kept := StepKeeps(x, own, reserved, calls[0]);
      RunHolds(After(x, calls[0]), now, kept, HeldAfter(x, calls[0], held), calls[1..]);
    }
  }

  // ---------- when kmalloc_page gets the next kernel address ----------

  /**
   * kmalloc_page fails exactly if somebody holds the page at the next kernel address, or the frames left are not enough
   * for the page and the tables missing for it.
   */
  lemma FailsExactly(x: Machine, own: Owners, reserved: set<nat>, held: set<Page>)
    requires Sound(x, own, reserved) && HeldExactly(x, held) && KernelRun(x.heap, 1)
    ensures KmallocPage(x).address == 0 <==>
            PageOf(x.heap) in held || FreeFrames(x.memory) < 1 + Missing(x.memory, x.kroot, PageOf(x.heap), 4)
  {
    assert PlacesOk(own, x.kroot);
    hide Inv, RootsAre, KernelRun, PageOf, PageStart, Translate, FreeFrames, Missing, MapFresh, Nth, KmallocPage,
         Mappable;
    FirstPage(x, own);
    PageAsked(x);
    MapFreshFailsExactly(x.memory, own, x.kroot, reserved, x.kroot, x.heap, {Writable});
  }

  /** The memory after pages `i` to `j` of a run have been taken and mapped. */
  ghost function WithPages(m: Memory, kroot: nat, first: nat, i: nat, j: nat): Memory
    decreases j - i
  {
    if j <= i then m else WithPages(MapFresh(m, kroot, Nth(first, i), {Writable}).memory, kroot, first, i + 1, j)
  }

  /** The page is mapped, or frames are missing for it or its tables. */
  ghost predicate Unobtainable(m: Memory, kroot: nat, va: nat) {
    Translate(m, kroot, PageOf(va)).Some? || FreeFrames(m) < 1 + Missing(m, kroot, PageOf(va), 4)
  }

  /** Some page from `i` on cannot be had when its turn comes. */
  ghost predicate RunsOut(m: Memory, kroot: nat, first: nat, i: nat, count: nat) {
    exists j :: i <= j < count && Unobtainable(WithPages(m, kroot, first, i, j), kroot, Nth(first, j))
  }

  lemma RunsOutStep(m: Memory, kroot: nat, first: nat, i: nat, count: nat)
    ensures RunsOut(m, kroot, first, i, count) <==>
            i < count && (Unobtainable(m, kroot, Nth(first, i))
                          || RunsOut(MapFresh(m, kroot, Nth(first, i), {Writable}).memory, kroot, first, i + 1, count))
  {
    hide MapFresh, Unobtainable, Nth;
    var v := MapFresh(m, kroot, Nth(first, i), {Writable}).memory;
    assert WithPages(m, kroot, first, i, i) == m;
    assert forall j :: i + 1 <= j ==> WithPages(m, kroot, first, i, j) == WithPages(v, kroot, first, i + 1, j);
    if i < count && Unobtainable(m, kroot, Nth(first, i)) {
      assert i <= i < count && Unobtainable(WithPages(m, kroot, first, i, i), kroot, Nth(first, i));
    }
  }

  lemma {:induction false} RestFailsExactly(m: Memory, own: Owners, kroot: nat, reserved: set<nat>, first: nat, i: nat,
                                            count: nat)
    requires Inv(m, own, kroot, reserved) && KernelRun(first, Max(i, count))
    ensures KmallocRest(m, kroot, first, i, count).address == 0 <==> RunsOut(m, kroot, first, i, count)
    decreases count - i
  {
    hide *;
    RunsOutStep(m, kroot, first, i, count);
    if i >= count {
      NothingLeft(m, kroot, first, i, count);
    } else {
      RestUnfolds(m, kroot, first, i, count);
      PageOfRun(m, own, kroot, reserved, first, i, count);
      PageFailsExactly(m, own, kroot, reserved, Nth(first, i));
      if MapFresh(m, kroot, Nth(first, i), {Writable}).address != 0 {
        var now := MapFreshKeeps(m, own, kroot, reserved, kroot, Nth(first, i), {Writable});
        RestFailsExactly(MapFresh(m, kroot, Nth(first, i), {Writable}).memory, now, kroot, reserved, first, i + 1,
                         count);
      }
    }
  }

  lemma NothingLeft(m: Memory, kroot: nat, first: nat, i: nat, count: nat)
    requires i >= count && KernelRun(first, Max(i, count))
    ensures KmallocRest(m, kroot, first, i, count).address != 0
  {
  }

  lemma PageOfRun(m: Memory, own: Owners, kroot: nat, reserved: set<nat>, first: nat, i: nat, count: nat)
    requires Inv(m, own, kroot, reserved) && KernelRun(first, Max(i, count)) && i < count
    ensures Mappable(own, kroot, kroot, PageOf(Nth(first, i))) && Nth(first, i) >= PAGE_SIZE
    ensures KernelRun(first, Max(i + 1, count))
  {
    NthOfRun(first, i, count);
    assert PlacesOk(own, kroot);
    hide Inv, PageOf, Nth, PageStart, PlaceOk;
  }

  lemma PageFailsExactly(m: Memory, own: Owners, kroot: nat, reserved: set<nat>, va: nat)
    requires Inv(m, own, kroot, reserved) && Mappable(own, kroot, kroot, PageOf(va)) && va >= PAGE_SIZE
    ensures MapFresh(m, kroot, va, {Writable}).address == 0 <==> Unobtainable(m, kroot, va)
  {
    hide Inv, MapFresh, PageOf, Translate, FreeFrames, Missing, Mappable;
    MapFreshFailsExactly(m, own, kroot, reserved, kroot, va, {Writable});
  }

  /** kmalloc_pages fails exactly if one of its pages cannot be had when its turn comes. */
  lemma PagesFailExactly(x: Machine, own: Owners, reserved: set<nat>, count: nat)
    requires Inv(x.memory, own, x.kroot, reserved) && KernelRun(x.heap, Max(1, count))
    ensures KmallocPages(x, count).address == 0 <==> RunsOut(x.memory, x.kroot, x.heap, 0, Max(1, count))
  {
    hide *;
    OneOfRun(x.heap, count);
    PagesUnfold(x, count);
    RunsOutStep(x.memory, x.kroot, x.heap, 0, Max(1, count));
    PageOfRun(x.memory, own, x.kroot, reserved, x.heap, 0, Max(1, count));
    PageFailsExactly(x.memory, own, x.kroot, reserved, x.heap);
    var g := MapFresh(x.memory, x.kroot, x.heap, {Writable});
    if g.address != 0 {
      var now := MapFreshKeeps(x.memory, own, x.kroot, reserved, x.kroot, x.heap, {Writable});
      RestFailsExactly(g.memory, now, x.kroot, reserved, x.heap, 1, count);
      SameRest(g.memory, x.kroot, x.heap, count);
    }
  }

  lemma OneOfRun(first: nat, count: nat)
    requires KernelRun(first, Max(1, count))
    ensures Max(0, Max(1, count)) == Max(1, count) >= 1 && Nth(first, 0) == first && PageStart(first) == first
  {
    AlignedStart(first);
  }

  lemma PagesUnfold(x: Machine, count: nat)
    requires PageStart(x.heap) == x.heap
    ensures var g := MapFresh(x.memory, x.kroot, x.heap, {Writable});
            KmallocPages(x, count).address
            == if g.address == 0 then 0 else KmallocRest(g.memory, x.kroot, x.heap, 1, count).address
  {
    hide AllocPage, MapPage, FreePage, PageOf, PageStart, KmallocRest, Wrap;
  }

  lemma SameRest(m: Memory, kroot: nat, first: nat, count: nat)
    ensures RunsOut(m, kroot, first, 1, count) == RunsOut(m, kroot, first, 1, Max(1, count))
  {
    hide WithPages, Unobtainable, Nth;
  }

  /** So it does not fail if none of the pages is mapped and there are four frames for each. */
  lemma {:induction false} FourEachSuffice(m: Memory, own: Owners, kroot: nat, reserved: set<nat>, first: nat, i: nat,
                                           count: nat)
    requires Inv(m, own, kroot, reserved) && KernelRun(first, Max(i, count))
    requires forall j :: i <= j < count ==> Translate(m, kroot, PageOf(Nth(first, j))) == None
    requires FreeFrames(m) >= 4 * (count - i)
    ensures !RunsOut(m, kroot, first, i, count)
    decreases count - i
  {
    hide *;
    RunsOutStep(m, kroot, first, i, count);
    if i < count {
      var va := Nth(first, i);
      PageOfRun(m, own, kroot, reserved, first, i, count);
      FourSuffice(m, kroot, va);
      PageFailsExactly(m, own, kroot, reserved, va);
      var now := MapFreshKeeps(m, own, kroot, reserved, kroot, va, {Writable});
      MapFreshCosts(m, own, kroot, reserved, kroot, va, {Writable});
      AtMostThree(m, kroot, PageOf(va));
      LaterStayUnmapped(m, MapFresh(m, kroot, va, {Writable}).memory, own, kroot, reserved, first, i, count);
      FourEachSuffice(MapFresh(m, kroot, va, {Writable}).memory, now, kroot, reserved, first, i + 1, count);
    }
  }

  lemma AtMostThree(m: Memory, kroot: nat, p: Page)
    ensures Missing(m, kroot, p, 4) <= 3
  {
  }

  lemma FourSuffice(m: Memory, kroot: nat, va: nat)
    requires Translate(m, kroot, PageOf(va)) == None && FreeFrames(m) >= 4
    ensures !Unobtainable(m, kroot, va)
  {
    hide PageOf, Translate, FreeFrames, Missing;
    AtMostThree(m, kroot, PageOf(va));
  }

  lemma LaterStayUnmapped(m: Memory, v: Memory, own: Owners, kroot: nat, reserved: set<nat>, first: nat, i: nat,
                          count: nat)
    requires Inv(m, own, kroot, reserved) && KernelRun(first, Max(i, count)) && i < count
    requires forall j :: i <= j < count ==> Translate(m, kroot, PageOf(Nth(first, j))) == None
    requires FreshlyMapped(m, v, own, kroot, kroot, PageOf(Nth(first, i)), {Writable})
    ensures forall j :: i + 1 <= j < count ==> Translate(v, kroot, PageOf(Nth(first, j))) == None
  {
    hide *;
    forall j | i + 1 <= j < count ensures Translate(v, kroot, PageOf(Nth(first, j))) == None {
      OtherPage(first, i, j, count);
      PageOfRun(m, own, kroot, reserved, first, j, count);
      OtherUnmapped(m, v, own, kroot, PageOf(Nth(first, i)), PageOf(Nth(first, j)));
    }
  }

  lemma OtherUnmapped(m: Memory, v: Memory, own: Owners, kroot: nat, p: Page, q: Page)
    requires FreshlyMapped(m, v, own, kroot, kroot, p, {Writable}) && Mappable(own, kroot, kroot, q) && p != q
    ensures Translate(v, kroot, q) == Translate(m, kroot, q)
  {
    hide Translate, Shows;
  }

  lemma OtherPage(first: nat, i: nat, j: nat, count: nat)
    requires KernelRun(first, Max(i, count)) && i < j < count
    ensures PageOf(Nth(first, i)) != PageOf(Nth(first, j))
    ensures KernelRun(first, Max(j, count))
  {
    NthAligned(first, i, count);
    NthAligned(first, j, count);
    assert Nth(first, i) + PAGE_SIZE <= Nth(first, j);
    LaterPagesDiffer(Nth(first, i), Nth(first, j));
    hide PageOf;
  }

  /** No page from the next kernel address on is held. */
  ghost predicate ClearAbove(x: Machine, held: set<Page>) {
    KERNEL_BASE <= x.heap ==>
      x.heap % PAGE_SIZE == 0 && forall va: nat :: x.heap <= va < TWO_64 ==> PageOf(va) !in held
  }

  /** The call hands out several pages. */
  predicate HandsOutRun(x: Machine, c: PageCall) {
    c.MallocPages? && c.count >= 2 && Allowed(x, c) && KmallocPages(x, c.count).address != 0
  }

  lemma LaterPagesDiffer(heap: nat, va: nat)
    requires KERNEL_BASE <= heap < TWO_64 && heap % PAGE_SIZE == 0 && heap + PAGE_SIZE <= va < TWO_64
    ensures PageOf(va) != PageOf(heap)
  {
    SameHigh(heap);
    SameHigh(va);
    PageOfInjective(heap, va);
    hide PageOf;
  }

  lemma SameHigh(va: nat)
    requires KERNEL_BASE <= va < TWO_64
    ensures va / 0x1_0000_0000_0000 == 0xFFFF
  {
  }

  lemma OnePageRun(first: nat)
    ensures RunPages(first, 1) == {PageOf(first)}
  {
    assert Nth(first, 0) == first;
    hide PageOf, Nth;
  }

  /** The next kernel address moves by one page, or stays where it is. */
  lemma HeapMoves(x: Machine, c: PageCall)
    ensures After(x, c).kroot == x.kroot
    ensures var v := After(x, c);
            v.heap == x.heap
              || (Allowed(x, c) && (c.MallocPage? || c.MallocPages?) && v.heap == Wrap(x.heap + PAGE_SIZE))
  {
    hide MapFresh, KmallocRest, KfreePages, Release, Wrap, AllocPage, KernelHalfOf, UnmapPage, PhysicalAddress,
         FreePage, StoreInto, Allowed, PageOf;
  }

  lemma NextStart(heap: nat)
    requires KernelRun(heap, 1)
    ensures KERNEL_BASE <= heap < TWO_64 && heap % PAGE_SIZE == 0
    ensures Wrap(heap + PAGE_SIZE) == if heap + PAGE_SIZE == TWO_64 then 0 else heap + PAGE_SIZE
    ensures (heap + PAGE_SIZE) % PAGE_SIZE == 0
  {
  }

  lemma AllowedRun(x: Machine, c: PageCall)
    requires Allowed(x, c) && (c.MallocPage? || c.MallocPages?)
    ensures KernelRun(x.heap, 1)
  {
  }

  /** The call may take kernel pages ahead of the next kernel address: several at once, or one shared with a user. */
  predicate TakesAhead(x: Machine, c: PageCall) {
    HandsOutRun(x, c) || (c.AllocUser? && SharedPage(x, c.root, c.va))
  }

  /** Every other call keeps the addresses above the next one clear. */
  lemma StepKeepsClear(x: Machine, held: set<Page>, c: PageCall)
    requires ClearAbove(x, held) && !TakesAhead(x, c)
    ensures ClearAbove(After(x, c), HeldAfter(x, c, held))
  {
    hide After, HeldAfter, PageOf, TakesAhead, RunPages, Wrap;
    HeapMoves(x, c);
    OnePageRun(x.heap);
    var v, now := After(x, c), HeldAfter(x, c, held);
    NewlyHeld(x, c, held);
    if Allowed(x, c) && (c.MallocPage? || c.MallocPages?) {
      AllowedRun(x, c);
      NextStart(x.heap);
      hide Allowed, KernelRun;
      if v.heap != x.heap && KERNEL_BASE <= v.heap {
        forall va: nat | v.heap <= va < TWO_64 ensures PageOf(va) !in now {
          LaterPagesDiffer(x.heap, va);
        }
      }
    }
  }

  /** Pages become held only by a successful call, at the next kernel address, which then moves on. */
  lemma NewlyHeld(x: Machine, c: PageCall, held: set<Page>)
    requires !TakesAhead(x, c)
    ensures HeldAfter(x, c, held) <= held + RunPages(x.heap, 1)
    ensures !(HeldAfter(x, c, held) <= held) ==>
              Allowed(x, c) && (c.MallocPage? || c.MallocPages?) && After(x, c).heap == Wrap(x.heap + PAGE_SIZE)
  {
    hide MapFresh, KmallocRest, KfreePages, Release, Wrap, PageOf, RunPages, KernelRun, CreateSpace, AllocUserPage,
         FreeUserPage, StoreInto, SharedPage;
  }

  /** Some call of a run may take kernel pages ahead. */
  ghost predicate EverTakesAhead(x: Machine, calls: seq<PageCall>)
    decreases |calls|
  {
    calls != [] && (TakesAhead(x, calls[0]) || EverTakesAhead(After(x, calls[0]), calls[1..]))
  }

  lemma {:induction false} RunKeepsClear(x: Machine, held: set<Page>, calls: seq<PageCall>)
    requires ClearAbove(x, held) && !EverTakesAhead(x, calls)
    ensures ClearAbove(Run(x, calls), HeldOver(x, calls, held))
    decreases |calls|
  {
    hide ClearAbove, After, HeldAfter, TakesAhead;
    if calls != [] {
      StepKeepsClear(x, held, calls[0]);
      RunKeepsClear(After(x, calls[0]), HeldAfter(x, calls[0], held), calls[1..]);
    }
  }

  /** The pages held over a run that starts as paging_init leaves the machine. */
  lemma FreshHolds(x: Machine, reserved: set<nat>)
    requires Fresh(x, reserved)
    ensures HeldExactly(x, {}) && (x.heap == KERNEL_BASE ==> ClearAbove(x, {}))
  {
    forall p: Page | p.a >= KERNEL_HALF ensures Translate(x.memory, x.kroot, p) == None {
      assert Look(x.memory, x.kroot, p.a) == EMPTY && At(p, 4) == p.a;
    }
  }

  /**
   * As long as no call has handed out several pages, nor a user page behind an entry shared with the kernel, every
   * kernel page from the next kernel address on is unmapped, and kmalloc_page gets that address exactly if there are
   * frames for the page and the tables missing for it.
   */
  lemma GetsNextAddress(x: Machine, reserved: set<nat>, calls: seq<PageCall>)
    requires Fresh(x, reserved) && x.heap == KERNEL_BASE && !EverTakesAhead(x, calls) && !EverMapsZero(x, calls)
    ensures var y := Run(x, calls);
            && (KERNEL_BASE <= y.heap ==>
                  forall va: nat :: y.heap <= va < TWO_64 ==> Translate(y.memory, y.kroot, PageOf(va)) == None)
            && (KernelRun(y.heap, 1) ==>
                  (KmallocPage(y).address == y.heap <==>
                   FreeFrames(y.memory) >= 1 + Missing(y.memory, y.kroot, PageOf(y.heap), 4)))
  {
    var own := map[x.kroot := KernelNode(x.kroot)];
    FreshSound(x, reserved);
    FreshHolds(x, reserved);
    hide Fresh, Inv, RootsAre, RootsKept, RootsGrow, Ledger, Run, HeldOver, HeldExactly, PageOf, Translate, KmallocPage,
         FreeFrames, Missing, EverTakesAhead, EverMapsZero, Aligned;
    var now, kept := RunKeeps(x, own, reserved, calls);
    var y, held := Run(x, calls), HeldOver(x, calls, {});
    RunHolds(x, own, reserved, {}, calls);
    RunKeepsClear(x, {}, calls);
    NoneMappedAbove(y, held);
    if KernelRun(y.heap, 1) {
      NextStart(y.heap);
      FailsExactly(y, now, kept, held);
      GivesHeap(y, now, kept);
    }
  }

  lemma NoneMappedAbove(x: Machine, held: set<Page>)
    requires HeldExactly(x, held) && ClearAbove(x, held)
    ensures KERNEL_BASE <= x.heap ==>
              forall va: nat :: x.heap <= va < TWO_64 ==> Translate(x.memory, x.kroot, PageOf(va)) == None
  {
    hide Translate, PageOf;
    if KERNEL_BASE <= x.heap {
      forall va: nat | x.heap <= va < TWO_64 ensures Translate(x.memory, x.kroot, PageOf(va)) == None {
        InUpperHalf(va);
        assert PageOf(va) !in held;
      }
    }
  }

  lemma InUpperHalf(va: nat)
    requires KERNEL_BASE <= va < TWO_64
    ensures PageOf(va).a >= KERNEL_HALF
  {
    KernelPage(va);
    hide PageOf;
  }

  lemma GivesHeap(x: Machine, own: Owners, reserved: set<nat>)
    requires Sound(x, own, reserved) && KernelRun(x.heap, 1)
    ensures KmallocPage(x).address == 0 || KmallocPage(x).address == x.heap
    ensures x.heap != 0
  {
    assert x.heap != 0;
    hide Inv, RootsAre, KmallocPage, KernelRun, OnlyRun, MappedRun, SameTranslations, RootsKept, SameRoots, NearlyFull;
    var now := KmallocPageKeeps(x, own, reserved);
  }

  // ---------- the collision lasts until the page is given back ----------

  /** The call gives back page `p`. */
  ghost predicate GivesBack(x: Machine, c: PageCall, p: Page) {
    && Allowed(x, c)
    && ((c.FreeAt? && PageOf(c.va) == p) || (c.FreeRun? && p in RunPages(c.va, c.count))
        || (c.FreeUser? && SharedPage(x, c.root, c.va) && PageOf(c.va) == p))
  }

  ghost predicate EverGivesBack(x: Machine, calls: seq<PageCall>, p: Page)
    decreases |calls|
  {
    calls != [] && (GivesBack(x, calls[0], p) || EverGivesBack(After(x, calls[0]), calls[1..], p))
  }

  lemma HeapStays(x: Machine, c: PageCall)
    requires KmallocPage(x).address == 0
    ensures After(x, c).heap == x.heap
  {
    hide MapFresh, KmallocRest, KfreePages, Release, Wrap, AllocPage, KernelHalfOf, UnmapPage, PhysicalAddress,
         FreePage, StoreInto, Allowed, PageOf;
  }

  /** Only giving a page back ends the hold on it. */
  lemma HeldStays(x: Machine, c: PageCall, held: set<Page>, p: Page)
    requires p in held && !GivesBack(x, c, p)
    ensures p in HeldAfter(x, c, held)
  {
    hide KernelRun, PageOf, RunPages, KmallocPage, KmallocPages, AllocUserPage, UserSpace, SharedPage;
  }

  lemma CollisionStays(x: Machine, own: Owners, reserved: set<nat>, held: set<Page>, c: PageCall)
    requires Sound(x, own, reserved) && HeldExactly(x, held) && PageOf(x.heap) in held && KernelRun(x.heap, 1)
    requires !GivesBack(x, c, PageOf(x.heap))
    ensures After(x, c).heap == x.heap && PageOf(x.heap) in HeldAfter(x, c, held)
  {
    hide Sound, HeldExactly, KernelRun, PageOf, KmallocPage, FreeFrames, Missing, After, HeldAfter, GivesBack;
    FailsExactly(x, own, reserved, held);
    HeapStays(x, c);
    HeldStays(x, c, held, PageOf(x.heap));
  }

  /**
   * While somebody holds the page at the next kernel address, kmalloc_page and kmalloc_pages fail and that address does
   * not move: over every run in which the page is not given back, every such call fails.
   */
  lemma {:induction false} CollisionPersists(x: Machine, own: Owners, reserved: set<nat>, held: set<Page>,
                                             calls: seq<PageCall>, count: nat)
    requires Sound(x, own, reserved) && HeldExactly(x, held) && PageOf(x.heap) in held && KernelRun(x.heap, 1)
    requires !EverGivesBack(x, calls, PageOf(x.heap)) && !EverMapsZero(x, calls)
    ensures var y := Run(x, calls);
            y.heap == x.heap && KmallocPage(y).address == 0 && KmallocPages(y, count).address == 0
    decreases |calls|
  {
    hide Inv, RootsAre, RootsKept, RootsGrow, HeldExactly, HeldAfter, After, KernelRun, PageOf, KmallocPage, GivesBack,
         FreeFrames, Missing, Aligned, MapsZero;
    if calls == [] {
      FailsExactly(x, own, reserved, held);
    } else {
      CollisionStays(x, own, reserved, held, calls[0]);
      StepHolds(x, own, reserved, held, calls[0]);
      var now, kept := StepKeeps(x, own, reserved, calls[0]);
      CollisionPersists(After(x, calls[0]), now, kept, HeldAfter(x, calls[0], held), calls[1..], count);
    }
  }

  /** A call that hands out several pages always leads to such a state. */
  lemma RunLeavesCollision(x: Machine, own: Owners, reserved: set<nat>, held: set<Page>, count: nat)
    requires Sound(x, own, reserved) && HeldExactly(x, held) && HandsOutRun(x, MallocPages(count))
    ensures var c := MallocPages(count);
            var y := After(x, c);
            KernelRun(y.heap, 1) && PageOf(y.heap) in HeldAfter(x, c, held)
  {
    hide Inv, RootsAre, HeldExactly, KernelRun, PageOf, KmallocPage, KmallocPages, RunPages, Wrap, Served, SameRoots,
         RootsKept, After, HeldAfter, HandsOutRun, Max;
    AfterRun(x, count, held);
    var now := KmallocPagesKeeps(x, own, reserved, count);
    SecondInRun(x.heap, count);
  }

  lemma AfterRun(x: Machine, count: nat, held: set<Page>)
    requires HandsOutRun(x, MallocPages(count))
    ensures count >= 2 && KmallocPages(x, count).address != 0 && Max(1, count) == count && KernelRun(x.heap, count)
    ensures After(x, MallocPages(count)) == KmallocPages(x, count).machine
    ensures HeldAfter(x, MallocPages(count), held) == held + RunPages(x.heap, count)
  {
    hide KmallocPages, KernelRun, RunPages;
  }

  lemma SecondInRun(first: nat, count: nat)
    requires KernelRun(first, count) && count >= 2
    ensures KernelRun(Wrap(first + PAGE_SIZE), 1) && PageOf(Wrap(first + PAGE_SIZE)) in RunPages(first, count)
  {
    SecondAddress(first, count);
    hide PageOf, Nth, Wrap;
    var j: nat := 1;
    assert j < count && PageOf(Nth(first, j)) in RunPages(first, count);
  }

  lemma SecondAddress(first: nat, count: nat)
    requires KernelRun(first, count) && count >= 2
    ensures Nth(first, 1) == first + PAGE_SIZE == Wrap(first + PAGE_SIZE) && KernelRun(first + PAGE_SIZE, 1)
  {
  }
}
