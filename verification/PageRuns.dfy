/** Every run of page calls: which frames are in use, what the counters say, and what stays mapped. */
module PageRuns {
  import opened PageTables
  import opened PageTrees
  import opened PageWalks
  import opened PageCalls
  import opened KernelPages
  import opened UserPages
  import opened SharedPages

  // ---------- which frames are in use ----------

  /** The frame reached from the table of some level along the first `n` entries of a page. */
  function Along(m: Memory, t: nat, p: Page, level: nat, n: nat): Option<nat>
    requires n <= level <= 4
    decreases n
  {
    if n == 0 then Some(t)
    else
      var e := Look(m, t, At(p, level));
      if e.Here() then Along(m, e.frame, p, level - 1, n - 1) else None
  }

  /** A page table or PML4 of some space, or with `n` = 4 a mapped frame. */
  ghost predicate Reachable(m: Memory, own: Owners, kroot: nat, f: nat) {
    exists r, p: Page, n | 0 <= n <= 4 :: Space(own, kroot, r, p) && Along(m, r, p, 4, n) == Some(f)
  }

  lemma {:induction false} AlongOwned(m: Memory, own: Owners, kroot: nat, t: nat, p: Page, level: nat, n: nat)
    requires n <= level <= 4 && Tree(m, own, kroot) && PlacesOk(own, kroot)
    requires t in own && Depth(own[t].place) == 4 - level && (level > 0 ==> Tracked(kroot, t, At(p, level)))
    ensures Along(m, t, p, level, n).Some? ==> Along(m, t, p, level, n).value in own
    decreases n
  {
    assert PlaceOk(t, own[t].place);
    hide Look;
    if n > 0 {
      var e := Look(m, t, At(p, level));
      assert EntryOk(e, own, Child(own[t].place, At(p, level)));
      if e.Here() {
        AlongOwned(m, own, kroot, e.frame, p, level - 1, n - 1);
      }
    }
  }

  function SetAt(p: Page, level: nat, i: Index): Page
    requires 1 <= level <= 4
  {
    if level == 4 then p.(a := i) else if level == 3 then p.(b := i) else if level == 2 then p.(c := i) else p.(d := i)
  }

  /** One more step along, for a page with the right next index. */
  lemma {:induction false} AlongExtends(m: Memory, t: nat, p: Page, level: nat, n: nat, i: Index)
    requires n < level <= 4 && Along(m, t, p, level, n).Some?
    ensures var u := Along(m, t, p, level, n).value;
            Along(m, t, SetAt(p, level - n, i), level, n + 1)
            == if Look(m, u, i).Here() then Some(Look(m, u, i).frame) else None
    decreases n
  {
    hide Look;
    var q := SetAt(p, level - n, i);
    if n > 0 {
      assert At(q, level) == At(p, level);
      AlongExtends(m, Look(m, t, At(p, level)).frame, p, level - 1, n - 1, i);
    } else {
      var e := Look(m, t, i);
      assert At(q, level) == i;
      assert e.Here() ==> Along(m, e.frame, q, level - 1, 0) == Some(e.frame);
    }
  }

  /** Climbing from a frame to its PML4 gives the space and page it is reached by. */
  lemma {:induction false} Climb(m: Memory, own: Owners, kroot: nat, f: nat) returns (r: nat, p: Page)
    requires PlacesOk(own, kroot) && Linked(m, own, kroot) && f in own
    ensures Depth(own[f].place) <= 4 && Space(own, kroot, r, p) && Along(m, r, p, 4, Depth(own[f].place)) == Some(f)
    decreases Depth(own[f].place)
  {
    assert PlaceOk(f, own[f].place) && HangsOn(m, own, kroot, f);
    var n := Depth(own[f].place);
    if own[f].place.Root? {
      r, p := f, Page(KERNEL_HALF, 0, 0, 0);
    } else {
      var t, i := own[f].parent, own[f].place.index;
      assert PlaceOk(t, own[t].place);
      r, p := Climb(m, own, kroot, t);
      AlongExtends(m, r, p, 4, n - 1, i);
      if n == 1 {
        assert r == t;
      }
      p := SetAt(p, 4 - (n - 1), i);
      hide Look, Along, PlacesOk, Linked;
    }
  }

  /** The set bits of the bitmap are exactly the reserved frames, the page tables and the mapped frames. */
  lemma FramesAccounted(m: Memory, own: Owners, kroot: nat, reserved: set<nat>, f: nat)
    requires Inv(m, own, kroot, reserved)
    ensures f in m.used <==> f in reserved || Reachable(m, own, kroot, f)
    ensures !(f in reserved && Reachable(m, own, kroot, f))
  {
    assert f in own <==> f in own.Keys;
    if f in own {
      var r, p := Climb(m, own, kroot, f);
      var n := Depth(own[f].place);
      assert 0 <= n <= 4 && Space(own, kroot, r, p) && Along(m, r, p, 4, n) == Some(f);
    } else if Reachable(m, own, kroot, f) {
      var r, p: Page, n :| 0 <= n <= 4 && Space(own, kroot, r, p) && Along(m, r, p, 4, n) == Some(f);
      assert PlaceOk(r, own[r].place);
      AlongOwned(m, own, kroot, r, p, 4, n);
    }
    hide Tree, Linked, Shares, PlacesOk, Distinct;
  }

  // ---------- the counters ----------

  lemma {:induction false} WalkBalances(m: Memory, t: nat, p: Page, level: nat, alloc: bool, flags: set<Flag>)
    requires 1 <= level <= 4
    ensures Ledger(WalkFrom(m, t, p, level, alloc, flags).memory) == Ledger(m)
    decreases level
  {
    if level > 1 {
      AllocBalances(m);
      hide AllocPage, Look, Wrap;
      var r := NextTable(m, t, At(p, level), alloc, flags);
      assert Ledger(r.memory) == Ledger(m);
      if r.frame.Some? {
        WalkBalances(r.memory, r.frame.value, p, level - 1, alloc, flags);
      }
    }
  }

  lemma MapBalances(m: Memory, root: nat, frame: nat, p: Page, flags: set<Flag>)
    ensures Ledger(MapPage(m, root, frame, p, flags).memory) == Ledger(m)
    ensures Ledger(UnmapPage(m, root, p)) == Ledger(m)
  {
    WalkBalances(m, root, p, 4, true, flags);
    hide WalkFrom, Look, Wrap;
  }

  lemma MapFreshBalances(m: Memory, root: nat, va: nat, flags: set<Flag>)
    ensures Ledger(MapFresh(m, root, va, flags).memory) == Ledger(m)
  {
    AllocBalances(m);
    hide AllocPage, MapPage, FreePage, Ledger, PageOf;
    var a := AllocPage(m);
    if a.frame.Some? {
      MapBalances(a.memory, root, a.frame.value, PageOf(va), flags);
      FreeBalances(MapPage(a.memory, root, a.frame.value, PageOf(va), flags).memory, a.frame.value * PAGE_SIZE);
    }
  }

  lemma ReleaseBalances(m: Memory, root: nat, va: nat)
    ensures Ledger(Release(m, root, va)) == Ledger(m)
    ensures Ledger(FreePage(UnmapPage(m, root, PageOf(va)), PhysicalAddress(m, root, va))) == Ledger(m)
    ensures Ledger(UnmapPage(m, root, PageOf(va))) == Ledger(m)
  {
    hide PhysicalAddress, UnmapPage, FreePage, Ledger, PageOf;
    MapBalances(m, root, 0, PageOf(va), {});
    FreeBalances(UnmapPage(m, root, PageOf(va)), PhysicalAddress(m, root, va));
  }

  lemma {:induction false} KfreePagesBalances(m: Memory, kroot: nat, first: nat, i: nat, count: nat)
    ensures Ledger(KfreePages(m, kroot, first, i, count)) == Ledger(m)
    decreases count - i
  {
    hide Release, Ledger, Nth;
    if i < count {
      ReleaseBalances(m, kroot, Nth(first, i));
      KfreePagesBalances(Release(m, kroot, Nth(first, i)), kroot, first, i + 1, count);
    }
  }

  lemma {:induction false} KmallocRestBalances(m: Memory, kroot: nat, first: nat, i: nat, count: nat)
    ensures Ledger(KmallocRest(m, kroot, first, i, count).memory) == Ledger(m)
    decreases count - i
  {
    hide MapFresh, KfreePages, Ledger, Nth;
    if i < count {
      MapFreshBalances(m, kroot, Nth(first, i), {Writable});
      var g := MapFresh(m, kroot, Nth(first, i), {Writable});
      if g.address == 0 {
        KfreePagesBalances(g.memory, kroot, first, 0, i);
      } else {
        KmallocRestBalances(g.memory, kroot, first, i + 1, count);
      }
    }
  }

  // ---------- runs ----------

  datatype PageCall =
    | MallocPage
    | MallocPages(count: nat)
    | FreeAt(va: nat)
    | FreeRun(va: nat, count: nat)
    | MakeSpace
    | AllocUser(root: nat, va: nat, flags: set<Flag>)
    | FreeUser(root: nat, va: nat)
    | Store(root: nat, page: Page, data: Table)

  /** What the calls are made with: kernel addresses that do not wrap, and the PML4s of user spaces. */
  predicate Allowed(x: Machine, c: PageCall) {
    match c
    case MallocPage => KernelRun(x.heap, 1)
    case MallocPages(count) => KernelRun(x.heap, Max(1, count))
    case FreeAt(va) => PageOf(va).a >= KERNEL_HALF
    case FreeRun(va, count) => KernelRun(va, count)
    case MakeSpace => true
    case AllocUser(root, va, _) => va < KERNEL_BASE ==> UserSpace(x, root)
    case FreeUser(root, _) => UserSpace(x, root)
    case Store(root, page, _) => (root in x.roots || root == x.kroot) && (root == x.kroot ==> page.a >= KERNEL_HALF)
  }

  /** A program storing into a page of its own. */
  function StoreInto(m: Memory, root: nat, p: Page, data: Table): Memory {
    var t := Translate(m, root, p);
    if t.Some? && t.value.frame < |m.tables| then
      Memory(m.used, m.tables[t.value.frame := data], m.freeMemory, m.usedMemory)
    else m
  }

  function After(x: Machine, c: PageCall): Machine {
    if !Allowed(x, c) then x
    else
      match c
      case MallocPage => KmallocPage(x).machine
      case MallocPages(count) => KmallocPages(x, count).machine
      case FreeAt(va) => x.(memory := Release(x.memory, x.kroot, va))
      case FreeRun(va, count) => x.(memory := KfreePages(x.memory, x.kroot, va, 0, count))
      case MakeSpace => CreateSpace(x).machine
      case AllocUser(root, va, flags) => AllocUserPage(x, root, va, flags).machine
      case FreeUser(root, va) => FreeUserPage(x, root, va)
      case Store(root, page, data) => x.(memory := StoreInto(x.memory, root, page, data))
  }

  /** One kind of call frees a mapped frame: it maps page 0 of a user space. */
  ghost predicate MapsZero(x: Machine, c: PageCall) {
    c.AllocUser? && UserSpace(x, c.root) && MapsPageZero(x, c.root, c.va)
  }

  /** User pages are mapped in the lower half. */
  predicate StaysLow(c: PageCall) {
    c.AllocUser? && c.va < KERNEL_BASE ==> PageOf(c.va).a < KERNEL_HALF
  }

  /** Pages are given back by page-aligned addresses. */
  predicate Aligned(c: PageCall) {
    match c
    case FreeAt(va) => va % PAGE_SIZE == 0
    case FreeUser(_, va) => va % PAGE_SIZE == 0
    case _ => true
  }

  lemma StepBalances(x: Machine, c: PageCall)
    ensures Ledger(After(x, c).memory) == Ledger(x.memory)
  {
    hide PageOf, MapFresh, Release, KfreePages, KmallocRest, UnmapPage, FreePage, PhysicalAddress, AllocPage, Allowed,
         Wrap, Translate;
    match c
    case MallocPage => MapFreshBalances(x.memory, x.kroot, x.heap, {Writable});
    case MallocPages(count) =>
      MapFreshBalances(x.memory, x.kroot, x.heap, {Writable});
      var r := KmallocPage(x);
      KmallocRestBalances(r.machine.memory, x.kroot, r.address, 1, count);
    case FreeAt(va) => ReleaseBalances(x.memory, x.kroot, va);
    case FreeRun(va, count) => KfreePagesBalances(x.memory, x.kroot, va, 0, count);
    case MakeSpace => AllocBalances(x.memory);
    case AllocUser(root, va, flags) => MapFreshBalances(x.memory, root, va, flags + {User});
    case FreeUser(root, va) => ReleaseBalances(x.memory, root, va);
    case Store(root, page, data) =>
  }

  lemma StoreKeeps(x: Machine, own: Owners, reserved: set<nat>, root: nat, p: Page, data: Table)
    requires Sound(x, own, reserved) && Allowed(x, Store(root, p, data))
    ensures var v := StoreInto(x.memory, root, p, data);
            && Inv(v, own, x.kroot, reserved) && SameTranslations(x.memory, v, own, x.kroot)
            && RootsKept(x.memory, v, own, x.kroot) && FlagsPass(x.memory, own, v, own, x.kroot, true)
  {
    MappedIsLeaf(x, own, reserved, root, p);
    FlagsSame(x.memory, own, x.kroot, true);
    Unchanged(x.memory, own, x.kroot, root);
    hide Inv, Translate, FlagsPass, SameTranslations, RootsKept, RootsAre, Depth, Allowed;
    var t := Translate(x.memory, root, p);
    if t.Some? && t.value.frame < |x.memory.tables| {
      StoresKeep(x.memory, own, x.kroot, reserved, t.value.frame, data);
      DataOnly(x.memory, own, x.kroot, reserved, t.value.frame, data);
    }
  }

  lemma MappedIsLeaf(x: Machine, own: Owners, reserved: set<nat>, root: nat, p: Page)
    requires Sound(x, own, reserved) && Allowed(x, Store(root, p, Zeroed()))
    ensures var t := Translate(x.memory, root, p);
            t.Some? ==> t.value.frame in own && Depth(own[t.value.frame].place) == 4
  {
    assert Space(own, x.kroot, root, p);
    hide Inv, Translate, Depth;
    if Translate(x.memory, root, p).Some? {
      LeafAt(x.memory, own, x.kroot, reserved, root, p);
    }
  }

  /** Data in a mapped frame is no page table. */
  lemma DataOnly(m: Memory, own: Owners, kroot: nat, reserved: set<nat>, f: nat, data: Table)
    requires Inv(m, own, kroot, reserved) && f < |m.tables| && f in own && Depth(own[f].place) == 4
    ensures var v := Memory(m.used, m.tables[f := data], m.freeMemory, m.usedMemory);
            && SameTranslations(m, v, own, kroot) && RootsKept(m, v, own, kroot)
            && FlagsPass(m, own, v, own, kroot, true)
  {
    hide Linked, Shares, Counted, Distinct, Tree, PlacesOk, SameTranslations, FlagsPass;
    var v := Memory(m.used, m.tables[f := data], m.freeMemory, m.usedMemory);
    assert forall t, i: Index :: t != f ==> Look(v, t, i) == Look(m, t, i);
    hide Look;
    SameTablesSame(m, v, own, kroot);
    SameTablesFlags(m, v, own, kroot);
  }

  /** No space disappears, nor has other entries in common with the kernel. */
  ghost predicate RootsGrow(own: Owners, now: Owners) {
    forall f :: f in own && own[f].place.Root? ==> f in now && now[f].place == own[f].place
  }

  /** What every call keeps. */
  ghost predicate Kept(x: Machine, v: Machine, own: Owners, now: Owners, reserved: set<nat>, kept: set<nat>,
                       aligned: bool, low: bool) {
    && Sound(v, now, kept) && v.kroot == x.kroot && x.roots <= v.roots && RootsGrow(own, now)
    && RootsKept(x.memory, v.memory, own, x.kroot)
    && reserved <= kept && (aligned ==> kept == reserved)
    && FlagsPass(x.memory, own, v.memory, now, x.kroot, low)
  }

  lemma SameRootsKept(x: Machine, v: Machine, own: Owners, now: Owners, reserved: set<nat>, kept: set<nat>,
                      aligned: bool, low: bool)
    requires Sound(x, own, reserved) && Inv(v.memory, now, x.kroot, kept) && SameRoots(own, now)
    requires v.roots == x.roots && v.kroot == x.kroot && RootsKept(x.memory, v.memory, own, x.kroot)
    requires reserved <= kept && (aligned ==> kept == reserved)
             && FlagsPass(x.memory, own, v.memory, now, x.kroot, low)
    ensures Kept(x, v, own, now, reserved, kept, aligned, low)
  {
    RootsStayThose(x, v, own, now);
    assert RootsGrow(own, now);
    hide Inv, RootsKept, RootsAre, SameRoots, FlagsPass;
  }

  lemma KernelStepKeeps(x: Machine, own: Owners, reserved: set<nat>, c: PageCall) returns (now: Owners)
    requires Sound(x, own, reserved) && Allowed(x, c) && (c.MallocPage? || c.MallocPages? || c.FreeRun?)
    ensures Kept(x, After(x, c), own, now, reserved, reserved, true, true)
  {
    hide Inv, RootsAre, SameRoots, RootsKept, KmallocPage, KmallocPages, KfreePages, KernelRun, Served, Cleared,
         NearlyFull, Kept, Translate, Wrap, PageOf, FlagsPass;
    match c
    case MallocPage =>
      now := KmallocPageKeeps(x, own, reserved);
      PageAsked(x);
      SameRootsKept(x, After(x, c), own, now, reserved, reserved, true, true);
    case MallocPages(count) =>
      now := KmallocPagesKeeps(x, own, reserved, count);
      PagesAsked(x, count);
      SameRootsKept(x, After(x, c), own, now, reserved, reserved, true, true);
    case FreeRun(va, count) =>
      now := KfreePagesKeeps(x.memory, own, x.kroot, reserved, va, 0, count);
      SameRootsKept(x, After(x, c), own, now, reserved, reserved, true, true);
  }

  lemma PagesAsked(x: Machine, count: nat)
    ensures KmallocPages(x, count).machine.kroot == x.kroot && KmallocPages(x, count).machine.roots == x.roots
  {
  }

  lemma FreeStepKeeps(x: Machine, own: Owners, reserved: set<nat>, c: PageCall) returns (now: Owners, kept: set<nat>)
    requires Sound(x, own, reserved) && Allowed(x, c) && (c.FreeAt? || c.FreeUser?)
    ensures Kept(x, After(x, c), own, now, reserved, kept, Aligned(c), true)
  {
    if c.FreeAt? {
      assert Mappable(own, x.kroot, x.kroot, PageOf(c.va));
    }
    hide Inv, RootsAre, SameRoots, RootsKept, Release, FreeUserPage, SharedPage, PageOf, Translate, OnlyPage, Shows,
         Kept, Mappable, FlagsPass, UserSpace;
    match c
    case FreeAt(va) =>
      now, kept := ReleaseKeeps(x.memory, own, x.kroot, reserved, x.kroot, va);
      SameRootsKept(x, After(x, c), own, now, reserved, kept, Aligned(c), true);
    case FreeUser(root, va) =>
      now, kept := FreeUserKeeps(x, own, reserved, root, va);
      FreeUserSame(x, root, va);
      SameRootsKept(x, After(x, c), own, now, reserved, kept, Aligned(c), true);
  }

  lemma FreeUserSame(x: Machine, root: nat, va: nat)
    ensures FreeUserPage(x, root, va).kroot == x.kroot && FreeUserPage(x, root, va).roots == x.roots
  {
  }

  lemma MakeSpaceKeeps(x: Machine, own: Owners, reserved: set<nat>) returns (now: Owners)
    requires Sound(x, own, reserved)
    ensures Kept(x, After(x, MakeSpace), own, now, reserved, reserved, true, true)
  {
    hide Inv, RootsAre, RootsKept, CreateSpace, SameTranslations, NewSpace, Kept, FlagsPass;
    now := CreateSpaceKeeps(x, own, reserved);
    SpaceMade(x, After(x, MakeSpace), own, now, reserved);
  }

  lemma AllocStepKeeps(x: Machine, own: Owners, reserved: set<nat>, c: PageCall) returns (now: Owners)
    requires Sound(x, own, reserved) && Allowed(x, c) && c.AllocUser? && !MapsZero(x, c)
    ensures Kept(x, After(x, c), own, now, reserved, reserved, true, StaysLow(c))
  {
    AllocMayBe(x, c);
    AllocUserSame(x, c.root, c.va, c.flags);
    AllocCalled(x, c);
    LowStays(c);
    hide Inv, RootsAre, SameRoots, RootsKept, AllocUserPage, Kept, FreshlyMapped, SameTranslations, UserSpace, After,
         MapsPageZero, PageStart, PageOf, FlagsPass, MapsZero, Allowed, StaysLow, Home;
    now := AllocUserKeeps(x, own, reserved, c.root, c.va, c.flags);
    SameRootsKept(x, After(x, c), own, now, reserved, reserved, true, StaysLow(c));
  }

  lemma AllocCalled(x: Machine, c: PageCall)
    requires Allowed(x, c) && c.AllocUser?
    ensures After(x, c) == AllocUserPage(x, c.root, c.va, c.flags).machine
  {
    hide AllocUserPage, Allowed;
  }

  lemma LowStays(c: PageCall)
    requires c.AllocUser?
    ensures StaysLow(c) <==> c.va >= KERNEL_BASE || PageOf(c.va).a < KERNEL_HALF
  {
    hide PageOf;
  }

  lemma AllocMayBe(x: Machine, c: PageCall)
    requires Allowed(x, c) && c.AllocUser? && !MapsZero(x, c)
    ensures c.va < KERNEL_BASE ==> UserSpace(x, c.root) && !MapsPageZero(x, c.root, c.va)
  {
    hide MapsPageZero;
  }

  lemma StoreStepKeeps(x: Machine, own: Owners, reserved: set<nat>, c: PageCall)
    requires Sound(x, own, reserved) && Allowed(x, c) && c.Store?
    ensures Kept(x, After(x, c), own, own, reserved, reserved, true, true)
  {
    hide Inv, RootsAre, SameRoots, RootsKept, StoreInto, Kept, SameTranslations, OthersUntouched, FlagsPass;
    StoreKeeps(x, own, reserved, c.root, c.page, c.data);
    Unchanged(x.memory, own, x.kroot, c.root);
    SameRootsKept(x, After(x, c), own, own, reserved, reserved, true, true);
  }

  lemma AllocUserSame(x: Machine, root: nat, va: nat, flags: set<Flag>)
    ensures var v := AllocUserPage(x, root, va, flags).machine;
            v.kroot == x.kroot && v.roots == x.roots
  {
  }

  lemma SpaceMade(x: Machine, v: Machine, own: Owners, now: Owners, reserved: set<nat>)
    requires RootsGrow(own, now) && Sound(v, now, reserved) && v.kroot == x.kroot && x.roots <= v.roots
    requires RootsKept(x.memory, v.memory, own, x.kroot) && FlagsPass(x.memory, own, v.memory, now, x.kroot, true)
    ensures Kept(x, v, own, now, reserved, reserved, true, true)
  {
    hide Inv, RootsKept, FlagsPass;
  }

  /**
   * Every call that does not map page 0 keeps the trees sound, loses no frame unless given an unaligned address, keeps
   * all PML4 entries, and keeps the flags right unless it maps a user page in the kernel's half.
   */
  lemma StepKeeps(x: Machine, own: Owners, reserved: set<nat>, c: PageCall) returns (now: Owners, kept: set<nat>)
    requires Sound(x, own, reserved) && !MapsZero(x, c)
    ensures Kept(x, After(x, c), own, now, reserved, kept, Aligned(c), StaysLow(c))
  {
    now, kept := own, reserved;
    if Allowed(x, c) {
      hide Inv, RootsAre, RootsKept, RootsGrow, After, Allowed, MapsZero, StaysLow, FlagsPass;
      if c.FreeAt? || c.FreeUser? {
        now, kept := FreeStepKeeps(x, own, reserved, c);
        KeptUnder(x, After(x, c), own, now, reserved, kept, Aligned(c), Aligned(c), StaysLow(c));
      } else if c.MallocPage? || c.MallocPages? || c.FreeRun? {
        now := KernelStepKeeps(x, own, reserved, c);
        KeptUnder(x, After(x, c), own, now, reserved, kept, Aligned(c), true, StaysLow(c));
      } else if c.MakeSpace? {
        now := MakeSpaceKeeps(x, own, reserved);
        KeptUnder(x, After(x, c), own, now, reserved, kept, Aligned(c), true, StaysLow(c));
      } else if c.AllocUser? {
        now := AllocStepKeeps(x, own, reserved, c);
      } else {
        StoreStepKeeps(x, own, reserved, c);
        KeptUnder(x, After(x, c), own, now, reserved, kept, Aligned(c), true, StaysLow(c));
      }
    } else {
      NothingChanges(x, own, reserved, Aligned(c), StaysLow(c));
      hide Inv, RootsAre, RootsKept, RootsGrow, Allowed, Kept;
    }
  }

  lemma KeptUnder(x: Machine, v: Machine, own: Owners, now: Owners, reserved: set<nat>, kept: set<nat>, aligned: bool,
                  al: bool, low: bool)
    requires Kept(x, v, own, now, reserved, kept, al, true) && (aligned ==> al)
    ensures Kept(x, v, own, now, reserved, kept, aligned, low)
  {
    FlagsUnder(x.memory, own, v.memory, now, x.kroot, true, low);
    hide Inv, RootsAre, RootsKept, RootsGrow, FlagsPass;
  }

  lemma NothingChanges(x: Machine, own: Owners, reserved: set<nat>, aligned: bool, low: bool)
    requires Sound(x, own, reserved)
    ensures Kept(x, x, own, own, reserved, reserved, aligned, low)
  {
    hide Inv, RootsAre, SameRoots, RootsKept, Kept, OthersUntouched, SameTranslations, FlagsPass;
    Unchanged(x.memory, own, x.kroot, x.kroot);
    FlagsSame(x.memory, own, x.kroot, low);
    SameRootsKept(x, x, own, own, reserved, reserved, aligned, low);
  }

  /** A call leaves a state that some ownership of frames explains exactly if it does not map page 0. */
  lemma SoundExactly(x: Machine, own: Owners, reserved: set<nat>, c: PageCall)
    requires Sound(x, own, reserved)
    ensures (exists now: Owners, kept: set<nat> :: Sound(After(x, c), now, kept)) <==> !MapsZero(x, c)
  {
    hide Sound, RootsKept, RootsGrow, After, AllocUserPage, MapsPageZero;
    if MapsZero(x, c) {
      forall now: Owners, kept: set<nat> ensures !Sound(After(x, c), now, kept) {
        BrokenByAlloc(x, c);
        PageZeroBreaks(x, own, reserved, c.root, c.va, c.flags, now, kept);
      }
    } else {
      hide MapsZero, StaysLow, FlagsPass;
      var now, kept := StepKeeps(x, own, reserved, c);
      assert Sound(After(x, c), now, kept);
    }
  }

  lemma BrokenByAlloc(x: Machine, c: PageCall)
    requires MapsZero(x, c)
    ensures c.AllocUser? && After(x, c) == AllocUserPage(x, c.root, c.va, c.flags).machine
  {
    hide AllocUserPage, MapsPageZero;
  }

  function Run(x: Machine, calls: seq<PageCall>): Machine
    decreases |calls|
  {
    if calls == [] then x else Run(After(x, calls[0]), calls[1..])
  }

  /** Some call of a run maps page 0. */
  ghost predicate EverMapsZero(x: Machine, calls: seq<PageCall>)
    decreases |calls|
  {
    calls != [] && (MapsZero(x, calls[0]) || EverMapsZero(After(x, calls[0]), calls[1..]))
  }

  lemma KeptTwice(x: Machine, y: Machine, z: Machine, own: Owners, mid: Owners, now: Owners, reserved: set<nat>,
                  held: set<nat>, kept: set<nat>, first: bool, then_: bool, low: bool, rest: bool)
    requires Kept(x, y, own, mid, reserved, held, first, low) && Kept(y, z, mid, now, held, kept, then_, rest)
    ensures Kept(x, z, own, now, reserved, kept, first && then_, low && rest)
  {
    hide Inv, RootsAre, Look, FlagsPass;
    FlagsUnder(x.memory, own, y.memory, mid, x.kroot, low, low && rest);
    FlagsUnder(y.memory, mid, z.memory, now, x.kroot, rest, low && rest);
    FlagsTwice(x.memory, own, y.memory, mid, z.memory, now, x.kroot, low && rest);
  }

  /** So does every run of such calls. */
  lemma {:induction false} RunKeeps(x: Machine, own: Owners, reserved: set<nat>, calls: seq<PageCall>)
    returns (now: Owners, kept: set<nat>)
    requires Sound(x, own, reserved) && !EverMapsZero(x, calls)
    ensures Kept(x, Run(x, calls), own, now, reserved, kept, forall c :: c in calls ==> Aligned(c),
                 forall c :: c in calls ==> StaysLow(c))
    ensures Ledger(Run(x, calls).memory) == Ledger(x.memory)
    decreases |calls|
  {
    hide Sound, RootsKept, RootsGrow, Ledger, Aligned, StaysLow, After, MapsZero, FlagsPass;
    if calls == [] {
      now, kept := own, reserved;
      NothingChanges(x, own, reserved, true, true);
    } else {
      StepBalances(x, calls[0]);
      var mid, held := StepKeeps(x, own, reserved, calls[0]);
      var y := After(x, calls[0]);
      now, kept := RunKeeps(y, mid, held, calls[1..]);
      KeptTwice(x, y, Run(x, calls), own, mid, now, reserved, held, kept, Aligned(calls[0]),
                forall c :: c in calls[1..] ==> Aligned(c), StaysLow(calls[0]),
                forall c :: c in calls[1..] ==> StaysLow(c));
      assert forall c :: c in calls <==> c == calls[0] || c in calls[1..];
    }
  }

  // ---------- what holds after every run ----------

  /** A machine as paging_init leaves it: one kernel PML4 with an empty upper half, everything else in use reserved. */
  ghost predicate Fresh(x: Machine, reserved: set<nat>) {
    && x.roots == {} && 0 in reserved && x.kroot !in reserved && x.memory.used == reserved + {x.kroot}
    && (forall f :: f in x.memory.used ==> f < |x.memory.tables|)
    && forall i: Index :: i >= KERNEL_HALF ==> Look(x.memory, x.kroot, i) == EMPTY
  }

  lemma FreshSound(x: Machine, reserved: set<nat>)
    requires Fresh(x, reserved)
    ensures Sound(x, map[x.kroot := KernelNode(x.kroot)], reserved)
  {
    var own := map[x.kroot := KernelNode(x.kroot)];
    assert own.Keys == {x.kroot};
    hide Look;
  }

  /**
   * After any run of such calls that gives pages back by aligned addresses, a frame's bit is set exactly if the frame
   * was reserved from the start, or is a page table or mapped; and the counters have moved by one page for every bit.
   */
  lemma RunsLoseNoFrame(x: Machine, reserved: set<nat>, calls: seq<PageCall>, f: nat) returns (own: Owners)
    requires Fresh(x, reserved) && !EverMapsZero(x, calls) && forall c :: c in calls ==> Aligned(c)
    ensures var y := Run(x, calls);
            && Sound(y, own, reserved) && Ledger(y.memory) == Ledger(x.memory)
            && (f in y.memory.used <==> f in reserved || Reachable(y.memory, own, y.kroot, f))
  {
    FreshSound(x, reserved);
    hide Fresh, Inv, RootsAre, RootsKept, RootsGrow, Ledger, Reachable, Run, Aligned, StaysLow, EverMapsZero, FlagsPass;
    var kept: set<nat>;
    own, kept := RunKeeps(x, map[x.kroot := KernelNode(x.kroot)], reserved, calls);
    FramesAccounted(Run(x, calls).memory, own, x.kroot, reserved, f);
  }

  /**
   * After every run of such calls, two pages that translate to one frame are the same page, in one space or in two
   * that share a present entry of the kernel's half.
   */
  lemma RunsShareNoFrame(x: Machine, reserved: set<nat>, calls: seq<PageCall>, r: nat, p: Page, s: nat, q: Page)
    requires Fresh(x, reserved) && !EverMapsZero(x, calls)
    requires var y := Run(x, calls);
             && r in y.roots + {y.kroot} && s in y.roots + {y.kroot} && Tracked(y.kroot, r, p.a)
             && Tracked(y.kroot, s, q.a)
             && Translate(y.memory, r, p).Some? && Translate(y.memory, s, q).Some?
             && Translate(y.memory, r, p).value.frame == Translate(y.memory, s, q).value.frame
    ensures var m := Run(x, calls).memory;
            p == q && (r == s || (p.a >= KERNEL_HALF && Look(m, r, p.a).Here() && Look(m, r, p.a) == Look(m, s, p.a)))
  {
    FreshSound(x, reserved);
    var own, kept := RunKeeps(x, map[x.kroot := KernelNode(x.kroot)], reserved, calls);
    var y := Run(x, calls);
    assert Space(own, y.kroot, r, p) && Space(own, y.kroot, s, q);
    assert SharesAt(y.memory, own, y.kroot, r, p.a) && SharesAt(y.memory, own, y.kroot, s, p.a);
    hide Fresh, Inv, RootsAre, RootsKept, RootsGrow, Ledger, Run, Translate, StaysLow, FlagsPass;
    OneFrameOnePage(y.memory, own, y.kroot, kept, r, p, s, q);
  }

  /**
   * Whatever such calls follow, a user space translates the pages behind a PML4 entry that it shares with the kernel
   * exactly as the kernel does, also those mapped later; of the kernel's half it sees no other page the kernel maps.
   */
  lemma KernelVisibleLater(x: Machine, own: Owners, reserved: set<nat>, calls: seq<PageCall>, s: nat, p: Page)
    requires Sound(x, own, reserved) && !EverMapsZero(x, calls) && s in x.roots && s != x.kroot && p.a >= KERNEL_HALF
    ensures var y := Run(x, calls);
            var t := Translate(y.memory, s, p);
            if Look(x.memory, s, p.a).Here() && Look(x.memory, s, p.a) == Look(x.memory, x.kroot, p.a)
            then t == Translate(y.memory, y.kroot, p)
            else forall q: Page :: q.a >= KERNEL_HALF && t.Some? && Translate(y.memory, y.kroot, q).Some? ==>
                                     t.value.frame != Translate(y.memory, y.kroot, q).value.frame
  {
    var now, kept := RunKeeps(x, own, reserved, calls);
    var y := Run(x, calls);
    SharedEntry(x.memory, own, x.kroot, s, p.a);
    assert s in own && s in now && own[s].place.Root? && now[s].place == own[s].place;
    hide RootsAre, RootsKept, RootsGrow, Ledger, Run, Translate, Look, StaysLow, FlagsPass;
    if Common(own[s].place, p.a) {
      KernelShared(y.memory, now, y.kroot, s, p);
    } else {
      OwnPagesOnly(y, now, kept, s, p);
    }
  }

  lemma OwnPagesOnly(x: Machine, own: Owners, reserved: set<nat>, s: nat, p: Page)
    requires Sound(x, own, reserved) && s in own && own[s].place.Root? && s != x.kroot && !Common(own[s].place, p.a)
    ensures var t := Translate(x.memory, s, p);
            forall q: Page :: q.a >= KERNEL_HALF && t.Some? && Translate(x.memory, x.kroot, q).Some? ==>
                                t.value.frame != Translate(x.memory, x.kroot, q).value.frame
  {
    assert PlacesOk(own, x.kroot);
    hide Inv, RootsAre, Translate;
    forall q: Page | q.a >= KERNEL_HALF && Translate(x.memory, s, p).Some? && Translate(x.memory, x.kroot, q).Some?
      ensures Translate(x.memory, s, p).value.frame != Translate(x.memory, x.kroot, q).value.frame
    {
      assert Space(own, x.kroot, s, p) && Space(own, x.kroot, x.kroot, q);
      if Translate(x.memory, s, p).value.frame == Translate(x.memory, x.kroot, q).value.frame {
        OneFrameOnePage(x.memory, own, x.kroot, reserved, s, p, x.kroot, q);
        assert false;
      }
    }
  }
}
