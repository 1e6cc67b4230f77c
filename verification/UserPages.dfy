/** Address spaces of user programs: making one, and mapping and giving back its pages. */
module UserPages {
  import opened PageTables
  import opened PageTrees
  import opened PageWalks
  import opened PageCalls
  import opened KernelPages
  import opened FrameNeeds
  import opened SharedPages

  datatype Created = Created(machine: Machine, root: Option<nat>)

  /** A PML4 with the kernel's upper half and an empty lower half. */
  function KernelHalfOf(m: Memory, kroot: nat): (t: Table)
    ensures forall i: Index :: t[i] == if i >= KERNEL_HALF then Look(m, kroot, i) else EMPTY
  {
    seq(512, i requires 0 <= i < 512 => if i >= KERNEL_HALF then Look(m, kroot, i) else EMPTY)
  }

  function Fill(m: Memory, f: nat, t: Table): Memory
    requires f < |m.tables|
  {
    Memory(m.used, m.tables[f := t], m.freeMemory, m.usedMemory)
  }

  /** paging_create_user_address_space */
  function CreateSpace(x: Machine): Created {
    var a := AllocPage(x.memory);
    if a.frame.None? then Created(x, None)
    else
      var r := a.frame.value;
      Created(x.(memory := Fill(a.memory, r, KernelHalfOf(a.memory, x.kroot)), roots := x.roots + {r}), Some(r))
  }

  /** paging_alloc_user_page */
  function AllocUserPage(x: Machine, root: nat, va: nat, flags: set<Flag>): Reply {
    if va >= KERNEL_BASE then Reply(x, 0)
    else
      var g := MapFresh(x.memory, root, va, flags + {User});
      Reply(x.(memory := g.memory), g.address)
  }

  /** paging_free_user_page */
  function FreeUserPage(x: Machine, root: nat, va: nat): Machine {
    var address := PhysicalAddress(x.memory, root, va);
    var u := UnmapPage(x.memory, root, PageOf(va));
    x.(memory := if address != 0 then FreePage(u, address) else u)
  }

  /** Between calls: the trees are sound, and their PML4s are the kernel's and those of the spaces made. */
  ghost predicate Sound(x: Machine, own: Owners, reserved: set<nat>) {
    Inv(x.memory, own, x.kroot, reserved) && RootsAre(x, own)
  }

  ghost predicate RootsAre(x: Machine, own: Owners) {
    forall f :: (f in own && own[f].place.Root?) <==> (f in x.roots || f == x.kroot)
  }

  lemma RootsStayThose(x: Machine, v: Machine, own: Owners, now: Owners)
    requires RootsAre(x, own) && SameRoots(own, now) && v.roots == x.roots && v.kroot == x.kroot
    ensures RootsAre(v, now)
  {
  }

  // ---------- a new address space ----------

  /** A new PML4 has the upper-half entries in common with the kernel's that are present there. */
  ghost function NewNode(m: Memory, kroot: nat, r: nat): Node {
    Node(Root(r, set i: Index | i >= KERNEL_HALF && !Look(m, kroot, i).Here()), 0)
  }

  lemma NewRootKeeps(m: Memory, own: Owners, kroot: nat, reserved: set<nat>, r: nat)
    requires Inv(m, own, kroot, reserved) && r in reserved && r != 0
    ensures r < |m.tables|
    ensures Inv(Fill(m, r, KernelHalfOf(m, kroot)), own[r := NewNode(m, kroot, r)], kroot, reserved - {r})
  {
    assert r in m.used && r !in own.Keys;
    var now, v := own[r := NewNode(m, kroot, r)], Fill(m, r, KernelHalfOf(m, kroot));
    assert now.Keys == own.Keys + {r};
    assert Counted(v, now, reserved - {r});
    assert r !in own && r != kroot && forall t, i: Index :: t != r ==> Look(v, t, i) == Look(m, t, i);
    assert forall i: Index :: Look(v, r, i) == if i >= KERNEL_HALF then Look(m, kroot, i) else EMPTY;
    NewRootPlaces(m, own, kroot, r);
    NewRootTree(m, v, own, kroot, r);
    NewRootLinks(m, v, own, kroot, r);
    hide Tree, Linked, Shares, PlacesOk, Distinct, Look, Fill;
  }

  lemma NewRootPlaces(m: Memory, own: Owners, kroot: nat, r: nat)
    requires PlacesOk(own, kroot) && Distinct(own) && r !in own
    ensures PlacesOk(own[r := NewNode(m, kroot, r)], kroot) && Distinct(own[r := NewNode(m, kroot, r)])
  {
    var now := own[r := NewNode(m, kroot, r)];
    forall f | f in now ensures PlaceOk(f, now[f].place) {
      if f != r {
        assert PlaceOk(f, own[f].place);
      }
    }
    forall f, g | f in now && g in now && now[f].place == now[g].place ensures f == g {
      assert PlaceOk(f, now[f].place) && PlaceOk(g, now[g].place);
    }
  }

  lemma NewRootTree(m: Memory, v: Memory, own: Owners, kroot: nat, r: nat)
    requires PlacesOk(own, kroot) && Tree(m, own, kroot) && r !in own
    requires forall t, i: Index :: t != r ==> Look(v, t, i) == Look(m, t, i)
    requires forall i: Index :: Look(v, r, i) == if i >= KERNEL_HALF then Look(m, kroot, i) else EMPTY
    ensures Tree(v, own[r := NewNode(m, kroot, r)], kroot)
  {
    var now := own[r := NewNode(m, kroot, r)];
    hide Look;
    forall t, i: Index | t in now && Depth(now[t].place) < 4 && Tracked(kroot, t, i)
      ensures EntryOk(Look(v, t, i), now, Child(now[t].place, i))
    {
      if t != r {
        assert EntryOk(Look(m, t, i), own, Child(own[t].place, i));
      } else if i >= KERNEL_HALF {
        assert EntryOk(Look(m, kroot, i), own, Child(own[kroot].place, i));
      }
    }
  }

  lemma NewRootLinks(m: Memory, v: Memory, own: Owners, kroot: nat, r: nat)
    requires PlacesOk(own, kroot) && Linked(m, own, kroot) && Shares(m, own, kroot) && r !in own
    requires forall t, i: Index :: t != r ==> Look(v, t, i) == Look(m, t, i)
    requires forall i: Index :: Look(v, r, i) == if i >= KERNEL_HALF then Look(m, kroot, i) else EMPTY
    ensures Linked(v, own[r := NewNode(m, kroot, r)], kroot) && Shares(v, own[r := NewNode(m, kroot, r)], kroot)
  {
    var now := own[r := NewNode(m, kroot, r)];
    hide Look;
    forall g | g in now ensures HangsOn(v, now, kroot, g) {
      if g != r {
        assert HangsOn(m, own, kroot, g);
      }
    }
    forall s, i: Index | s in now ensures SharesAt(v, now, kroot, s, i) {
      if s != r {
        assert SharesAt(m, own, kroot, s, i);
      }
    }
  }

  /** The PML4 of a new space is empty below and equal to the kernel's above. */
  ghost predicate NewSpace(v: Memory, kroot: nat, r: nat) {
    forall i: Index :: Look(v, r, i) == if i >= KERNEL_HALF then Look(v, kroot, i) else EMPTY
  }

  /**
   * A new space maps no lower-half page and every kernel page as the kernel does; the other spaces do not change.
   */
  lemma CreateSpaceKeeps(x: Machine, own: Owners, reserved: set<nat>) returns (now: Owners)
    requires Sound(x, own, reserved)
    ensures var c := CreateSpace(x);
            && Sound(c.machine, now, reserved) && c.machine.kroot == x.kroot
            && SameTranslations(x.memory, c.machine.memory, own, x.kroot)
            && RootsKept(x.memory, c.machine.memory, own, x.kroot)
            && FlagsPass(x.memory, own, c.machine.memory, now, x.kroot, true)
            && (forall f :: f in own ==> f in now && now[f] == own[f])
            && match c.root
               case None => c.machine == x && forall g :: 0 <= g < |x.memory.tables| ==> g in x.memory.used
               case Some(r) => r !in own && c.machine.roots == x.roots + {r} && NewSpace(c.machine.memory, x.kroot, r)
  {
    now := own;
    FlagsSame(x.memory, own, x.kroot, true);
    hide FlagsPass;
    AllocTakesLeast(x.memory);
    AllocKeeps(x.memory, own, x.kroot, reserved);
    var a := AllocPage(x.memory);
    assert forall t :: t in own ==> t in own.Keys && t in x.memory.used;
    if a.frame.Some? {
      var r := a.frame.value;
      NewRootKeeps(a.memory, own, x.kroot, reserved + {r}, r);
      assert reserved + {r} - {r} == reserved;
      now := own[r := NewNode(a.memory, x.kroot, r)];
      FilledSame(x.memory, a.memory, own, x.kroot, r);
      NewRootFlags(x.memory, a.memory, own, x.kroot, r);
      assert r !in own;
    }
    hide Inv, AllocPage, Look, KernelHalfOf, Fill, SameTranslations, RootsKept, NewSpace;
  }

  lemma FilledSame(m: Memory, a: Memory, own: Owners, kroot: nat, r: nat)
    requires Tree(m, own, kroot) && PlacesOk(own, kroot) && r !in own && r < |a.tables|
    requires forall t, i: Index :: t in own ==> Look(a, t, i) == Look(m, t, i)
    ensures var v := Fill(a, r, KernelHalfOf(a, kroot));
            && SameTranslations(m, v, own, kroot) && RootsKept(m, v, own, kroot) && NewSpace(v, kroot, r)
  {
    var v := Fill(a, r, KernelHalfOf(a, kroot));
    assert kroot != r && forall t, i: Index :: t != r ==> Look(v, t, i) == Look(a, t, i);
    assert forall i: Index :: Look(v, r, i) == if i >= KERNEL_HALF then Look(a, kroot, i) else EMPTY;
    hide Look, Fill, KernelHalfOf;
    SameTablesSame(m, v, own, kroot);
  }

  /** The new PML4 has the kernel's upper-half entries at the same places, and no others. */
  lemma NewRootFlags(m: Memory, a: Memory, own: Owners, kroot: nat, r: nat)
    requires PlacesOk(own, kroot) && r !in own && r < |a.tables|
    requires forall t, i: Index :: t in own ==> Look(a, t, i) == Look(m, t, i)
    ensures FlagsPass(m, own, Fill(a, r, KernelHalfOf(a, kroot)), own[r := NewNode(a, kroot, r)], kroot, true)
  {
    var v, now := Fill(a, r, KernelHalfOf(a, kroot)), own[r := NewNode(a, kroot, r)];
    assert kroot != r && forall t, i: Index :: t != r ==> Look(v, t, i) == Look(a, t, i);
    assert forall i: Index :: Look(v, r, i) == if i >= KERNEL_HALF then Look(a, kroot, i) else EMPTY;
    assert forall pl :: FlagsFit(EMPTY, pl);
    hide Look, Fill, KernelHalfOf, FlagsFit;
    if Flagged(m, own, kroot) {
      forall t, i: Index | t in now && Depth(now[t].place) < 4 && Tracked(kroot, t, i)
        ensures FlagsFit(Look(v, t, i), Child(now[t].place, i))
      {
        if t != r {
          assert FlagsFit(Look(m, t, i), Child(own[t].place, i));
        } else if i >= KERNEL_HALF {
          assert FlagsFit(Look(m, kroot, i), Child(own[kroot].place, i));
        }
      }
    }
  }

  // ---------- pages of a space ----------

  predicate UserSpace(x: Machine, root: nat) {
    root in x.roots && root != x.kroot
  }

  /** A page of the kernel's half behind an entry that the PML4 of the space shares with the kernel's. */
  predicate SharedPage(x: Machine, root: nat, va: nat) {
    var i := PageOf(va).a;
    UserSpace(x, root) && i >= KERNEL_HALF && Look(x.memory, root, i).Here()
    && Look(x.memory, root, i) == Look(x.memory, x.kroot, i)
  }

  /** A page that the space keeps in tables of its own: in its lower half, or behind an entry it does not share. */
  predicate UserPage(x: Machine, root: nat, va: nat) {
    UserSpace(x, root) && !SharedPage(x, root, va)
  }

  /** The space whose tables hold the page. */
  function Home(x: Machine, root: nat, va: nat): nat {
    if SharedPage(x, root, va) then x.kroot else root
  }

  /** No other space translates any page differently. */
  ghost predicate OthersUntouched(m: Memory, v: Memory, own: Owners, kroot: nat, root: nat) {
    forall s, q: Page :: Space(own, kroot, s, q) && s != root ==> Translate(v, s, q) == Translate(m, s, q)
  }

  lemma Isolated(m: Memory, v: Memory, own: Owners, kroot: nat, root: nat, p: Page)
    ensures OnlyPage(m, v, own, kroot, root, p) && root in own && !Common(own[root].place, p.a) ==>
              OthersUntouched(m, v, own, kroot, root)
    ensures SameTranslations(m, v, own, kroot) ==> OthersUntouched(m, v, own, kroot, root)
  {
    hide Translate;
  }

  /** What a space shares is what its place says. */
  lemma SharedIsCommon(x: Machine, own: Owners, reserved: set<nat>, root: nat, va: nat)
    requires Sound(x, own, reserved) && UserSpace(x, root)
    ensures root in own && own[root].place.Root? && Space(own, x.kroot, root, PageOf(va))
    ensures SharedPage(x, root, va) <==> Common(own[root].place, PageOf(va).a)
  {
    if PageOf(va).a >= KERNEL_HALF {
      SharedEntry(x.memory, own, x.kroot, root, PageOf(va).a);
    }
    hide PageOf, Inv, Look;
  }

  lemma UserMappable(x: Machine, own: Owners, reserved: set<nat>, root: nat, va: nat)
    requires Sound(x, own, reserved) && UserPage(x, root, va)
    ensures Mappable(own, x.kroot, root, PageOf(va)) && !Common(own[root].place, PageOf(va).a)
  {
    SharedIsCommon(x, own, reserved, root, va);
    hide PageOf, Inv, SharedPage;
  }

  lemma SharedMappable(x: Machine, own: Owners, reserved: set<nat>, root: nat, va: nat)
    requires Sound(x, own, reserved) && SharedPage(x, root, va)
    ensures Mappable(own, x.kroot, x.kroot, PageOf(va)) && PageOf(va).a >= KERNEL_HALF
    ensures root in own && Common(own[root].place, PageOf(va).a) && Space(own, x.kroot, x.kroot, PageOf(va))
  {
    SharedIsCommon(x, own, reserved, root, va);
    assert PlacesOk(own, x.kroot);
    hide PageOf, Inv, PlaceOk, Look;
  }

  /** The call maps page 0: the page is unmapped, and there are frames for it and the tables missing for it. */
  ghost predicate MapsPageZero(x: Machine, root: nat, va: nat) {
    va < PAGE_SIZE && Translate(x.memory, root, PageOf(va)).None?
    && FreeFrames(x.memory) >= 1 + Missing(x.memory, root, PageOf(va), 4)
  }

  /** What paging_alloc_user_page has done. */
  ghost predicate UserAllocDone(x: Machine, r: Reply, own: Owners, now: Owners, reserved: set<nat>, root: nat, va: nat,
                                flags: set<Flag>) {
    && Sound(r.machine, now, reserved) && SameRoots(own, now) && RootsKept(x.memory, r.machine.memory, own, x.kroot)
    && (r.address != 0 ==>
          r.address == PageStart(va) && va < KERNEL_BASE
          && FreshlyMapped(x.memory, r.machine.memory, own, x.kroot, Home(x, root, va), PageOf(va), flags + {User}))
    && (r.address == 0 ==> SameTranslations(x.memory, r.machine.memory, own, x.kroot))
    && FlagsPass(x.memory, own, r.machine.memory, now, x.kroot, va >= KERNEL_BASE || PageOf(va).a < KERNEL_HALF)
  }

  /**
   * paging_alloc_user_page maps exactly one page to a frame that was free, or nothing; unless it maps page 0. The page
   * is one of its space, but for a page behind an entry shared with the kernel, which the kernel and all spaces that
   * share it get.
   */
  lemma AllocUserKeeps(x: Machine, own: Owners, reserved: set<nat>, root: nat, va: nat, flags: set<Flag>)
    returns (now: Owners)
    requires Sound(x, own, reserved)
    requires va < KERNEL_BASE ==> UserSpace(x, root) && !MapsPageZero(x, root, va)
    ensures UserAllocDone(x, AllocUserPage(x, root, va, flags), own, now, reserved, root, va, flags)
  {
    hide UserAllocDone, Sound, AllocUserPage, SharedPage, MapsPageZero;
    if va >= KERNEL_BASE {
      now := own;
      AllocRefused(x, own, reserved, root, va, flags);
    } else if SharedPage(x, root, va) {
      now := AllocShared(x, own, reserved, root, va, flags);
    } else {
      now := AllocOwn(x, own, reserved, root, va, flags);
    }
  }

  /**
   * The call fails exactly for an address from KERNEL_BASE on, for page 0, for a page that is mapped in the space, or
   * if the frames left are not enough for the page and the tables missing for it.
   */
  lemma AllocUserFailsExactly(x: Machine, own: Owners, reserved: set<nat>, root: nat, va: nat, flags: set<Flag>)
    requires Sound(x, own, reserved) && UserSpace(x, root)
    ensures AllocUserPage(x, root, va, flags).address == 0 <==>
            || va >= KERNEL_BASE || va < PAGE_SIZE || Translate(x.memory, root, PageOf(va)).Some?
            || FreeFrames(x.memory) < 1 + Missing(x.memory, root, PageOf(va), 4)
  {
    hide PageOf, Inv, MapFresh, Translate, RootsAre, Mappable, PageStart, FreeFrames, Missing, Look;
    if va < PAGE_SIZE {
      NoAddress(x.memory, root, va, flags + {User});
    } else if SharedPage(x, root, va) {
      SharedMappable(x, own, reserved, root, va);
      SharedFresh(x.memory, own, x.kroot, reserved, root, va, flags + {User});
      SharedTranslates(x, own, reserved, root, PageOf(va));
      SharedMissing(x.memory, x.kroot, root, PageOf(va));
      MapFreshFailsExactly(x.memory, own, x.kroot, reserved, x.kroot, va, flags + {User});
    } else {
      UserMappable(x, own, reserved, root, va);
      MapFreshFailsExactly(x.memory, own, x.kroot, reserved, root, va, flags + {User});
    }
  }

  lemma NoAddress(m: Memory, root: nat, va: nat, flags: set<Flag>)
    requires va < PAGE_SIZE
    ensures MapFresh(m, root, va, flags).address == 0
  {
    StartsAtZero(va);
    hide AllocPage, MapPage, FreePage, PageOf, PageStart;
  }

  lemma SharedMissing(m: Memory, kroot: nat, root: nat, p: Page)
    requires Look(m, root, p.a) == Look(m, kroot, p.a)
    ensures Missing(m, root, p, 4) == Missing(m, kroot, p, 4)
  {
    hide Look;
    MissingStep(m, root, p, 4);
    MissingStep(m, kroot, p, 4);
    assert At(p, 4) == p.a;
  }

  lemma AllocRefused(x: Machine, own: Owners, reserved: set<nat>, root: nat, va: nat, flags: set<Flag>)
    requires Sound(x, own, reserved) && va >= KERNEL_BASE
    ensures UserAllocDone(x, AllocUserPage(x, root, va, flags), own, own, reserved, root, va, flags)
  {
    FlagsSame(x.memory, own, x.kroot, true);
    Unchanged(x.memory, own, x.kroot, root);
    hide PageOf, Inv, SameRoots, RootsKept, OthersUntouched, SameTranslations, RootsAre, FlagsPass, FreshlyMapped;
  }

  lemma AllocOwn(x: Machine, own: Owners, reserved: set<nat>, root: nat, va: nat, flags: set<Flag>)
    returns (now: Owners)
    requires Sound(x, own, reserved) && va < KERNEL_BASE && UserPage(x, root, va) && !MapsPageZero(x, root, va)
    ensures UserAllocDone(x, AllocUserPage(x, root, va, flags), own, now, reserved, root, va, flags)
  {
    hide PageOf, Inv, MapFresh, SameRoots, RootsKept, SameTranslations, Translate, RootsAre, SharedPage, Mappable,
         PageStart, FreeFrames, Missing, FlagsPass, FlagsFor, NearlyFull, FreshlyMapped;
    var r := AllocUserPage(x, root, va, flags);
    UserMappable(x, own, reserved, root, va);
    UserFlags(PageOf(va), flags);
    if va >= PAGE_SIZE {
      now := MapFreshKeeps(x.memory, own, x.kroot, reserved, root, va, flags + {User});
    } else {
      now := MapFreshFails(x.memory, own, x.kroot, reserved, root, va, flags + {User});
    }
    RootsStayThose(x, r.machine, own, now);
    FlagsUnder(x.memory, own, r.machine.memory, now, x.kroot, FlagsFor(PageOf(va), flags + {User}),
               PageOf(va).a < KERNEL_HALF);
  }

  lemma AllocShared(x: Machine, own: Owners, reserved: set<nat>, root: nat, va: nat, flags: set<Flag>)
    returns (now: Owners)
    requires Sound(x, own, reserved) && va < KERNEL_BASE && SharedPage(x, root, va)
    ensures UserAllocDone(x, AllocUserPage(x, root, va, flags), own, now, reserved, root, va, flags)
  {
    SharedMappable(x, own, reserved, root, va);
    UpperIsHigh(va);
    hide PageOf, Inv, MapFresh, SameRoots, RootsKept, SameTranslations, Translate, RootsAre, Mappable, PageStart,
         FlagsFor, NearlyFull, FreshlyMapped, Look;
    var r := AllocUserPage(x, root, va, flags);
    SharedFresh(x.memory, own, x.kroot, reserved, root, va, flags + {User});
    now := MapFreshKeeps(x.memory, own, x.kroot, reserved, x.kroot, va, flags + {User});
    RootsStayThose(x, r.machine, own, now);
  }

  lemma UpperIsHigh(va: nat)
    ensures PageOf(va).a >= KERNEL_HALF ==> va >= PAGE_SIZE
  {
  }

  /** The flags that the call gives fit user pages. */
  lemma UserFlags(p: Page, flags: set<Flag>)
    ensures p.a < KERNEL_HALF ==> FlagsFor(p, flags + {User})
  {
  }

  lemma Unchanged(m: Memory, own: Owners, kroot: nat, root: nat)
    ensures SameRoots(own, own) && RootsKept(m, m, own, kroot) && OthersUntouched(m, m, own, kroot, root)
    ensures SameTranslations(m, m, own, kroot)
  {
  }

  lemma UnmapThenFree(m: Memory, own: Owners, kroot: nat, reserved: set<nat>, root: nat, va: nat)
    requires Inv(m, own, kroot, reserved) && Mappable(own, kroot, root, PageOf(va))
    ensures var u, address := UnmapPage(m, root, PageOf(va)), PhysicalAddress(m, root, va);
            (if address != 0 then FreePage(u, address) else u) == Release(m, root, va)
  {
    assert Space(own, kroot, root, PageOf(va));
    hide PageOf, Inv, UnmapPage, PhysicalAddress, FreePage, Translate, OnlyPage, Shows, RootsKept, Mappable;
    UnmapKeeps(m, own, kroot, reserved, root, PageOf(va));
    PhysicalAddressIs(m, own, kroot, reserved, root, va);
  }

  /** The call gives back the page in the tables of its home. */
  lemma FreeUserReleases(x: Machine, own: Owners, reserved: set<nat>, root: nat, va: nat)
    requires Sound(x, own, reserved) && UserSpace(x, root)
    ensures FreeUserPage(x, root, va) == x.(memory := Release(x.memory, Home(x, root, va), va))
    ensures Mappable(own, x.kroot, Home(x, root, va), PageOf(va))
  {
    if UserPage(x, root, va) {
      UserMappable(x, own, reserved, root, va);
    } else {
      SharedMappable(x, own, reserved, root, va);
      SharedCalls(x.memory, x.kroot, root, 0, va, {});
    }
    UnmapThenFree(x.memory, own, x.kroot, reserved, Home(x, root, va), va);
    hide PageOf, Inv, UnmapPage, PhysicalAddress, FreePage, RootsAre, Mappable, Look, Release, MapPage;
  }

  /** What paging_free_user_page has done. */
  ghost predicate UserFreeDone(x: Machine, v: Machine, own: Owners, now: Owners, reserved: set<nat>, kept: set<nat>,
                               root: nat, va: nat) {
    && Sound(v, now, kept) && SameRoots(own, now) && RootsKept(x.memory, v.memory, own, x.kroot)
    && OnlyPage(x.memory, v.memory, own, x.kroot, Home(x, root, va), PageOf(va))
    && Translate(v.memory, Home(x, root, va), PageOf(va)) == None
    && (Translate(x.memory, Home(x, root, va), PageOf(va)) == None ==> v == x)
    && reserved <= kept && (va % PAGE_SIZE == 0 ==> kept == reserved)
    && FlagsPass(x.memory, own, v.memory, now, x.kroot, true)
  }

  /**
   * paging_free_user_page unmaps exactly one page, in its space, or for a shared page of the kernel's half wherever it
   * is shared; its frame is free again if the address was aligned. If the page is unmapped it does nothing.
   */
  lemma FreeUserKeeps(x: Machine, own: Owners, reserved: set<nat>, root: nat, va: nat)
    returns (now: Owners, kept: set<nat>)
    requires Sound(x, own, reserved) && UserSpace(x, root)
    ensures UserFreeDone(x, FreeUserPage(x, root, va), own, now, reserved, kept, root, va)
  {
    hide PageOf, Inv, Release, FreeUserPage, Translate, OnlyPage, Shows, RootsKept, SameRoots, RootsAre, Mappable, Look,
         FlagsPass, Home, UserPage, SharedPage;
    FreeUserReleases(x, own, reserved, root, va);
    now, kept := ReleaseKeeps(x.memory, own, x.kroot, reserved, Home(x, root, va), va);
    RootsStayThose(x, FreeUserPage(x, root, va), own, now);
  }

  // ---------- isolation ----------

  /**
   * A successful call leaves the other spaces alone exactly if its page is not behind an entry shared with the kernel.
   * A shared page appears in the kernel's own space, with the user flag.
   */
  lemma AllocIsolatedExactly(x: Machine, own: Owners, reserved: set<nat>, root: nat, va: nat, flags: set<Flag>)
    requires Sound(x, own, reserved) && UserSpace(x, root) && AllocUserPage(x, root, va, flags).address != 0
    ensures var v, p := AllocUserPage(x, root, va, flags).machine.memory, PageOf(va);
            && (OthersUntouched(x.memory, v, own, x.kroot, root) <==> !SharedPage(x, root, va))
            && Translate(x.memory, root, p) == None && Translate(v, root, p).Some?
            && (SharedPage(x, root, va) ==> Translate(x.memory, x.kroot, p) == None && Translate(v, x.kroot, p).Some?
                                            && User in Translate(v, x.kroot, p).value.flags)
  {
    GrantedBelow(x, root, va, flags);
    hide Sound, PageOf, Translate, AllocUserPage, OthersUntouched, MapsPageZero, SharedPage;
    if SharedPage(x, root, va) {
      SharedAppears(x, own, reserved, root, va, flags);
    } else {
      if MapsPageZero(x, root, va) {
        ZeroFrameIsClear(x, own, reserved, root, va, flags);
        assert false;
      }
      OwnIsolated(x, own, reserved, root, va, flags);
    }
  }

  lemma GrantedBelow(x: Machine, root: nat, va: nat, flags: set<Flag>)
    ensures AllocUserPage(x, root, va, flags).address != 0 ==> va < KERNEL_BASE
  {
  }

  lemma OwnIsolated(x: Machine, own: Owners, reserved: set<nat>, root: nat, va: nat, flags: set<Flag>)
    requires Sound(x, own, reserved) && va < KERNEL_BASE && UserPage(x, root, va) && !MapsPageZero(x, root, va)
    requires AllocUserPage(x, root, va, flags).address != 0
    ensures var v, p := AllocUserPage(x, root, va, flags).machine.memory, PageOf(va);
            && OthersUntouched(x.memory, v, own, x.kroot, root)
            && Translate(x.memory, root, p) == None && Translate(v, root, p).Some?
  {
    UserMappable(x, own, reserved, root, va);
    hide Sound, PageOf, AllocUserPage, MapsPageZero, SharedPage, OnlyPage, Shows, SameTranslations, SameRoots,
         RootsKept, FlagsPass, Translate, OthersUntouched, PageStart;
    var now := AllocOwn(x, own, reserved, root, va, flags);
    Isolated(x.memory, AllocUserPage(x, root, va, flags).machine.memory, own, x.kroot, root, PageOf(va));
  }

  lemma SharedAppears(x: Machine, own: Owners, reserved: set<nat>, root: nat, va: nat, flags: set<Flag>)
    requires Sound(x, own, reserved) && va < KERNEL_BASE && SharedPage(x, root, va)
    requires AllocUserPage(x, root, va, flags).address != 0
    ensures var v, p := AllocUserPage(x, root, va, flags).machine.memory, PageOf(va);
            && !OthersUntouched(x.memory, v, own, x.kroot, root)
            && Translate(x.memory, x.kroot, p) == None && Translate(v, x.kroot, p).Some?
            && Translate(x.memory, root, p) == None && Translate(v, root, p).Some?
            && User in Translate(v, x.kroot, p).value.flags
  {
    SharedMappable(x, own, reserved, root, va);
    SharedTranslates(x, own, reserved, root, PageOf(va));
    KeepsRoots(x, root, va, flags);
    assert root != x.kroot;
    hide Sound, PageOf, AllocUserPage, SharedPage, OnlyPage, Shows, SameTranslations, RootsKept, FlagsPass, Translate,
         PageStart, Look, Space;
    var now := AllocShared(x, own, reserved, root, va, flags);
    SharedTranslates(AllocUserPage(x, root, va, flags).machine, now, reserved, root, PageOf(va));
  }
  /** Behind an entry in common, a space translates as the kernel does. */
  lemma SharedTranslates(x: Machine, own: Owners, reserved: set<nat>, root: nat, p: Page)
    requires Sound(x, own, reserved) && root in own && Common(own[root].place, p.a)
    ensures Translate(x.memory, root, p) == Translate(x.memory, x.kroot, p)
  {
    KernelShared(x.memory, own, x.kroot, root, p);
    hide Tree, Linked, Counted, PlacesOk, Distinct, Translate, RootsAre;
  }

  /**
   * Giving back a page leaves the other spaces alone exactly unless it is a mapped page that they share.
   */
  lemma FreeIsolatedExactly(x: Machine, own: Owners, reserved: set<nat>, root: nat, va: nat)
    requires Sound(x, own, reserved) && UserSpace(x, root)
    ensures OthersUntouched(x.memory, FreeUserPage(x, root, va).memory, own, x.kroot, root) <==>
            !SharedPage(x, root, va) || Translate(x.memory, root, PageOf(va)) == None
  {
    var v := FreeUserPage(x, root, va).memory;
    var now, kept := FreeUserKeeps(x, own, reserved, root, va);
    Unchanged(x.memory, own, x.kroot, root);
    if SharedPage(x, root, va) {
      SharedMappable(x, own, reserved, root, va);
      SharedTranslates(x, own, reserved, root, PageOf(va));
      assert root != x.kroot;
      hide Sound, PageOf, FreeUserPage, SameRoots, RootsKept, FlagsPass, Translate, SharedPage, Space, OnlyPage;
    } else {
      UserMappable(x, own, reserved, root, va);
      Isolated(x.memory, v, own, x.kroot, root, PageOf(va));
      hide Sound, PageOf, FreeUserPage, SameRoots, RootsKept, FlagsPass, Translate, SharedPage, OthersUntouched,
           OnlyPage;
    }
  }

  /**
   * Page 0 is the exception: the mapping call returns its address, which reads as NULL. The call fails although the
   * page is mapped, and its frame counts as free: the very next allocation hands it out again, and page 0 still
   * translates to it. Only if the page is mapped already or frames are missing does the failing call change nothing.
   */
  lemma PageZeroStaysMapped(x: Machine, own: Owners, reserved: set<nat>, root: nat, va: nat, flags: set<Flag>)
    requires Sound(x, own, reserved) && UserSpace(x, root) && va < PAGE_SIZE
    ensures var r, p := AllocUserPage(x, root, va, flags), PageOf(va);
            var v := r.machine.memory;
            && r.address == 0
            && if MapsPageZero(x, root, va) then HandedOutNext(v, root, p)
               else SameTranslations(x.memory, v, own, x.kroot)
  {
    ZeroIsOwn(x, root, va);
    StartsAtZero(va);
    hide Sound, PageOf, AllocUserPage, MapsPageZero, SharedPage, FlagsPass, SameRoots, RootsKept, SameTranslations,
         Translate, PageStart, FreshlyMapped, HandedOutNext;
    if MapsPageZero(x, root, va) {
      ZeroFrameIsClear(x, own, reserved, root, va, flags);
    } else {
      var now := AllocUserKeeps(x, own, reserved, root, va, flags);
    }
  }

  /** The page is mapped to a frame whose bit is clear, and which is the next to be allocated. */
  ghost predicate HandedOutNext(m: Memory, root: nat, p: Page) {
    var t, a := Translate(m, root, p), AllocPage(m);
    t.Some? && t.value.frame !in m.used && a.frame == Some(t.value.frame) && Translate(a.memory, root, p) == t
  }

  lemma SameAt(m: Memory, v: Memory, own: Owners, kroot: nat, root: nat, p: Page)
    requires SameTranslations(m, v, own, kroot) && Space(own, kroot, root, p)
    ensures Translate(v, root, p) == Translate(m, root, p)
  {
    hide Translate;
  }

  lemma FreeClears(m: Memory, f: nat)
    ensures FreePage(m, f * PAGE_SIZE).used == m.used - {f}
  {
  }

  /** A call that maps page 0 leaves a state that no ownership of frames explains: a mapped frame whose bit is clear. */
  lemma PageZeroBreaks(x: Machine, own: Owners, reserved: set<nat>, root: nat, va: nat, flags: set<Flag>,
                       now: Owners, kept: set<nat>)
    requires Sound(x, own, reserved) && UserSpace(x, root) && MapsPageZero(x, root, va)
    ensures AllocUserPage(x, root, va, flags).address == 0
    ensures !Sound(AllocUserPage(x, root, va, flags).machine, now, kept)
  {
    var y := AllocUserPage(x, root, va, flags).machine;
    ZeroIsOwn(x, root, va);
    ZeroIsOwn(y, root, va);
    hide PageOf, AllocUserPage, SharedPage, Translate, AllocPage, Inv;
    ZeroFrameIsClear(x, own, reserved, root, va, flags);
    KeepsRoots(x, root, va, flags);
    if Sound(y, now, kept) {
      UserMappable(y, now, kept, root, va);
      MappedIsUsed(y.memory, now, x.kroot, kept, root, PageOf(va));
      assert false;
    }
  }

  lemma ZeroIsOwn(x: Machine, root: nat, va: nat)
    ensures va < PAGE_SIZE ==> !SharedPage(x, root, va)
  {
    UpperIsHigh(va);
    hide PageOf, Look;
  }

  lemma StartsAtZero(va: nat)
    ensures va < PAGE_SIZE ==> PageStart(va) == 0 && va < KERNEL_BASE
  {
  }

  lemma KeepsRoots(x: Machine, root: nat, va: nat, flags: set<Flag>)
    ensures var y := AllocUserPage(x, root, va, flags).machine;
            y.kroot == x.kroot && y.roots == x.roots
  {
    hide MapFresh;
  }

  /** In a sound state every mapped frame is in use. */
  lemma MappedIsUsed(m: Memory, own: Owners, kroot: nat, reserved: set<nat>, root: nat, p: Page)
    requires Inv(m, own, kroot, reserved) && Mappable(own, kroot, root, p) && Translate(m, root, p).Some?
    ensures Translate(m, root, p).value.frame in m.used
  {
    RootWalks(m, own, kroot, reserved, root, p);
    FollowReaches(m, own, kroot, root, p, 4);
    assert Translate(m, root, p).value.frame in own.Keys;
    hide Tree, Linked, Shares, PlacesOk, Distinct, Follow, PlaceFrom, Mappable;
  }

  lemma ZeroFrameIsClear(x: Machine, own: Owners, reserved: set<nat>, root: nat, va: nat, flags: set<Flag>)
    requires Sound(x, own, reserved) && UserPage(x, root, va) && MapsPageZero(x, root, va)
    ensures var r := AllocUserPage(x, root, va, flags);
            r.address == 0 && HandedOutNext(r.machine.memory, root, PageOf(va))
  {
    StartsAtZero(va);
    UserMappable(x, own, reserved, root, va);
    RootWalks(x.memory, own, x.kroot, reserved, root, PageOf(va));
    hide PageOf, Inv, AllocPage, MapPage, FreePage, Translate, RootsKept, RootsAre, Mappable, SameTranslations,
         PageStart, FreeFrames, Missing, HandedOutNext;
    AllocCounts(x.memory);
    AllocTakesLeast(x.memory);
    AllocKeeps(x.memory, own, x.kroot, reserved);
    AllocSame(x.memory, own, x.kroot, reserved);
    var a := AllocPage(x.memory);
    var f := a.frame.value;
    NotReserved(x.memory, own, x.kroot, reserved, f);
    SameAt(x.memory, a.memory, own, x.kroot, root, PageOf(va));
    MissingSame(x.memory, a.memory, own, x.kroot, root, PageOf(va), 4);
    MapFailsExactly(a.memory, own, x.kroot, reserved + {f}, root, f, PageOf(va), flags + {User});
    ZeroMappedTo(a.memory, own, x.kroot, reserved, root, f, PageOf(va), flags + {User});
  }

  /** A walk that makes tables only takes frames. */
  lemma {:induction false} WalkUses(m: Memory, t: nat, p: Page, level: nat, flags: set<Flag>)
    requires 1 <= level <= 4
    ensures m.used <= WalkFrom(m, t, p, level, true, flags).memory.used
    decreases level
  {
    if level > 1 {
      AllocTakesLeast(m);
      hide AllocPage, Look;
      var r := NextTable(m, t, At(p, level), true, flags);
      if r.frame.Some? {
        WalkUses(r.memory, r.frame.value, p, level - 1, flags);
      }
    }
  }

  lemma MapUses(m: Memory, root: nat, frame: nat, p: Page, flags: set<Flag>)
    ensures m.used <= MapPage(m, root, frame, p, flags).memory.used
  {
    WalkUses(m, root, p, 4, flags);
    hide WalkFrom, Look;
  }

  lemma ZeroMappedTo(a: Memory, own: Owners, kroot: nat, reserved: set<nat>, root: nat, f: nat, p: Page,
                     flags: set<Flag>)
    requires Inv(a, own, kroot, reserved + {f}) && f !in reserved && f != 0 && forall g :: 0 <= g < f ==> g in a.used
    requires Mappable(own, kroot, root, p) && MapPage(a, root, f, p, flags).ok
    ensures HandedOutNext(FreePage(MapPage(a, root, f, p, flags).memory, f * PAGE_SIZE), root, p)
  {
    MapUses(a, root, f, p, flags);
    SameSpace(own, kroot, root, p);
    hide Inv, MapPage, Translate, RootsKept, SameRoots, OnlyPage, Shows, Mappable, SameTranslations, FreePage,
         HandedOutNext;
    var r := MapPage(a, root, f, p, flags);
    var now := MapKeeps(a, own, kroot, reserved + {f}, root, f, p, flags);
    SameMappable(own, now, kroot, root, p);
    FreeShowsNothing(r.memory, f * PAGE_SIZE, own, kroot);
    LeafHandedOut(r.memory, now, kroot, reserved + {f} - {f}, root, p, f);
  }

  lemma SameSpace(own: Owners, kroot: nat, root: nat, p: Page)
    requires Mappable(own, kroot, root, p)
    ensures Space(own, kroot, root, p)
  {
  }

  /** A mapped frame that is given back is handed out by the next allocation, if no lower frame is free. */
  lemma LeafHandedOut(m: Memory, own: Owners, kroot: nat, reserved: set<nat>, root: nat, p: Page, f: nat)
    requires Inv(m, own, kroot, reserved) && Space(own, kroot, root, p)
    requires Translate(m, root, p).Some? && Translate(m, root, p).value.frame == f
    requires forall g :: 0 <= g < f ==> g in m.used
    ensures HandedOutNext(FreePage(m, f * PAGE_SIZE), root, p)
  {
    var v := FreePage(m, f * PAGE_SIZE);
    LeafAt(m, own, kroot, reserved, root, p);
    FreedIsNext(m, f);
    FreeShowsNothing(m, f * PAGE_SIZE, own, kroot);
    FreeClears(m, f);
    assert PlacesOk(own, kroot) && Tree(m, own, kroot) && PlaceOk(root, own[root].place);
    assert Translate(AllocPage(v).memory, root, p) == Follow(AllocPage(v).memory, root, p, 4);
    hide AllocPage, FreePage, Look, Inv, PlacesOk, Tree, SameTranslations, RootsKept, FlagsPass, Follow;
    SameTablesTranslate(m, AllocPage(v).memory, own, kroot, root, p, 4);
  }

  lemma FreedIsNext(m: Memory, f: nat)
    requires f in m.used && f < |m.tables| && forall g :: 0 <= g < f ==> g in m.used
    ensures var a := AllocPage(FreePage(m, f * PAGE_SIZE));
            a.frame == Some(f) && forall t, i: Index :: t != f ==> Look(a.memory, t, i) == Look(m, t, i)
  {
    FreeClears(m, f);
    AllocTakesLeast(FreePage(m, f * PAGE_SIZE));
    FreedTables(m, f * PAGE_SIZE);
    hide AllocPage, FreePage, Look;
  }

  lemma LeafAt(m: Memory, own: Owners, kroot: nat, reserved: set<nat>, root: nat, p: Page)
    requires Inv(m, own, kroot, reserved) && Space(own, kroot, root, p) && Translate(m, root, p).Some?
    ensures var f := Translate(m, root, p).value.frame;
            f in own && Depth(own[f].place) == 4 && f < |m.tables| && f in m.used
  {
    var f := Translate(m, root, p).value.frame;
    assert PlaceOk(root, own[root].place);
    FollowReaches(m, own, kroot, root, p, 4);
    PlaceUnfolded(own[root].place, p);
    assert PlaceOf(own[root].place, p) == PlaceFrom(own[root].place, p, 4);
    assert f in own.Keys;
    hide Tree, Linked, Shares, Distinct, PlaceOf, PlaceFrom, Follow;
  }
}
