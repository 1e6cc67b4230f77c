/** How many frames a mapping call needs, and so exactly when it fails. */
module FrameNeeds {
  import opened PageTables
  import opened PageTrees
  import opened PageWalks
  import opened PageCalls
  import opened KernelPages

  ghost function Clear(m: Memory): set<nat> {
    set f: nat | f < |m.tables| && f !in m.used
  }

  /** The number of free frames. */
  ghost function FreeFrames(m: Memory): nat {
    |Clear(m)|
  }

  /** The number of tables that a walk from a table of some level has to make. */
  function Missing(m: Memory, t: nat, p: Page, level: nat): (n: nat)
    requires 1 <= level <= 4
    ensures n < level
    decreases level
  {
    var e := Look(m, t, At(p, level));
    if level == 1 then 0 else if e.Here() then Missing(m, e.frame, p, level - 1) else level - 1
  }

  /** An allocation takes one free frame, if there is one. */
  lemma AllocCounts(m: Memory)
    ensures AllocPage(m).frame.None? <==> FreeFrames(m) == 0
    ensures AllocPage(m).frame.Some? ==> FreeFrames(AllocPage(m).memory) == FreeFrames(m) - 1
  {
    AllocTakesLeast(m);
    hide AllocPage, Look;
    var a := AllocPage(m);
    if a.frame.Some? {
      assert a.frame.value in Clear(m);
      assert Clear(a.memory) == Clear(m) - {a.frame.value};
    } else {
      assert Clear(m) == {};
    }
  }

  lemma PutCounts(m: Memory, t: nat, i: Index, e: Entry)
    ensures FreeFrames(Put(m, t, i, e)) == FreeFrames(m)
  {
    assert Clear(Put(m, t, i, e)) == Clear(m);
  }

  /** What is missing depends only on the tables in the trees. */
  lemma {:induction false} MissingSame(m: Memory, v: Memory, own: Owners, kroot: nat, t: nat, p: Page, level: nat)
    requires 1 <= level <= 4 && Tree(m, own, kroot) && PlacesOk(own, kroot)
    requires t in own && Depth(own[t].place) == 4 - level && Tracked(kroot, t, At(p, level))
    requires forall u, i: Index :: u in own ==> Look(v, u, i) == Look(m, u, i)
    ensures Missing(v, t, p, level) == Missing(m, t, p, level)
    decreases level
  {
    assert PlaceOk(t, own[t].place);
    hide Look;
    var e := Look(m, t, At(p, level));
    assert EntryOk(e, own, Child(own[t].place, At(p, level)));
    if e.Here() && level > 1 {
      MissingSame(m, v, own, kroot, e.frame, p, level - 1);
    }
  }

  // ---------- the walk ----------

  /** A table newly made at an empty entry is empty, and has cost one frame. */
  lemma NextCosts(m: Memory, own: Owners, kroot: nat, reserved: set<nat>, t: nat, i: Index, flags: set<Flag>)
    requires Inv(m, own, kroot, reserved) && t in own && !Look(m, t, i).Here()
    ensures var r := NextTable(m, t, i, true, flags);
            if FreeFrames(m) == 0 then r.frame.None?
            else r.frame.Some? && FreeFrames(r.memory) == FreeFrames(m) - 1
                 && forall j: Index :: Look(r.memory, r.frame.value, j) == EMPTY
  {
    AllocCounts(m);
    AllocTakesLeast(m);
    assert t in own.Keys && t in m.used;
    hide AllocPage, Look, Put, Inv, FreeFrames;
    var a := AllocPage(m);
    if a.frame.Some? {
      var e := Entry(a.frame.value, {Present, Writable} + flags);
      LookPut(a.memory, t, i, e);
      PutCounts(a.memory, t, i, e);
    }
  }

  lemma MissingBelowEmpty(m: Memory, t: nat, p: Page, level: nat)
    requires 1 <= level <= 4 && forall j: Index :: Look(m, t, j) == EMPTY
    ensures Missing(m, t, p, level) == level - 1
  {
    assert Look(m, t, At(p, level)) == EMPTY;
  }

  lemma MissingStep(m: Memory, t: nat, p: Page, level: nat)
    requires 1 < level <= 4
    ensures var e := Look(m, t, At(p, level));
            Missing(m, t, p, level) == if e.Here() then Missing(m, e.frame, p, level - 1) else level - 1
  {
  }

  lemma NextThere(m: Memory, t: nat, i: Index, flags: set<Flag>)
    requires Look(m, t, i).Here()
    ensures NextTable(m, t, i, true, flags) == Found(m, Some(Look(m, t, i).frame))
  {
  }

  /** A walk that makes tables succeeds exactly if there are frames for all that are missing. */
  lemma {:induction false} WalkNeeds(m: Memory, own: Owners, kroot: nat, reserved: set<nat>, t: nat, p: Page,
                                     level: nat, flags: set<Flag>)
    requires 1 <= level <= 4 && Inv(m, own, kroot, reserved) && Walking(own, kroot, t, p, level)
    ensures WalkFrom(m, t, p, level, true, flags).frame.Some? <==> Missing(m, t, p, level) <= FreeFrames(m)
    decreases level
  {
    hide Inv, NextTable, Look, Missing, FreeFrames, Grown, SameTranslations, EntriesKept, Walking, FlagsPass, WalkFits;
    if level > 1 {
      var r := NextTable(m, t, At(p, level), true, flags);
      InTrees(own, kroot, t, p, level);
      var now := NextKeeps(m, own, kroot, reserved, t, p, level, flags);
      MissingStep(m, t, p, level);
      WalkStepOn(m, t, p, level, flags);
      if Look(m, t, At(p, level)).Here() {
        NextThere(m, t, At(p, level), flags);
      } else {
        NextCosts(m, own, kroot, reserved, t, At(p, level), flags);
      }
      if r.frame.Some? {
        WalksOn(m, own, now, kroot, reserved, r.memory, t, r.frame.value, p, level);
        if !Look(m, t, At(p, level)).Here() {
          MissingBelowEmpty(r.memory, r.frame.value, p, level - 1);
        }
        WalkNeeds(r.memory, now, kroot, reserved, r.frame.value, p, level - 1, flags);
      }
    } else {
      NothingMissing(m, t, p, flags);
    }
  }

  /** Such a walk takes as many frames as tables are missing. */
  lemma {:induction false} WalkCosts(m: Memory, own: Owners, kroot: nat, reserved: set<nat>, t: nat, p: Page,
                                     level: nat, flags: set<Flag>)
    requires 1 <= level <= 4 && Inv(m, own, kroot, reserved) && Walking(own, kroot, t, p, level)
    requires WalkFrom(m, t, p, level, true, flags).frame.Some?
    ensures FreeFrames(WalkFrom(m, t, p, level, true, flags).memory) == FreeFrames(m) - Missing(m, t, p, level)
    decreases level
  {
    hide Inv, NextTable, Look, Missing, FreeFrames, Grown, SameTranslations, EntriesKept, Walking, FlagsPass, WalkFits;
    if level > 1 {
      var r := NextTable(m, t, At(p, level), true, flags);
      InTrees(own, kroot, t, p, level);
      var now := NextKeeps(m, own, kroot, reserved, t, p, level, flags);
      MissingStep(m, t, p, level);
      WalkStepOn(m, t, p, level, flags);
      WalksOn(m, own, now, kroot, reserved, r.memory, t, r.frame.value, p, level);
      if Look(m, t, At(p, level)).Here() {
        NextThere(m, t, At(p, level), flags);
      } else {
        NextCosts(m, own, kroot, reserved, t, At(p, level), flags);
        MissingBelowEmpty(r.memory, r.frame.value, p, level - 1);
      }
      WalkCosts(r.memory, now, kroot, reserved, r.frame.value, p, level - 1, flags);
    } else {
      NothingMissing(m, t, p, flags);
    }
  }

  /** The entries for the lowest `k` tables on the way to a page have exactly these flags. */
  predicate MarkedPath(m: Memory, t: nat, p: Page, level: nat, k: nat, flags: set<Flag>)
    requires 1 <= level <= 4
    decreases level
  {
    level > 1 ==>
      && (level <= k + 1 ==> Look(m, t, At(p, level)).flags == flags)
      && MarkedPath(m, Look(m, t, At(p, level)).frame, p, level - 1, k, flags)
  }

  /** The tables that a walk makes are present and writable, and have the flags given to it, and no others. */
  lemma {:induction false} WalkMarks(m: Memory, own: Owners, kroot: nat, reserved: set<nat>, t: nat, p: Page,
                                     level: nat, flags: set<Flag>)
    requires 1 <= level <= 4 && Inv(m, own, kroot, reserved) && Walking(own, kroot, t, p, level)
    requires WalkFrom(m, t, p, level, true, flags).frame.Some?
    ensures MarkedPath(WalkFrom(m, t, p, level, true, flags).memory, t, p, level, Missing(m, t, p, level),
                       {Present, Writable} + flags)
    decreases level
  {
    hide Inv, NextTable, Look, Missing, FreeFrames, Grown, SameTranslations, EntriesKept, Walking, FlagsPass, WalkFits;
    if level > 1 {
      var r := NextTable(m, t, At(p, level), true, flags);
      InTrees(own, kroot, t, p, level);
      var now := NextKeeps(m, own, kroot, reserved, t, p, level, flags);
      MissingStep(m, t, p, level);
      WalkStepOn(m, t, p, level, flags);
      var n := r.frame.value;
      WalksOn(m, own, now, kroot, reserved, r.memory, t, n, p, level);
      WalkMarks(r.memory, now, kroot, reserved, n, p, level - 1, flags);
      var end := WalkKeeps(r.memory, now, kroot, reserved, n, p, level - 1, flags);
      EntryStays(r.memory, WalkFrom(r.memory, n, p, level - 1, true, flags).memory, own, now, kroot, t, At(p, level));
      if Look(m, t, At(p, level)).Here() {
        NextThere(m, t, At(p, level), flags);
        MissingIsLess(m, n, p, level - 1);
      } else {
        NextCosts(m, own, kroot, reserved, t, At(p, level), flags);
        NextMarked(m, own, kroot, reserved, t, At(p, level), flags);
        MissingBelowEmpty(r.memory, n, p, level - 1);
        MoreMarked(WalkFrom(r.memory, n, p, level - 1, true, flags).memory, n, p, level - 1, level - 2, level - 1,
                   {Present, Writable} + flags);
      }
    }
  }

  lemma MissingIsLess(m: Memory, t: nat, p: Page, level: nat)
    requires 1 <= level <= 4
    ensures Missing(m, t, p, level) < level
  {
  }

  lemma NextMarked(m: Memory, own: Owners, kroot: nat, reserved: set<nat>, t: nat, i: Index, flags: set<Flag>)
    requires Inv(m, own, kroot, reserved) && t in own && !Look(m, t, i).Here()
    requires NextTable(m, t, i, true, flags).frame.Some?
    ensures Look(NextTable(m, t, i, true, flags).memory, t, i).flags == {Present, Writable} + flags
  {
    AllocTakesLeast(m);
    assert t in own.Keys && t < |m.tables|;
    hide AllocPage, Look, Put, Inv;
    LookPut(AllocPage(m).memory, t, i, Entry(AllocPage(m).frame.value, {Present, Writable} + flags));
  }

  /** Below a table of some level there are only so many tables. */
  lemma {:induction false} MoreMarked(m: Memory, t: nat, p: Page, level: nat, k: nat, n: nat, flags: set<Flag>)
    requires 1 <= level <= 4 && k + 1 >= level && n >= k && MarkedPath(m, t, p, level, k, flags)
    ensures MarkedPath(m, t, p, level, n, flags)
    decreases level
  {
    hide Look;
    if level > 1 {
      MoreMarked(m, Look(m, t, At(p, level)).frame, p, level - 1, k, n, flags);
    }
  }

  lemma EntryStays(m: Memory, v: Memory, own: Owners, now: Owners, kroot: nat, t: nat, i: Index)
    requires Grown(own, now) && EntriesKept(m, v, now, kroot) && t in own && Look(m, t, i).Here()
    ensures Look(v, t, i) == Look(m, t, i)
  {
    hide Look;
  }

  lemma NothingMissing(m: Memory, t: nat, p: Page, flags: set<Flag>)
    ensures Missing(m, t, p, 1) == 0 && WalkFrom(m, t, p, 1, true, flags).frame.Some?
  {
  }

  lemma WalksOn(m: Memory, own: Owners, now: Owners, kroot: nat, reserved: set<nat>, v: Memory, t: nat, n: nat, p: Page,
                level: nat)
    requires level > 1 && Walking(own, kroot, t, p, level) && Inv(m, own, kroot, reserved)
             && Inv(v, now, kroot, reserved)
    requires n in now && now[n].place == Child(own[t].place, At(p, level))
    ensures Walking(now, kroot, n, p, level - 1)
  {
    assert PlaceOk(t, own[t].place);
    hide Tree, Linked, Shares, Counted, Distinct;
    WalkingOn(own, now, kroot, t, n, p, level);
  }

  // ---------- mapping calls ----------

  /**
   * Taking and mapping a frame fails exactly if the page is mapped already, or the frames left are not enough for the
   * page and the tables that are missing for it.
   */
  lemma MapFreshFailsExactly(m: Memory, own: Owners, kroot: nat, reserved: set<nat>, root: nat, va: nat,
                             flags: set<Flag>)
    requires Inv(m, own, kroot, reserved) && Mappable(own, kroot, root, PageOf(va)) && va >= PAGE_SIZE
    ensures MapFresh(m, root, va, flags).address == 0 <==>
            Translate(m, root, PageOf(va)).Some? || FreeFrames(m) < 1 + Missing(m, root, PageOf(va), 4)
  {
    AllocCounts(m);
    AllocKeeps(m, own, kroot, reserved);
    AllocSame(m, own, kroot, reserved);
    StartPositive(va);
    var p := PageOf(va);
    var a := AllocPage(m);
    if a.frame.Some? {
      RootWalks(m, own, kroot, reserved, root, p);
      MissingSame(m, a.memory, own, kroot, root, p, 4);
      MapFailsExactly(a.memory, own, kroot, reserved + {a.frame.value}, root, a.frame.value, p, flags);
      assert Translate(a.memory, root, p) == Translate(m, root, p);
    }
    hide Inv, AllocPage, MapPage, FreePage, PageOf, PageStart, Translate, Missing, FreeFrames, RootsKept, Mappable;
  }

  /** A call that fails changes no translation and gives its frame back, whatever the page. */
  lemma MapFreshFails(m: Memory, own: Owners, kroot: nat, reserved: set<nat>, root: nat, va: nat, flags: set<Flag>)
    returns (now: Owners)
    requires Inv(m, own, kroot, reserved) && Mappable(own, kroot, root, PageOf(va))
    requires Translate(m, root, PageOf(va)).Some? || FreeFrames(m) < 1 + Missing(m, root, PageOf(va), 4)
    ensures var r := MapFresh(m, root, va, flags);
            && r.address == 0 && Inv(r.memory, now, kroot, reserved) && SameRoots(own, now)
            && RootsKept(m, r.memory, own, kroot) && SameTranslations(m, r.memory, own, kroot)
            && FlagsPass(m, own, r.memory, now, kroot, FlagsFor(PageOf(va), flags))
  {
    now := own;
    FlagsSame(m, own, kroot, FlagsFor(PageOf(va), flags));
    RootWalks(m, own, kroot, reserved, root, PageOf(va));
    assert SameRoots(own, own);
    hide Inv, AllocPage, MapPage, FreePage, PageOf, PageStart, Translate, Missing, FreeFrames, RootsKept, Mappable,
         SameRoots, FreshlyMapped, NearlyFull, FlagsPass, FlagsFor;
    AllocCounts(m);
    AllocKeeps(m, own, kroot, reserved);
    AllocNone(m);
    AllocSame(m, own, kroot, reserved);
    var a := AllocPage(m);
    if a.frame.Some? {
      var f := a.frame.value;
      MissingSame(m, a.memory, own, kroot, root, PageOf(va), 4);
      MapFailsExactly(a.memory, own, kroot, reserved + {f}, root, f, PageOf(va), flags);
      NotReserved(m, own, kroot, reserved, f);
      now := MapTaken(m, a.memory, own, kroot, reserved, root, f, va, flags);
    }
  }

  lemma AllocNone(m: Memory)
    ensures AllocPage(m).frame.None? ==> AllocPage(m).memory == m
  {
  }

  lemma StartPositive(va: nat)
    ensures va >= PAGE_SIZE ==> PageStart(va) > 0
  {
  }

  lemma RootWalks(m: Memory, own: Owners, kroot: nat, reserved: set<nat>, root: nat, p: Page)
    requires Inv(m, own, kroot, reserved) && Mappable(own, kroot, root, p)
    ensures Walking(own, kroot, root, p, 4) && own[root].place.Root?
    ensures Tree(m, own, kroot) && PlacesOk(own, kroot) && Depth(own[root].place) == 0 && Space(own, kroot, root, p)
  {
    assert PlaceOk(root, own[root].place);
  }

  /** A successful call takes one frame for the page and one for each table that is missing for it. */
  lemma MapFreshCosts(m: Memory, own: Owners, kroot: nat, reserved: set<nat>, root: nat, va: nat, flags: set<Flag>)
    requires Inv(m, own, kroot, reserved) && Mappable(own, kroot, root, PageOf(va))
    requires MapFresh(m, root, va, flags).address != 0
    ensures FreeFrames(MapFresh(m, root, va, flags).memory)
         == FreeFrames(m) - 1 - Missing(m, root, PageOf(va), 4)
  {
    var p := PageOf(va);
    RootWalks(m, own, kroot, reserved, root, p);
    hide Inv, AllocPage, WalkFrom, FreePage, PageOf, PageStart, Translate, Missing, FreeFrames, RootsKept, Mappable,
         Put, Look;
    AllocCounts(m);
    AllocKeeps(m, own, kroot, reserved);
    var a := AllocPage(m);
    MissingSame(m, a.memory, own, kroot, root, p, 4);
    WalkCosts(a.memory, own, kroot, reserved + {a.frame.value}, root, p, 4, flags);
    var w := Walk(a.memory, root, p, true, flags);
    PutCounts(w.memory, w.frame.value, p.d, Entry(a.frame.value, {Present} + flags));
  }

  lemma MapFailsExactly(m: Memory, own: Owners, kroot: nat, reserved: set<nat>, root: nat, frame: nat, p: Page,
                        flags: set<Flag>)
    requires Inv(m, own, kroot, reserved) && Mappable(own, kroot, root, p)
    ensures MapPage(m, root, frame, p, flags).ok <==>
            Translate(m, root, p).None? && Missing(m, root, p, 4) <= FreeFrames(m)
  {
    RootWalks(m, own, kroot, reserved, root, p);
    hide Inv, WalkFrom, Look, Put, Translate, Missing, FreeFrames, Grown, EntriesKept, Mappable, FlagsPass, WalkFits;
    var now := WalkKeeps(m, own, kroot, reserved, root, p, 4, flags);
    WalkNeeds(m, own, kroot, reserved, root, p, 4, flags);
    var w := Walk(m, root, p, true, flags);
    assert Translate(w.memory, root, p) == Translate(m, root, p);
    if w.frame.Some? {
      ArrivedAt(w.memory, now, kroot, own[root].place, root, p, w.frame.value);
    }
  }
}
