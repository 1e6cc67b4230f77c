/** What the check of pointers says about the page tables of a user space, in every reachable state. */
module UserRanges {
  import opened Bytes
  import opened PageTables
  import opened PageTrees
  import opened PageWalks
  import opened PageCalls
  import opened KernelPages
  import opened PageRuns
  import opened UserPages
  import opened UserPointers

  /** The first address above the lower half. */
  const LOWER_HALF_END: nat := 0x8000_0000_0000

  /** What the processor asks of an access by a user program: the flags are set at every level of its walk. */
  predicate UserPath(m: Memory, t: nat, p: Page, level: nat, write: bool)
    requires 1 <= level <= 4
    decreases level
  {
    var e := Look(m, t, At(p, level));
    && e.Here() && User in e.flags && (write ==> Writable in e.flags)
    && (level > 1 ==> UserPath(m, e.frame, p, level - 1, write))
  }

  lemma LowerHalfPlaces(root: Place, p: Page)
    requires root.Root?
    ensures InUser(PlaceOf(root, p)) <==> p.a < KERNEL_HALF
  {
    PlaceUnfolded(root, p);
    UserChild(root, p.a);
    var c := Child(root, p.a);
    assert InUser(Below(c, p.b)) == InUser(c) && InUser(Below(Below(c, p.b), p.c)) == InUser(c);
    hide PlaceOf;
  }

  /** In flagged tables, a user leaf is found by a walk on which every entry is a user entry, and writable above it. */
  lemma {:induction false} LeafDecides(m: Memory, own: Owners, kroot: nat, t: nat, p: Page, level: nat, write: bool)
    requires 1 <= level <= 4 && Tree(m, own, kroot) && PlacesOk(own, kroot) && Flagged(m, own, kroot)
    requires t in own && Depth(own[t].place) == 4 - level && Tracked(kroot, t, At(p, level))
    ensures var leaf := Follow(m, t, p, level);
            && (leaf.Some? ==> (User in leaf.value.flags <==> InUser(PlaceFrom(own[t].place, p, level))))
            && (UserPath(m, t, p, level, write) <==>
                  leaf.Some? && User in leaf.value.flags && (write ==> Writable in leaf.value.flags))
    decreases level
  {
    var i := At(p, level);
    var e, c := Look(m, t, i), Child(own[t].place, i);
    assert PlaceOk(t, own[t].place);
    assert EntryOk(e, own, c) && FlagsFit(e, c);
    assert PlaceFrom(own[t].place, p, level) == PlaceFrom(c, p, level - 1);
    hide Look, Tree, PlacesOk, Flagged;
    if e.Here() && level > 1 {
      LeafDecides(m, own, kroot, e.frame, p, level - 1, write);
      UserAbove(c, p, level - 1);
    }
  }

  /** A place below another is in a user space exactly if that one is. */
  lemma {:induction false} UserAbove(pl: Place, p: Page, level: nat)
    requires level <= 4 && pl.Below?
    ensures InUser(PlaceFrom(pl, p, level)) <==> InUser(pl)
    decreases level
  {
    if level > 0 {
      UserAbove(Child(pl, At(p, level)), p, level - 1);
    }
  }

  /** In a space with the right flags, a byte's leaf entry allows access exactly if the whole walk does. */
  lemma AccessibleAllTheWay(x: Machine, own: Owners, reserved: set<nat>, root: nat, a: nat, write: bool)
    requires Sound(x, own, reserved) && Flagged(x.memory, own, x.kroot) && root in x.roots && root != x.kroot
    ensures Accessible(x.memory, root, a, write) <==> UserPath(x.memory, root, PageOf(a), 4, write)
    ensures Accessible(x.memory, root, a, write) ==> PageOf(a).a < KERNEL_HALF
  {
    var p := PageOf(a);
    assert root in own && own[root].place.Root? && PlaceOk(root, own[root].place);
    assert 0 in reserved && forall f :: f in own ==> f in own.Keys;
    assert PlaceOf(own[root].place, p) == PlaceFrom(own[root].place, p, 4);
    hide PageOf, Linked, Shares, Distinct, Flagged, RootsAre, UserPath, Follow, PlaceOf, InUser;
    LeafDecides(x.memory, own, x.kroot, root, p, 4, write);
    FollowReaches(x.memory, own, x.kroot, root, p, 4);
    LowerHalfPlaces(own[root].place, p);
  }

  /** No entry is wrong in the tables that paging_init makes. */
  lemma FreshFlagged(x: Machine, reserved: set<nat>)
    requires Fresh(x, reserved)
    ensures Flagged(x.memory, map[x.kroot := KernelNode(x.kroot)], x.kroot)
  {
    assert forall pl :: FlagsFit(EMPTY, pl);
    hide Look, FlagsFit;
  }

  /**
   * In every state reached without mapping user pages in the kernel's half, and for every user space, the check made on
   * its own tables accepts a non-empty range exactly if it starts in user memory, ends in the lower half, and the
   * processor lets the program access every byte of it: the flags are set at all four levels. The range cannot reach
   * into the kernel's half, although its end is not compared with any bound, and the call returns whatever the range.
   */
  lemma AcceptedExactly(x: Machine, reserved: set<nat>, calls: seq<PageCall>, root: nat, ptr: nat, size: nat,
                        write: bool)
    requires Fresh(x, reserved) && !EverMapsZero(x, calls) && (forall c :: c in calls ==> StaysLow(c))
    requires size > 0 && ptr + size <= TWO_64
    requires root in Run(x, calls).roots && root != x.kroot
    ensures var m := Run(x, calls).memory;
            && Returns(m, root, ptr, size, write)
            && (Validate(m, root, ptr, size, write) <==>
                  && USER_BASE <= ptr < USER_STACK_TOP && ptr + size <= LOWER_HALF_END
                  && forall a: nat :: ptr <= a < ptr + size ==> UserPath(m, root, PageOf(a), 4, write))
  {
    var own := map[x.kroot := KernelNode(x.kroot)];
    var y := Run(x, calls);
    FreshSound(x, reserved);
    FreshFlagged(x, reserved);
    hide Fresh, Inv, RootsAre, RootsKept, RootsGrow, Ledger, Run, Flagged, Aligned, StaysLow, EverMapsZero, Validate,
         Returns, UserPath, PageOf;
    var now, kept := RunKeeps(x, own, reserved, calls);
    AcceptedBytes(y, now, kept, root, ptr, size, write);
  }

  lemma AcceptedBytes(x: Machine, own: Owners, reserved: set<nat>, root: nat, ptr: nat, size: nat, write: bool)
    requires Sound(x, own, reserved) && Flagged(x.memory, own, x.kroot) && root in x.roots && root != x.kroot
    requires size > 0 && ptr + size <= TWO_64
    ensures Returns(x.memory, root, ptr, size, write)
    ensures Validate(x.memory, root, ptr, size, write) <==>
            && USER_BASE <= ptr < USER_STACK_TOP && ptr + size <= LOWER_HALF_END
            && forall a: nat :: ptr <= a < ptr + size ==> UserPath(x.memory, root, PageOf(a), 4, write)
  {
    hide Sound, Flagged, Accessible, UserPath, PageOf, PageFine, Validate;
    forall a: nat
      ensures Accessible(x.memory, root, a, write) <==> UserPath(x.memory, root, PageOf(a), 4, write)
    {
      AccessibleAllTheWay(x, own, reserved, root, a, write);
    }
    AccessibleAllTheWay(x, own, reserved, root, LOWER_HALF_END, write);
    FirstUpperPage();
    ValidateMeans(x.memory, root, ptr, size, write);
    PageFineMeans(x.memory, root, LOWER_HALF_END, write);
    if ptr < USER_STACK_TOP && LOWER_HALF_END < ptr + size {
      assert ptr <= LOWER_HALF_END && !Accessible(x.memory, root, LOWER_HALF_END, write);
    }
  }

  lemma FirstUpperPage()
    ensures PageOf(LOWER_HALF_END).a == KERNEL_HALF && LOWER_HALF_END % PAGE_SIZE == 0
  {
  }
}
