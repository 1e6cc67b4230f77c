/** Calls through the PML4 of a user space on a page behind an entry that it has in common with the kernel's. */
module SharedPages {
  import opened PageTables
  import opened PageTrees
  import opened KernelPages

  lemma SharedWalk(m: Memory, kroot: nat, root: nat, p: Page, alloc: bool, flags: set<Flag>)
    requires Look(m, root, p.a) == Look(m, kroot, p.a) && Look(m, kroot, p.a).Here()
    ensures Walk(m, root, p, alloc, flags) == Walk(m, kroot, p, alloc, flags)
  {
    assert At(p, 4) == p.a;
    var e := Look(m, kroot, p.a);
    assert WalkFrom(m, root, p, 4, alloc, flags) == WalkFrom(m, e.frame, p, 3, alloc, flags);
    assert WalkFrom(m, kroot, p, 4, alloc, flags) == WalkFrom(m, e.frame, p, 3, alloc, flags);
    hide Look, WalkFrom;
  }

  /** With the same PML4 entry, mapping, unmapping and looking up give the same. */
  lemma SharedCalls(m: Memory, kroot: nat, root: nat, frame: nat, va: nat, flags: set<Flag>)
    requires Look(m, root, PageOf(va).a) == Look(m, kroot, PageOf(va).a) && Look(m, kroot, PageOf(va).a).Here()
    ensures MapPage(m, root, frame, PageOf(va), flags) == MapPage(m, kroot, frame, PageOf(va), flags)
    ensures UnmapPage(m, root, PageOf(va)) == UnmapPage(m, kroot, PageOf(va))
    ensures PhysicalAddress(m, root, va) == PhysicalAddress(m, kroot, va)
  {
    hide PageOf, Walk, Look, Put;
    SharedWalk(m, kroot, root, PageOf(va), true, flags);
    SharedWalk(m, kroot, root, PageOf(va), false, {});
  }

  /** A user PML4 and the kernel's have the same present entry exactly where they have it in common. */
  lemma SharedEntry(m: Memory, own: Owners, kroot: nat, root: nat, i: Index)
    requires PlacesOk(own, kroot) && Tree(m, own, kroot) && Shares(m, own, kroot)
    requires root in own && own[root].place.Root? && root != kroot && i >= KERNEL_HALF
    ensures Common(own[root].place, i) <==> Look(m, root, i).Here() && Look(m, root, i) == Look(m, kroot, i)
  {
    assert SharesAt(m, own, kroot, root, i) && PlaceOk(root, own[root].place);
    assert EntryOk(Look(m, root, i), own, Child(own[root].place, i));
    assert EntryOk(Look(m, kroot, i), own, Child(own[kroot].place, i));
    hide Look;
  }

  /** Taking and mapping a frame at such a page maps it in the kernel's own tables. */
  lemma SharedFresh(m: Memory, own: Owners, kroot: nat, reserved: set<nat>, root: nat, va: nat, flags: set<Flag>)
    requires Inv(m, own, kroot, reserved) && root in own
    requires Look(m, root, PageOf(va).a).Here() && Look(m, root, PageOf(va).a) == Look(m, kroot, PageOf(va).a)
    ensures MapFresh(m, root, va, flags) == MapFresh(m, kroot, va, flags)
  {
    AllocKeeps(m, own, kroot, reserved);
    assert kroot in own;
    hide Inv, AllocPage, MapPage, FreePage, Look, PageOf, PageStart;
    var a := AllocPage(m);
    if a.frame.Some? {
      SharedCalls(a.memory, kroot, root, a.frame.value, va, flags);
    }
  }
}
