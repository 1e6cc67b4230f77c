/** Mapping and unmapping a page, and the kernel's and user spaces' page calls built on them. */
module PageCalls {
  import opened PageTables
  import opened PageTrees
  import opened PageWalks

  const KERNEL_BASE: nat := 0xFFFF_FFFF_8000_0000

  /** The two spaces have the entry for the page in common with the kernel. */
  ghost predicate InCommon(own: Owners, r: nat, s: nat, p: Page) {
    r in own && s in own && Common(own[r].place, p.a) && Common(own[s].place, p.a)
  }

  /** Page `p` of space `root`, and if it is a kernel page there, of every space that has it in common. */
  ghost predicate Touched(own: Owners, root: nat, p: Page, s: nat, q: Page) {
    q == p && (s == root || InCommon(own, root, s, p))
  }

  /** No other page has a new translation. */
  ghost predicate OnlyPage(m: Memory, v: Memory, own: Owners, kroot: nat, root: nat, p: Page) {
    forall s, q: Page :: Space(own, kroot, s, q) && !Touched(own, root, p, s, q) ==>
      Translate(v, s, q) == Translate(m, s, q)
  }

  /** In every space, page `p` translates to `leaf` or has no tables. */
  ghost predicate Shows(v: Memory, own: Owners, kroot: nat, root: nat, p: Page, leaf: Option<Entry>) {
    forall s :: Space(own, kroot, s, p) && Touched(own, root, p, s, p) && Translate(v, s, p).Some? ==>
      Translate(v, s, p) == leaf
  }

  /** PML4 entries are never changed once present. */
  ghost predicate RootsKept(m: Memory, v: Memory, own: Owners, kroot: nat) {
    forall r, i: Index :: r in own && own[r].place.Root? && Tracked(kroot, r, i) && Look(m, r, i).Here() ==>
      Look(v, r, i) == Look(m, r, i)
  }

  /** Both have the same address spaces, with the same entries in common. */
  ghost predicate SameRoots(own: Owners, now: Owners) {
    && (forall f :: f in own && own[f].place.Root? ==> f in now && now[f].place == own[f].place)
    && (forall f :: f in now && now[f].place.Root? ==> f in own && own[f].place == now[f].place)
  }

  /** A page that can be mapped: one of the kernel's through the kernel's PML4 only. */
  ghost predicate Mappable(own: Owners, kroot: nat, root: nat, p: Page) {
    Space(own, kroot, root, p) && (Common(own[root].place, p.a) ==> root == kroot)
  }

  // ---------- a leaf entry changes ----------

  lemma LeafEffect(m: Memory, own: Owners, kroot: nat, root: nat, p: Page, pt: nat, leaf: Entry)
    requires Tree(m, own, kroot) && PlacesOk(own, kroot) && Distinct(own) && Space(own, kroot, root, p)
    requires Arrived(m, own, kroot, own[root].place, root, p, 4, pt) && pt < |m.tables|
    ensures var v := Put(m, pt, p.d, leaf);
            OnlyPage(m, v, own, kroot, root, p)
            && Shows(v, own, kroot, root, p, if leaf.Here() then Some(leaf) else None)
            && Shows(m, own, kroot, root, p, Translate(m, root, p))
  {
    var v := Put(m, pt, p.d, leaf);
    assert PlaceOf(own[root].place, p) == Child(own[pt].place, p.d);
    forall s, q: Page | Space(own, kroot, s, q)
      ensures !Touched(own, root, p, s, q) ==> Translate(v, s, q) == Translate(m, s, q)
      ensures Touched(own, root, p, s, q) && Translate(v, s, q).Some? ==>
                leaf.Here() && Translate(v, s, q) == Some(leaf)
      ensures Touched(own, root, p, s, q) && Translate(m, s, q).Some? ==> Translate(m, s, q) == Translate(m, root, p)
    {
      assert PlaceOk(s, own[s].place) && PlaceOk(root, own[root].place);
      PlacesApart(own[s].place, q, own[root].place, p);
      if Touched(own, root, p, s, q) {
        LeafVisible(m, own, kroot, pt, p.d, leaf, s, q, 4);
      } else {
        LeafInvisibleElsewhere(m, own, kroot, pt, p.d, leaf, s, q, 4);
      }
      hide Tree, Distinct, Put, Look, PlaceOf, PlaceFrom, Depth;
    }
  }

  /** paging_map_page maps exactly this page, to the given frame; if it fails, it changes no translation at all. */
  lemma MapKeeps(m: Memory, own: Owners, kroot: nat, reserved: set<nat>, root: nat, frame: nat, p: Page,
                 flags: set<Flag>)
    returns (now: Owners)
    requires Inv(m, own, kroot, reserved) && Mappable(own, kroot, root, p) && frame in reserved && frame != 0
    ensures var r := MapPage(m, root, frame, p, flags);
            && Inv(r.memory, now, kroot, if r.ok then reserved - {frame} else reserved)
            && SameRoots(own, now) && RootsKept(m, r.memory, own, kroot)
            && FlagsPass(m, own, r.memory, now, kroot, FlagsFor(p, flags))
            && (r.ok ==> OnlyPage(m, r.memory, own, kroot, root, p)
                         && Shows(m, own, kroot, root, p, None) && Translate(m, root, p) == None
                         && Shows(r.memory, own, kroot, root, p, Some(Entry(frame, {Present} + flags)))
                         && Translate(r.memory, root, p) == Some(Entry(frame, {Present} + flags)))
            && (!r.ok ==> SameTranslations(m, r.memory, own, kroot)
                          && (Translate(m, root, p).Some?
                              || forall g :: 0 <= g < |r.memory.tables| ==> g in r.memory.used))
  {
    assert PlaceOk(root, own[root].place) && Walking(own, kroot, root, p, 4);
    hide Inv, WalkFrom, Look, Put, SameTranslations, Grown, EntriesKept, Arrived, RootsKept, SameRoots, OnlyPage, Shows,
         Space, FlagsPass, WalkFits, FlagsFor;
    now := WalkKeeps(m, own, kroot, reserved, root, p, 4, flags);
    var w := Walk(m, root, p, true, flags);
    PageFlags(own[root].place, p, flags);
    FlagsUnder(m, own, w.memory, now, kroot, WalkFits(own[root].place, p, 4, flags), FlagsFor(p, flags));
    if w.frame.Some? && !Look(w.memory, w.frame.value, p.d).Here() {
      now := MapLeaf(m, w.memory, own, now, kroot, reserved, root, frame, p, w.frame.value, {Present} + flags);
    } else {
      MapFails(m, w.memory, own, now, kroot, root, p);
      if w.frame.Some? {
        ArrivedAt(w.memory, now, kroot, own[root].place, root, p, w.frame.value);
      }
    }
  }

  /** Flags that fit a page fit the walk to it and its leaf. */
  lemma PageFlags(root: Place, p: Page, flags: set<Flag>)
    requires root.Root?
    ensures FlagsFor(p, flags) ==> WalkFits(root, p, 4, flags)
    ensures FlagsFor(p, {Present} + flags) == FlagsFor(p, flags)
  {
    UserChild(root, p.a);
    assert At(p, 4) == p.a;
    hide Child, InUser;
  }

  lemma UserChild(root: Place, i: Index)
    requires root.Root?
    ensures InUser(Child(root, i)) <==> i < KERNEL_HALF
  {
    assert !InUser(Kernel);
  }

  lemma LeafFlagsFit(root: Place, p: Page, frame: nat, flags: set<Flag>)
    requires root.Root?
    ensures FlagsFor(p, flags) ==> FlagsFit(Entry(frame, flags), PlaceOf(root, p))
  {
    PlaceUnfolded(root, p);
    var c := Child(root, p.a);
    UserChild(root, p.a);
    assert InUser(c) == (p.a < KERNEL_HALF) && Depth(c) == 1;
    assert InUser(Below(c, p.b)) == InUser(c) && Depth(Below(c, p.b)) == 2;
    assert InUser(Below(Below(c, p.b), p.c)) == InUser(c) && Depth(Below(Below(c, p.b), p.c)) == 3;
    hide PlaceOf;
  }

  lemma MapFlags(m: Memory, w: Memory, own: Owners, mid: Owners, kroot: nat, root: Place, frame: nat, p: Page,
                 pt: nat, flags: set<Flag>)
    requires root.Root? && PlacesOk(mid, kroot) && pt in mid && frame !in mid && pt < |w.tables|
    requires Depth(mid[pt].place) == 3
    requires Child(mid[pt].place, p.d) == PlaceOf(root, p)
    requires FlagsPass(m, own, w, mid, kroot, FlagsFor(p, flags))
    ensures FlagsPass(m, own, Put(w, pt, p.d, Entry(frame, flags)), Adopted(mid, pt, p.d, frame), kroot,
                      FlagsFor(p, flags))
  {
    hide PlacesOk, Put, Adopted, FlagsPass, FlagsFor, FlagsFit, PlaceOf;
    var v, now := Put(w, pt, p.d, Entry(frame, flags)), Adopted(mid, pt, p.d, frame);
    AdoptFlags(w, mid, kroot, pt, p.d, frame, flags);
    LeafFlagsFit(root, p, frame, flags);
    FlagsUnder(w, mid, v, now, kroot, FlagsFit(Entry(frame, flags), PlaceOf(root, p)), FlagsFor(p, flags));
    FlagsTwice(m, own, w, mid, v, now, kroot, FlagsFor(p, flags));
  }

  lemma ArrivedAt(m: Memory, own: Owners, kroot: nat, from: Place, root: nat, p: Page, pt: nat)
    requires Arrived(m, own, kroot, from, root, p, 4, pt)
    ensures Translate(m, root, p) == LeafOf(m, pt, p.d)
  {
  }

  lemma MapFails(m: Memory, w: Memory, own: Owners, now: Owners, kroot: nat, root: nat, p: Page)
    requires Grown(own, now) && SameTranslations(m, w, own, kroot) && EntriesKept(m, w, own, kroot)
             && Space(own, kroot, root, p)
    ensures SameRoots(own, now) && RootsKept(m, w, own, kroot) && Translate(w, root, p) == Translate(m, root, p)
  {
    hide Translate, Look;
  }

  lemma MapLeaf(m: Memory, w: Memory, own: Owners, mid: Owners, kroot: nat, reserved: set<nat>, root: nat, frame: nat,
                p: Page, pt: nat, flags: set<Flag>)
    returns (now: Owners)
    requires Inv(w, mid, kroot, reserved) && frame in reserved && frame != 0 && Present in flags
    requires Grown(own, mid) && SameTranslations(m, w, own, kroot) && EntriesKept(m, w, own, kroot)
    requires Space(own, kroot, root, p)
    requires Arrived(w, mid, kroot, own[root].place, root, p, 4, pt) && !Look(w, pt, p.d).Here()
    requires FlagsPass(m, own, w, mid, kroot, FlagsFor(p, flags))
    ensures var v := Put(w, pt, p.d, Entry(frame, flags));
            && FlagsPass(m, own, v, now, kroot, FlagsFor(p, flags))
            && Inv(v, now, kroot, reserved - {frame}) && SameRoots(own, now) && RootsKept(m, v, own, kroot)
            && OnlyPage(m, v, own, kroot, root, p) && Shows(m, own, kroot, root, p, None)
            && Translate(m, root, p) == None
            && Shows(v, own, kroot, root, p, Some(Entry(frame, flags)))
            && Translate(v, root, p) == Some(Entry(frame, flags))
  {
    assert pt in mid.Keys && pt in w.used;
    assert Child(mid[pt].place, p.d) == PlaceOf(own[root].place, p);
    NotYetOwned(w, mid, reserved, frame);
    now := Adopted(mid, pt, p.d, frame);
    hide Tree, Linked, Shares, Counted, PlacesOk, Distinct, Look, Put, Translate, Adopted, SameTranslations,
         EntriesKept, RootsKept, SameRoots, OnlyPage, Shows, Grown, FlagsPass, FlagsFor, PlaceOf, PlaceFrom;
    MapFlags(m, w, own, mid, kroot, own[root].place, frame, p, pt, flags);
    LeafShows(m, w, own, mid, kroot, root, p, pt, Entry(frame, flags));
    LeafKeeps(m, w, own, mid, kroot, reserved, frame, pt, p.d, flags);
  }

  lemma LeafKeeps(m: Memory, w: Memory, own: Owners, mid: Owners, kroot: nat, reserved: set<nat>, frame: nat,
                  pt: nat, i: Index, flags: set<Flag>)
    requires Inv(w, mid, kroot, reserved) && frame in reserved && frame != 0 && Present in flags
    requires Grown(own, mid) && EntriesKept(m, w, own, kroot)
    requires pt in mid && Depth(mid[pt].place) == 3 && Tracked(kroot, pt, i) && !Look(w, pt, i).Here()
    ensures Inv(Put(w, pt, i, Entry(frame, flags)), Adopted(mid, pt, i, frame), kroot, reserved - {frame})
    ensures SameRoots(own, Adopted(mid, pt, i, frame)) && RootsKept(m, Put(w, pt, i, Entry(frame, flags)), own, kroot)
  {
    NotYetOwned(w, mid, reserved, frame);
    RootsStay(m, w, own, mid, kroot, pt, i, Entry(frame, flags));
    assert PlaceOk(pt, mid[pt].place) && Vacant(w, mid, kroot, pt, i);
    hide Inv, Look, Put, EntriesKept, RootsKept, Vacant;
    AdoptKeeps(w, mid, kroot, reserved, pt, i, frame, flags);
    LeafAdopted(own, mid, pt, i, frame);
  }

  lemma NotYetOwned(m: Memory, own: Owners, reserved: set<nat>, f: nat)
    requires Counted(m, own, reserved)
    ensures f in reserved ==> f !in own
    ensures forall t :: t in own ==> t < |m.tables|
  {
    assert forall t :: t in own ==> t in own.Keys && t in m.used;
  }

  lemma LeafAdopted(own: Owners, mid: Owners, t: nat, i: Index, f: nat)
    requires Grown(own, mid) && t in mid && f !in mid && Depth(mid[t].place) == 3
    ensures SameRoots(own, Adopted(mid, t, i, f))
  {
  }

  lemma LeafShows(m: Memory, w: Memory, own: Owners, mid: Owners, kroot: nat, root: nat, p: Page, pt: nat, leaf: Entry)
    requires Tree(w, mid, kroot) && PlacesOk(mid, kroot) && Distinct(mid)
    requires Grown(own, mid) && SameTranslations(m, w, own, kroot) && Space(own, kroot, root, p)
    requires Arrived(w, mid, kroot, own[root].place, root, p, 4, pt) && pt < |w.tables| && leaf.Here()
             && !Look(w, pt, p.d).Here()
    ensures var v := Put(w, pt, p.d, leaf);
            && OnlyPage(m, v, own, kroot, root, p) && Shows(m, own, kroot, root, p, None)
            && Translate(m, root, p) == None
            && Shows(v, own, kroot, root, p, Some(leaf)) && Translate(v, root, p) == Some(leaf)
  {
    LeafEffect(w, mid, kroot, root, p, pt, leaf);
    LeafReached(w, mid, kroot, root, p, 4, pt, leaf);
    MapSummary(m, w, Put(w, pt, p.d, leaf), own, mid, kroot, root, p, Some(leaf));
    hide Tree, Distinct, PlacesOk, Look, Put, SameTranslations, OnlyPage, Shows, PlaceFrom, Depth, Grown;
  }

  lemma RootsStay(m: Memory, w: Memory, own: Owners, mid: Owners, kroot: nat, pt: nat, i: Index, leaf: Entry)
    requires Grown(own, mid) && EntriesKept(m, w, own, kroot)
    requires pt in mid && Depth(mid[pt].place) == 3 && pt < |w.tables|
    ensures RootsKept(m, Put(w, pt, i, leaf), own, kroot)
  {
    LookPut(w, pt, i, leaf);
    hide Look, Put;
  }

  lemma MapSummary(m: Memory, w: Memory, v: Memory, own: Owners, mid: Owners, kroot: nat, root: nat, p: Page,
                   leaf: Option<Entry>)
    requires Grown(own, mid) && SameTranslations(m, w, own, kroot) && Space(own, kroot, root, p)
    requires OnlyPage(w, v, mid, kroot, root, p) && Shows(w, mid, kroot, root, p, None)
             && Shows(v, mid, kroot, root, p, leaf)
    ensures OnlyPage(m, v, own, kroot, root, p) && Shows(m, own, kroot, root, p, None)
            && Shows(v, own, kroot, root, p, leaf)
    ensures Translate(m, root, p) == Translate(w, root, p)
  {
    hide Translate, Depth;
    assert forall s, q: Page :: Space(own, kroot, s, q) ==> Space(mid, kroot, s, q);
  }

  /** The processor's walk that gets to a PT finds the entry written there. */
  lemma {:induction false} LeafReached(m: Memory, own: Owners, kroot: nat, t: nat, p: Page, level: nat, pt: nat,
                                       leaf: Entry)
    requires 1 <= level <= 4 && Tree(m, own, kroot) && PlacesOk(own, kroot)
    requires t in own && Depth(own[t].place) == 4 - level && Tracked(kroot, t, At(p, level))
    requires Reached(m, t, p, level) == Some(pt) && pt in own && Depth(own[pt].place) == 3 && pt < |m.tables|
    ensures Follow(Put(m, pt, p.d, leaf), t, p, level) == if leaf.Here() then Some(leaf) else None
    decreases level
  {
    LookPut(m, pt, p.d, leaf);
    assert PlaceOk(t, own[t].place);
    hide Look, Put;
    if level > 1 {
      var e := Look(m, t, At(p, level));
      assert EntryOk(e, own, Child(own[t].place, At(p, level)));
      LeafReached(m, own, kroot, e.frame, p, level - 1, pt, leaf);
    }
  }

  // ---------- unmapping ----------

  lemma PutSame(m: Memory, t: nat, i: Index)
    ensures Look(m, t, i) == EMPTY ==> Put(m, t, i, EMPTY) == m
  {
    if t < |m.tables| && m.tables[t][i] == EMPTY {
      assert m.tables[t][i := EMPTY] == m.tables[t];
      assert m.tables[t := m.tables[t]] == m.tables;
    }
  }

  /** Where a walk that makes no tables ends, for a page of a space. */
  lemma LookedUp(m: Memory, own: Owners, kroot: nat, root: nat, p: Page)
    requires Tree(m, own, kroot) && PlacesOk(own, kroot) && Space(own, kroot, root, p)
    ensures match Walk(m, root, p, false, {}).frame
            case None => Translate(m, root, p) == None
            case Some(pt) => Arrived(m, own, kroot, own[root].place, root, p, 4, pt)
                             && Translate(m, root, p) == LeafOf(m, pt, p.d)
                             && (Translate(m, root, p) == None ==> Look(m, pt, p.d) == EMPTY)
  {
    assert PlaceOk(root, own[root].place);
    LookFinds(m, own, kroot, root, p, 4);
    match Walk(m, root, p, false, {}).frame
    case None =>
    case Some(pt) =>
      assert EntryOk(Look(m, pt, p.d), own, Child(own[pt].place, p.d));
  }

  /** paging_unmap_page ends the translation of exactly this page; an unmapped one it leaves alone. */
  lemma UnmapKeeps(m: Memory, own: Owners, kroot: nat, reserved: set<nat>, root: nat, p: Page)
    requires Inv(m, own, kroot, reserved) && Mappable(own, kroot, root, p)
    ensures var v := UnmapPage(m, root, p);
            && OnlyPage(m, v, own, kroot, root, p) && Shows(v, own, kroot, root, p, None)
            && Translate(v, root, p) == None
            && Shows(m, own, kroot, root, p, Translate(m, root, p))
            && RootsKept(m, v, own, kroot)
            && match Translate(m, root, p)
               case None => v == m
               case Some(e) => e.frame in own && e.frame != 0 && Depth(own[e.frame].place) == 4 && e.frame in m.used
                               && Inv(v, own - {e.frame}, kroot, reserved + {e.frame}) && e.frame !in reserved
                               && FlagsPass(m, own, v, own - {e.frame}, kroot, true)
  {
    LookedUp(m, own, kroot, root, p);
    match Walk(m, root, p, false, {}).frame
    case None =>
      assert UnmapPage(m, root, p) == m;
      UnmappedShows(m, own, kroot, root, p);
      hide Inv, Translate, Walk, Look, UnmapPage;
    case Some(pt) =>
      assert pt in own.Keys && pt in m.used;
      PutSame(m, pt, p.d);
      LeafEffect(m, own, kroot, root, p, pt, EMPTY);
      LeafReached(m, own, kroot, root, p, 4, pt, EMPTY);
      UnmapLeaf(m, own, kroot, reserved, pt, p.d);
      hide Inv, Walk, Put, Look, OnlyPage, Shows, RootsKept, Depth, PlaceFrom, FlagsPass;
  }

  lemma UnmapLeaf(m: Memory, own: Owners, kroot: nat, reserved: set<nat>, pt: nat, i: Index)
    requires Inv(m, own, kroot, reserved) && pt in own && Depth(own[pt].place) == 3 && Tracked(kroot, pt, i)
             && pt < |m.tables|
    ensures RootsKept(m, Put(m, pt, i, EMPTY), own, kroot)
    ensures Look(m, pt, i).Here() ==>
              var g := Look(m, pt, i).frame;
              && g in own && g != 0 && Depth(own[g].place) == 4 && g in m.used && g !in reserved
              && Inv(Put(m, pt, i, EMPTY), own - {g}, kroot, reserved + {g})
              && FlagsPass(m, own, Put(m, pt, i, EMPTY), own - {g}, kroot, true)
  {
    DropFlags(m, own, kroot, pt, i, Look(m, pt, i).frame);
    hide FlagsPass;
    assert PlaceOk(pt, own[pt].place);
    if Look(m, pt, i).Here() {
      DropKeeps(m, own, kroot, reserved, pt, i);
      assert 0 in reserved;
    }
    LookPut(m, pt, i, EMPTY);
    hide Inv, Put, Look;
  }

  /** Behind an entry that a space has in common with the kernel, a page translates as in the kernel's own. */
  lemma KernelShared(m: Memory, own: Owners, kroot: nat, s: nat, p: Page)
    requires Shares(m, own, kroot) && s in own && Common(own[s].place, p.a)
    ensures Translate(m, s, p) == Translate(m, kroot, p)
  {
    assert SharesAt(m, own, kroot, s, p.a);
    hide Look;
    assert At(p, 4) == p.a;
    var e := Look(m, s, p.a);
    if e.Here() {
      assert Follow(m, s, p, 4) == Follow(m, e.frame, p, 3);
    }
  }

  lemma UnmappedShows(m: Memory, own: Owners, kroot: nat, root: nat, p: Page)
    requires Shares(m, own, kroot) && Translate(m, root, p) == None && Mappable(own, kroot, root, p)
    ensures Shows(m, own, kroot, root, p, None)
  {
    forall s | Space(own, kroot, s, p) && Touched(own, root, p, s, p) ensures Translate(m, s, p) == None {
      if s != root {
        KernelShared(m, own, kroot, s, p);
      }
    }
  }

  /** Unmapping a page that has just been mapped gives every space its old translations back. */
  lemma UnmapRestores(m: Memory, own: Owners, kroot: nat, reserved: set<nat>, root: nat, frame: nat, p: Page,
                      flags: set<Flag>)
    requires Inv(m, own, kroot, reserved) && Mappable(own, kroot, root, p) && frame in reserved && frame != 0
    ensures var r := MapPage(m, root, frame, p, flags);
            r.ok ==> SameTranslations(m, UnmapPage(r.memory, root, p), own, kroot)
  {
    hide Inv, MapPage, UnmapPage, Translate, RootsKept, FlagsPass;
    var r := MapPage(m, root, frame, p, flags);
    var now := MapKeeps(m, own, kroot, reserved, root, frame, p, flags);
    if r.ok {
      SameMappable(own, now, kroot, root, p);
      UnmapKeeps(r.memory, now, kroot, reserved - {frame}, root, p);
      Undone(m, r.memory, UnmapPage(r.memory, root, p), own, now, kroot, root, p);
    }
  }

  lemma SameMappable(own: Owners, now: Owners, kroot: nat, root: nat, p: Page)
    requires SameRoots(own, now)
    ensures Mappable(own, kroot, root, p) == Mappable(now, kroot, root, p)
    ensures forall s, q: Page :: Space(own, kroot, s, q) == Space(now, kroot, s, q)
    ensures forall s, q: Page :: Space(own, kroot, s, q) ==> s in own && s in now && now[s].place == own[s].place
  {
  }

  lemma Undone(m: Memory, v: Memory, w: Memory, own: Owners, now: Owners, kroot: nat, root: nat, p: Page)
    requires SameRoots(own, now) && Shows(m, own, kroot, root, p, None)
    requires OnlyPage(m, v, own, kroot, root, p) && OnlyPage(v, w, now, kroot, root, p)
             && Shows(w, now, kroot, root, p, None)
    ensures SameTranslations(m, w, own, kroot)
  {
    SameMappable(own, now, kroot, root, p);
    hide SameRoots, Translate, Space;
  }
}
