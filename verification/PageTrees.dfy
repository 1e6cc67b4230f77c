/** Who owns which frame: the page table trees of all address spaces, sharing the kernel's half. */
module PageTrees {
  import opened PageTables

  /**
   * Where in the trees a frame hangs. A PML4 has tables of its own behind the upper-half entries in `apart`; what hangs
   * behind the others belongs to the kernel.
   */
  datatype Place =
    | Root(frame: nat, apart: set<Index>)
    | Kernel
    | Below(up: Place, index: Index)

  datatype Node = Node(place: Place, parent: nat)

  type Owners = map<nat, Node>

  function KernelNode(kroot: nat): Node {
    Node(Root(kroot, {}), 0)
  }

  function Depth(pl: Place): nat {
    if pl.Below? then Depth(pl.up) + 1 else 0
  }

  /** Entry `i` of a PML4 that it has in common with the kernel's. */
  predicate Common(pl: Place, i: Index) {
    pl.Root? && i >= KERNEL_HALF && i !in pl.apart
  }

  function Child(pl: Place, i: Index): (c: Place)
    ensures c.Below? && c.index == i
    ensures pl != Kernel ==> Depth(c) == Depth(pl) + 1
  {
    if Common(pl, i) then Below(Kernel, i) else Below(pl, i)
  }

  /** The place reached from a place along the remaining indices of a page. */
  function PlaceFrom(pl: Place, p: Page, level: nat): Place
    requires level <= 4
    decreases level
  {
    if level == 0 then pl else PlaceFrom(Child(pl, At(p, level)), p, level - 1)
  }

  /** The place of a page's frame in the address space of a PML4. */
  function PlaceOf(root: Place, p: Page): Place {
    PlaceFrom(root, p, 4)
  }

  /** Pages have the same place only if they are the same page, in one address space or behind a common entry. */
  lemma PlacesApart(r: Place, p: Page, s: Place, q: Page)
    requires r.Root? && s.Root?
    ensures PlaceOf(r, p) == PlaceOf(s, q) <==> p == q && (r == s || (Common(r, p.a) && Common(s, p.a)))
  {
    PlaceUnfolded(r, p);
    PlaceUnfolded(s, q);
    hide PlaceOf;
  }

  lemma PlaceUnfolded(r: Place, p: Page)
    requires r.Root?
    ensures PlaceOf(r, p) == Below(Below(Below(Child(r, p.a), p.b), p.c), p.d)
  {
    var c1 := Child(r, p.a);
    assert PlaceFrom(r, p, 4) == PlaceFrom(c1, p, 3);
    assert PlaceFrom(c1, p, 3) == PlaceFrom(Below(c1, p.b), p, 2);
  }

  // ---------- the invariant ----------

  /** The kernel's PML4 is looked at in its upper half only. */
  predicate Tracked(kroot: nat, t: nat, i: Index) {
    t == kroot ==> i >= KERNEL_HALF
  }

  ghost predicate EntryOk(e: Entry, own: Owners, pl: Place) {
    if e.Here() then e.frame in own && own[e.frame].place == pl else e == EMPTY
  }

  /** Every entry of a table is empty or points to the frame that hangs at that entry's place. */
  ghost predicate Tree(m: Memory, own: Owners, kroot: nat) {
    forall t, i: Index :: t in own && Depth(own[t].place) < 4 && Tracked(kroot, t, i) ==>
      EntryOk(Look(m, t, i), own, Child(own[t].place, i))
  }

  ghost predicate Distinct(own: Owners) {
    forall f, g :: f in own && g in own && own[f].place == own[g].place ==> f == g
  }

  ghost predicate PlacesOk(own: Owners, kroot: nat) {
    && kroot in own && own[kroot].place == Root(kroot, {})
    && forall f :: f in own ==> PlaceOk(f, own[f].place)
  }

  ghost predicate PlaceOk(f: nat, pl: Place) {
    pl != Kernel && Depth(pl) <= 4 && (pl.Root? ==> pl.frame == f)
  }

  /** A frame that is not a PML4 hangs on a present entry of its parent. */
  ghost predicate HangsOn(m: Memory, own: Owners, kroot: nat, g: nat)
    requires g in own
  {
    own[g].place.Below? ==>
      var t, i := own[g].parent, own[g].place.index;
      && t in own && Child(own[t].place, i) == own[g].place && Tracked(kroot, t, i)
      && Look(m, t, i).Here() && Look(m, t, i).frame == g
  }

  ghost predicate Linked(m: Memory, own: Owners, kroot: nat) {
    forall g :: g in own ==> HangsOn(m, own, kroot, g)
  }

  /** A user PML4 has the same entry as the kernel's where they have it in common. */
  ghost predicate SharesAt(m: Memory, own: Owners, kroot: nat, r: nat, i: Index)
    requires r in own
  {
    Common(own[r].place, i) && r != kroot ==> Look(m, r, i).Here() && Look(m, r, i) == Look(m, kroot, i)
  }

  ghost predicate Shares(m: Memory, own: Owners, kroot: nat) {
    forall r, i: Index :: r in own ==> SharesAt(m, own, kroot, r, i)
  }

  /** The bits that are set: the reserved frames and those in the trees. */
  ghost predicate Counted(m: Memory, own: Owners, reserved: set<nat>) {
    && m.used == reserved + own.Keys && reserved !! own.Keys && 0 in reserved
    && forall f :: f in m.used ==> f < |m.tables|
  }

  ghost predicate Inv(m: Memory, own: Owners, kroot: nat, reserved: set<nat>) {
    && PlacesOk(own, kroot) && Distinct(own) && Tree(m, own, kroot) && Linked(m, own, kroot)
    && Shares(m, own, kroot) && Counted(m, own, reserved)
  }

  /** PML4s whose page `p` the model covers: the kernel's upper half, all of a user space. */
  ghost predicate Space(own: Owners, kroot: nat, r: nat, p: Page) {
    r in own && own[r].place.Root? && Tracked(kroot, r, p.a)
  }

  // ---------- a frame enters the trees ----------

  ghost function Adopted(own: Owners, t: nat, i: Index, g: nat): Owners
    requires t in own
  {
    own[g := Node(Child(own[t].place, i), t)]
  }

  /** Entry `i` of table `t` may be filled in: it is empty, and no user PML4 has it in common with the kernel's. */
  ghost predicate Vacant(m: Memory, own: Owners, kroot: nat, t: nat, i: Index) {
    && t in own && Depth(own[t].place) < 4 && Tracked(kroot, t, i) && !Look(m, t, i).Here()
    && (Common(own[t].place, i) ==> t == kroot)
  }

  lemma ChildOf(pl: Place, i: Index, pm: Place, j: Index)
    requires pl != Kernel && pm != Kernel && Child(pl, i) == Child(pm, j)
    ensures i == j && (pl == pm || (Common(pl, i) && Common(pm, i)))
  {
  }

  /** Nothing hangs yet at the place of a vacant entry. */
  lemma VacantPlace(m: Memory, own: Owners, kroot: nat, t: nat, i: Index, g: nat)
    requires PlacesOk(own, kroot) && Distinct(own) && Linked(m, own, kroot) && Shares(m, own, kroot)
    requires Vacant(m, own, kroot, t, i) && g in own
    ensures own[g].place != Child(own[t].place, i)
  {
    assert HangsOn(m, own, kroot, g);
    assert PlaceOk(t, own[t].place) && PlaceOk(g, own[g].place);
    if own[g].place.Below? {
      var u := own[g].parent;
      assert PlaceOk(u, own[u].place) && SharesAt(m, own, kroot, u, own[g].place.index);
    }
  }

  lemma AdoptPlaces(m: Memory, own: Owners, kroot: nat, t: nat, i: Index, g: nat)
    requires PlacesOk(own, kroot) && Distinct(own) && Linked(m, own, kroot) && Shares(m, own, kroot)
    requires Vacant(m, own, kroot, t, i) && g !in own
    ensures PlacesOk(Adopted(own, t, i, g), kroot) && Distinct(Adopted(own, t, i, g))
  {
    var now := Adopted(own, t, i, g);
    assert PlaceOk(t, own[t].place);
    forall f | f in now ensures PlaceOk(f, now[f].place) {
      if f != g {
        assert PlaceOk(f, own[f].place);
      }
    }
    forall f, h | f in now && h in now && now[f].place == now[h].place ensures f == h {
      if f == g && h != g {
        VacantPlace(m, own, kroot, t, i, h);
      } else if f != g && h == g {
        VacantPlace(m, own, kroot, t, i, f);
      }
    }
  }

  lemma AdoptTree(m: Memory, own: Owners, kroot: nat, t: nat, i: Index, g: nat, flags: set<Flag>)
    requires PlacesOk(own, kroot) && Tree(m, own, kroot) && Vacant(m, own, kroot, t, i) && g !in own
    requires t < |m.tables| && Present in flags
    requires Depth(own[t].place) < 3 ==> forall j: Index :: Look(m, g, j) == EMPTY
    ensures Tree(Put(m, t, i, Entry(g, flags)), Adopted(own, t, i, g), kroot)
  {
    var now, v := Adopted(own, t, i, g), Put(m, t, i, Entry(g, flags));
    LookPut(m, t, i, Entry(g, flags));
    assert PlaceOk(t, own[t].place);
    hide Put, Look;
    forall u, j: Index | u in now && Depth(now[u].place) < 4 && Tracked(kroot, u, j)
      ensures EntryOk(Look(v, u, j), now, Child(now[u].place, j))
    {
      if u != g {
        assert EntryOk(Look(m, u, j), own, Child(own[u].place, j));
      }
    }
  }

  lemma AdoptLinks(m: Memory, own: Owners, kroot: nat, t: nat, i: Index, g: nat, flags: set<Flag>)
    requires PlacesOk(own, kroot) && Linked(m, own, kroot) && Shares(m, own, kroot)
    requires Vacant(m, own, kroot, t, i) && g !in own && t < |m.tables| && Present in flags
    ensures Linked(Put(m, t, i, Entry(g, flags)), Adopted(own, t, i, g), kroot)
    ensures Shares(Put(m, t, i, Entry(g, flags)), Adopted(own, t, i, g), kroot)
  {
    var now, v := Adopted(own, t, i, g), Put(m, t, i, Entry(g, flags));
    LookPut(m, t, i, Entry(g, flags));
    assert PlaceOk(t, own[t].place);
    hide Put, Look, Depth;
    forall h | h in now ensures HangsOn(v, now, kroot, h) {
      if h != g {
        assert HangsOn(m, own, kroot, h);
      }
    }
    forall r, j: Index | r in now ensures SharesAt(v, now, kroot, r, j) {
      if r != g {
        assert SharesAt(m, own, kroot, r, j);
      }
    }
  }

  /** A reserved frame enters the trees at a vacant entry; above the leaves it must be a zeroed table. */
  lemma AdoptKeeps(m: Memory, own: Owners, kroot: nat, reserved: set<nat>, t: nat, i: Index, g: nat, flags: set<Flag>)
    requires Inv(m, own, kroot, reserved) && Vacant(m, own, kroot, t, i)
    requires g in reserved && g != 0 && Present in flags
    requires Depth(own[t].place) < 3 ==> forall j: Index :: Look(m, g, j) == EMPTY
    ensures t < |m.tables|
    ensures Inv(Put(m, t, i, Entry(g, flags)), Adopted(own, t, i, g), kroot, reserved - {g})
  {
    CountAdopted(m, own, reserved, t, i, g);
    hide Tree, Linked, Shares, PlacesOk, Distinct, Counted, Look, Vacant, Depth, Adopted;
    AdoptPlaces(m, own, kroot, t, i, g);
    AdoptTree(m, own, kroot, t, i, g, flags);
    AdoptLinks(m, own, kroot, t, i, g, flags);
  }

  lemma CountAdopted(m: Memory, own: Owners, reserved: set<nat>, t: nat, i: Index, g: nat)
    requires Counted(m, own, reserved) && t in own && g in reserved && g != 0
    ensures g !in own && t < |m.tables|
    ensures forall v: Memory :: v.used == m.used && |v.tables| == |m.tables| ==>
              Counted(v, Adopted(own, t, i, g), reserved - {g})
  {
    assert t in own.Keys && t in m.used && g !in own.Keys;
    assert Adopted(own, t, i, g).Keys == own.Keys + {g};
  }

  // ---------- a leaf leaves the trees ----------

  /** Clearing the entry of a page takes its frame out of the trees. */
  ghost predicate Leaf(m: Memory, own: Owners, kroot: nat, t: nat, i: Index) {
    && t in own && Depth(own[t].place) == 3 && Tracked(kroot, t, i) && Look(m, t, i).Here()
  }

  lemma DropTree(m: Memory, own: Owners, kroot: nat, t: nat, i: Index)
    requires PlacesOk(own, kroot) && Distinct(own) && Tree(m, own, kroot) && Leaf(m, own, kroot, t, i)
    requires t < |m.tables|
    ensures var g := Look(m, t, i).frame;
            g in own && g != t && g != kroot && own[g].place == Child(own[t].place, i)
            && Tree(Put(m, t, i, EMPTY), own - {g}, kroot)
            && PlacesOk(own - {g}, kroot) && Distinct(own - {g})
  {
    var g, v := Look(m, t, i).frame, Put(m, t, i, EMPTY);
    LookPut(m, t, i, EMPTY);
    assert EntryOk(Look(m, t, i), own, Child(own[t].place, i));
    assert PlaceOk(t, own[t].place);
    var now := own - {g};
    hide Put, Look;
    forall u, j: Index | u in now && Depth(now[u].place) < 4 && Tracked(kroot, u, j)
      ensures EntryOk(Look(v, u, j), now, Child(now[u].place, j))
    {
      assert EntryOk(Look(m, u, j), own, Child(own[u].place, j));
      assert PlaceOk(u, own[u].place);
      if Look(v, u, j).Here() && Look(m, u, j).frame == g {
        ChildOf(own[u].place, j, own[t].place, i);
      }
    }
  }

  lemma DropLinks(m: Memory, own: Owners, kroot: nat, t: nat, i: Index)
    requires PlacesOk(own, kroot) && Distinct(own) && Tree(m, own, kroot) && Leaf(m, own, kroot, t, i)
    requires Linked(m, own, kroot) && t < |m.tables|
    ensures Linked(Put(m, t, i, EMPTY), own - {Look(m, t, i).frame}, kroot)
  {
    DropTree(m, own, kroot, t, i);
    var g, v := Look(m, t, i).frame, Put(m, t, i, EMPTY);
    LookPut(m, t, i, EMPTY);
    var now := own - {g};
    hide Put, Look, Tree;
    forall h | h in now ensures HangsOn(v, now, kroot, h) {
      assert HangsOn(m, own, kroot, h) && PlaceOk(h, own[h].place);
    }
  }

  lemma DropShares(m: Memory, own: Owners, kroot: nat, t: nat, i: Index, g: nat)
    requires PlacesOk(own, kroot) && Shares(m, own, kroot) && Leaf(m, own, kroot, t, i) && t < |m.tables|
    ensures Shares(Put(m, t, i, EMPTY), own - {g}, kroot)
  {
    var v, now := Put(m, t, i, EMPTY), own - {g};
    LookPut(m, t, i, EMPTY);
    hide Put, Look;
    forall r, j: Index | r in now ensures SharesAt(v, now, kroot, r, j) {
      assert SharesAt(m, own, kroot, r, j);
    }
  }

  lemma DropKeeps(m: Memory, own: Owners, kroot: nat, reserved: set<nat>, t: nat, i: Index)
    requires Inv(m, own, kroot, reserved) && Leaf(m, own, kroot, t, i)
    ensures var g := Look(m, t, i).frame;
            && g in own && own[g].place == Child(own[t].place, i) && g in m.used && g !in reserved
            && Inv(Put(m, t, i, EMPTY), own - {g}, kroot, reserved + {g})
  {
    assert t in own.Keys;
    DropTree(m, own, kroot, t, i);
    DropLinks(m, own, kroot, t, i);
    DropShares(m, own, kroot, t, i, Look(m, t, i).frame);
    var g := Look(m, t, i).frame;
    assert g in own.Keys && (own - {g}).Keys == own.Keys - {g};
    hide Tree, Linked, Shares, PlacesOk, Distinct, Look, Leaf, Depth;
  }

  // ---------- the allocator ----------

  /** Where the owned frames keep their contents, the trees do not notice. */
  lemma SameTablesKeep(m: Memory, v: Memory, own: Owners, kroot: nat)
    requires PlacesOk(own, kroot) && Tree(m, own, kroot) && Linked(m, own, kroot) && Shares(m, own, kroot)
    requires forall t, i: Index :: t in own && Depth(own[t].place) < 4 ==> Look(v, t, i) == Look(m, t, i)
    ensures Tree(v, own, kroot) && Linked(v, own, kroot) && Shares(v, own, kroot)
  {
    hide Look;
    forall t, i: Index | t in own && Depth(own[t].place) < 4 && Tracked(kroot, t, i)
      ensures EntryOk(Look(v, t, i), own, Child(own[t].place, i))
    {
      assert EntryOk(Look(m, t, i), own, Child(own[t].place, i));
    }
    forall g | g in own ensures HangsOn(v, own, kroot, g) {
      assert HangsOn(m, own, kroot, g) && PlaceOk(g, own[g].place);
      if own[g].place.Below? {
        assert PlaceOk(own[g].parent, own[own[g].parent].place);
      }
    }
    forall r, i: Index | r in own ensures SharesAt(v, own, kroot, r, i) {
      assert SharesAt(m, own, kroot, r, i);
    }
  }

  /** A newly allocated frame is reserved until it enters the trees; it is zeroed and not frame 0. */
  lemma AllocKeeps(m: Memory, own: Owners, kroot: nat, reserved: set<nat>)
    requires Inv(m, own, kroot, reserved)
    ensures var r := AllocPage(m);
            match r.frame
            case None => r.memory == m
            case Some(f) =>
              && f != 0 && f !in m.used && Inv(r.memory, own, kroot, reserved + {f})
              && (forall j: Index :: Look(r.memory, f, j) == EMPTY)
              && (forall t, i: Index :: t in own ==> Look(r.memory, t, i) == Look(m, t, i))
  {
    AllocTakesLeast(m);
    assert forall t :: t in own ==> t in m.used;
    hide AllocPage, Look, Tree, Linked, Shares, PlacesOk, Distinct;
    var r := AllocPage(m);
    if r.frame.Some? {
      SameTablesKeep(m, r.memory, own, kroot);
    }
  }

  /** Freeing a frame that is not in the trees. */
  lemma FreeKeeps(m: Memory, own: Owners, kroot: nat, reserved: set<nat>, f: nat)
    requires Inv(m, own, kroot, reserved) && f in reserved && f != 0
    ensures Inv(FreePage(m, f * PAGE_SIZE), own, kroot, reserved - {f})
    ensures FreePage(m, f * PAGE_SIZE).used == m.used - {f}
  {
    assert f * PAGE_SIZE / PAGE_SIZE == f && f * PAGE_SIZE % PAGE_SIZE == 0;
    assert f !in own.Keys;
    hide Tree, Linked, Shares, PlacesOk, Distinct;
    SameTablesKeep(m, FreePage(m, f * PAGE_SIZE), own, kroot);
  }

  /** Programs and drivers may store what they like in frames that are not page tables. */
  lemma StoresKeep(m: Memory, own: Owners, kroot: nat, reserved: set<nat>, f: nat, data: Table)
    requires Inv(m, own, kroot, reserved) && f < |m.tables| && (f in own ==> Depth(own[f].place) == 4)
    ensures Inv(m.(tables := m.tables[f := data]), own, kroot, reserved)
  {
    SameTablesKeep(m, m.(tables := m.tables[f := data]), own, kroot);
    hide Tree, Linked, Shares, PlacesOk, Distinct;
  }

  // ---------- flags ----------

  /** The place is in the lower half of some user space. */
  predicate InUser(pl: Place) {
    pl.Below? && if pl.up.Root? then pl.index < KERNEL_HALF else InUser(pl.up)
  }

  /**
   * An entry in the lower half of a user space that points to a table is user-accessible, one that points to a table
   * anywhere is writable; an entry that points to a mapped frame is user-accessible exactly in such a lower half.
   */
  predicate FlagsFit(e: Entry, pl: Place) {
    e.Here() ==>
      if Depth(pl) < 4 then Writable in e.flags && (InUser(pl) ==> User in e.flags) else User in e.flags <==> InUser(pl)
  }

  ghost predicate Flagged(m: Memory, own: Owners, kroot: nat) {
    forall t, i: Index :: t in own && Depth(own[t].place) < 4 && Tracked(kroot, t, i) ==>
      FlagsFit(Look(m, t, i), Child(own[t].place, i))
  }

  /** If `fits` holds and the flags were right before, they are right afterwards. */
  ghost predicate FlagsPass(m: Memory, own: Owners, v: Memory, now: Owners, kroot: nat, fits: bool) {
    fits && Flagged(m, own, kroot) ==> Flagged(v, now, kroot)
  }

  lemma FlagsSame(m: Memory, own: Owners, kroot: nat, fits: bool)
    ensures FlagsPass(m, own, m, own, kroot, fits)
  {
  }

  lemma FlagsTwice(m: Memory, own: Owners, u: Memory, mid: Owners, v: Memory, now: Owners, kroot: nat, fits: bool)
    requires FlagsPass(m, own, u, mid, kroot, fits) && FlagsPass(u, mid, v, now, kroot, fits)
    ensures FlagsPass(m, own, v, now, kroot, fits)
  {
    hide Flagged;
  }

  lemma FlagsUnder(m: Memory, own: Owners, v: Memory, now: Owners, kroot: nat, fits: bool, stronger: bool)
    requires FlagsPass(m, own, v, now, kroot, fits) && (stronger ==> fits)
    ensures FlagsPass(m, own, v, now, kroot, stronger)
  {
    hide Flagged;
  }

  lemma SameTablesFlags(m: Memory, v: Memory, own: Owners, kroot: nat)
    requires forall t, i: Index :: t in own && Depth(own[t].place) < 4 ==> Look(v, t, i) == Look(m, t, i)
    ensures FlagsPass(m, own, v, own, kroot, true)
  {
    hide Look, FlagsFit;
  }

  lemma AdoptFlags(m: Memory, own: Owners, kroot: nat, t: nat, i: Index, g: nat, flags: set<Flag>)
    requires PlacesOk(own, kroot) && t in own && g !in own && t < |m.tables| && Depth(own[t].place) < 4
    requires Depth(own[t].place) < 3 ==> forall j: Index :: Look(m, g, j) == EMPTY
    ensures FlagsPass(m, own, Put(m, t, i, Entry(g, flags)), Adopted(own, t, i, g), kroot,
                      FlagsFit(Entry(g, flags), Child(own[t].place, i)))
  {
    var now, v := Adopted(own, t, i, g), Put(m, t, i, Entry(g, flags));
    LookPut(m, t, i, Entry(g, flags));
    assert PlaceOk(t, own[t].place);
    assert FlagsFit(EMPTY, Child(own[t].place, i)) && forall pl :: FlagsFit(EMPTY, pl);
    hide Put, Look, FlagsFit;
    if FlagsFit(Entry(g, flags), Child(own[t].place, i)) && Flagged(m, own, kroot) {
      forall u, j: Index | u in now && Depth(now[u].place) < 4 && Tracked(kroot, u, j)
        ensures FlagsFit(Look(v, u, j), Child(now[u].place, j))
      {
        if u != g {
          assert now[u] == own[u];
        }
      }
    }
  }

  lemma DropFlags(m: Memory, own: Owners, kroot: nat, t: nat, i: Index, g: nat)
    requires t < |m.tables|
    ensures FlagsPass(m, own, Put(m, t, i, EMPTY), own - {g}, kroot, true)
  {
    LookPut(m, t, i, EMPTY);
    assert forall pl :: FlagsFit(EMPTY, pl);
    hide Put, Look, FlagsFit;
  }
}
