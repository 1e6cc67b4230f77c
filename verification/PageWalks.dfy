/** What the walks of paging.c do to the trees and to the translations of every address space. */
module PageWalks {
  import opened PageTables
  import opened PageTrees

  /** All address spaces translate every page as before. */
  ghost predicate SameTranslations(m: Memory, v: Memory, own: Owners, kroot: nat) {
    forall r, p: Page :: Space(own, kroot, r, p) ==> Translate(v, r, p) == Translate(m, r, p)
  }

  /** The trees have grown by page tables only. */
  ghost predicate Grown(own: Owners, now: Owners) {
    && (forall f :: f in own ==> f in now && now[f] == own[f])
    && (forall f :: f in now && f !in own ==> 1 <= Depth(now[f].place) < 4)
  }

  /** Present entries stay as they are. */
  ghost predicate EntriesKept(m: Memory, v: Memory, own: Owners, kroot: nat) {
    forall t, i: Index :: t in own && Look(m, t, i).Here() ==> Look(v, t, i) == Look(m, t, i)
  }

  /** The leaf entry as a translation. */
  function LeafOf(m: Memory, t: nat, i: Index): Option<Entry> {
    if Look(m, t, i).Here() then Some(Look(m, t, i)) else None
  }

  // ---------- translations and places ----------

  /** The frame a page translates to hangs at the page's place. */
  lemma {:induction false} FollowReaches(m: Memory, own: Owners, kroot: nat, t: nat, p: Page, level: nat)
    requires 1 <= level <= 4 && Tree(m, own, kroot) && PlacesOk(own, kroot)
    requires t in own && Depth(own[t].place) == 4 - level && Tracked(kroot, t, At(p, level))
    ensures match Follow(m, t, p, level)
            case None => true
            case Some(e) => e.frame in own && own[e.frame].place == PlaceFrom(own[t].place, p, level)
    decreases level
  {
    assert PlaceOk(t, own[t].place);
    hide Look, Depth;
    var e := Look(m, t, At(p, level));
    assert EntryOk(e, own, Child(own[t].place, At(p, level))) by { assert Depth(own[t].place) < 4; }
    if e.Here() && level > 1 {
      FollowReaches(m, own, kroot, e.frame, p, level - 1);
    }
  }

  /** No frame is mapped at two pages, nor in two address spaces except behind an entry in common. */
  lemma OneFrameOnePage(m: Memory, own: Owners, kroot: nat, reserved: set<nat>, r: nat, p: Page, s: nat, q: Page)
    requires Inv(m, own, kroot, reserved) && Space(own, kroot, r, p) && Space(own, kroot, s, q)
    requires Translate(m, r, p).Some? && Translate(m, s, q).Some?
    requires Translate(m, r, p).value.frame == Translate(m, s, q).value.frame
    ensures p == q && (r == s || (Common(own[r].place, p.a) && Common(own[s].place, p.a)))
  {
    assert PlaceOk(r, own[r].place) && PlaceOk(s, own[s].place);
    FollowReaches(m, own, kroot, r, p, 4);
    FollowReaches(m, own, kroot, s, q, 4);
    PlacesApart(own[r].place, p, own[s].place, q);
    hide Tree, Linked, Shares, Counted, Distinct, Translate;
  }

  // ---------- how a change of one entry shows ----------

  /** A new, empty table changes no translation. */
  lemma {:induction false} EmptyTableInvisible(m: Memory, own: Owners, kroot: nat, u: nat, i: Index, g: nat,
                                               flags: set<Flag>, t: nat, p: Page, level: nat)
    requires 1 <= level <= 4 && Tree(m, own, kroot) && PlacesOk(own, kroot) && Vacant(m, own, kroot, u, i)
    requires Depth(own[u].place) < 3 && u < |m.tables| && g !in own && forall j: Index :: Look(m, g, j) == EMPTY
    requires t in own && Depth(own[t].place) == 4 - level && Tracked(kroot, t, At(p, level))
    ensures Follow(Put(m, u, i, Entry(g, flags)), t, p, level) == Follow(m, t, p, level)
    decreases level
  {
    var v := Put(m, u, i, Entry(g, flags));
    LookPut(m, u, i, Entry(g, flags));
    assert PlaceOk(t, own[t].place);
    hide Look, Put;
    var e := Look(m, t, At(p, level));
    assert EntryOk(e, own, Child(own[t].place, At(p, level)));
    if level > 1 {
      if e.Here() {
        EmptyTableInvisible(m, own, kroot, u, i, g, flags, e.frame, p, level - 1);
      } else if t == u && i == At(p, level) {
        assert Look(v, g, At(p, level - 1)) == EMPTY;
      }
    }
  }

  /** A changed leaf entry shows at no other page. */
  lemma {:induction false} LeafInvisibleElsewhere(m: Memory, own: Owners, kroot: nat, u: nat, i: Index, leaf: Entry,
                                                  t: nat, p: Page, level: nat)
    requires 1 <= level <= 4 && Tree(m, own, kroot) && PlacesOk(own, kroot) && Distinct(own)
    requires u in own && Depth(own[u].place) == 3 && u < |m.tables|
    requires t in own && Depth(own[t].place) == 4 - level && Tracked(kroot, t, At(p, level))
    requires PlaceFrom(own[t].place, p, level) != Child(own[u].place, i)
    ensures Follow(Put(m, u, i, leaf), t, p, level) == Follow(m, t, p, level)
    decreases level
  {
    LookPut(m, u, i, leaf);
    assert PlaceOk(t, own[t].place);
    hide Look, Put;
    var e := Look(m, t, At(p, level));
    assert EntryOk(e, own, Child(own[t].place, At(p, level)));
    if level == 1 {
      assert PlaceFrom(Child(own[t].place, At(p, 1)), p, 0) == Child(own[t].place, At(p, 1));
    } else if e.Here() {
      LeafInvisibleElsewhere(m, own, kroot, u, i, leaf, e.frame, p, level - 1);
    }
  }

  /** Where it shows, it shows as it is: a page with that place translates to the new leaf or has no tables yet. */
  lemma {:induction false} LeafVisible(m: Memory, own: Owners, kroot: nat, u: nat, i: Index, leaf: Entry,
                                       t: nat, p: Page, level: nat)
    requires 1 <= level <= 4 && Tree(m, own, kroot) && PlacesOk(own, kroot) && Distinct(own)
    requires u in own && Depth(own[u].place) == 3 && u < |m.tables|
    requires t in own && Depth(own[t].place) == 4 - level && Tracked(kroot, t, At(p, level))
    requires PlaceFrom(own[t].place, p, level) == Child(own[u].place, i)
    ensures Follow(m, t, p, level).Some? ==> Follow(m, t, p, level) == LeafOf(m, u, i)
    ensures var now := Follow(Put(m, u, i, leaf), t, p, level);
            now.Some? ==> leaf.Here() && now == Some(leaf)
    decreases level
  {
    LookPut(m, u, i, leaf);
    assert PlaceOk(t, own[t].place) && PlaceOk(u, own[u].place);
    hide Look, Put;
    var e := Look(m, t, At(p, level));
    assert EntryOk(e, own, Child(own[t].place, At(p, level)));
    if level == 1 {
      assert PlaceFrom(Child(own[t].place, At(p, 1)), p, 0) == Child(own[t].place, At(p, 1));
      ChildOf(own[t].place, At(p, 1), own[u].place, i);
    } else if e.Here() {
      LeafVisible(m, own, kroot, u, i, leaf, e.frame, p, level - 1);
    }
  }

  /** Translations depend only on the tables in the trees. */
  lemma {:induction false} SameTablesTranslate(m: Memory, v: Memory, own: Owners, kroot: nat, t: nat, p: Page,
                                               level: nat)
    requires 1 <= level <= 4 && Tree(m, own, kroot) && PlacesOk(own, kroot)
    requires t in own && Depth(own[t].place) == 4 - level && Tracked(kroot, t, At(p, level))
    requires forall u, i: Index :: u in own && Depth(own[u].place) < 4 ==> Look(v, u, i) == Look(m, u, i)
    ensures Follow(v, t, p, level) == Follow(m, t, p, level)
    decreases level
  {
    assert PlaceOk(t, own[t].place);
    hide Look;
    var e := Look(m, t, At(p, level));
    assert EntryOk(e, own, Child(own[t].place, At(p, level)));
    if e.Here() && level > 1 {
      SameTablesTranslate(m, v, own, kroot, e.frame, p, level - 1);
    }
  }

  lemma SameTablesSame(m: Memory, v: Memory, own: Owners, kroot: nat)
    requires Tree(m, own, kroot) && PlacesOk(own, kroot)
    requires forall u, i: Index :: u in own && Depth(own[u].place) < 4 ==> Look(v, u, i) == Look(m, u, i)
    ensures SameTranslations(m, v, own, kroot)
  {
    forall r, p: Page | Space(own, kroot, r, p) ensures Translate(v, r, p) == Translate(m, r, p) {
      SameTablesTranslate(m, v, own, kroot, r, p, 4);
    }
  }

  lemma EmptyTableSame(m: Memory, own: Owners, kroot: nat, u: nat, i: Index, g: nat, flags: set<Flag>)
    requires Tree(m, own, kroot) && PlacesOk(own, kroot) && Vacant(m, own, kroot, u, i)
    requires Depth(own[u].place) < 3 && u < |m.tables| && g !in own && forall j: Index :: Look(m, g, j) == EMPTY
    ensures SameTranslations(m, Put(m, u, i, Entry(g, flags)), own, kroot)
  {
    var v := Put(m, u, i, Entry(g, flags));
    forall r, p: Page | Space(own, kroot, r, p) ensures Translate(v, r, p) == Translate(m, r, p) {
      EmptyTableInvisible(m, own, kroot, u, i, g, flags, r, p, 4);
    }
  }

  // ---------- one level of the walk ----------

  /** A table the walk is at: it has the right depth, and may get a new entry for the page. */
  ghost predicate Walking(own: Owners, kroot: nat, t: nat, p: Page, level: nat) {
    && t in own && 1 <= level <= 4 && Depth(own[t].place) == 4 - level && Tracked(kroot, t, At(p, level))
    && (Common(own[t].place, At(p, level)) ==> t == kroot)
  }

  /** The flags given to a walk fit the tables it makes: in a user space they include the user flag. */
  predicate WalkFits(pl: Place, p: Page, level: nat, flags: set<Flag>) {
    InUser(Child(pl, At(p, level))) ==> User in flags
  }

  /** The flags given to a mapping call fit its page. */
  predicate FlagsFor(p: Page, flags: set<Flag>) {
    User in flags <==> p.a < KERNEL_HALF
  }

  lemma TableFlagsFit(pl: Place, p: Page, level: nat, flags: set<Flag>, f: nat)
    requires WalkFits(pl, p, level, flags) && Depth(Child(pl, At(p, level))) < 4
    ensures FlagsFit(Entry(f, {Present, Writable} + flags), Child(pl, At(p, level)))
  {
  }

  lemma NextKeeps(m: Memory, own: Owners, kroot: nat, reserved: set<nat>, t: nat, p: Page, level: nat, flags: set<Flag>)
    returns (now: Owners)
    requires Inv(m, own, kroot, reserved) && level > 1 && Walking(own, kroot, t, p, level)
    ensures var r := NextTable(m, t, At(p, level), true, flags);
            && Inv(r.memory, now, kroot, reserved) && Grown(own, now)
            && SameTranslations(m, r.memory, own, kroot) && EntriesKept(m, r.memory, own, kroot)
            && FlagsPass(m, own, r.memory, now, kroot, WalkFits(own[t].place, p, level, flags))
            && match r.frame
               case None => r.memory == m && now == own && !Look(m, t, At(p, level)).Here()
                            && forall g :: 0 <= g < |m.tables| ==> g in m.used
               case Some(n) =>
                 && n in now && now[n].place == Child(own[t].place, At(p, level))
                 && Look(r.memory, t, At(p, level)).Here() && Look(r.memory, t, At(p, level)).frame == n
  {
    var i := At(p, level);
    now := own;
    assert PlaceOk(t, own[t].place);
    assert EntryOk(Look(m, t, i), own, Child(own[t].place, i));
    FlagsSame(m, own, kroot, WalkFits(own[t].place, p, level, flags));
    hide Inv, AllocPage, Look, Put, Grown, SameTranslations, EntriesKept, FlagsPass, FlagsFit, WalkFits;
    if !Look(m, t, i).Here() {
      AllocTakesLeast(m);
      AllocKeeps(m, own, kroot, reserved);
      var a := AllocPage(m);
      if a.frame.Some? {
        var f := a.frame.value;
        now := NewTableKeeps(m, a.memory, own, kroot, reserved, t, i, f, {Present, Writable} + flags);
        if WalkFits(own[t].place, p, level, flags) {
          TableFlagsFit(own[t].place, p, level, flags, f);
        }
        FlagsUnder(m, own, Put(a.memory, t, i, Entry(f, {Present, Writable} + flags)), now, kroot,
                   FlagsFit(Entry(f, {Present, Writable} + flags), Child(own[t].place, i)),
                   WalkFits(own[t].place, p, level, flags));
      }
    }
  }

  lemma NewTableKeeps(m: Memory, a: Memory, own: Owners, kroot: nat, reserved: set<nat>, t: nat, i: Index, f: nat,
                      flags: set<Flag>)
    returns (now: Owners)
    requires Inv(m, own, kroot, reserved) && Vacant(m, own, kroot, t, i) && Depth(own[t].place) < 3 && Present in flags
    requires Inv(a, own, kroot, reserved + {f}) && f !in m.used && f != 0
    requires forall j: Index :: Look(a, f, j) == EMPTY
    requires forall u, j: Index :: u in own ==> Look(a, u, j) == Look(m, u, j)
    ensures var v := Put(a, t, i, Entry(f, flags));
            && Inv(v, now, kroot, reserved) && Grown(own, now)
            && SameTranslations(m, v, own, kroot) && EntriesKept(m, v, own, kroot)
            && f in now && now[f].place == Child(own[t].place, i) && Look(v, t, i) == Entry(f, flags)
            && FlagsPass(m, own, v, now, kroot, FlagsFit(Entry(f, flags), Child(own[t].place, i)))
  {
    now := Adopted(own, t, i, f);
    assert f !in reserved && reserved + {f} - {f} == reserved;
    AdoptKeeps(a, own, kroot, reserved + {f}, t, i, f, flags);
    assert f !in own.Keys;
    assert PlaceOk(t, own[t].place);
    SameTablesSame(m, a, own, kroot);
    EmptyTableSame(a, own, kroot, t, i, f, flags);
    NewTableFlags(m, a, own, kroot, t, i, f, flags);
    LookPut(a, t, i, Entry(f, flags));
    hide Tree, Linked, Shares, PlacesOk, Distinct, Counted, Translate, Look, Put;
  }

  lemma NewTableFlags(m: Memory, a: Memory, own: Owners, kroot: nat, t: nat, i: Index, f: nat, flags: set<Flag>)
    requires PlacesOk(own, kroot) && t in own && f !in own && t < |a.tables| && Depth(own[t].place) < 3
    requires forall j: Index :: Look(a, f, j) == EMPTY
    requires forall u, j: Index :: u in own ==> Look(a, u, j) == Look(m, u, j)
    ensures FlagsPass(m, own, Put(a, t, i, Entry(f, flags)), Adopted(own, t, i, f), kroot,
                      FlagsFit(Entry(f, flags), Child(own[t].place, i)))
  {
    hide Look, Put, FlagsFit, FlagsPass, Adopted, PlacesOk;
    var fits := FlagsFit(Entry(f, flags), Child(own[t].place, i));
    SameTablesFlags(m, a, own, kroot);
    AdoptFlags(a, own, kroot, t, i, f, flags);
    FlagsUnder(m, own, a, own, kroot, true, fits);
    FlagsTwice(m, own, a, own, Put(a, t, i, Entry(f, flags)), Adopted(own, t, i, f), kroot, fits);
  }

  // ---------- the whole walk ----------

  /** The PT the processor's walk gets to. */
  function Reached(m: Memory, t: nat, p: Page, level: nat): Option<nat>
    requires 1 <= level <= 4
    decreases level
  {
    if level == 1 then Some(t)
    else
      var e := Look(m, t, At(p, level));
      if e.Here() then Reached(m, e.frame, p, level - 1) else None
  }

  /** The PT a walk has reached holds the page's entry, and no other walk of the processor finds another one. */
  ghost predicate Arrived(m: Memory, own: Owners, kroot: nat, from: Place, t: nat, p: Page, level: nat, pt: nat)
    requires 1 <= level <= 4
  {
    && pt in own && Depth(own[pt].place) == 3 && Tracked(kroot, pt, p.d)
    && Child(own[pt].place, p.d) == PlaceFrom(from, p, level)
    && Reached(m, t, p, level) == Some(pt) && Follow(m, t, p, level) == LeafOf(m, pt, p.d)
  }

  /** What a walk that makes tables has done when it returns `r`. */
  ghost predicate WalkDone(m: Memory, own: Owners, r: Found, now: Owners, kroot: nat, reserved: set<nat>, from: Place,
                           t: nat, p: Page, level: nat, flags: set<Flag>)
    requires 1 <= level <= 4
  {
    && Inv(r.memory, now, kroot, reserved) && Grown(own, now)
    && SameTranslations(m, r.memory, own, kroot) && EntriesKept(m, r.memory, own, kroot)
    && FlagsPass(m, own, r.memory, now, kroot, WalkFits(from, p, level, flags))
    && match r.frame
       case None => Follow(r.memory, t, p, level) == None
                    && forall g :: 0 <= g < |r.memory.tables| ==> g in r.memory.used
       case Some(pt) => Arrived(r.memory, now, kroot, from, t, p, level, pt)
  }

  /** A walk that makes tables changes no translation; it fails only on an unmapped page when no frame is free. */
  lemma {:induction false} WalkKeeps(m: Memory, own: Owners, kroot: nat, reserved: set<nat>, t: nat, p: Page,
                                     level: nat, flags: set<Flag>)
    returns (now: Owners)
    requires Inv(m, own, kroot, reserved) && Walking(own, kroot, t, p, level)
    ensures WalkDone(m, own, WalkFrom(m, t, p, level, true, flags), now, kroot, reserved, own[t].place, t, p, level,
              flags)
    decreases level
  {
    hide *;
    InTrees(own, kroot, t, p, level);
    if level == 1 {
      now := own;
      WalkArrives(m, own, kroot, reserved, t, p, flags);
    } else {
      NotKernel(m, own, kroot, reserved, t);
      WalkStepOn(m, t, p, level, flags);
      now := NextKeeps(m, own, kroot, reserved, t, p, level, flags);
      var r := NextTable(m, t, At(p, level), true, flags);
      if r.frame.Some? {
        var n, mid := r.frame.value, now;
        NotKernel(r.memory, mid, kroot, reserved, n);
        WalkingOn(own, mid, kroot, t, n, p, level);
        now := WalkKeeps(r.memory, mid, kroot, reserved, n, p, level - 1, flags);
        WalkExtends(m, own, r.memory, mid, WalkFrom(r.memory, n, p, level - 1, true, flags), now, kroot, reserved,
                    t, n, p, level, flags);
      } else {
        WalkStops(m, own, kroot, reserved, t, p, level, flags);
      }
    }
  }

  lemma InTrees(own: Owners, kroot: nat, t: nat, p: Page, level: nat)
    requires Walking(own, kroot, t, p, level)
    ensures t in own && 1 <= level <= 4
  {
  }

  lemma WalkArrives(m: Memory, own: Owners, kroot: nat, reserved: set<nat>, t: nat, p: Page, flags: set<Flag>)
    requires Inv(m, own, kroot, reserved) && Walking(own, kroot, t, p, 1)
    ensures WalkDone(m, own, WalkFrom(m, t, p, 1, true, flags), own, kroot, reserved, own[t].place, t, p, 1, flags)
  {
    assert PlaceFrom(Child(own[t].place, p.d), p, 0) == Child(own[t].place, p.d);
    FlagsSame(m, own, kroot, WalkFits(own[t].place, p, 1, flags));
    hide FlagsPass, Inv, WalkFits, Look;
  }

  lemma NotKernel(m: Memory, own: Owners, kroot: nat, reserved: set<nat>, t: nat)
    requires Inv(m, own, kroot, reserved) && t in own
    ensures own[t].place != Kernel && PlacesOk(own, kroot)
  {
    assert PlaceOk(t, own[t].place);
    hide Tree, Linked, Shares, Counted, Distinct, Depth;
  }

  lemma WalkStepOn(m: Memory, t: nat, p: Page, level: nat, flags: set<Flag>)
    requires 1 < level <= 4
    ensures var r := NextTable(m, t, At(p, level), true, flags);
            WalkFrom(m, t, p, level, true, flags)
            == if r.frame.None? then r else WalkFrom(r.memory, r.frame.value, p, level - 1, true, flags)
  {
    hide NextTable;
  }

  lemma WalkFitsBelow(pl: Place, p: Page, level: nat, flags: set<Flag>)
    requires level > 1
    ensures WalkFits(Child(pl, At(p, level)), p, level - 1, flags) == WalkFits(pl, p, level, flags)
  {
  }

  /** The walk ends at an empty entry when no frame is free for a table. */
  lemma WalkStops(m: Memory, own: Owners, kroot: nat, reserved: set<nat>, t: nat, p: Page, level: nat, flags: set<Flag>)
    requires 1 < level <= 4 && t in own && Inv(m, own, kroot, reserved) && !Look(m, t, At(p, level)).Here()
    requires forall g :: 0 <= g < |m.tables| ==> g in m.used
    ensures WalkDone(m, own, Found(m, None), own, kroot, reserved, own[t].place, t, p, level, flags)
  {
    FlagsSame(m, own, kroot, WalkFits(own[t].place, p, level, flags));
    hide Inv, Look, FlagsPass, WalkFits, At, Translate, Depth;
  }

  /** Where the walk below the first table ends, the whole walk ends. */
  lemma WalkExtends(m: Memory, own: Owners, v: Memory, mid: Owners, end: Found, now: Owners, kroot: nat,
                    reserved: set<nat>, t: nat, n: nat, p: Page, level: nat, flags: set<Flag>)
    requires 1 < level <= 4 && t in own && Grown(own, mid)
    requires SameTranslations(m, v, own, kroot) && EntriesKept(m, v, own, kroot)
    requires FlagsPass(m, own, v, mid, kroot, WalkFits(own[t].place, p, level, flags))
    requires Look(v, t, At(p, level)).Here() && Look(v, t, At(p, level)).frame == n
    requires n in mid && mid[n].place == Child(own[t].place, At(p, level))
    requires WalkDone(v, mid, end, now, kroot, reserved, mid[n].place, n, p, level - 1, flags)
    ensures WalkDone(m, own, end, now, kroot, reserved, own[t].place, t, p, level, flags)
  {
    hide Inv, Look, Grown, SameTranslations, EntriesKept, Arrived, Follow, Depth, Tracked, FlagsPass, WalkFits, At,
         Child;
    WalkFitsBelow(own[t].place, p, level, flags);
    Chained(m, v, end.memory, own, mid, now, kroot);
    FlagsTwice(m, own, v, mid, end.memory, now, kroot, WalkFits(own[t].place, p, level, flags));
    FirstStepKept(v, end.memory, own, mid, kroot, t, n, p, level);
    if end.frame.Some? {
      ArrivesFrom(end.memory, now, kroot, own[t].place, mid[n].place, t, n, p, level, end.frame.value);
    }
  }

  lemma WalkingOn(own: Owners, mid: Owners, kroot: nat, t: nat, n: nat, p: Page, level: nat)
    requires level > 1 && Walking(own, kroot, t, p, level) && own[t].place != Kernel && PlacesOk(mid, kroot)
    requires n in mid && mid[n].place == Child(own[t].place, At(p, level))
    ensures Walking(mid, kroot, n, p, level - 1)
  {
    assert PlaceOk(n, mid[n].place);
  }

  lemma FirstStepKept(v: Memory, w: Memory, own: Owners, mid: Owners, kroot: nat, t: nat, n: nat, p: Page, level: nat)
    requires 1 < level <= 4 && t in own && Grown(own, mid) && EntriesKept(v, w, mid, kroot)
    requires Look(v, t, At(p, level)).Here() && Look(v, t, At(p, level)).frame == n
    ensures Look(w, t, At(p, level)) == Look(v, t, At(p, level))
    ensures Follow(w, t, p, level) == Follow(w, n, p, level - 1)
  {
    hide Look;
  }

  lemma ArrivesFrom(m: Memory, own: Owners, kroot: nat, from: Place, next: Place, t: nat, n: nat, p: Page, level: nat,
                    pt: nat)
    requires 1 < level <= 4 && Look(m, t, At(p, level)).Here() && Look(m, t, At(p, level)).frame == n
    requires next == Child(from, At(p, level)) && Arrived(m, own, kroot, next, n, p, level - 1, pt)
    ensures Arrived(m, own, kroot, from, t, p, level, pt)
  {
    hide Look, Child, Depth;
  }

  lemma Chained(m: Memory, v: Memory, w: Memory, own: Owners, mid: Owners, now: Owners, kroot: nat)
    requires Grown(own, mid) && SameTranslations(m, v, own, kroot) && EntriesKept(m, v, own, kroot)
    requires SameTranslations(v, w, mid, kroot) && EntriesKept(v, w, mid, kroot) && Grown(mid, now)
    ensures SameTranslations(m, w, own, kroot) && EntriesKept(m, w, own, kroot) && Grown(own, now)
  {
    hide Translate, Look;
    forall r, p: Page | Space(own, kroot, r, p) ensures Translate(w, r, p) == Translate(m, r, p) {
      assert Translate(v, r, p) == Translate(m, r, p);
      assert Space(mid, kroot, r, p);
    }
  }

  /** A walk that makes no tables finds the PT exactly if the processor's walk gets that far. */
  lemma {:induction false} LookFinds(m: Memory, own: Owners, kroot: nat, t: nat, p: Page, level: nat)
    requires Tree(m, own, kroot) && PlacesOk(own, kroot)
    requires t in own && 1 <= level <= 4 && Depth(own[t].place) == 4 - level && Tracked(kroot, t, At(p, level))
    ensures match WalkFrom(m, t, p, level, false, {}).frame
            case None => Follow(m, t, p, level) == None
            case Some(pt) => Arrived(m, own, kroot, own[t].place, t, p, level, pt)
    decreases level
  {
    assert PlaceOk(t, own[t].place);
    hide Look, Depth;
    if level == 1 {
      assert PlaceFrom(Child(own[t].place, p.d), p, 0) == Child(own[t].place, p.d);
    } else {
      var e := Look(m, t, At(p, level));
      assert EntryOk(e, own, Child(own[t].place, At(p, level)));
      if e.Here() {
        LookFinds(m, own, kroot, e.frame, p, level - 1);
      }
    }
  }
}
