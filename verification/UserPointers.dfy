/** The check of pointers that user programs pass to the kernel. */
module UserPointers {
  import opened Bytes
  import opened PageTables
  import opened PageWalks
  import opened KernelPages

  const USER_BASE: nat := 0x40_0000
  const USER_STACK_TOP: nat := 0x7FFF_FFFF_FFFF

  /** The checks made for one page. */
  predicate PageFine(m: Memory, root: nat, page: nat, write: bool) {
    && PhysicalAddress(m, root, page) != 0
    && var t := Walk(m, root, PageOf(page), false, {}).frame;
    t.Some?
    && var e := Look(m, t.value, PageOf(page).d);
    e.Here() && User in e.flags && (write ==> Writable in e.flags)
  }

  /** The loop over the pages from `page` to `last`. */
  predicate PagesFine(m: Memory, root: nat, page: nat, last: nat, write: bool)
    decreases last + PAGE_SIZE - page
  {
    page > last || (PageFine(m, root, page, write) && PagesFine(m, root, page + PAGE_SIZE, last, write))
  }

  /** The last page of a range, from an end address that may wrap around. */
  function LastPage(ptr: nat, size: nat): nat {
    PageStart(Wrap(ptr + size - 1))
  }

  /**
   * usermode_validate_pointer accepts the range. For a range that ends in the last page of the address space the
   * counter of the loop wraps around, and the call never returns 1.
   */
  predicate Validate(m: Memory, root: nat, ptr: nat, size: nat, write: bool) {
    && USER_BASE <= ptr < USER_STACK_TOP && LastPage(ptr, size) < TWO_64 - PAGE_SIZE
    && PagesFine(m, root, PageStart(ptr), LastPage(ptr, size), write)
  }

  /** The call returns: also a range that ends in the last page of the address space fails at some page. */
  ghost predicate Returns(m: Memory, root: nat, ptr: nat, size: nat, write: bool) {
    LastPage(ptr, size) >= TWO_64 - PAGE_SIZE ==>
      exists page: nat :: page < TWO_64 && page % PAGE_SIZE == 0 && !PageFine(m, root, page, write)
  }

  /** The leaf entry of a byte's page allows user access, and maps a frame other than frame 0. */
  predicate Accessible(m: Memory, root: nat, a: nat, write: bool) {
    var t := Translate(m, root, PageOf(a));
    t.Some? && t.value.frame != 0 && User in t.value.flags && (write ==> Writable in t.value.flags)
  }

  lemma {:induction false} LookReaches(m: Memory, t: nat, p: Page, level: nat)
    requires 1 <= level <= 4
    ensures WalkFrom(m, t, p, level, false, {}).frame == Reached(m, t, p, level)
    ensures Follow(m, t, p, level)
            == match Reached(m, t, p, level) case None => None case Some(pt) => LeafOf(m, pt, p.d)
    decreases level
  {
    hide Look;
    if level > 1 {
      var e := Look(m, t, At(p, level));
      if e.Here() {
        LookReaches(m, e.frame, p, level - 1);
      }
    }
  }

  lemma PageFineMeans(m: Memory, root: nat, page: nat, write: bool)
    requires page % PAGE_SIZE == 0
    ensures PageFine(m, root, page, write) <==> Accessible(m, root, page, write)
  {
    LookReaches(m, root, PageOf(page), 4);
    hide PageOf, WalkFrom, Look, Follow;
  }

  lemma {:induction false} PagesFineMeans(m: Memory, root: nat, page: nat, last: nat, write: bool)
    requires page % PAGE_SIZE == 0
    ensures PagesFine(m, root, page, last, write) <==>
            forall q: nat :: page <= q <= last && q % PAGE_SIZE == 0 ==> Accessible(m, root, q, write)
    decreases last + PAGE_SIZE - page
  {
    hide Accessible, PageFine;
    if page <= last {
      PageFineMeans(m, root, page, write);
      PagesFineMeans(m, root, page + PAGE_SIZE, last, write);
      assert forall q: nat :: page < q && q % PAGE_SIZE == 0 ==> page + PAGE_SIZE <= q;
    }
  }

  lemma SamePage(a: nat)
    ensures PageOf(PageStart(a)) == PageOf(a) && PageStart(a) % PAGE_SIZE == 0
            && PageStart(a) <= a < PageStart(a) + PAGE_SIZE
  {
    StartOfPage(a, 0x1000);
    StartOfPage(a, 0x20_0000);
    StartOfPage(a, 0x4000_0000);
    StartOfPage(a, 0x80_0000_0000);
  }

  lemma StartOfPage(a: nat, unit: nat)
    requires unit == 0x1000 || unit == 0x20_0000 || unit == 0x4000_0000 || unit == 0x80_0000_0000
    ensures PageStart(a) / unit == a / unit
  {
    var n := a / 0x1000;
    assert PageStart(a) == 0x1000 * n;
    if unit == 0x20_0000 {
      assert n >= 0x200 * (a / 0x20_0000);
    } else if unit == 0x4000_0000 {
      assert n >= 0x4_0000 * (a / 0x4000_0000);
    } else if unit == 0x80_0000_0000 {
      assert n >= 0x800_0000 * (a / 0x80_0000_0000);
    }
  }

  /** A byte is accessible exactly if its page is. */
  lemma AccessibleByPage(m: Memory, root: nat, a: nat, write: bool)
    ensures Accessible(m, root, a, write) == Accessible(m, root, PageStart(a), write)
  {
    SamePage(a);
    hide PageOf, PageStart;
  }

  lemma PageStartOrdered(a: nat, b: nat)
    ensures a <= b ==> PageStart(a) <= PageStart(b)
    ensures a % PAGE_SIZE == 0 && PageStart(a) <= PageStart(b) ==> a <= b
    ensures a % PAGE_SIZE == 0 ==> PageStart(a) == a
    ensures PageStart(a) % PAGE_SIZE == 0
  {
  }

  /** The pages of a range are accessible exactly if its bytes are. */
  lemma RangeByPages(m: Memory, root: nat, lo: nat, hi: nat, write: bool)
    requires lo <= hi
    ensures (forall q: nat :: PageStart(lo) <= q <= PageStart(hi) && q % PAGE_SIZE == 0 ==>
               Accessible(m, root, q, write)) <==>
            forall a: nat :: lo <= a <= hi ==> Accessible(m, root, a, write)
  {
    hide Accessible, PageStart;
    if forall q: nat :: PageStart(lo) <= q <= PageStart(hi) && q % PAGE_SIZE == 0 ==> Accessible(m, root, q, write) {
      forall a: nat | lo <= a <= hi ensures Accessible(m, root, a, write) {
        AccessibleByPage(m, root, a, write);
        PageStartOrdered(lo, a);
        PageStartOrdered(a, hi);
        assert Accessible(m, root, PageStart(a), write);
      }
    } else {
      var q: nat :| PageStart(lo) <= q <= PageStart(hi) && q % PAGE_SIZE == 0 && !Accessible(m, root, q, write);
      if lo <= q {
        PageStartOrdered(q, hi);
        assert !Accessible(m, root, q, write);
      } else {
        PageStartOrdered(q, lo);
        AccessibleByPage(m, root, lo, write);
        assert !Accessible(m, root, lo, write);
      }
    }
  }

  /**
   * The check accepts a non-empty range that does not wrap around exactly if it starts in user memory, ends below the
   * last page of the address space, and every byte of it is accessible.
   */
  lemma ValidateMeans(m: Memory, root: nat, ptr: nat, size: nat, write: bool)
    requires size > 0 && ptr + size <= TWO_64
    ensures Validate(m, root, ptr, size, write) <==>
            && USER_BASE <= ptr < USER_STACK_TOP && ptr + size <= TWO_64 - PAGE_SIZE
            && forall a: nat :: ptr <= a < ptr + size ==> Accessible(m, root, a, write)
  {
    RangeByPages(m, root, ptr, ptr + size - 1, write);
    PageStartOrdered(ptr, ptr);
    PagesFineMeans(m, root, PageStart(ptr), PageStart(ptr + size - 1), write);
    LastOf(ptr, size);
    hide Accessible, PageStart, PagesFine;
  }

  lemma LastOf(ptr: nat, size: nat)
    requires 0 < size && ptr + size <= TWO_64
    ensures LastPage(ptr, size) == PageStart(ptr + size - 1)
    ensures LastPage(ptr, size) < TWO_64 - PAGE_SIZE <==> ptr + size <= TWO_64 - PAGE_SIZE
  {
  }

  /**
   * Of an empty range, and of one that wraps around, the check looks at most at the page it starts in: at that page
   * exactly if the address before the end lies in it.
   */
  lemma OneOrNoPage(m: Memory, root: nat, ptr: nat, size: nat, write: bool)
    requires size < TWO_64 && (size == 0 || ptr + size > TWO_64)
    ensures Validate(m, root, ptr, size, write) <==>
            && USER_BASE <= ptr < USER_STACK_TOP
            && (LastPage(ptr, size) == PageStart(ptr) ==> Accessible(m, root, ptr, write))
  {
    if USER_BASE <= ptr < USER_STACK_TOP {
      BeforeStart(ptr, size);
      PagesFineMeans(m, root, PageStart(ptr), LastPage(ptr, size), write);
      AccessibleByPage(m, root, ptr, write);
      PageStartOrdered(ptr, ptr);
      hide Accessible, PageStart, PagesFine, LastPage;
    }
  }

  lemma BeforeStart(ptr: nat, size: nat)
    requires USER_BASE <= ptr < USER_STACK_TOP && size < TWO_64 && (size == 0 || ptr + size > TWO_64)
    ensures LastPage(ptr, size) <= PageStart(ptr) < TWO_64 - PAGE_SIZE && PageStart(ptr) % PAGE_SIZE == 0
    ensures LastPage(ptr, size) % PAGE_SIZE == 0
  {
    EndWraps(ptr + size - 1);
    PageStartOrdered(Wrap(ptr + size - 1), ptr);
    PageStartOrdered(ptr, ptr);
    StartBelow(ptr);
    hide Wrap, PageStart;
  }

  lemma EndWraps(end: nat)
    requires end < 2 * TWO_64
    ensures Wrap(end) == if end >= TWO_64 then end - TWO_64 else end
  {
  }

  lemma StartBelow(a: nat)
    ensures PageStart(a) <= a
  {
  }
}
