/** Frames of physical memory, the frame allocator and four-level page tables stored in frames. */
module PageTables {
  import opened Bytes

  const PAGE_SIZE: nat := 4096

  /** The first index of the upper half of a PML4, which maps the kernel. */
  const KERNEL_HALF: nat := 256

  datatype Option<T> = None | Some(value: T)

  datatype Flag = Present | Writable | User | WriteThrough | CacheDisable | Accessed | Dirty | Global

  /** A page table entry: the frame number in its address bits, and its flags. */
  datatype Entry = Entry(frame: nat, flags: set<Flag>) {
    predicate Here() {
      Present in flags
    }
  }

  const EMPTY: Entry := Entry(0, {})

  type Index = i: nat | i < 512

  type Table = t: seq<Entry> | |t| == 512 witness seq(512, _ => EMPTY)

  /** memset(addr, 0, PAGE_SIZE) */
  function Zeroed(): (t: Table)
    ensures forall i: Index :: t[i] == EMPTY
  {
    seq(512, _ => EMPTY)
  }

  /** A virtual page: the indices into the PML4, the PDPT, the PD and the PT. */
  datatype Page = Page(a: Index, b: Index, c: Index, d: Index)

  /**
   * The allocator's bitmap as the set of its set bits, its two counters, and memory as one table of entries per frame;
   * frames are named by their physical address divided by the page size.
   */
  datatype Memory = Memory(used: set<nat>, tables: seq<Table>, freeMemory: nat, usedMemory: nat)

  /** A memory, and the frame a call found or took in it, if any. */
  datatype Found = Found(memory: Memory, frame: Option<nat>)

  datatype Mapped = Mapped(memory: Memory, ok: bool)

  function PageOf(va: nat): (p: Page) {
    Page(va / 0x80_0000_0000 % 512, va / 0x4000_0000 % 512, va / 0x20_0000 % 512, va / 0x1000 % 512)
  }

  /** Two addresses on the same side of the 48-bit hole have the same indices only if they lie in the same page. */
  lemma PageOfInjective(x: nat, y: nat)
    requires x / 0x1_0000_0000_0000 == y / 0x1_0000_0000_0000
    ensures PageOf(x) == PageOf(y) <==> x / PAGE_SIZE == y / PAGE_SIZE
  {
    Split(x);
    Split(y);
  }

  lemma Split(x: nat)
    ensures var p := PageOf(x);
            x / PAGE_SIZE
            == x / 0x1_0000_0000_0000 * 0x10_0000_0000 + p.a * 0x800_0000 + p.b * 0x4_0000 + p.c * 0x200 + p.d
  {
    Digit(x, x / 0x1000, x / 0x20_0000, 0x1000);
    Digit(x, x / 0x20_0000, x / 0x4000_0000, 0x20_0000);
    Digit(x, x / 0x4000_0000, x / 0x80_0000_0000, 0x4000_0000);
    Digit(x, x / 0x80_0000_0000, x / 0x1_0000_0000_0000, 0x80_0000_0000);
  }

  /** `y` and `z` are the address in units of one level and of the next. */
  lemma Digit(x: nat, y: nat, z: nat, unit: nat)
    requires unit > 0 && unit * y <= x < unit * y + unit && unit * 512 * z <= x < unit * 512 * z + unit * 512
    ensures y == z * 512 + y % 512
  {
    assert unit * (512 * z) < unit * (y + 1) && unit * y < unit * (512 * z + 512);
    LessFactor(unit, 512 * z, y + 1);
    LessFactor(unit, y, 512 * z + 512);
  }

  lemma LessFactor(unit: nat, a: nat, b: nat)
    requires unit * a < unit * b
    ensures a < b
  {
  }

  /** The next index of the walk: level 4 is the PML4, level 1 the PT. */
  function At(p: Page, level: nat): Index {
    if level == 4 then p.a else if level == 3 then p.b else if level == 2 then p.c else p.d
  }

  function Look(m: Memory, t: nat, i: Index): Entry {
    if t < |m.tables| then m.tables[t][i] else EMPTY
  }

  function Put(m: Memory, t: nat, i: Index, e: Entry): (r: Memory)
    ensures r.used == m.used && |r.tables| == |m.tables| && r.usedMemory == m.usedMemory && r.freeMemory == m.freeMemory
  {
    if t < |m.tables| then Memory(m.used, m.tables[t := m.tables[t][i := e]], m.freeMemory, m.usedMemory) else m
  }

  lemma LookPut(m: Memory, t: nat, i: Index, e: Entry)
    requires t < |m.tables|
    ensures forall u, j: Index :: Look(Put(m, t, i, e), u, j) == if u == t && j == i then e else Look(m, u, j)
  {
  }

  // ---------- the frame allocator ----------

  function Wrap(x: int): (r: nat)
    ensures r < TWO_64
  {
    x % TWO_64
  }

  /** The least frame from `from` on whose bit is clear, or the number of frames. */
  function FirstClear(used: set<nat>, from: nat, n: nat): (f: nat)
    requires from <= n
    ensures from <= f <= n && (f < n ==> f !in used)
    ensures forall g :: from <= g < f ==> g in used
    decreases n - from
  {
    if from == n || from !in used then from else FirstClear(used, from + 1, n)
  }

  /** pmm_alloc_page */
  function AllocPage(m: Memory): (r: Found)
    ensures r.frame.Some? ==> r.frame.value < |r.memory.tables|
  {
    var f := FirstClear(m.used, 0, |m.tables|);
    if f == |m.tables| then Found(m, None)
    else
      Found(Memory(m.used + {f}, m.tables[f := Zeroed()],
                   Wrap(m.freeMemory - PAGE_SIZE), Wrap(m.usedMemory + PAGE_SIZE)), Some(f))
  }

  /** pmm_free_page, for a physical address; the bitmap has a bit for every frame. */
  function FreePage(m: Memory, address: nat): (r: Memory)
    ensures r.tables == m.tables
  {
    var f := address / PAGE_SIZE;
    if address % PAGE_SIZE != 0 || f !in m.used then m
    else
      m.(used := m.used - {f}, freeMemory := Wrap(m.freeMemory + PAGE_SIZE),
         usedMemory := Wrap(m.usedMemory - PAGE_SIZE))
  }

  lemma FreedTables(m: Memory, address: nat)
    ensures forall t, i: Index :: Look(FreePage(m, address), t, i) == Look(m, t, i)
  {
  }

  lemma AllocTakesLeast(m: Memory)
    ensures var v := AllocPage(m).memory;
            match AllocPage(m).frame
            case None => v == m && forall g :: 0 <= g < |m.tables| ==> g in m.used
            case Some(n) =>
              && n < |m.tables| && n !in m.used && (forall g :: 0 <= g < n ==> g in m.used)
              && v.used == m.used + {n} && |v.tables| == |m.tables|
              && (forall u, j: Index :: Look(v, u, j) == if u == n then EMPTY else Look(m, u, j))
  {
  }

  /** The two counters: how much memory is free and used beyond what the bitmap says, and their sum. */
  function Ledger(m: Memory): (int, int) {
    (Wrap(m.usedMemory - PAGE_SIZE * |m.used|), Wrap(m.usedMemory + m.freeMemory))
  }

  lemma WrapAdd(x: int, y: int)
    ensures Wrap(Wrap(x) + y) == Wrap(x + y)
    ensures Wrap(Wrap(x) + Wrap(y)) == Wrap(x + y)
  {
  }

  /** Allocating and freeing frames moves the counters by exactly one page per bit. */
  lemma AllocBalances(m: Memory)
    ensures Ledger(AllocPage(m).memory) == Ledger(m)
  {
    var v := AllocPage(m).memory;
    if v != m {
      assert |v.used| == |m.used| + 1;
      Balanced(m.usedMemory, m.freeMemory, |m.used|, PAGE_SIZE, 1);
    }
    hide FirstClear, Zeroed, Wrap;
  }

  lemma Balanced(used: nat, free: nat, count: nat, size: int, bits: int)
    requires size == PAGE_SIZE * bits
    ensures Wrap(Wrap(used + size) - PAGE_SIZE * (count + bits)) == Wrap(used - PAGE_SIZE * count)
    ensures Wrap(Wrap(used + size) + Wrap(free - size)) == Wrap(used + free)
  {
    WrapAdd(used + size, -(PAGE_SIZE * (count + bits)));
    WrapAdd(used + size, free - size);
    hide Wrap;
  }

  lemma FreeBalances(m: Memory, address: nat)
    ensures Ledger(FreePage(m, address)) == Ledger(m)
  {
    var v := FreePage(m, address);
    if v != m {
      assert |v.used| == |m.used| - 1;
      Balanced(m.usedMemory, m.freeMemory, |m.used|, -4096, -1);
    }
    hide Wrap;
  }

  // ---------- walking and translating ----------

  /** One level of paging_walk: the table the entry points to, made if it is missing and `alloc` is set. */
  function NextTable(m: Memory, t: nat, i: Index, alloc: bool, flags: set<Flag>): Found {
    var e := Look(m, t, i);
    if e.Here() then Found(m, Some(e.frame))
    else if !alloc then Found(m, None)
    else
      var r := AllocPage(m);
      if r.frame.None? then r
      else Found(Put(r.memory, t, i, Entry(r.frame.value, {Present, Writable} + flags)), r.frame)
  }

  /** paging_walk from the table of some level on: the PT that holds the page's entry. */
  function WalkFrom(m: Memory, t: nat, p: Page, level: nat, alloc: bool, flags: set<Flag>): Found
    requires 1 <= level <= 4
    decreases level
  {
    if level == 1 then Found(m, Some(t))
    else
      var r := NextTable(m, t, At(p, level), alloc, flags);
      if r.frame.None? then r else WalkFrom(r.memory, r.frame.value, p, level - 1, alloc, flags)
  }

  function Walk(m: Memory, root: nat, p: Page, alloc: bool, flags: set<Flag>): Found {
    WalkFrom(m, root, p, 4, alloc, flags)
  }

  /** What the processor's walk finds from the table of some level on: the leaf entry, if present at every level. */
  function Follow(m: Memory, t: nat, p: Page, level: nat): Option<Entry>
    requires 1 <= level <= 4
    decreases level
  {
    var e := Look(m, t, At(p, level));
    if !e.Here() then None
    else if level == 1 then Some(e)
    else Follow(m, e.frame, p, level - 1)
  }

  /** The translation of a page in the address space of the PML4 `root`. */
  function Translate(m: Memory, root: nat, p: Page): Option<Entry> {
    Follow(m, root, p, 4)
  }

  /** paging_map_page for the frame of a physical address. */
  function MapPage(m: Memory, root: nat, frame: nat, p: Page, flags: set<Flag>): Mapped {
    var r := Walk(m, root, p, true, flags);
    if r.frame.None? || Look(r.memory, r.frame.value, p.d).Here() then Mapped(r.memory, false)
    else Mapped(Put(r.memory, r.frame.value, p.d, Entry(frame, {Present} + flags)), true)
  }

  /** paging_unmap_page */
  function UnmapPage(m: Memory, root: nat, p: Page): Memory {
    var t := Walk(m, root, p, false, {}).frame;
    if t.None? then m else Put(m, t.value, p.d, EMPTY)
  }

  /** paging_get_physical_address; 0 stands for NULL. */
  function PhysicalAddress(m: Memory, root: nat, va: nat): nat {
    var t := Walk(m, root, PageOf(va), false, {}).frame;
    if t.None? then 0 else Look(m, t.value, PageOf(va).d).frame * PAGE_SIZE + va % PAGE_SIZE
  }

  /** Without `alloc` a walk changes nothing. */
  lemma {:induction false} LookingChangesNothing(m: Memory, t: nat, p: Page, level: nat)
    requires 1 <= level <= 4
    ensures WalkFrom(m, t, p, level, false, {}).memory == m
    decreases level
  {
    if level > 1 {
      var n := NextTable(m, t, At(p, level), false, {}).frame;
      if n.Some? {
        LookingChangesNothing(m, n.value, p, level - 1);
      }
    }
  }

  /** Translations do not depend on the bitmap. */
  lemma {:induction false} TablesDecide(m: Memory, v: Memory, t: nat, p: Page, level: nat)
    requires 1 <= level <= 4 && m.tables == v.tables
    ensures Follow(m, t, p, level) == Follow(v, t, p, level)
    decreases level
  {
    var e := Look(m, t, At(p, level));
    if e.Here() && level > 1 {
      TablesDecide(m, v, e.frame, p, level - 1);
    }
  }
}
