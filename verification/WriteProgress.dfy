/** What holds at every point inside a write: how far the disk of a volume has moved from where the call found it. */
module WriteProgress {
  import opened Bytes
  import opened Chains
  import opened FlatFile
  import opened Layout
  import opened Sequences

  /** The top four bits of every FAT entry are as they were. */
  ghost predicate HighBitsKept(d0: Disk, d: Disk, g: Info) {
    && g.fatStart < g.dataStart <= |d0| && |d| == |d0|
    && forall c :: 0 <= c < g.Entries() ==> RawEntry(d, g, c) / TWO_28 == RawEntry(d0, g, c) / TWO_28
  }

  ghost predicate OutsideFatKept(d0: Disk, d: Disk, g: Info) {
    && |d| == |d0|
    && forall k :: 0 <= k < |d| && !(g.fatStart <= k < g.dataStart) ==> d[k] == d0[k]
  }

  /** The FAT went from one table to another; nothing else on the disk changed. */
  ghost predicate FatBecomes(d0: Disk, d: Disk, g: Info, fat: Table) {
    && HighBitsKept(d0, d, g) && OutsideFatKept(d0, d, g) && TableOf(d, g) == fat
  }

  /** No cluster of the volume is free. */
  ghost predicate Full(d: Disk, g: Info) {
    g.fatStart < g.dataStart <= |d| && NoneFree(TableOf(d, g))
  }

  /** A volume whose FAT holds the given chains. */
  ghost predicate Volume(d: Disk, g: Info, cs: map<nat, Chain>) {
    && g.Fits(|d|)
    && Good(TableOf(d, g), cs)
  }

  lemma KeysAreClusters(d: Disk, g: Info, cs: map<nat, Chain>)
    requires Volume(d, g, cs)
    ensures g.fatStart < g.dataStart <= |d| <= TWO_32 && 0 < g.sectorsPerCluster < 256
    ensures forall a :: a in cs ==> a >= 2
  {
    hide RawEntry, Separate;
    forall a | a in cs ensures a >= 2 {
      assert IsChain(TableOf(d, g), cs[a]);
    }
  }

  lemma ChainFits(d: Disk, g: Info, cs: map<nat, Chain>, a: nat)
    requires Volume(d, g, cs) && a in cs
    ensures g.Fits(|d|) && |cs[a]| > 0 && cs[a][0] == a
    ensures InRange(g, cs[a]) && Distinct(cs[a])
    ensures OnDisk(d, Sectors(g, cs[a])) && Distinct(Sectors(g, cs[a]))
    ensures forall i :: 0 <= i < |Sectors(g, cs[a])| ==> g.dataStart <= Sectors(g, cs[a])[i]
  {
    SectorsOnDisk(g, d, cs[a]);
    SectorsDistinct(g, cs[a]);
  }

  /** Reading the entry of a cluster of a chain gives the next cluster, or an end mark at the last one. */
  lemma NextCluster(d: Disk, g: Info, cs: map<nat, Chain>, a: nat, k: nat)
    requires Volume(d, g, cs) && a in cs && k < |cs[a]|
    ensures 2 <= cs[a][k] < g.Entries() < EOC
    ensures if k + 1 < |cs[a]| then TableOf(d, g)[cs[a][k]] == cs[a][k + 1] && 2 <= cs[a][k + 1] < EOC
            else cs[a][k] == Last(cs[a]) && TableOf(d, g)[cs[a][k]] >= EOC
  {
    hide RawEntry, Separate;
    assert IsChain(TableOf(d, g), cs[a]);
  }

  /**
   * Since the call began on disk `d0` with chains `cs0`, the chain of file `key` went from `ch0` to `cs[key]`, the
   * bytes from position `pos` became `data`, the new clusters came from the free ones, and nothing else changed.
   */
  ghost predicate Progress(d0: Disk, g: Info, cs0: map<nat, Chain>, ch0: Chain, key: nat,
                           d: Disk, cs: map<nat, Chain>, pos: nat, data: seq<byte>)
  {
    && Volume(d0, g, cs0) && Volume(d, g, cs) && |d| == |d0|
    && key in cs && cs == cs0[key := cs[key]]
    && ch0 <= cs[key] && InRange(g, ch0) && InRange(g, cs[key])
    && Written(d0, Sectors(g, ch0), d, Sectors(g, cs[key]), pos, data)
    && TouchesOnly(d0, d, Sectors(g, cs[key]), g.fatStart, g.dataStart)
    && HighBitsKept(d0, d, g)
    && FreeSet(TableOf(d, g)) == FreeSet(TableOf(d0, g)) - Elements(cs[key])
  }

  /** A call on a file that has clusters starts with nothing written. */
  lemma Begin(d: Disk, g: Info, cs: map<nat, Chain>, key: nat, pos: nat)
    requires Volume(d, g, cs) && key in cs && pos <= g.StartOf(|cs[key]|)
    ensures Progress(d, g, cs, cs[key], key, d, cs, pos, [])
  {
    ChainFits(d, g, cs, key);
    BytesOfClusters(g, |cs[key]|);
    var fat := TableOf(d, g);
    forall c | c in cs[key] ensures c !in FreeSet(fat) {
      if IsFree(fat, c) {
        FreeIsOutside(fat, cs[key], c);
      }
    }
    assert cs == cs[key := cs[key]];
  }

  /** A call on a file without clusters first gives it one. */
  lemma BeginEmpty(d: Disk, g: Info, cs: map<nat, Chain>, n: nat, d': Disk)
    requires Volume(d, g, cs) && IsFree(TableOf(d, g), n) && FatBecomes(d, d', g, TableOf(d, g)[n := EOC])
    ensures n !in cs
    ensures Progress(d, g, cs, [], n, d', cs[n := [n]], 0, [])
  {
    AllocateStarts(TableOf(d, g), cs, n);
    ChainFits(d', g, cs[n := [n]], n);
    assert Elements([n]) == {n};
  }

  lemma ProgressVolume(d0: Disk, g: Info, cs0: map<nat, Chain>, ch0: Chain, key: nat,
                       d: Disk, cs: map<nat, Chain>, pos: nat, data: seq<byte>)
    requires Progress(d0, g, cs0, ch0, key, d, cs, pos, data)
    ensures Volume(d, g, cs) && g.Fits(|d|) && key in cs && |cs[key]| > 0 && cs[key][0] == key
    ensures g.ClusterBytes() > 0
  {
    hide Written, TouchesOnly, HighBitsKept, Separate;
    assert IsChain(TableOf(d, g), cs[key]);
  }

  /** The data side of linking a cluster: the file gets longer and keeps its bytes. */
  lemma GrowData(d0: Disk, g: Info, ch0: Chain, ch: Chain, d: Disk, pos: nat, data: seq<byte>, n: nat, d': Disk)
    requires g.Fits(|d|) && InRange(g, ch0) && InRange(g, ch + [n]) && InRange(g, ch)
    requires Written(d0, Sectors(g, ch0), d, Sectors(g, ch), pos, data)
    requires TouchesOnly(d0, d, Sectors(g, ch), g.fatStart, g.dataStart)
    requires OutsideFatKept(d, d', g)
    ensures Written(d0, Sectors(g, ch0), d', Sectors(g, ch + [n]), pos, data)
    ensures TouchesOnly(d0, d', Sectors(g, ch + [n]), g.fatStart, g.dataStart)
  {
    hide Info.Fits;
    SectorsOnDisk(g, d, ch);
    SectorsOnDisk(g, d, ch + [n]);
    assert (ch + [n])[..|ch|] == ch;
    var more := ClusterSectors(g, n);
    assert Sectors(g, ch + [n]) == Sectors(g, ch) + more;
    assert OnDisk(d', more) by {
      assert forall i :: 0 <= i < |more| ==> more[i] == Sectors(g, ch + [n])[|Sectors(g, ch)| + i];
    }
    WrittenGrows(d0, Sectors(g, ch0), d, Sectors(g, ch), pos, data, d', more);
  }

  lemma FatTwice(d0: Disk, d1: Disk, d2: Disk, g: Info, ch: Chain, n: nat)
    requires g.fatStart < g.dataStart <= |d0| && IsFree(TableOf(d0, g), n) && Last(ch) < g.Entries()
    requires FatBecomes(d0, d1, g, TableOf(d0, g)[n := EOC])
    requires FatBecomes(d1, d2, g, TableOf(d1, g)[Last(ch) := n])
    ensures FatBecomes(d0, d2, g, Linked(TableOf(d0, g), ch, n))
  {
    hide RawEntry, Last;
  }

  /** A free cluster is linked behind the last one. */
  lemma Grow(d0: Disk, g: Info, cs0: map<nat, Chain>, ch0: Chain, key: nat,
             d: Disk, cs: map<nat, Chain>, pos: nat, data: seq<byte>, n: nat, d': Disk)
    requires Progress(d0, g, cs0, ch0, key, d, cs, pos, data) && IsFree(TableOf(d, g), n)
    requires FatBecomes(d, d', g, Linked(TableOf(d, g), cs[key], n))
    ensures Progress(d0, g, cs0, ch0, key, d', cs[key := cs[key] + [n]], pos, data)
  {
    hide Good, RawEntry, Written, TouchesOnly, IsFree, Linked, InRange, OutsideFatKept;
    var ch := cs[key];
    var cs' := cs[key := ch + [n]];
    LinkExtends(TableOf(d, g), cs, key, n);
    ChainFits(d', g, cs', key);
    GrowData(d0, g, ch0, ch, d, pos, data, n, d');
    ElementsGrow(ch, n);
  }

  /** The FAT reads the same on two disks that agree on its sectors. */
  lemma FatUntouched(d: Disk, d': Disk, g: Info)
    requires g.fatStart < g.dataStart <= |d| && |d'| == |d|
    requires forall k :: g.fatStart <= k < g.dataStart ==> d'[k] == d[k]
    ensures TableOf(d', g) == TableOf(d, g) && HighBitsKept(d, d', g)
  {
    hide U32At;
    forall c | 0 <= c < g.Entries() ensures RawEntry(d', g, c) == RawEntry(d, g, c) {
    }
  }

  /** One read-modify-write of a sector in the write loop. */
  lemma Step(d0: Disk, g: Info, cs0: map<nat, Chain>, ch0: Chain, key: nat,
             d: Disk, cs: map<nat, Chain>, pos: nat, data: seq<byte>,
             k: nat, o: nat, off: nat, more: seq<byte>, s: Sector)
    requires Progress(d0, g, cs0, ch0, key, d, cs, pos, data)
    requires k < |cs[key]| && o < g.sectorsPerCluster && off + |more| <= SECTOR
    requires pos + |data| == g.SectorNumber(k, o) * SECTOR + off
    requires g.ClusterToLba(cs[key][k]) + o < |d|
    requires var was := d[g.ClusterToLba(cs[key][k]) + o]; s == was[..off] + more + was[off + |more|..]
    ensures Progress(d0, g, cs0, ch0, key, d[g.ClusterToLba(cs[key][k]) + o := s], cs, pos, data + more)
  {
    hide Good, RawEntry, Written, Info.Fits, Info.ClusterToLba, Info.SectorNumber, FreeSet;
    var ch := cs[key];
    var i, lba := g.SectorNumber(k, o), g.ClusterToLba(ch[k]) + o;
    var d' := d[lba := s];
    ChainFits(d, g, cs, key);
    SectorAt(g, ch, k, o);
    WrittenStep(d0, Sectors(g, ch0), d, Sectors(g, ch), pos, data, i, off, more, s);
    FatUntouched(d, d', g);
  }

  /** The contents of a file with the given chain and size. */
  ghost function ChainText(d: Disk, g: Info, ch: Chain, size: nat): (s: seq<byte>)
    requires g.Fits(|d|) && InRange(g, ch) && size <= g.StartOf(|ch|)
    ensures |s| == size
  {
    SectorsOnDisk(g, d, ch);
    BytesOfClusters(g, |ch|);
    Contents(d, Sectors(g, ch), size)
  }

  lemma ChainPrefix(d: Disk, g: Info, ch: Chain, n: nat, size: nat)
    requires g.Fits(|d|) && InRange(g, ch) && n <= size <= g.StartOf(|ch|)
    ensures ChainText(d, g, ch, n) == ChainText(d, g, ch, size)[..n]
  {
    SectorsOnDisk(g, d, ch);
    BytesOfClusters(g, |ch|);
    hide ByteAt, Sectors, Info.Fits, InRange, Info.StartOf;
  }

  /** The call is done: the file is spliced. */
  lemma Finish(d0: Disk, g: Info, cs0: map<nat, Chain>, ch0: Chain, key: nat,
               d: Disk, cs: map<nat, Chain>, pos: nat, data: seq<byte>, size: nat)
    requires Progress(d0, g, cs0, ch0, key, d, cs, pos, data)
    requires pos <= size <= g.StartOf(|ch0|)
    ensures InRange(g, cs[key]) && ch0 <= cs[key]
    ensures var size' := if pos + |data| > size then pos + |data| else size;
            size' <= g.StartOf(|cs[key]|)
            && ChainText(d, g, cs[key], size') == Splice(ChainText(d0, g, ch0, size), pos, data)
  {
    hide RawEntry, Good, Info.Fits;
    BytesOfClusters(g, |ch0|);
    BytesOfClusters(g, |cs[key]|);
    WrittenIsSplice(d0, Sectors(g, ch0), d, Sectors(g, cs[key]), pos, data, size);
  }

  /** The data is on the disk where the chain and the position say. */
  lemma DataHeld(d0: Disk, g: Info, cs0: map<nat, Chain>, ch0: Chain, key: nat,
                 d: Disk, cs: map<nat, Chain>, pos: nat, data: seq<byte>)
    requires Progress(d0, g, cs0, ch0, key, d, cs, pos, data)
    ensures key in cs && HoldsAll(d, g, cs[key], pos, data)
  {
    hide *;
    KeyInChains(d0, g, cs0, ch0, key, d, cs, pos, data);
    forall q | 0 <= q < |data| ensures HoldsAt(d, g, cs[key], pos + q, data[q]) {
      WrittenHere(d0, g, cs0, ch0, key, d, cs, pos, data, q);
      BytesHeld(d, g, cs[key], pos + q);
    }
    EachHeld(d, g, cs[key], pos, data);
  }

  lemma KeyInChains(d0: Disk, g: Info, cs0: map<nat, Chain>, ch0: Chain, key: nat,
                    d: Disk, cs: map<nat, Chain>, pos: nat, data: seq<byte>)
    requires Progress(d0, g, cs0, ch0, key, d, cs, pos, data)
    ensures key in cs
  {
  }

  lemma WrittenHere(d0: Disk, g: Info, cs0: map<nat, Chain>, ch0: Chain, key: nat,
                    d: Disk, cs: map<nat, Chain>, pos: nat, data: seq<byte>, q: nat)
    requires Progress(d0, g, cs0, ch0, key, d, cs, pos, data) && q < |data|
    ensures key in cs && g.Fits(|d|) && InRange(g, cs[key]) && pos + q < |cs[key]| * g.sectorsPerCluster * SECTOR
    ensures OnDisk(d, Sectors(g, cs[key])) && pos + q < |Sectors(g, cs[key])| * SECTOR
    ensures ByteAt(d, Sectors(g, cs[key]), pos + q) == data[q]
  {
    hide RawEntry, Good, Info.Fits, InRange, TouchesOnly, HighBitsKept, FreeSet, TableOf, Sectors, ByteAt, OnDisk;
    assert forall p :: pos <= p < pos + |data| ==> ByteAt(d, Sectors(g, cs[key]), p) == data[p - pos];
  }

  /** The call is done: another file has the chain and the bytes it had. */
  lemma OtherFile(d0: Disk, g: Info, cs0: map<nat, Chain>, ch0: Chain, key: nat,
                  d: Disk, cs: map<nat, Chain>, pos: nat, data: seq<byte>, a: nat, size: nat)
    requires Progress(d0, g, cs0, ch0, key, d, cs, pos, data)
    requires a in cs0 && a != key && InRange(g, cs0[a]) && size <= g.StartOf(|cs0[a]|)
    ensures a in cs && cs[a] == cs0[a]
    ensures ChainText(d, g, cs[a], size) == ChainText(d0, g, cs0[a], size)
  {
    hide RawEntry, Written, Info.Fits, IsChain;
    ChainFits(d0, g, cs0, a);
    ChainFits(d, g, cs, a);
    BytesOfClusters(g, |cs[a]|);
    SectorsDisjoint(g, cs[key], cs[a]);
    OthersKept(d0, d, Sectors(g, cs[key]), g.fatStart, g.dataStart, Sectors(g, cs[a]), size);
  }

  /** Allocating a cluster and linking it, as the driver does with two writes of FAT entries. */
  lemma GrowTwice(d0: Disk, g: Info, cs0: map<nat, Chain>, ch0: Chain, key: nat,
                  d: Disk, cs: map<nat, Chain>, pos: nat, data: seq<byte>, n: nat, d1: Disk, d2: Disk)
    requires Progress(d0, g, cs0, ch0, key, d, cs, pos, data) && IsFree(TableOf(d, g), n)
    requires FatBecomes(d, d1, g, TableOf(d, g)[n := EOC])
    requires Last(cs[key]) < g.Entries() && FatBecomes(d1, d2, g, TableOf(d1, g)[Last(cs[key]) := n])
    ensures Progress(d0, g, cs0, ch0, key, d2, cs[key := cs[key] + [n]], pos, data)
    ensures |FreeSet(TableOf(d2, g))| == |FreeSet(TableOf(d, g))| - 1
  {
    hide RawEntry, Written, TouchesOnly, Good, Linked, Last, Sectors, InRange;
    FatTwice(d, d1, d2, g, cs[key], n);
    LinkExtends(TableOf(d, g), cs, key, n);
    Grow(d0, g, cs0, ch0, key, d, cs, pos, data, n, d2);
    assert n in FreeSet(TableOf(d, g));
  }
}
