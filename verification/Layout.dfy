/** Where the FAT and the clusters of a mounted FAT32 volume lie on the disk. */
module Layout {
  import opened Bytes
  import opened Chains
  import opened FlatFile

  /** The mount information the data path uses; sectors have 512 bytes and there is one FAT. */
  datatype Info = Info(fatStart: nat, dataStart: nat, sectorsPerCluster: nat) {

    /** Every FAT entry from 2 up has its data cluster on a disk of this many sectors. */
    ghost predicate Fits(sectors: nat) {
      && fatStart < dataStart <= sectors
      && sectorsPerCluster in {1, 2, 4, 8, 16, 32, 64, 128}
      && (dataStart - fatStart) * 128 <= EOC - 1
      && dataStart + ((dataStart - fatStart) * 128 - 2) * sectorsPerCluster <= sectors <= TWO_32
    }

    /** Number of entries of the FAT. */
    function Entries(): nat
      requires fatStart < dataStart
    {
      (dataStart - fatStart) * 128
    }

    /** bytes_per_cluster */
    function ClusterBytes(): nat {
      SECTOR * sectorsPerCluster
    }

    /** The file position at which cluster number `k` of a chain begins. */
    ghost function StartOf(k: nat): nat {
      k * ClusterBytes()
    }

    /** The number of sector `o` of cluster number `k` among the sectors of a chain. */
    ghost function SectorNumber(k: nat, o: nat): nat {
      k * sectorsPerCluster + o
    }

    /** fat32_cluster_to_lba */
    function ClusterToLba(cluster: nat): nat
      requires cluster >= 2
    {
      dataStart + (cluster - 2) * sectorsPerCluster
    }
  }

  // ---------- the FAT as bytes ----------

  /** All 32 bits of an entry. */
  function RawEntry(d: Disk, g: Info, c: nat): (v: nat)
    requires g.fatStart < g.dataStart <= |d| && c < g.Entries()
    ensures v < TWO_32
  {
    U32At(d[g.fatStart + c * 4 / SECTOR], c * 4 % SECTOR)
  }

  /** The 28-bit values of all entries. */
  function TableOf(d: Disk, g: Info): (fat: Table)
    requires g.fatStart < g.dataStart <= |d|
    ensures |fat| == g.Entries()
  {
    seq(g.Entries(), c requires 0 <= c < g.Entries() => RawEntry(d, g, c) % TWO_28)
  }

  /** The entry that a scan of the FAT finds at offset `i` of its sector `fatSector`. */
  lemma EntryOfSector(d: Disk, g: Info, fatSector: nat, i: nat)
    requires g.fatStart < g.dataStart <= |d| && g.fatStart + fatSector < g.dataStart && i % 4 == 0 && i < SECTOR
    ensures var c := (fatSector * SECTOR + i) / 4;
            c == fatSector * 128 + i / 4 < g.Entries()
            && TableOf(d, g)[c] == U32At(d[g.fatStart + fatSector], i) % TWO_28
  {
    hide U32At;
  }

  lemma RawEntryIs(d: Disk, g: Info, c: nat)
    requires g.fatStart < g.dataStart <= |d| && c < g.Entries()
    ensures g.fatStart + c * 4 / SECTOR < |d| && c * 4 % SECTOR + 4 <= SECTOR
    ensures RawEntry(d, g, c) == U32At(d[g.fatStart + c * 4 / SECTOR], c * 4 % SECTOR)
  {
    hide U32At;
  }

  /** Where the FAT keeps the entry of a cluster. */
  lemma EntryPlace(g: Info, sectors: nat, c: nat)
    requires g.Fits(sectors) && c < g.Entries()
    ensures g.fatStart < g.dataStart <= sectors && g.fatStart + c * 4 / SECTOR < sectors && c * 4 % SECTOR + 4 <= SECTOR
  {
  }

  /** The word with the low 28 bits of `v` and the other bits kept. */
  function WithLow28(word: nat, v: nat): (r: nat)
    ensures word < TWO_32 ==> r < TWO_32
  {
    word / TWO_28 * TWO_28 + v % TWO_28
  }

  lemma PutEntryAt(d: Disk, g: Info, c: nat, word: nat, d': Disk, k: nat)
    requires g.fatStart < g.dataStart <= |d| && c < g.Entries() && k < g.Entries() && word < TWO_32
    requires var lba := g.fatStart + c * 4 / SECTOR; d' == d[lba := PutU32(d[lba], c * 4 % SECTOR, word)]
    ensures RawEntry(d', g, k) == if k == c then word else RawEntry(d, g, k)
  {
    PutU32Get(d[g.fatStart + c * 4 / SECTOR], c * 4 % SECTOR, word);
    if k != c && k * 4 / SECTOR == c * 4 / SECTOR {
      assert k * 4 % SECTOR + 4 <= c * 4 % SECTOR || c * 4 % SECTOR + 4 <= k * 4 % SECTOR;
    }
  }

  /** Rewriting one entry changes the low 28 bits of that entry alone, and no sector outside the FAT. */
  lemma PutEntry(d: Disk, g: Info, c: nat, v: nat, d': Disk)
    requires g.fatStart < g.dataStart <= |d| && c < g.Entries()
    requires var raw := RawEntry(d, g, c);
             var lba := g.fatStart + c * 4 / SECTOR;
             d' == d[lba := PutU32(d[lba], c * 4 % SECTOR, WithLow28(raw, v))]
    ensures |d'| == |d|
    ensures TableOf(d', g) == TableOf(d, g)[c := v % TWO_28]
    ensures forall k :: 0 <= k < g.Entries() ==> RawEntry(d', g, k) / TWO_28 == RawEntry(d, g, k) / TWO_28
    ensures forall k :: 0 <= k < |d| && !(g.fatStart <= k < g.dataStart) ==> d'[k] == d[k]
  {
    hide RawEntry, PutU32;
    var word := WithLow28(RawEntry(d, g, c), v);
    forall k | 0 <= k < g.Entries()
      ensures RawEntry(d', g, k) == if k == c then word else RawEntry(d, g, k)
    {
      PutEntryAt(d, g, c, word, d', k);
    }
  }

  /** Byte number `n` of the FAT. */
  function FatByte(d: Disk, g: Info, n: nat): byte
    requires g.fatStart < g.dataStart <= |d| && n < (g.dataStart - g.fatStart) * SECTOR
  {
    d[g.fatStart + n / SECTOR][n % SECTOR]
  }

  /** The entry of a cluster is in the four bytes from 4 * `c` on, little-endian, without the top four bits. */
  lemma EntryBytes(d: Disk, g: Info, c: nat)
    requires g.fatStart < g.dataStart <= |d| && c < g.Entries()
    ensures c * 4 + 3 < (g.dataStart - g.fatStart) * SECTOR
    ensures TableOf(d, g)[c] == FatByte(d, g, c * 4) as int + 0x100 * FatByte(d, g, c * 4 + 1) as int
                                + 0x1_0000 * FatByte(d, g, c * 4 + 2) as int
                                + 0x100_0000 * (FatByte(d, g, c * 4 + 3) as int % 0x10)
  {
    EntryPosition(c, 1);
    EntryPosition(c, 2);
    EntryPosition(c, 3);
    var s := d[g.fatStart + c * 4 / SECTOR];
    LowBits(s[c * 4 % SECTOR], s[c * 4 % SECTOR + 1], s[c * 4 % SECTOR + 2], s[c * 4 % SECTOR + 3]);
  }

  lemma EntryPosition(c: nat, k: nat)
    requires k < 4
    ensures (c * 4 + k) / SECTOR == c * 4 / SECTOR && (c * 4 + k) % SECTOR == c * 4 % SECTOR + k
  {
  }

  lemma LowBits(b0: byte, b1: byte, b2: byte, b3: byte)
    ensures (b0 as int + 0x100 * b1 as int + 0x1_0000 * b2 as int + 0x100_0000 * b3 as int) % TWO_28
         == b0 as int + 0x100 * b1 as int + 0x1_0000 * b2 as int + 0x100_0000 * (b3 as int % 0x10)
  {
  }

  // ---------- the data region ----------

  lemma TimesMonotone(a: nat, b: nat, n: nat)
    requires a <= b
    ensures a * n <= b * n
  {
    assert (b - a) * n >= 0;
  }

  /** Quotient and remainder are unique. */
  lemma DivideUnique(k: nat, o: nat, q: nat, r: nat, n: nat)
    requires o < n && r < n && k * n + o == q * n + r
    ensures k == q && o == r
  {
    if q < k {
      TimesMonotone(q + 1, k, n);
    } else if k < q {
      TimesMonotone(k + 1, q, n);
    }
  }

  /** Cluster sizes divide 2^32, so adding one to a multiple below 2^32 either stays below it or gives 0. */
  lemma ClusterWrap(g: Info, n: nat, m: nat)
    requires g.Fits(n) && g.StartOf(m) < TWO_32
    ensures g.StartOf(m + 1) <= TWO_32
  {
    var s := g.sectorsPerCluster;
    var all: nat := 0x80_0000 / s;
    assert all * s == 0x80_0000;
    assert all * g.ClusterBytes() == TWO_32;
    if m + 1 > all {
      TimesMonotone(all, m, g.ClusterBytes());
    } else {
      TimesMonotone(m + 1, all, g.ClusterBytes());
    }
  }

  lemma StartNext(g: Info, k: nat)
    ensures g.StartOf(0) == 0 && g.StartOf(k + 1) == g.StartOf(k) + g.ClusterBytes()
  {
  }

  lemma StartMonotone(g: Info, k: nat, n: nat)
    ensures k <= n ==> g.StartOf(k) <= g.StartOf(n)
  {
    if k <= n {
      TimesMonotone(k, n, g.ClusterBytes());
    }
  }

  /** One round of a 32-bit walk to the cluster of `position`, at cluster number `m` so far. */
  lemma WalkStep(g: Info, n: nat, m: nat, position: nat) returns (m': nat)
    requires g.Fits(n) && g.StartOf(m) < TWO_32 && position < TWO_32
    requires (g.StartOf(m) + g.ClusterBytes()) % TWO_32 <= position
    ensures (g.StartOf(m) + g.ClusterBytes()) % TWO_32 == g.StartOf(m') < TWO_32
    ensures position + g.ClusterBytes() < TWO_32 && g.StartOf(m) <= position ==>
              m' == m + 1 && g.StartOf(m') <= position
  {
    hide Info.Fits, Info.ClusterBytes, Info.StartOf;
    StartNext(g, m);
    ClusterWrap(g, n, m);
    m' := if g.StartOf(m + 1) == TWO_32 then 0 else m + 1;
  }

  /** The walk leaves the loop only for positions below the last cluster of 4 GiB, and then at the right cluster. */
  lemma WalkEnds(g: Info, n: nat, m: nat, position: nat)
    requires g.Fits(n) && g.StartOf(m) < TWO_32 && position < TWO_32
    requires (g.StartOf(m) + g.ClusterBytes()) % TWO_32 > position
    ensures position + g.ClusterBytes() < TWO_32 && position < g.StartOf(m + 1)
  {
    hide Info.Fits, Info.ClusterBytes, Info.StartOf;
    StartNext(g, m);
    ClusterWrap(g, n, m);
    if g.StartOf(m + 1) < TWO_32 {
      StartNext(g, m + 1);
      ClusterWrap(g, n, m + 1);
    }
  }

  lemma LastCluster(g: Info, k: nat, n: nat, position: nat)
    requires g.StartOf(k + 1) <= position <= g.StartOf(n) && k + 1 >= n
    ensures position == g.StartOf(n)
  {
    TimesMonotone(n, k + 1, g.ClusterBytes());
  }

  /** The data region begins with cluster 2, and every cluster begins directly behind the one before. */
  lemma ClustersInOrder(g: Info, c: nat)
    requires c >= 2
    ensures g.ClusterToLba(2) == g.dataStart
    ensures g.ClusterToLba(c + 1) == g.ClusterToLba(c) + g.sectorsPerCluster
  {
  }

  /** Clusters do not overlap. */
  lemma ClustersApart(g: Info, c: nat, o: nat, c': nat, o': nat)
    requires c >= 2 && c' >= 2 && o < g.sectorsPerCluster && o' < g.sectorsPerCluster
    requires g.ClusterToLba(c) + o == g.ClusterToLba(c') + o'
    ensures c == c' && o == o'
  {
    DivideUnique(c - 2, o, c' - 2, o', g.sectorsPerCluster);
  }

  /** Every cluster of the table has all its sectors in the data region of the disk. */
  lemma ClusterOnDisk(g: Info, n: nat, c: nat, o: nat)
    requires g.Fits(n) && 2 <= c < g.Entries() && o < g.sectorsPerCluster
    ensures g.dataStart <= g.ClusterToLba(c) + o < n
  {
    var s := g.sectorsPerCluster;
    assert (c - 2) * s + s == (c - 1) * s;
    TimesMonotone(c - 1, g.Entries() - 2, s);
    TimesMonotone(0, c - 2, s);
  }

  ghost predicate InRange(g: Info, ch: Chain) {
    g.fatStart < g.dataStart && forall i :: 0 <= i < |ch| ==> 2 <= ch[i] < g.Entries()
  }

  ghost function ClusterSectors(g: Info, c: nat): (ls: seq<nat>)
    requires c >= 2
  {
    var base: nat := g.ClusterToLba(c);
    seq<nat>(g.sectorsPerCluster, (o: nat) => base + o)
  }

  /** The disk sectors of a chain's clusters, in file order. */
  ghost function Sectors(g: Info, ch: Chain): (ls: seq<nat>)
    requires InRange(g, ch)
    ensures |ls| == |ch| * g.sectorsPerCluster
  {
    if ch == [] then [] else
      var n := |ch| - 1;
      assert |ch| * g.sectorsPerCluster == n * g.sectorsPerCluster + g.sectorsPerCluster;
      Sectors(g, ch[..n]) + ClusterSectors(g, ch[n])
  }

  lemma BytesOfClusters(g: Info, n: nat)
    ensures g.StartOf(n) == n * g.sectorsPerCluster * SECTOR
  {
  }

  /** The sector and the offset in it that belong to position `at` of cluster `k`. */
  lemma SectorPosition(g: Info, k: nat, at: nat)
    requires at < g.ClusterBytes()
    ensures at / SECTOR < g.sectorsPerCluster && at + (SECTOR - at % SECTOR) <= g.ClusterBytes()
    ensures g.StartOf(k) + at == g.SectorNumber(k, at / SECTOR) * SECTOR + at % SECTOR
  {
  }

  /** `position % bytes_per_cluster` is the position in the cluster that the walk found. */
  lemma PositionInCluster(g: Info, k: nat, position: nat)
    requires g.StartOf(k) <= position < g.StartOf(k + 1)
    ensures g.ClusterBytes() > 0 && position % g.ClusterBytes() == position - g.StartOf(k) < g.ClusterBytes()
  {
    var n := g.ClusterBytes();
    StartNext(g, k);
    assert position == position / n * n + position % n;
    DivideUnique(k, position - g.StartOf(k), position / n, position % n, n);
  }

  /** Sector `o` of cluster `k` is where the cluster and sector arithmetic of the read and write loops looks for it. */
  lemma {:induction false} SectorAt(g: Info, ch: Chain, k: nat, o: nat)
    requires InRange(g, ch) && k < |ch| && o < g.sectorsPerCluster
    ensures g.SectorNumber(k, o) < |Sectors(g, ch)|
    ensures Sectors(g, ch)[g.SectorNumber(k, o)] == g.ClusterToLba(ch[k]) + o
  {
    var n := |ch| - 1;
    TimesMonotone(k + 1, |ch|, g.sectorsPerCluster);
    if k < n {
      SectorAt(g, ch[..n], k, o);
    }
  }

  /** Each sector of the list is one sector of one cluster. */
  lemma {:induction false} SectorIndex(g: Info, ch: Chain, i: nat) returns (k: nat, o: nat)
    requires InRange(g, ch) && i < |Sectors(g, ch)|
    ensures k < |ch| && o < g.sectorsPerCluster && i == g.SectorNumber(k, o)
    ensures Sectors(g, ch)[i] == g.ClusterToLba(ch[k]) + o
  {
    var n := |ch| - 1;
    if i < |Sectors(g, ch[..n])| {
      k, o := SectorIndex(g, ch[..n], i);
    } else {
      k, o := n, i - |Sectors(g, ch[..n])|;
    }
  }

  lemma SectorsOnDisk(g: Info, d: Disk, ch: Chain)
    requires g.Fits(|d|) && InRange(g, ch)
    ensures OnDisk(d, Sectors(g, ch))
    ensures forall i :: 0 <= i < |Sectors(g, ch)| ==> g.dataStart <= Sectors(g, ch)[i]
  {
    forall i | 0 <= i < |Sectors(g, ch)| ensures g.dataStart <= Sectors(g, ch)[i] < |d| {
      var k, o := SectorIndex(g, ch, i);
      ClusterOnDisk(g, |d|, ch[k], o);
    }
  }

  /** Equal sectors of two lists come from equal clusters. */
  lemma SharedSector(g: Info, a: Chain, i: nat, b: Chain, j: nat) returns (k: nat, l: nat)
    requires InRange(g, a) && InRange(g, b) && i < |Sectors(g, a)| && j < |Sectors(g, b)|
    requires Sectors(g, a)[i] == Sectors(g, b)[j]
    ensures k < |a| && l < |b| && a[k] == b[l]
    ensures k == l ==> i == j
  {
    var o, m;
    k, o := SectorIndex(g, a, i);
    l, m := SectorIndex(g, b, j);
    ClustersApart(g, a[k], o, b[l], m);
  }

  /** Chains without a common cluster have no common sector, and one chain has no sector twice. */
  lemma SectorsDistinct(g: Info, ch: Chain)
    requires InRange(g, ch) && FlatFile.Distinct(ch)
    ensures FlatFile.Distinct(Sectors(g, ch))
  {
    var ls := Sectors(g, ch);
    forall i, j | 0 <= i < |ls| && 0 <= j < |ls| && ls[i] == ls[j] ensures i == j {
      var k, l := SharedSector(g, ch, i, ch, j);
    }
  }

  lemma SectorsDisjoint(g: Info, a: Chain, b: Chain)
    requires InRange(g, a) && InRange(g, b)
    requires forall i, j :: 0 <= i < |a| && 0 <= j < |b| ==> a[i] != b[j]
    ensures forall j :: 0 <= j < |Sectors(g, b)| ==> Sectors(g, b)[j] !in Sectors(g, a)
  {
    forall j | 0 <= j < |Sectors(g, b)| ensures Sectors(g, b)[j] !in Sectors(g, a) {
      if i :| 0 <= i < |Sectors(g, a)| && Sectors(g, a)[i] == Sectors(g, b)[j] {
        var k, l := SharedSector(g, a, i, b, j);
      }
    }
  }

  /**
   * Byte `p` of a file is `b` on the disk itself: in the cluster of the chain that covers the position, so many
   * clusters behind the beginning of the data region as its number is above 2, at the sector and the offset of the
   * position.
   */
  ghost predicate HoldsAt(d: Disk, g: Info, ch: Chain, p: nat, b: byte) {
    var clusterBytes := SECTOR * g.sectorsPerCluster;
    && clusterBytes > 0 && p / clusterBytes < |ch| && ch[p / clusterBytes] >= 2
    && var distance := (ch[p / clusterBytes] - 2) * g.sectorsPerCluster + p % clusterBytes / SECTOR;
       g.dataStart + distance < |d| && d[g.dataStart + distance][p % SECTOR] == b
  }

  /** The bytes of a file from position `pos` on are `data` on the disk itself. */
  ghost predicate HoldsAll(d: Disk, g: Info, ch: Chain, pos: nat, data: seq<byte>) {
    forall q :: 0 <= q < |data| ==> HoldsAt(d, g, ch, pos + q, data[q])
  }

  lemma EachHeld(d: Disk, g: Info, ch: Chain, pos: nat, data: seq<byte>)
    requires forall q :: 0 <= q < |data| ==> HoldsAt(d, g, ch, pos + q, data[q])
    ensures HoldsAll(d, g, ch, pos, data)
  {
    hide HoldsAt;
  }

  lemma BytesHeld(d: Disk, g: Info, ch: Chain, p: nat)
    requires g.Fits(|d|) && InRange(g, ch) && p < |ch| * g.sectorsPerCluster * SECTOR
    ensures OnDisk(d, Sectors(g, ch)) && p < |Sectors(g, ch)| * SECTOR
    ensures HoldsAt(d, g, ch, p, ByteAt(d, Sectors(g, ch), p))
  {
    hide Info.Fits, Sectors;
    SectorsOnDisk(g, d, ch);
    BelowSectors(p, |ch| * g.sectorsPerCluster);
    var k, o := SectorIndex(g, ch, p / SECTOR);
    PlaceOf(g, k, o, p);
    assert g.ClusterToLba(ch[k]) + o == g.dataStart + ((ch[k] - 2) * g.sectorsPerCluster + o);
    hide Info.SectorNumber, Info.ClusterToLba;
  }

  lemma BelowSectors(p: nat, n: nat)
    requires p < n * SECTOR
    ensures p / SECTOR < n
  {
  }

  lemma PlaceOf(g: Info, k: nat, o: nat, p: nat)
    requires o < g.sectorsPerCluster && p / SECTOR == g.SectorNumber(k, o)
    ensures p / (SECTOR * g.sectorsPerCluster) == k && p % (SECTOR * g.sectorsPerCluster) / SECTOR == o
  {
    SumOfSectors(k, g.sectorsPerCluster, o, p);
    TimesMonotone(o + 1, g.sectorsPerCluster, SECTOR);
    SectorOf(o, p % SECTOR);
    PartsAre(p, SECTOR * g.sectorsPerCluster, k, o * SECTOR + p % SECTOR);
  }

  lemma SectorOf(o: nat, r: nat)
    requires r < SECTOR
    ensures (o * SECTOR + r) / SECTOR == o
  {
  }

  lemma PartsAre(p: nat, n: nat, k: nat, r: nat)
    requires r < n && p == k * n + r
    ensures p / n == k && p % n == r
  {
    Parts(p, n);
    DivideUnique(k, r, p / n, p % n, n);
  }

  lemma SumOfSectors(k: nat, n: nat, o: nat, p: nat)
    requires p / SECTOR == k * n + o
    ensures p == k * (SECTOR * n) + (o * SECTOR + p % SECTOR)
  {
    assert p == p / SECTOR * SECTOR + p % SECTOR;
    assert (k * n + o) * SECTOR == k * n * SECTOR + o * SECTOR;
    assert k * n * SECTOR == k * (SECTOR * n);
  }

  lemma Parts(p: nat, n: nat)
    requires n > 0
    ensures p == p / n * n + p % n && p % n < n
  {
  }

  /** The bytes at one place of a sector are the file's bytes from the position that belongs to it. */
  lemma BytesInSector(d: Disk, g: Info, ch: Chain, k: nat, o: nat, off: nat, n: nat, p: nat)
    requires g.Fits(|d|) && InRange(g, ch) && k < |ch| && o < g.sectorsPerCluster && off + n <= SECTOR
    requires p == g.SectorNumber(k, o) * SECTOR + off
    requires g.ClusterToLba(ch[k]) + o < |d|
    ensures OnDisk(d, Sectors(g, ch))
    ensures n > 0 ==> p + n <= |Sectors(g, ch)| * SECTOR
    ensures forall q :: p <= q < p + n ==> ByteAt(d, Sectors(g, ch), q) == d[g.ClusterToLba(ch[k]) + o][off + (q - p)]
  {
    hide Info.Fits, Info.ClusterToLba, Info.SectorNumber, Sectors, ByteAt;
    SectorsOnDisk(g, d, ch);
    SectorAt(g, ch, k, o);
    BytesOfSector(d, Sectors(g, ch), g.SectorNumber(k, o), off, n, p);
  }

  lemma BytesOfSector(d: Disk, ls: seq<nat>, i: nat, off: nat, n: nat, p: nat)
    requires OnDisk(d, ls) && i < |ls| && off + n <= SECTOR && p == i * SECTOR + off
    ensures n > 0 ==> p + n <= |ls| * SECTOR
    ensures forall q :: p <= q < p + n ==> ByteAt(d, ls, q) == d[ls[i]][off + (q - p)]
  {
    forall q | p <= q < p + n ensures ByteAt(d, ls, q) == d[ls[i]][off + (q - p)] {
      assert q / SECTOR == i && q % SECTOR == off + (q - p);
    }
  }
}
