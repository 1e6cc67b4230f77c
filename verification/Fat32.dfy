/** The FAT32 file data path: reading, writing and positioning through cluster chains on disk. */
module Fat32 {
  import opened Bytes
  import opened Chains
  import opened FlatFile
  import opened Layout
  import opened Sequences
  import opened WriteProgress

  const FS_SUCCESS: int := 0
  const FS_ERROR: int := -1
  const FS_NOT_MOUNTED: int := -3
  const FS_DIRECTORY: bv8 := 0x02

  /** fs_file_t with its directory entry; `currentCluster` is set by the driver and never read by it. */
  class File {
    var size: nat
    var flags: bv8
    var cluster: nat
    var position: nat
    var currentCluster: nat

    /** The handle that fs_open fills in for a directory entry. */
    constructor (size: nat, flags: bv8, cluster: nat)
      ensures this.size == size && this.flags == flags && this.cluster == cluster && position == 0
    {
      this.size, this.flags, this.cluster := size, flags, cluster;
      this.position, this.currentCluster := 0, cluster;
    }

    predicate IsDirectory()
      reads this
    {
      flags & FS_DIRECTORY != 0
    }
  }

  class FileSystem {
    const info: Info
    var mounted: bool
    var sectors: Disk
    /** The files' chains by first cluster: no state of the driver, only what the FAT means. */
    ghost var chains: map<nat, Chain>

    ghost predicate Valid()
      reads this
    {
      Volume(sectors, info, chains)
    }

    ghost function Fat(): Table
      requires Valid()
      reads this
    {
      TableOf(sectors, info)
    }

    ghost function ChainOf(file: File): Chain
      reads this, file
    {
      if file.cluster in chains then chains[file.cluster] else []
    }

    /** What a handle satisfies from fs_open on: its chain covers its size and its position is at most its size. */
    ghost predicate Handle(file: File)
      requires Valid()
      reads this, file
    {
      && file.position <= file.size < TWO_32
      && (file.cluster == 0 || file.cluster in chains)
      && file.size <= info.StartOf(|ChainOf(file)|)
    }

    lemma HandleFits(file: File)
      requires Valid() && Handle(file)
      ensures 0 !in chains && InRange(info, ChainOf(file))
    {
      hide Volume;
      KeysAreClusters(sectors, info, chains);
      if file.cluster in chains {
        ChainFits(sectors, info, chains, file.cluster);
      }
    }

    /** The bytes of a file. */
    ghost function Text(file: File): seq<byte>
      requires Valid() && Handle(file)
      reads this, file
    {
      HandleFits(file);
      ChainText(sectors, info, ChainOf(file), file.size)
    }

    /** All bytes of the clusters of the chain that starts at `a`. */
    ghost function BytesOf(a: nat): seq<byte>
      requires Valid() && a in chains
      reads this
    {
      ChainFits(sectors, info, chains, a);
      ChainText(sectors, info, chains[a], info.StartOf(|chains[a]|))
    }

    /** Every byte of a file is on the disk where its chain and its position say. */
    lemma TextOnDisk(file: File)
      requires Valid() && Handle(file)
      ensures HoldsAll(sectors, info, ChainOf(file), 0, Text(file))
    {
      HandleFits(file);
      BytesOfClusters(info, |ChainOf(file)|);
      hide HoldsAt, Sectors, Info.Fits, Volume, InRange;
      forall p | 0 <= p < file.size ensures HoldsAt(sectors, info, ChainOf(file), p, Text(file)[p]) {
        FitsVolume();
        BytesHeld(sectors, info, ChainOf(file), p);
      }
    }

    /** So are the bytes read from a position on. */
    lemma PartOnDisk(file: File, pos: nat, part: seq<byte>)
      requires Valid() && Handle(file) && pos + |part| <= file.size && part == Text(file)[pos..pos + |part|]
      ensures HoldsAll(sectors, info, ChainOf(file), pos, part)
    {
      TextOnDisk(file);
      var text := Text(file);
      hide HoldsAt, Volume;
      forall q | 0 <= q < |part| ensures HoldsAt(sectors, info, ChainOf(file), pos + q, part[q]) {
        assert part[q] == text[pos + q];
        assert HoldsAt(sectors, info, ChainOf(file), 0 + (pos + q), text[pos + q]);
      }
    }

    lemma FitsVolume()
      requires Valid()
      ensures info.Fits(|sectors|)
    {
    }

    ghost function FreeCount(): nat
      requires info.Fits(|sectors|)
      reads this
    {
      |FreeSet(TableOf(sectors, info))|
    }

    // ---------- the FAT ----------

    method ReadFatEntry(cluster: nat) returns (value: nat)
      requires info.Fits(|sectors|) && cluster < info.Entries()
      ensures value == TableOf(sectors, info)[cluster]
    {
      var fatOffset := cluster * 4;
      var sector := sectors[info.fatStart + fatOffset / SECTOR];
      var entry := U32At(sector, fatOffset % SECTOR);
      value := entry % TWO_28;
    }

    method WriteFatEntry(cluster: nat, value: nat) returns (r: int)
      requires info.Fits(|sectors|) && cluster < info.Entries() && value < TWO_28
      modifies this`sectors
      ensures r == FS_SUCCESS
      ensures FatBecomes(old(sectors), sectors, info, TableOf(old(sectors), info)[cluster := value])
    {
      EntryPlace(info, |sectors|, cluster);
      hide U32At, PutU32, TableOf, FatBecomes, WithLow28, Info.Fits, Info.Entries;
      var fatOffset := cluster * 4;
      var fatSector := info.fatStart + fatOffset / SECTOR;
      var sector: Sector := sectors[fatSector];
      var entry := U32At(sector, fatOffset % SECTOR);
      sector := PutU32(sector, fatOffset % SECTOR, WithLow28(entry, value));
      sectors := sectors[fatSector := sector];
      EntryBecomes(old(sectors), cluster, value, sectors);
      r := FS_SUCCESS;
    }

    lemma EntryBecomes(d: Disk, c: nat, v: nat, d': Disk)
      requires info.fatStart < info.dataStart <= |d| && c < info.Entries() && v < TWO_28
      requires var lba := info.fatStart + c * 4 / SECTOR;
               d' == d[lba := PutU32(d[lba], c * 4 % SECTOR, WithLow28(U32At(d[lba], c * 4 % SECTOR), v))]
      ensures FatBecomes(d, d', info, TableOf(d, info)[c := v])
    {
      hide U32At, PutU32, TableOf, WithLow28, RawEntry;
      RawEntryIs(d, info, c);
      PutEntry(d, info, c, v, d');
      SmallEntry(v);
    }

    lemma SmallEntry(v: nat)
      requires v < TWO_28
      ensures v % TWO_28 == v
    {
    }

    method AllocateCluster() returns (r: nat)
      requires info.Fits(|sectors|)
      modifies this`sectors
      ensures |sectors| == |old(sectors)|
      ensures !mounted ==> r == 0 && sectors == old(sectors)
      ensures mounted && r == 0 ==> sectors == old(sectors) && Full(sectors, info)
      ensures r != 0 ==> IsFree(TableOf(old(sectors), info), r) && !Full(old(sectors), info)
                         && (forall c :: 2 <= c < r ==> TableOf(old(sectors), info)[c] != 0)
                         && FatBecomes(old(sectors), sectors, info, TableOf(old(sectors), info)[r := EOC])
    {
      if !mounted {
        return 0;
      }
      hide U32At, TableOf, FatBecomes, IsFree, Full;
      assert info.fatStart < info.dataStart <= |sectors|;
      hide Info.Fits;
      var fatSectors := info.dataStart - info.fatStart;
      ghost var fat := TableOf(sectors, info);
      var fatSector := 0;
      ghost var seen := 0;
      while fatSector < fatSectors
        invariant fatSector <= fatSectors && sectors == old(sectors) && seen == fatSector * 128
        invariant forall c :: 2 <= c < seen ==> fat[c] != 0
      {
        var sector := sectors[info.fatStart + fatSector];
        var i := 0;
        while i < SECTOR
          invariant i <= SECTOR && i % 4 == 0 && sectors == old(sectors) && seen == fatSector * 128 + i / 4
          invariant forall c :: 2 <= c < seen ==> fat[c] != 0
        {
          var cluster := (fatSector * SECTOR + i) / 4;
          EntryOfSector(sectors, info, fatSector, i);
          if U32At(sector, i) % TWO_28 == 0 && cluster >= 2 {
            var _ := WriteFatEntry(cluster, EOC);
            return cluster;
          }
          i := i + 4;
          seen := seen + 1;
        }
        fatSector := fatSector + 1;
      }
      r := 0;
    }

    /**
     * The next cluster of a chain being written. At the end of the chain, if `grow` is set, a newly allocated one
     * is linked behind the last; the result is then 0 if none is free.
     */
    method NextForWrite(cluster: nat, grow: bool, ghost k: nat, ghost d0: Disk, ghost cs0: map<nat, Chain>,
                        ghost ch0: Chain, ghost key: nat, ghost pos: nat, ghost data: seq<byte>) returns (next: nat)
      requires mounted && Progress(d0, info, cs0, ch0, key, sectors, chains, pos, data)
      requires k < |chains[key]| && cluster == chains[key][k]
      modifies this`sectors, this`chains
      ensures Progress(d0, info, cs0, ch0, key, sectors, chains, pos, data) && key in chains
      ensures next == 0 || !grow || k + 1 < |old(chains)[key]| ==> sectors == old(sectors) && chains == old(chains)
      ensures grow && next == 0 ==> k + 1 == |chains[key]| && Full(sectors, info)
      ensures grow && next != 0 ==> k + 1 < |chains[key]| && chains[key][k + 1] == next
      ensures grow && next != 0 && k + 1 == |old(chains)[key]| ==>
                |chains[key]| == |old(chains)[key]| + 1 && FreeCount() == old(FreeCount()) - 1
                && !Full(old(sectors), info)
    {
      hide Progress, Volume, Info.Fits, FreeSet, TableOf, FatBecomes, Full, Last;
      ProgressVolume(d0, info, cs0, ch0, key, sectors, chains, pos, data);
      NextCluster(sectors, info, chains, key, k);
      next := ReadFatEntry(cluster);
      if next >= EOC && grow {
        next := AllocateCluster();
        if next != 0 {
          ghost var middle := sectors;
          var _ := WriteFatEntry(cluster, next);
          GrowTwice(d0, info, cs0, ch0, key, old(sectors), chains, pos, data, next, middle, sectors);
          chains := chains[key := chains[key] + [next]];
        }
      }
    }

    /**
     * The loop of fs_write that walks to the cluster of `position`, extending the chain at its end. In 32 bits
     * `pos + bytes_per_cluster` wraps for a position in the last cluster below 4 GiB: the walk then runs on
     * until no cluster is free.
     */
    method SkipForWrite(position: nat, first: nat, ghost d0: Disk, ghost cs0: map<nat, Chain>, ghost ch0: Chain)
      returns (cluster: nat, ghost k: nat)
      requires mounted && Progress(d0, info, cs0, ch0, first, sectors, chains, position, [])
      requires first != 0 && position < TWO_32 && position <= info.StartOf(|chains[first]|)
      modifies this`sectors, this`chains
      ensures Progress(d0, info, cs0, ch0, first, sectors, chains, position, [])
      ensures cluster == 0 ==> Full(sectors, info)
      ensures cluster == 0 && position + info.ClusterBytes() < TWO_32 ==>
                sectors == old(sectors) && position == info.StartOf(|old(chains)[first]|)
      ensures cluster != 0 ==> position + info.ClusterBytes() < TWO_32
      ensures cluster != 0 ==>
                position < info.StartOf(|old(chains)[first]|) || !Full(old(sectors), info)
      ensures cluster != 0 ==> k < |chains[first]| && chains[first][k] == cluster
      ensures cluster != 0 ==> info.StartOf(k) <= position < info.StartOf(k + 1)
    {
      hide Progress, Volume, Info.ClusterBytes, Info.StartOf, Info.Fits, TableOf, FreeCount, Full;
      var bytesPerCluster := info.ClusterBytes();
      ghost var wraps := position + bytesPerCluster >= TWO_32;
      ProgressVolume(d0, info, cs0, ch0, first, sectors, chains, position, []);
      ghost var start := |chains[first]|;
      cluster, k := first, 0;
      var pos := 0;
      StartNext(info, 0);
      ghost var m: nat := 0;
      while (pos + bytesPerCluster) % TWO_32 <= position
        invariant Progress(d0, info, cs0, ch0, first, sectors, chains, position, [])
        invariant Volume(sectors, info, chains) && info.Fits(|sectors|) && first in chains
        invariant k < |chains[first]| && cluster == chains[first][k]
        invariant pos == info.StartOf(m) < TWO_32
        invariant !wraps ==> m == k && pos <= position
        invariant |chains[first]| >= start
        invariant |chains[first]| == start ==> sectors == old(sectors)
        invariant !wraps && |chains[first]| > start ==> pos == position
        invariant |chains[first]| > start ==> !Full(old(sectors), info)
        decreases FreeCount() + |chains[first]| - k
      {
        m := WalkStep(info, |sectors|, m, position);
        if !wraps && k + 1 >= start {
          LastCluster(info, k, start, position);
        }
        cluster := NextForWrite(cluster, true, k, d0, cs0, ch0, first, position, []);
        if cluster == 0 {
          return;
        }
        ProgressVolume(d0, info, cs0, ch0, first, sectors, chains, position, []);
        pos := (pos + bytesPerCluster) % TWO_32;
        k := k + 1;
      }
      WalkEnds(info, |sectors|, m, position);
      StartMonotone(info, k + 1, start);
      KeysAreClusters(sectors, info, chains);
      NextCluster(sectors, info, chains, first, k);
    }

    /** One round of the write loop: read a sector, copy what belongs into it, and write it back. */
    method WriteSector(cluster: nat, clusterPos: nat, buf: seq<byte>, done: nat, ghost k: nat,
                       ghost d0: Disk, ghost cs0: map<nat, Chain>, ghost ch0: Chain, ghost key: nat, ghost pos: nat)
      returns (sectorBytes: nat)
      requires done < |buf| && Progress(d0, info, cs0, ch0, key, sectors, chains, pos, buf[..done])
      requires k < |chains[key]| && cluster == chains[key][k]
      requires clusterPos < info.ClusterBytes() && pos + done == info.StartOf(k) + clusterPos
      modifies this`sectors
      ensures 0 < sectorBytes <= |buf| - done && clusterPos + sectorBytes <= info.ClusterBytes()
      ensures Progress(d0, info, cs0, ch0, key, sectors, chains, pos, buf[..done + sectorBytes])
    {
      hide Progress, Volume, Info.Fits, Info.StartOf, Info.ClusterToLba, Info.SectorNumber, TableOf;
      ProgressVolume(d0, info, cs0, ch0, key, sectors, chains, pos, buf[..done]);
      NextCluster(sectors, info, chains, key, k);
      SectorPosition(info, k, clusterPos);
      var sectorOffset := clusterPos / SECTOR;
      var offset := clusterPos % SECTOR;
      ClusterOnDisk(info, |sectors|, cluster, sectorOffset);
      var lba := info.ClusterToLba(cluster) + sectorOffset;
      var sectorBuffer: Sector := sectors[lba];
      sectorBytes := SECTOR - offset;
      if sectorBytes > |buf| - done {
        sectorBytes := |buf| - done;
      }
      var more := buf[done..done + sectorBytes];
      sectorBuffer := sectorBuffer[..offset] + more + sectorBuffer[offset + sectorBytes..];
      Step(d0, info, cs0, ch0, key, sectors, chains, pos, buf[..done], k, sectorOffset, offset, more, sectorBuffer);
      assert buf[..done] + more == buf[..done + sectorBytes];
      sectors := sectors[lba := sectorBuffer];
    }

    /** The write loop of fs_write, from the cluster that holds the file's position. */
    method WriteClusters(file: File, buf: seq<byte>, first: nat, found: nat, ghost foundK: nat,
                         ghost d0: Disk, ghost cs0: map<nat, Chain>, ghost ch0: Chain, ghost pos: nat)
      returns (bytesLeft: nat)
      requires mounted && Progress(d0, info, cs0, ch0, first, sectors, chains, pos, [])
      requires foundK < |chains[first]| && found == chains[first][foundK]
      requires file.position == pos < TWO_32 && info.StartOf(foundK) <= pos < info.StartOf(foundK + 1)
      modifies this`sectors, this`chains, file`position
      ensures bytesLeft <= |buf| && file.position == Low32(pos + |buf| - bytesLeft)
      ensures Progress(d0, info, cs0, ch0, first, sectors, chains, pos, buf[..|buf| - bytesLeft])
      ensures bytesLeft > 0 ==> Full(sectors, info) && pos + |buf| - bytesLeft == info.StartOf(|chains[first]|)
    {
      hide Progress, Volume, Info.Fits, Info.StartOf, Info.ClusterBytes, Info.ClusterToLba, TableOf, Full, Low32;
      bytesLeft := |buf|;
      ProgressVolume(d0, info, cs0, ch0, first, sectors, chains, pos, []);
      PositionInCluster(info, foundK, pos);
      var clusterPos: nat := file.position % info.ClusterBytes();
      var cluster := found;
      ghost var k: nat := foundK;
      while bytesLeft > 0
        invariant bytesLeft <= |buf| && file.position == Low32(pos + |buf| - bytesLeft)
        invariant Progress(d0, info, cs0, ch0, first, sectors, chains, pos, buf[..|buf| - bytesLeft])
        invariant bytesLeft > 0 ==> first in chains && k < |chains[first]| && cluster == chains[first][k]
        invariant bytesLeft > 0 ==>
                    clusterPos < info.ClusterBytes() && pos + |buf| - bytesLeft == info.StartOf(k) + clusterPos
      {
        ProgressVolume(d0, info, cs0, ch0, first, sectors, chains, pos, buf[..|buf| - bytesLeft]);
        var sectorBytes := WriteSector(cluster, clusterPos, buf, |buf| - bytesLeft, k, d0, cs0, ch0, first, pos);
        Low32Add(pos + |buf| - bytesLeft, sectorBytes);
        bytesLeft := bytesLeft - sectorBytes;
        clusterPos := clusterPos + sectorBytes;
        file.position := Low32(file.position + sectorBytes);
        if clusterPos >= info.ClusterBytes() {
          StartNext(info, k);
          cluster := NextForWrite(cluster, bytesLeft > 0, k, d0, cs0, ch0, first, pos, buf[..|buf| - bytesLeft]);
          if cluster == 0 && bytesLeft > 0 {
            break;
          }
          clusterPos := 0;
          k := k + 1;
        }
      }
    }

    // ---------- fs_read ----------

    /** The loop of fs_read that walks to the cluster of `position`; it has the same 32-bit wrap as that of fs_write. */
    method SkipForRead(position: nat, first: nat) returns (cluster: nat, ghost k: nat)
      requires Valid() && first in chains
      requires position < TWO_32 && position < info.StartOf(|chains[first]|)
      ensures cluster >= EOC <==> position + info.ClusterBytes() >= TWO_32
      ensures cluster < EOC ==> k < |chains[first]| && chains[first][k] == cluster
      ensures cluster < EOC ==> info.StartOf(k) <= position < info.StartOf(k + 1)
    {
      hide Volume, Info.ClusterBytes, Info.StartOf, Info.Fits, TableOf;
      var bytesPerCluster := info.ClusterBytes();
      ghost var wraps := position + bytesPerCluster >= TWO_32;
      ChainFits(sectors, info, chains, first);
      cluster, k := first, 0;
      var pos := 0;
      StartNext(info, 0);
      ghost var m: nat := 0;
      NextCluster(sectors, info, chains, first, k);
      while (pos + bytesPerCluster) % TWO_32 <= position
        invariant k < |chains[first]| && cluster == chains[first][k] < EOC
        invariant pos == info.StartOf(m) < TWO_32
        invariant !wraps ==> m == k && pos <= position
        decreases |chains[first]| - k
      {
        NextCluster(sectors, info, chains, first, k);
        m := WalkStep(info, |sectors|, m, position);
        cluster := ReadFatEntry(cluster);
        if cluster >= EOC {
          return;
        }
        pos := (pos + bytesPerCluster) % TWO_32;
        k := k + 1;
      }
      WalkEnds(info, |sectors|, m, position);
    }

    ghost function FileSectors(first: nat): (ls: seq<nat>)
      requires Valid() && first in chains
      reads this
      ensures OnDisk(sectors, ls)
    {
      ChainFits(sectors, info, chains, first);
      Sectors(info, chains[first])
    }

    /** One round of the read loop: copy from one sector into the buffer. */
    method ReadSector(cluster: nat, clusterPos: nat, buffer: array<byte>, done: nat, size: nat,
                      ghost k: nat, ghost first: nat, ghost pos: nat) returns (sectorBytes: nat)
      requires Valid() && first in chains
      requires k < |chains[first]| && cluster == chains[first][k]
      requires done < size <= buffer.Length
      requires clusterPos < info.ClusterBytes() && pos + done == info.StartOf(k) + clusterPos
      modifies buffer
      ensures 0 < sectorBytes <= size - done && clusterPos + sectorBytes <= info.ClusterBytes()
      ensures OnDisk(sectors, FileSectors(first)) && pos + done + sectorBytes <= |FileSectors(first)| * SECTOR
      ensures buffer[..done] == old(buffer[..done]) && buffer[done + sectorBytes..] == old(buffer[done + sectorBytes..])
      ensures forall q :: pos + done <= q < pos + done + sectorBytes ==>
                buffer[q - pos] == ByteAt(sectors, FileSectors(first), q)
    {
      hide Volume, Info.Fits, Info.StartOf, Info.ClusterToLba, Info.ClusterBytes, Info.SectorNumber, TableOf, ByteAt,
           Sectors, InRange;
      ChainFits(sectors, info, chains, first);
      NextCluster(sectors, info, chains, first, k);
      SectorPosition(info, k, clusterPos);
      var sectorOffset := clusterPos / SECTOR;
      var offset := clusterPos % SECTOR;
      ClusterOnDisk(info, |sectors|, cluster, sectorOffset);
      var sectorBuffer: Sector := sectors[info.ClusterToLba(cluster) + sectorOffset];
      sectorBytes := SECTOR - offset;
      if sectorBytes > size - done {
        sectorBytes := size - done;
      }
      forall i | 0 <= i < sectorBytes {
        buffer[done + i] := sectorBuffer[offset + i];
      }
      BytesInSector(sectors, info, chains[first], k, sectorOffset, offset, sectorBytes, pos + done);
    }

    /** The read loop of fs_read, from the cluster that holds the file's position. */
    method ReadClusters(file: File, buffer: array<byte>, size: nat, found: nat, ghost foundK: nat)
      returns (bytesLeft: nat)
      requires Valid() && file.cluster in chains && file.position + size <= |FileSectors(file.cluster)| * SECTOR
      requires foundK < |chains[file.cluster]| && found == chains[file.cluster][foundK]
      requires info.StartOf(foundK) <= file.position < info.StartOf(foundK + 1)
      requires size <= buffer.Length
      modifies buffer, file`position
      ensures bytesLeft == 0 && file.position == old(file.position) + size
      ensures OnDisk(sectors, FileSectors(file.cluster)) && buffer[size..] == old(buffer[size..])
      ensures forall q :: old(file.position) <= q < old(file.position) + size ==>
                buffer[q - old(file.position)] == ByteAt(sectors, FileSectors(file.cluster), q)
    {
      hide Volume, Info.Fits, Info.StartOf, Info.ClusterBytes, Info.ClusterToLba, TableOf, ByteAt, Sectors, InRange,
           FileSectors;
      ghost var pos := file.position;
      bytesLeft := size;
      PositionInCluster(info, foundK, pos);
      ChainFits(sectors, info, chains, file.cluster);
      var clusterPos: nat := file.position % info.ClusterBytes();
      var cluster := found;
      ghost var k: nat := foundK;
      while bytesLeft > 0
        invariant bytesLeft <= size && file.position == pos + size - bytesLeft
        invariant bytesLeft > 0 ==> k < |chains[file.cluster]| && cluster == chains[file.cluster][k]
        invariant bytesLeft > 0 ==> clusterPos < info.ClusterBytes() && file.position == info.StartOf(k) + clusterPos
        invariant OnDisk(sectors, FileSectors(file.cluster)) && buffer[size..] == old(buffer[size..])
        invariant forall q :: pos <= q < pos + size - bytesLeft ==>
                    buffer[q - pos] == ByteAt(sectors, FileSectors(file.cluster), q)
      {
        var done := size - bytesLeft;
        NextCluster(sectors, info, chains, file.cluster, k);
        var sectorBytes := ReadSector(cluster, clusterPos, buffer, done, size, k, file.cluster, pos);
        bytesLeft := bytesLeft - sectorBytes;
        clusterPos := clusterPos + sectorBytes;
        file.position := file.position + sectorBytes;
        if clusterPos >= info.ClusterBytes() {
          StartNext(info, k);
          if bytesLeft > 0 {
            MoreClusters(file.cluster, k, file.position);
          }
          cluster := ReadFatEntry(cluster);
          if cluster >= EOC && bytesLeft > 0 {
            break;
          }
          clusterPos := 0;
          k := k + 1;
        }
      }
    }

    lemma MoreClusters(first: nat, k: nat, position: nat)
      requires Valid() && first in chains && k < |chains[first]|
      requires info.StartOf(k + 1) <= position < |FileSectors(first)| * SECTOR
      ensures k + 1 < |chains[first]|
    {
      hide Volume, Info.Fits;
      BytesOfClusters(info, |chains[first]|);
    }

    /**
     * Reads at most `size` bytes from the file's position on, `count` in all, and returns their number as an int.
     * Positions in the last cluster below 4 GiB are the exception: there the walk wraps and the call reports the end of
     * the file.
     */
    method FsRead(file: File, buffer: array<byte>, size: nat) returns (r: int, ghost count: nat)
      requires Valid() && Handle(file) && size <= buffer.Length && file.position + size < TWO_64
      modifies buffer, file`position
      ensures Handle(file)
      ensures r == if !mounted then FS_NOT_MOUNTED else if file.IsDirectory() then FS_ERROR else AsInt(count)
      ensures count == if !mounted || file.IsDirectory() || old(file.position) + info.ClusterBytes() >= TWO_32 then 0
                       else if size < file.size - old(file.position) then size else file.size - old(file.position)
      ensures file.position == old(file.position) + count <= file.size && count <= size
      ensures buffer[..count] == Text(file)[old(file.position)..old(file.position) + count]
      ensures HoldsAll(sectors, info, ChainOf(file), old(file.position), buffer[..count])
      ensures buffer[count..] == old(buffer[count..])
    {
      hide Volume, Info.Fits, Info.StartOf, Info.ClusterBytes, TableOf, Sectors, InRange, IsChain, AsInt, HoldsAll,
           ChainText;
      count := 0;
      SmallInt(0);
      EachHeld(sectors, info, ChainOf(file), file.position, []);
      assert buffer[..0] == [];
      if !mounted {
        return FS_NOT_MOUNTED, 0;
      }
      if file.IsDirectory() {
        return FS_ERROR, 0;
      }
      if file.position >= file.size {
        return 0, 0;
      }
      var wanted := if file.position + size > file.size then file.size - file.position else size;
      var n := ReadBody(file, buffer, wanted);
      count := n;
      r := AsInt(n);
      PartOnDisk(file, file.position - count, buffer[..count]);
    }

    /** fs_read after its checks: walk to the cluster of the position, and read. */
    method ReadBody(file: File, buffer: array<byte>, wanted: nat) returns (n: nat)
      requires Valid() && Handle(file) && wanted <= buffer.Length
      requires file.position < file.size && file.position + wanted <= file.size
      modifies buffer, file`position
      ensures Handle(file) && file.position == old(file.position) + n
      ensures n == if old(file.position) + info.ClusterBytes() >= TWO_32 then 0 else wanted
      ensures buffer[..n] == Text(file)[old(file.position)..old(file.position) + n]
      ensures buffer[n..] == old(buffer[n..])
    {
      hide Volume, Info.Fits, Info.StartOf, Info.ClusterBytes, TableOf, Sectors, InRange, IsChain;
      HandleFits(file);
      BytesOfClusters(info, |ChainOf(file)|);
      var cluster, k := SkipForRead(file.position, file.cluster);
      if cluster >= EOC {
        return 0;
      }
      var bytesLeft := ReadClusters(file, buffer, wanted, cluster, k);
      n := wanted - bytesLeft;
    }

    lemma SmallInt(x: nat)
      ensures x < 0x8000_0000 ==> AsInt(x) == x
    {
    }

    // ---------- fs_write ----------

    /** The file's first cluster, newly allocated if it has none; 0 if none is free. */
    method FirstCluster(file: File) returns (cluster: nat)
      requires mounted && Valid() && Handle(file)
      modifies this`sectors, this`chains, file`cluster, file`currentCluster
      ensures cluster == file.cluster && (old(file.cluster) != 0 ==> cluster == old(file.cluster))
      ensures cluster == 0 || old(file.cluster) != 0 ==> sectors == old(sectors) && chains == old(chains)
      ensures cluster == 0 ==> Full(sectors, info) && file.position == info.StartOf(|old(ChainOf(file))|)
      ensures cluster != 0 ==> Progress(old(sectors), info, old(chains), old(ChainOf(file)), cluster, sectors, chains,
                                        file.position, [])
      ensures cluster != 0 ==> cluster in chains && file.position <= info.StartOf(|chains[cluster]|)
      ensures cluster != 0 && old(file.cluster) != 0 ==> chains[cluster] == old(ChainOf(file))
      ensures cluster != 0 && old(file.cluster) == 0 ==>
                !Full(old(sectors), info) && file.position < info.StartOf(|chains[cluster]|)
    {
      hide TableOf, FatBecomes, Info.StartOf, Progress;
      HandleFits(file);
      StartNext(info, 0);
      cluster := file.cluster;
      if cluster == 0 {
        cluster := AllocateCluster();
        if cluster != 0 {
          BeginEmpty(old(sectors), info, chains, cluster, sectors);
          chains := chains[cluster := [cluster]];
          file.cluster := cluster;
          file.currentCluster := cluster;
          ProgressVolume(old(sectors), info, old(chains), [], cluster, sectors, chains, 0, []);
        }
      } else {
        Begin(sectors, info, chains, cluster, file.position);
      }
    }

    /** The cluster of the position to write at, made if necessary; 0 if there is none. */
    method FindPlace(file: File, ghost d0: Disk, ghost cs0: map<nat, Chain>, ghost ch0: Chain)
      returns (cluster: nat, ghost k: nat)
      requires mounted && Valid() && Handle(file) && file.position < TWO_32
      requires d0 == sectors && cs0 == chains && ch0 == ChainOf(file)
      modifies this`sectors, this`chains, file`cluster, file`currentCluster
      ensures old(file.cluster) != 0 ==> file.cluster == old(file.cluster)
      ensures cluster == 0 ==> Full(sectors, info)
      ensures file.cluster == 0 ==> cluster == 0 && sectors == d0 && chains == cs0
      ensures file.cluster != 0 ==> Progress(d0, info, cs0, ch0, file.cluster, sectors, chains, file.position, [])
      ensures cluster != 0 ==>
                file.cluster in chains && k < |chains[file.cluster]| && chains[file.cluster][k] == cluster
                && info.StartOf(k) <= file.position < info.StartOf(k + 1)
      ensures cluster == 0 <==> NoPlace(file.position, d0, ch0)
    {
      assert file.cluster == 0 || file.cluster in chains;
      hide Progress, Volume, Info.Fits, Info.StartOf, Info.ClusterBytes, Full, InRange, ChainText, TableOf, IsChain,
           Valid, Handle;
      k := 0;
      cluster := FirstCluster(file);
      if cluster != 0 {
        cluster, k := SkipForWrite(file.position, cluster, d0, cs0, ch0);
      }
    }

    /**
     * Where fs_write finds no cluster to write to: in the last cluster below 4 GiB, or behind the chain on a full disk.
     */
    ghost predicate NoPlace(position: nat, d0: Disk, ch0: Chain)
      reads this
    {
      position + info.ClusterBytes() >= TWO_32 || (Full(d0, info) && position == info.StartOf(|ch0|))
    }

    /** fs_write after its checks: find or make the first cluster, walk, and write. */
    method WriteBody(file: File, buf: seq<byte>) returns (ok: bool, bytesLeft: nat)
      requires mounted && Valid() && Handle(file)
      modifies this`sectors, this`chains, file`cluster, file`currentCluster, file`position
      ensures old(file.cluster) != 0 ==> file.cluster == old(file.cluster)
      ensures bytesLeft <= |buf|
      ensures file.position == if ok then Low32(old(file.position) + |buf| - bytesLeft) else old(file.position)
      ensures !ok || bytesLeft > 0 ==> Full(sectors, info)
      ensures file.cluster == 0 ==> !ok && sectors == old(sectors) && chains == old(chains)
      ensures file.cluster != 0 ==>
                Progress(old(sectors), info, old(chains), old(ChainOf(file)), file.cluster, sectors, chains,
                         old(file.position), buf[..if ok then |buf| - bytesLeft else 0])
      ensures bytesLeft > 0 && ok ==>
                file.cluster in chains
                && old(file.position) + |buf| - bytesLeft == info.StartOf(|chains[file.cluster]|)
      ensures !ok <==> old(file.position) + info.ClusterBytes() >= TWO_32
                       || (old(Full(sectors, info)) && old(file.position == info.StartOf(|ChainOf(file)|)))
    {
      hide Progress, Volume, Info.Fits, Info.StartOf, Info.ClusterBytes, Full, InRange, ChainText, TableOf, IsChain;
      ghost var d0, cs0, ch0, pos := sectors, chains, ChainOf(file), file.position;
      assert buf[..0] == [];
      bytesLeft := |buf|;
      var cluster;
      ghost var k;
      cluster, k := FindPlace(file, d0, cs0, ch0);
      ok := cluster != 0;
      if ok {
        bytesLeft := WriteClusters(file, buf, file.cluster, cluster, k, d0, cs0, ch0, pos);
        ProgressVolume(d0, info, cs0, ch0, file.cluster, sectors, chains, pos, buf[..|buf| - bytesLeft]);
      }
    }

    /**
     * Writes `buf` at the file's position, `count` bytes of it, and returns their number as an int. The file is
     * spliced; the write is short only when no cluster is free, and fails with the contents unchanged exactly when the
     * position needs a new cluster and none is free, or when it lies in the last cluster below 4 GiB.
     *
     * At 4 GiB the position wraps around, and with it the new size: the bytes written from there on are behind the end
     * of the file. The contents are the splice exactly if what was written ends below 4 GiB.
     */
    method FsWrite(file: File, buf: seq<byte>) returns (r: int, ghost failed: bool, ghost count: nat)
      requires Valid() && Handle(file)
      modifies this`sectors, this`chains, file
      ensures r == if !failed then AsInt(count) else if mounted then FS_ERROR else FS_NOT_MOUNTED
      ensures !mounted || old(file.IsDirectory()) ==> failed && unchanged(this) && unchanged(file)
      ensures Valid() && Handle(file) && file.flags == old(file.flags)
      ensures failed ==> file.position == old(file.position) && Text(file) == old(Text(file))
      ensures !failed ==> count <= |buf| && file.position == Low32(old(file.position) + count)
                          && file.size == (if file.position > old(file.size) then file.position else old(file.size))
                          && file.size <= |Splice(old(Text(file)), old(file.position), buf[..count])|
                          && Text(file) == Splice(old(Text(file)), old(file.position), buf[..count])[..file.size]
      ensures !failed ==> (Text(file) == Splice(old(Text(file)), old(file.position), buf[..count]) <==>
                             old(file.position) + count < TWO_32)
      ensures !failed ==> HoldsAll(sectors, info, ChainOf(file), old(file.position), buf[..count])
      ensures HoldsAll(sectors, info, ChainOf(file), 0, Text(file))
      ensures !failed && count < |buf| ==>
                Full(sectors, info) && old(file.position) + count == info.StartOf(|ChainOf(file)|)
      ensures mounted && !old(file.IsDirectory()) ==>
                (failed <==> old(file.position) + info.ClusterBytes() >= TWO_32
                             || (old(Full(sectors, info)) && old(file.position == info.StartOf(|ChainOf(file)|))))
      ensures failed && mounted && !old(file.IsDirectory()) ==> Full(sectors, info)
      ensures forall a :: a in old(chains) && a != file.cluster ==>
                a in chains && chains[a] == old(chains)[a] && BytesOf(a) == old(BytesOf(a))
      ensures old(file.cluster) != 0 ==> file.cluster == old(file.cluster)
      ensures old(ChainOf(file)) <= ChainOf(file)
      ensures mounted && !old(file.IsDirectory()) ==>
                HighBitsKept(old(sectors), sectors, info)
                && FreeSet(Fat()) == old(FreeSet(Fat())) - Elements(ChainOf(file))
    {
      hide Volume, Progress, Info.Fits, Info.StartOf, Info.ClusterBytes, TableOf, Full, InRange, ChainText, IsChain,
           HighBitsKept, FreeSet, AsInt, Splice, Elements, Low32, HoldsAll;
      count := 0;
      failed := true;
      TextOnDisk(file);
      if !mounted {
        return FS_NOT_MOUNTED, true, 0;
      }
      if file.IsDirectory() {
        return FS_ERROR, true, 0;
      }
      HandleFits(file);
      NothingWritten();
      ghost var d0, cs0, ch0, pos := sectors, chains, ChainOf(file), file.position;
      var ok, bytesLeft := WriteBody(file, buf);
      ghost var data := buf[..if ok then |buf| - bytesLeft else 0];
      if file.cluster != 0 {
        WriteDone(file, d0, cs0, ch0, pos, data);
        DataHeld(d0, info, cs0, ch0, file.cluster, sectors, chains, pos, data);
      }
      if !ok {
        SpliceNothing(old(Text(file)), pos);
        TextOnDisk(file);
        return FS_ERROR, true, 0;
      }
      Low32Below(pos + |data|);
      if file.position > file.size {
        file.size := file.position;
      }
      count, failed := |buf| - bytesLeft, false;
      r := AsInt(|buf| - bytesLeft);
      TextOnDisk(file);
    }

    /** From the state reached at the end of a write to what it means. */
    lemma WriteDone(file: File, d0: Disk, cs0: map<nat, Chain>, ch0: Chain, pos: nat, data: seq<byte>)
      requires Progress(d0, info, cs0, ch0, file.cluster, sectors, chains, pos, data)
      requires pos <= file.size <= info.StartOf(|ch0|)
      ensures Valid() && file.cluster in chains && ch0 <= chains[file.cluster]
      ensures InRange(info, ch0) && InRange(info, chains[file.cluster]) && info.Fits(|d0|)
      ensures var size' := if pos + |data| > file.size then pos + |data| else file.size;
              size' <= info.StartOf(|chains[file.cluster]|)
              && forall n: nat :: n <= size' ==>
                   ChainText(sectors, info, chains[file.cluster], n)
                   == Splice(ChainText(d0, info, ch0, file.size), pos, data)[..n]
      ensures forall a :: a in cs0 && a != file.cluster ==>
                a in chains && chains[a] == cs0[a] && InRange(info, cs0[a])
                && ChainText(sectors, info, chains[a], info.StartOf(|chains[a]|))
                   == ChainText(d0, info, cs0[a], info.StartOf(|cs0[a]|))
      ensures FreeSet(TableOf(sectors, info)) == FreeSet(TableOf(d0, info)) - Elements(chains[file.cluster])
      ensures HighBitsKept(d0, sectors, info)
    {
      hide Written, TouchesOnly, Good, HighBitsKept, FreeSet, TableOf, Sectors, InRange, ChainText, Info.StartOf;
      Finish(d0, info, cs0, ch0, file.cluster, sectors, chains, pos, data, file.size);
      var size' := if pos + |data| > file.size then pos + |data| else file.size;
      forall n: nat | n <= size'
        ensures ChainText(sectors, info, chains[file.cluster], n)
             == Splice(ChainText(d0, info, ch0, file.size), pos, data)[..n]
      {
        ChainPrefix(sectors, info, chains[file.cluster], n, size');
      }
      forall a | a in cs0 && a != file.cluster
        ensures a in chains && chains[a] == cs0[a] && InRange(info, cs0[a])
                && ChainText(sectors, info, chains[a], info.StartOf(|chains[a]|))
                   == ChainText(d0, info, cs0[a], info.StartOf(|cs0[a]|))
      {
        ChainFits(d0, info, cs0, a);
        OtherFile(d0, info, cs0, ch0, file.cluster, sectors, chains, pos, data, a, info.StartOf(|cs0[a]|));
      }
    }

    lemma NothingWritten()
      requires Valid()
      ensures HighBitsKept(sectors, sectors, info) && Elements([]) == {}
    {
    }

    // ---------- fs_seek ----------

    method FsSeek(file: File, position: nat) returns (r: int)
      requires Valid() && Handle(file) && position < TWO_32
      modifies file`position
      ensures r == (if mounted then FS_SUCCESS else FS_NOT_MOUNTED)
      ensures Handle(file) && Text(file) == old(Text(file))
      ensures file.position == if !mounted then old(file.position)
                               else if position > file.size then file.size else position
    {
      hide Volume, InRange, ChainText, Info.Fits;
      if !mounted {
        return FS_NOT_MOUNTED;
      }
      var target := position;
      if target > file.size {
        target := file.size;
      }
      file.position := target;
      r := FS_SUCCESS;
    }

    // ---------- laws over several calls ----------

    /**
     * Writing, seeking back and reading as many bytes returns the bytes that were written, also when the write was
     * short; all of them exactly if they end below 4 GiB.
     */
    method WriteThenRead(file: File, buf: seq<byte>, out: array<byte>)
      returns (n: int, m: int, ghost failed: bool, ghost count: nat, ghost got: nat)
      requires Valid() && Handle(file) && mounted && !file.IsDirectory()
      requires |buf| <= out.Length && file.position + |buf| < TWO_64
      modifies this`sectors, this`chains, file, out
      ensures Valid() && Handle(file)
      ensures !failed ==> n == AsInt(count) && m == AsInt(got) && got <= count <= |buf| && out[..got] == buf[..got]
                          && file.position == old(file.position) + got
      ensures !failed ==> (got == count <==> old(file.position) + count < TWO_32)
      ensures old(file.position + info.ClusterBytes()) < TWO_32 && old(!Full(sectors, info)) ==> !failed
    {
      hide Volume, InRange, ChainText, Info.Fits, Info.StartOf, Info.ClusterBytes, Full, HighBitsKept, FreeSet, TableOf,
           AsInt, Elements, Low32;
      ghost var was, pos := Text(file), file.position;
      var back := file.position;
      n, failed, count := FsWrite(file, buf);
      Low32Below(pos + count);
      var _ := FsSeek(file, back);
      m, got := FsRead(file, out, |buf|);
      if !failed {
        SplicedPart(was, pos, buf, count, file.size, got);
      }
    }

    lemma SplicedPart(s: seq<byte>, pos: nat, buf: seq<byte>, count: nat, size: nat, got: nat)
      requires pos <= |s| && count <= |buf| && got <= count && pos + got <= size
      requires size <= |Splice(s, pos, buf[..count])|
      ensures Splice(s, pos, buf[..count])[..size][pos..pos + got] == buf[..got]
    {
      var t := Splice(s, pos, buf[..count]);
      var u := t[..size][pos..pos + got];
      forall i | 0 <= i < got ensures u[i] == buf[i] {
        assert u[i] == t[pos + i];
      }
      assert u == buf[..got];
    }

    /** Two writes in a row that are not short and end below 4 GiB leave the contents that one write of both would. */
    method WriteInTwo(file: File, a: seq<byte>, b: seq<byte>) returns (n: int, m: int, ghost whole: bool)
      requires Valid() && Handle(file) && mounted && !file.IsDirectory()
      modifies this`sectors, this`chains, file
      ensures Valid() && Handle(file)
      ensures whole && old(file.position) + |a| + |b| < TWO_32 ==>
                Text(file) == Splice(old(Text(file)), old(file.position), a + b)
      ensures |a| + |b| < 0x8000_0000 && n == |a| && m == |b| ==> whole
    {
      hide Volume, InRange, ChainText, Info.Fits, Info.StartOf, Info.ClusterBytes, Full, HighBitsKept, FreeSet, TableOf,
           AsInt, Elements, Splice, Low32;
      ghost var was, pos := Text(file), file.position;
      ghost var failed, count, failed', count';
      n, failed, count := FsWrite(file, a);
      m, failed', count' := FsWrite(file, b);
      whole := !failed && !failed' && count == |a| && count' == |b|;
      Low32Below(pos + count);
      SmallInt(count);
      SmallInt(count');
      if whole && pos + |a| + |b| < TWO_32 {
        SplicedTwice(was, pos, a, b, count, count');
      }
    }

    lemma SplicedTwice(s: seq<byte>, pos: nat, a: seq<byte>, b: seq<byte>, m: nat, n: nat)
      requires pos <= |s| && m == |a| && n == |b|
      ensures Splice(Splice(s, pos, a[..m]), pos + m, b[..n]) == Splice(s, pos, a + b)
    {
      assert a[..m] == a && b[..n] == b;
      SpliceSplice(s, pos, a, b);
    }
  }
}
