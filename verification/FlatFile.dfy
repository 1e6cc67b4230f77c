/** A file as one flat byte sequence over the list of disk sectors that hold it. */
module FlatFile {
  import opened Bytes

  const SECTOR: nat := 512

  type Sector = s: seq<byte> | |s| == SECTOR witness seq(SECTOR, _ => 0)
  type Disk = seq<Sector>

  ghost predicate OnDisk(d: Disk, ls: seq<nat>) {
    forall i :: 0 <= i < |ls| ==> ls[i] < |d|
  }

  ghost predicate Distinct(ls: seq<nat>) {
    forall i, j :: 0 <= i < |ls| && 0 <= j < |ls| && ls[i] == ls[j] ==> i == j
  }

  /** The byte at position `p` of the file. */
  ghost function ByteAt(d: Disk, ls: seq<nat>, p: nat): byte
    requires OnDisk(d, ls) && p < |ls| * SECTOR
  {
    d[ls[p / SECTOR]][p % SECTOR]
  }

  /** The contents of a file of `size` bytes. */
  ghost function Contents(d: Disk, ls: seq<nat>, size: nat): (s: seq<byte>)
    requires OnDisk(d, ls) && size <= |ls| * SECTOR
    ensures |s| == size
  {
    seq(size, p requires 0 <= p < size => ByteAt(d, ls, p))
  }

  /** `s` with `data` written over it at `pos`, growing when it reaches past the end. */
  ghost function Splice(s: seq<byte>, pos: nat, data: seq<byte>): (t: seq<byte>)
    requires pos <= |s|
    ensures |t| == if pos + |data| > |s| then pos + |data| else |s|
  {
    s[..pos] + data + if pos + |data| > |s| then [] else s[pos + |data|..]
  }

  lemma SpliceNothing(s: seq<byte>, pos: nat)
    requires pos <= |s|
    ensures Splice(s, pos, []) == s
  {
  }

  /** Writing `a` and then `b` behind it is writing `a + b`. */
  lemma SpliceSplice(s: seq<byte>, pos: nat, a: seq<byte>, b: seq<byte>)
    requires pos <= |s|
    ensures Splice(Splice(s, pos, a), pos + |a|, b) == Splice(s, pos, a + b)
  {
    var t := Splice(s, pos, a);
    assert t[..pos + |a|] == s[..pos] + a;
    if pos + |a| + |b| <= |s| {
      assert t[pos + |a| + |b|..] == s[pos + |a| + |b|..];
    }
  }

  /**
   * The list of sectors grew from `ls0` to `ls`; positions from `pos` on hold `data`, every other old position its old
   * byte.
   */
  ghost predicate Written(d0: Disk, ls0: seq<nat>, d: Disk, ls: seq<nat>, pos: nat, data: seq<byte>) {
    && OnDisk(d0, ls0) && OnDisk(d, ls)
    && ls0 <= ls
    && pos + |data| <= |ls| * SECTOR
    && (forall p :: pos <= p < pos + |data| ==> ByteAt(d, ls, p) == data[p - pos])
    && (forall p :: 0 <= p < |ls0| * SECTOR && !(pos <= p < pos + |data|) ==> ByteAt(d, ls, p) == ByteAt(d0, ls0, p))
  }

  lemma WrittenIsSplice(d0: Disk, ls0: seq<nat>, d: Disk, ls: seq<nat>, pos: nat, data: seq<byte>, size: nat)
    requires Written(d0, ls0, d, ls, pos, data)
    requires pos <= size <= |ls0| * SECTOR
    ensures var size' := if pos + |data| > size then pos + |data| else size;
            size' <= |ls| * SECTOR && Contents(d, ls, size') == Splice(Contents(d0, ls0, size), pos, data)
  {
  }

  /** New sectors at the end of the list change nothing that was written. */
  lemma WrittenGrows(d0: Disk, ls0: seq<nat>, d: Disk, ls: seq<nat>, pos: nat, data: seq<byte>, d': Disk,
                     more: seq<nat>)
    requires Written(d0, ls0, d, ls, pos, data)
    requires |d'| == |d| && OnDisk(d', more)
    requires forall i :: 0 <= i < |ls| ==> d'[ls[i]] == d[ls[i]]
    ensures Written(d0, ls0, d', ls + more, pos, data)
  {
    forall p | 0 <= p < |ls| * SECTOR ensures ByteAt(d', ls + more, p) == ByteAt(d, ls, p) {
      assert (ls + more)[p / SECTOR] == ls[p / SECTOR];
    }
  }

  /** One sector is rewritten with `more` copied in at `off`: the file has `more` behind what was written before. */
  lemma WrittenStep(d0: Disk, ls0: seq<nat>, d: Disk, ls: seq<nat>, pos: nat, data: seq<byte>,
                    i: nat, off: nat, more: seq<byte>, s: Sector)
    requires Written(d0, ls0, d, ls, pos, data) && Distinct(ls)
    requires i < |ls| && off + |more| <= SECTOR && pos + |data| == i * SECTOR + off
    requires var was := d[ls[i]]; s == was[..off] + more + was[off + |more|..]
    ensures Written(d0, ls0, d[ls[i] := s], ls, pos, data + more)
  {
    var d' := d[ls[i] := s];
    var at := i * SECTOR + off;
    forall p | 0 <= p < |ls| * SECTOR
      ensures ByteAt(d', ls, p) == if at <= p < at + |more| then more[p - at] else ByteAt(d, ls, p)
    {
      if p / SECTOR != i {
        assert ls[p / SECTOR] != ls[i];
      }
    }
  }

  /** Only sectors in `ls`, and those from `lo` up to `hi`, may have changed. */
  ghost predicate TouchesOnly(d0: Disk, d: Disk, ls: seq<nat>, lo: nat, hi: nat) {
    && |d| == |d0|
    && forall k :: 0 <= k < |d| && !(lo <= k < hi) && k !in ls ==> d[k] == d0[k]
  }

  /** A file that shares no sector with the written one, and has none in the FAT, keeps its contents. */
  lemma OthersKept(d0: Disk, d: Disk, ls: seq<nat>, lo: nat, hi: nat, other: seq<nat>, size: nat)
    requires TouchesOnly(d0, d, ls, lo, hi) && OnDisk(d0, other) && size <= |other| * SECTOR
    requires forall j :: 0 <= j < |other| ==> hi <= other[j] && other[j] !in ls
    ensures Contents(d, other, size) == Contents(d0, other, size)
  {
    forall p | 0 <= p < size ensures ByteAt(d, other, p) == ByteAt(d0, other, p) {
      assert other[p / SECTOR] !in ls;
    }
  }
}
