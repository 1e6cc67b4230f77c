/** Little-endian words stored in byte buffers, as the kernel's pointer casts read and write them. */
module Bytes {

  type byte = x: int | 0 <= x < 256

  const TWO_28: int := 0x1000_0000
  const TWO_32: int := 0x1_0000_0000
  const TWO_64: int := 0x1_0000_0000_0000_0000

  /** The conversion of an unsigned value to a 32-bit int. */
  function AsInt(x: nat): int {
    var low := x % TWO_32;
    if low < 0x8000_0000 then low else low - TWO_32
  }

  /** It is the int that is equal to the value modulo 2^32. */
  lemma AsIntIs(x: nat)
    ensures -0x8000_0000 <= AsInt(x) < 0x8000_0000 && (x - AsInt(x)) % TWO_32 == 0
    ensures AsInt(x) == x <==> x < 0x8000_0000
  {
  }

  /** The conversion to a uint32_t. */
  function Low32(x: nat): (r: nat)
    ensures r < TWO_32 && (x < TWO_32 ==> r == x)
  {
    x % TWO_32
  }

  lemma Low32Below(x: nat)
    ensures Low32(x) <= x && (Low32(x) == x <==> x < TWO_32)
  {
  }

  lemma Low32Add(x: nat, n: nat)
    ensures Low32(Low32(x) + n) == Low32(x + n)
  {
  }

  /** `*(uint32_t*)(s + at)` */
  function U32At(s: seq<byte>, at: nat): (v: nat)
    requires at + 4 <= |s|
    ensures v < TWO_32
  {
    s[at] as int + 0x100 * s[at + 1] as int + 0x1_0000 * s[at + 2] as int + 0x100_0000 * s[at + 3] as int
  }

  /** `*(uint32_t*)(s + at) = v` */
  function PutU32(s: seq<byte>, at: nat, v: nat): (t: seq<byte>)
    requires at + 4 <= |s| && v < TWO_32
    ensures |t| == |s|
  {
    s[at := v % 0x100][at + 1 := v / 0x100 % 0x100][at + 2 := v / 0x1_0000 % 0x100][at + 3 := v / 0x100_0000]
  }

  /** A stored word reads back, and every byte outside its four keeps its value. */
  lemma PutU32Get(s: seq<byte>, at: nat, v: nat)
    requires at + 4 <= |s| && v < TWO_32
    ensures U32At(PutU32(s, at, v), at) == v
    ensures forall i :: 0 <= i < |s| && !(at <= i < at + 4) ==> PutU32(s, at, v)[i] == s[i]
  {
    var t := PutU32(s, at, v);
    var b0, b1, b2, b3 := v % 0x100, v / 0x100 % 0x100, v / 0x1_0000 % 0x100, v / 0x100_0000;
    assert v / 0x100 == b1 + 0x100 * (v / 0x1_0000);
    assert v / 0x1_0000 == b2 + 0x100 * b3;
    assert t[at] == b0 && t[at + 1] == b1 && t[at + 2] == b2 && t[at + 3] == b3;
  }

  /** `*(uint64_t*)(s + at)` */
  function U64At(s: seq<byte>, at: nat): (v: nat)
    requires at + 8 <= |s|
    ensures v < TWO_64
  {
    U32At(s, at) + TWO_32 * U32At(s, at + 4)
  }

  /** `*(uint64_t*)(s + at) = v` */
  function PutU64(s: seq<byte>, at: nat, v: nat): (t: seq<byte>)
    requires at + 8 <= |s| && v < TWO_64
    ensures |t| == |s|
  {
    PutU32(PutU32(s, at, v % TWO_32), at + 4, v / TWO_32)
  }

  lemma PutU64Get(s: seq<byte>, at: nat, v: nat)
    requires at + 8 <= |s| && v < TWO_64
    ensures U64At(PutU64(s, at, v), at) == v
    ensures forall i :: 0 <= i < |s| && !(at <= i < at + 8) ==> PutU64(s, at, v)[i] == s[i]
  {
    var lo := PutU32(s, at, v % TWO_32);
    PutU32Get(s, at, v % TWO_32);
    PutU32Get(lo, at + 4, v / TWO_32);
    var t := PutU64(s, at, v);
    assert forall i :: at <= i < at + 4 ==> t[i] == lo[i];
  }

  /** The number that `n` bytes from `at` on stand for, the least significant first. */
  ghost function LittleEndian(s: seq<byte>, at: nat, n: nat): nat
    requires at + n <= |s|
    decreases n
  {
    if n == 0 then 0 else s[at] + 0x100 * LittleEndian(s, at + 1, n - 1)
  }

  lemma WordsAreLittleEndian(s: seq<byte>, at: nat)
    ensures at + 4 <= |s| ==> U32At(s, at) == LittleEndian(s, at, 4)
    ensures at + 8 <= |s| ==> U64At(s, at) == LittleEndian(s, at, 8)
  {
    if at + 4 <= |s| {
      FourBytes(s, at);
    }
    if at + 8 <= |s| {
      FourBytes(s, at + 4);
      var high := LittleEndian(s, at + 4, 4);
      assert LittleEndian(s, at, 8)
          == s[at] + 0x100 * (s[at + 1] + 0x100 * (s[at + 2] + 0x100 * (s[at + 3] + 0x100 * high)));
    }
  }

  lemma FourBytes(s: seq<byte>, at: nat)
    requires at + 4 <= |s|
    ensures U32At(s, at) == LittleEndian(s, at, 4)
  {
    assert LittleEndian(s, at + 3, 1) == s[at + 3] + 0x100 * LittleEndian(s, at + 4, 0);
    assert LittleEndian(s, at + 2, 2) == s[at + 2] + 0x100 * LittleEndian(s, at + 3, 1);
    assert LittleEndian(s, at + 1, 3) == s[at + 1] + 0x100 * LittleEndian(s, at + 2, 2);
  }

  method StoreU32(a: array<byte>, at: nat, v: nat)
    requires at + 4 <= a.Length && v < TWO_32
    modifies a
    ensures a[..] == PutU32(old(a[..]), at, v)
  {
    a[at] := v % 0x100;
    a[at + 1] := v / 0x100 % 0x100;
    a[at + 2] := v / 0x1_0000 % 0x100;
    a[at + 3] := v / 0x100_0000;
  }

  method StoreU64(a: array<byte>, at: nat, v: nat)
    requires at + 8 <= a.Length && v < TWO_64
    modifies a
    ensures a[..] == PutU64(old(a[..]), at, v)
  {
    StoreU32(a, at, v % TWO_32);
    StoreU32(a, at + 4, v / TWO_32);
  }
}
