/** Cluster chains as the values of one FAT: `fat[c]` is the 28-bit entry of cluster `c`. */
module Chains {
  const EOC: nat := 0x0FFF_FFF8

  type Table = seq<nat>
  type Chain = seq<nat>

  /** The end marks are the eight highest values of an entry. */
  lemma EndMarks(v: nat)
    requires v < 0x1000_0000
    ensures v >= EOC <==> 0x1000_0000 - v <= 8
  {
  }

  /** A nonempty list of clusters in range, each entry naming the next one and the last one an end mark. */
  ghost predicate IsChain(fat: Table, ch: Chain) {
    && |ch| > 0
    && (forall i :: 0 <= i < |ch| ==> 2 <= ch[i] < |fat|)
    && (forall i :: 0 <= i < |ch| - 1 ==> fat[ch[i]] == ch[i + 1])
    && fat[ch[|ch| - 1]] >= EOC
  }

  /** No cluster occurs twice, neither in one chain nor in two. */
  ghost predicate Separate(cs: map<nat, Chain>) {
    forall a, b, i, j ::
      a in cs && b in cs && 0 <= i < |cs[a]| && 0 <= j < |cs[b]| && cs[a][i] == cs[b][j] ==> a == b && i == j
  }

  ghost predicate Good(fat: Table, cs: map<nat, Chain>) {
    && |fat| <= EOC - 1
    && (forall a :: a in cs ==> IsChain(fat, cs[a]) && cs[a][0] == a)
    && Separate(cs)
  }

  predicate IsFree(fat: Table, c: nat) {
    2 <= c < |fat| && fat[c] == 0
  }

  ghost predicate NoneFree(fat: Table) {
    forall c :: 2 <= c < |fat| ==> fat[c] != 0
  }

  ghost function FreeSet(fat: Table): set<nat> {
    set c: nat | c < |fat| && IsFree(fat, c)
  }

  /** A cluster is free only outside every chain. */
  lemma FreeIsOutside(fat: Table, ch: Chain, c: nat)
    requires |fat| <= EOC - 1 && IsChain(fat, ch) && IsFree(fat, c)
    ensures c !in ch
  {
    if i :| 0 <= i < |ch| && ch[i] == c {
      assert fat[ch[i]] == 0;
      assert i < |ch| - 1 ==> ch[i + 1] == 0;
    }
  }

  /** The FAT alone determines a chain from its first cluster, so following it never loops. */
  lemma {:induction false} ChainUnique(fat: Table, a: Chain, b: Chain)
    requires |fat| <= EOC - 1 && IsChain(fat, a) && IsChain(fat, b) && a[0] == b[0]
    ensures a == b
  {
    FirstEntry(fat, a);
    FirstEntry(fat, b);
    if |a| > 1 && |b| > 1 {
      Tail(fat, a);
      Tail(fat, b);
      ChainUnique(fat, a[1..], b[1..]);
      assert a == [a[0]] + a[1..] && b == [b[0]] + b[1..];
    }
  }

  lemma FirstEntry(fat: Table, ch: Chain)
    requires |fat| <= EOC - 1 && IsChain(fat, ch)
    ensures if |ch| > 1 then fat[ch[0]] == ch[1] < EOC else fat[ch[0]] >= EOC
  {
  }

  lemma Tail(fat: Table, ch: Chain)
    requires IsChain(fat, ch) && |ch| > 1
    ensures IsChain(fat, ch[1..])
  {
    var t := ch[1..];
    forall i | 0 <= i < |t| - 1 ensures fat[t[i]] == t[i + 1] {
      assert fat[ch[i + 1]] == ch[i + 2];
    }
  }

  /** Marking a free cluster as an end leaves every chain as it was. */
  lemma AllocateKeeps(fat: Table, cs: map<nat, Chain>, n: nat)
    requires Good(fat, cs) && IsFree(fat, n)
    ensures Good(fat[n := EOC], cs)
    ensures forall a, i :: a in cs && 0 <= i < |cs[a]| ==> cs[a][i] != n
  {
    forall a | a in cs ensures IsChain(fat[n := EOC], cs[a]) && n !in cs[a] {
      FreeIsOutside(fat, cs[a], n);
    }
  }

  /** A freshly allocated cluster is a chain of its own. */
  lemma AllocateStarts(fat: Table, cs: map<nat, Chain>, n: nat)
    requires Good(fat, cs) && IsFree(fat, n)
    ensures n !in cs
    ensures Good(fat[n := EOC], cs[n := [n]])
    ensures FreeSet(fat[n := EOC]) == FreeSet(fat) - {n}
  {
    AllocateKeeps(fat, cs, n);
    assert forall a :: a in cs ==> cs[a][0] != n;
    FreeAllocated(fat, n);
    hide FreeSet;
  }

  lemma FreeAllocated(fat: Table, n: nat)
    requires IsFree(fat, n)
    ensures FreeSet(fat[n := EOC]) == FreeSet(fat) - {n}
  {
  }

  lemma GrowSeparate(cs: map<nat, Chain>, a: nat, n: nat)
    requires Separate(cs) && a in cs
    requires forall b, i :: b in cs && 0 <= i < |cs[b]| ==> cs[b][i] != n
    ensures Separate(cs[a := cs[a] + [n]])
  {
    var cs' := cs[a := cs[a] + [n]];
    forall b, c, i, j |
      b in cs' && c in cs' && 0 <= i < |cs'[b]| && 0 <= j < |cs'[c]| && cs'[b][i] == cs'[c][j]
      ensures b == c && i == j
    {
      if i < |cs[b]| {
        assert cs'[b][i] == cs[b][i];
      }
      if j < |cs[c]| {
        assert cs'[c][j] == cs[c][j];
      }
    }
  }

  lemma LinkChain(fat: Table, ch: Chain, n: nat)
    requires |fat| <= EOC - 1 && IsChain(fat, ch) && IsFree(fat, n)
    requires forall i :: 0 <= i < |ch| - 1 ==> ch[i] != ch[|ch| - 1]
    ensures ch[|ch| - 1] != n
    ensures IsChain(fat[n := EOC][ch[|ch| - 1] := n], ch + [n])
  {
    FreeIsOutside(fat, ch, n);
    var last := ch[|ch| - 1];
    var fat', ch' := fat[n := EOC][last := n], ch + [n];
    forall i | 0 <= i < |ch'| - 1 ensures fat'[ch'[i]] == ch'[i + 1] {
      assert ch'[i] == ch[i] && ch[i] != n;
    }
  }

  function Last(ch: Chain): nat {
    if ch == [] then 0 else ch[|ch| - 1]
  }

  function Put(fat: Table, c: nat, v: nat): (t: Table)
    ensures |t| == |fat|
  {
    if c < |fat| then fat[c := v] else fat
  }

  /** The table after `n` is marked as an end and then linked behind the last cluster of `ch`. */
  function Linked(fat: Table, ch: Chain, n: nat): Table {
    Put(Put(fat, n, EOC), Last(ch), n)
  }

  /** Allocating a cluster and linking it makes one chain longer and changes no other. */
  lemma LinkExtends(fat: Table, cs: map<nat, Chain>, a: nat, n: nat)
    requires Good(fat, cs) && IsFree(fat, n) && a in cs
    ensures Last(cs[a]) < |fat| && Last(cs[a]) != n
    ensures Good(Linked(fat, cs[a], n), cs[a := cs[a] + [n]])
    ensures FreeSet(Linked(fat, cs[a], n)) == FreeSet(fat) - {n}
  {
    AllocateKeeps(fat, cs, n);
    var ch := cs[a];
    var last := Last(ch);
    var fat' := Linked(fat, ch, n);
    LinkChain(fat, ch, n);
    GrowSeparate(cs, a, n);
    forall b | b in cs && b != a ensures IsChain(fat', cs[b]) {
      assert forall i :: 0 <= i < |cs[b]| ==> cs[b][i] != last && cs[b][i] != n;
    }
    assert fat[last] != 0;
    assert FreeSet(fat') == FreeSet(fat) - {n};
  }
}
