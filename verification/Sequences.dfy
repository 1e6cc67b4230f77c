/** The elements of a list of numbers: the clusters of a chain, or the slots of processes. */
module Sequences {
  ghost function Elements(s: seq<nat>): set<nat> {
    set i: nat | i < |s| :: s[i]
  }

  lemma ElementsCons(x: nat, s: seq<nat>)
    ensures Elements([x] + s) == {x} + Elements(s)
  {
    var t := [x] + s;
    assert t[0] == x && forall i :: 0 <= i < |s| ==> t[i + 1] == s[i];
    forall y | y in Elements(s) ensures y in Elements(t) {
      var i :| 0 <= i < |s| && s[i] == y;
      assert t[i + 1] == y;
    }
  }

  lemma ElementsGrow(s: seq<nat>, n: nat)
    ensures Elements(s + [n]) == Elements(s) + {n}
  {
    var t := s + [n];
    assert t[|s|] == n && forall i :: 0 <= i < |s| ==> t[i] == s[i];
    forall y | y in Elements(s) ensures y in Elements(t) {
      var i :| 0 <= i < |s| && s[i] == y;
      assert t[i] == y;
    }
  }
}
