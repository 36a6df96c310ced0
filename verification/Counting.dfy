/** Facts about finite sequences, sets and maps that several parts use. */
module Counting {

  ghost predicate NoRepeat(s: seq<nat>) {
    forall i, j :: 0 <= i < j < |s| ==> s[i] != s[j]
  }

  /** A sequence without repetition is no longer than a set that holds its elements. */
  lemma {:induction false} Pigeons(q: seq<nat>, s: set<nat>)
    requires NoRepeat(q) && forall k :: 0 <= k < |q| ==> q[k] in s
    ensures |q| <= |s|
  {
    if q != [] {
      var last := q[|q| - 1];
      Pigeons(q[..|q| - 1], s - {last});
    }
  }

  function Below(n: nat): (s: set<nat>)
    ensures |s| == n && forall k: nat :: k in s <==> k < n
  {
    if n == 0 then {} else Below(n - 1) + {n - 1}
  }

  /** `n` distinct numbers below `n` are all of them. */
  lemma Covers(q: seq<nat>, n: nat, b: nat)
    requires NoRepeat(q) && |q| == n && (forall k :: 0 <= k < |q| ==> q[k] < n) && b < n
    ensures b in q
  {
    if b !in q {
      Pigeons(q + [b], Below(n));
      assert false;
    }
  }

  lemma {:induction false} SubsetSize(a: set<nat>, b: set<nat>)
    requires a <= b
    ensures |a| <= |b|
  {
    assert b == a + (b - a);
  }

  lemma UnionSize(a: set<nat>, b: set<nat>)
    ensures |a + b| <= |a| + |b|
  {
    assert a + b == a + (b - a);
    SubsetSize(b - a, b);
  }

  /** `q` without its element `i`. */
  ghost function Without(q: seq<nat>, i: nat): seq<nat>
    requires i < |q|
  {
    q[..i] + q[i + 1..]
  }

  function Get<K(==)>(m: map<K, nat>, k: K): nat {
    if k in m then m[k] else 0
  }
}
