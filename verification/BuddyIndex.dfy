/** The node numbering of the buddy tree (kernel/buddy_kalloc.c).

    Node 1 is the root, the children of `v` are `2 * v` and `2 * v + 1`, and the
    `n` leaves are the nodes `n .. 2 * n - 1`, one per physical page. */
module BuddyIndex {

  function Pow2(k: nat): (r: nat)
    ensures r >= 1
  {
    if k == 0 then 1 else 2 * Pow2(k - 1)
  }

  /** The depth of node `v`: what `get_level` computes from the leading zeros. */
  function Level(v: nat): nat
    requires v >= 1
  {
    if v == 1 then 0 else 1 + Level(v / 2)
  }

  function Sibling(v: nat): (r: nat)
    requires v >= 2
    ensures r / 2 == v / 2 && r != v
  {
    if v % 2 == 0 then v + 1 else v - 1
  }

  /** Node `v` is `w` or one of its ancestors. */
  predicate Contains(v: nat, w: nat) {
    w >= v && (w == v || Contains(v, w / 2))
  }

  lemma ParentAndSibling(v: nat)
    requires v >= 2
    ensures Contains(v / 2, v) && !Contains(Sibling(v), v)
  {
    assert Sibling(v) > v / 2;
  }

  /** The first page of the block at `v`, and the page after its last. */
  function Lo(n: nat, v: nat): int
    requires v >= 1
    decreases n - v
  {
    if v >= n then v - n else Lo(n, 2 * v)
  }

  function Hi(n: nat, v: nat): int
    requires v >= 1
    decreases n - v
  {
    if v >= n then v - n + 1 else Hi(n, 2 * v + 1)
  }

  lemma {:induction false} LevelExact(v: nat, l: nat)
    requires v >= 1
    ensures Level(v) == l <==> Pow2(l) <= v < 2 * Pow2(l)
  {
    if v > 1 && l > 0 {
      LevelExact(v / 2, l - 1);
    }
  }

  lemma {:induction false} PowAdd(a: nat, b: nat)
    ensures Pow2(a + b) == Pow2(a) * Pow2(b)
  {
    if a > 0 {
      PowAdd(a - 1, b);
    }
  }

  lemma {:induction false} PowMono(a: nat, b: nat)
    requires a <= b
    ensures Pow2(a) <= Pow2(b)
  {
    if a < b {
      PowMono(a, b - 1);
    }
  }

  /** Two ancestors of one node are nested: blocks overlap only by containment. */
  lemma {:induction false} Nested(u: nat, v: nat, w: nat)
    requires Contains(u, w) && Contains(v, w)
    ensures Contains(u, v) || Contains(v, u)
  {
    if w != u && w != v {
      Nested(u, v, w / 2);
    }
  }

  lemma {:induction false} ContainsTrans(u: nat, v: nat, w: nat)
    requires Contains(u, v) && Contains(v, w)
    ensures Contains(u, w)
  {
    if w != v {
      ContainsTrans(u, v, w / 2);
    }
  }

  /** The pages under `v` are exactly the interval from `Lo` to `Hi`. */
  lemma {:induction false} PagesAreAnInterval(l: nat, v: nat, p: nat)
    requires 1 <= v < 2 * Pow2(l) && p < Pow2(l)
    ensures Contains(v, Pow2(l) + p) <==> Lo(Pow2(l), v) <= p < Hi(Pow2(l), v)
    decreases Pow2(l) - v
  {
    var n := Pow2(l);
    if v < n {
      PagesAreAnInterval(l, 2 * v, p);
      PagesAreAnInterval(l, 2 * v + 1, p);
      Adjacent(l, 2 * v);
      LoHi(l, 2 * v);
      LoHi(l, 2 * v + 1);
      ContainsDown(v, n + p);
    } else {
      LeafContains(n, v, n + p);
    }
  }

  lemma {:induction false} LeafContains(n: nat, v: nat, w: nat)
    requires n <= v && n <= w < 2 * n
    ensures Contains(v, w) <==> v == w
  {
    if w > v {
      assert w / 2 < n;
    }
  }

  /** An inner node contains what its two children contain, and itself. */
  lemma {:induction false} ContainsDown(v: nat, w: nat)
    requires v >= 1
    ensures Contains(v, w) <==> w == v || Contains(2 * v, w) || Contains(2 * v + 1, w)
  {
    if w > v {
      ContainsDown(v, w / 2);
      if w / 2 == v {
        assert w == 2 * v || w == 2 * v + 1;
      }
    }
  }

  lemma {:induction false} LoHi(l: nat, v: nat)
    requires v >= 1
    ensures Lo(Pow2(l), v) < Hi(Pow2(l), v)
    decreases Pow2(l) - v
  {
    if v < Pow2(l) {
      LoHi(l, 2 * v);
      LoHi(l, 2 * v + 1);
      Adjacent(l, 2 * v);
    }
  }

  /** A left child's pages end where its sibling's begin. */
  lemma {:induction false} Adjacent(l: nat, u: nat)
    requires u >= 1
    requires Level(u) == Level(u + 1)
    ensures Hi(Pow2(l), u) == Lo(Pow2(l), u + 1)
    decreases Pow2(l) - u
  {
    if u < Pow2(l) {
      LevelExact(u, l);
      LevelExact(u + 1, l);
      assert (2 * u + 1) / 2 == u && (2 * u + 2) / 2 == u + 1;
      Adjacent(l, 2 * u + 1);
    }
  }
}
