/** What the buddy allocator's loops do to the slots of the tree, as functions of
    the slot sequence, and the canonical trees they are meant to keep
    (kernel/buddy_kalloc.c). */
module BuddyTree {
  import opened BuddyIndex

  /** The two-bit states; the value 2 is never stored. */
  datatype Slot = Empty | Split | Reserved | Full

  /** `update_upstairs_alloc`: recompute every ancestor of `v`. */
  function UpAlloc(s: seq<Slot>, v: nat): (r: seq<Slot>)
    requires 1 <= v < |s| && |s| % 2 == 0
    ensures |r| == |s|
    decreases v
  {
    if v == 1 then s
    else
      var x := if s[Sibling(v)] == Full && s[v] == Full then Full else Split;
      UpAlloc(s[v / 2 := x], v / 2)
  }

  /** `update_upstairs_free`: as written, a SPLIT ancestor is merged when the
      child off the path is EMPTY, whatever the child on the path is. */
  function UpFree(s: seq<Slot>, v: nat): (r: seq<Slot>)
    requires 1 <= v < |s| && |s| % 2 == 0
    ensures |r| == |s|
    decreases v
  {
    if v == 1 then s
    else if s[v / 2] == Full then UpFree(s[v / 2 := Split], v / 2)
    else if s[v / 2] == Split then
      if s[Sibling(v)] == Empty then UpFree(s[v / 2 := Empty], v / 2) else s
    else UpFree(s, v / 2)
  }

  function AllocAt(s: seq<Slot>, v: nat): (r: seq<Slot>)
    requires 1 <= v < |s| && |s| % 2 == 0
    ensures |r| == |s|
  {
    UpAlloc(s[v := Full], v)
  }

  function FreeAt(s: seq<Slot>, v: nat): (r: seq<Slot>)
    requires 1 <= v < |s| && |s| % 2 == 0
    ensures |r| == |s|
  {
    UpFree(s[v := Empty], v)
  }

  /** The node `k` levels above `x`. */
  function Up(x: nat, k: nat): nat {
    if k == 0 then x else Up(x, k - 1) / 2
  }

  lemma {:induction false} UpHalf(x: nat, k: nat)
    ensures Up(x / 2, k) == Up(x, k) / 2
  {
    if k > 0 {
      UpHalf(x, k - 1);
    }
  }

  lemma {:induction false} UpLevel(x: nat, k: nat)
    requires x >= 1
    ensures Up(x, k) == 1 <==> Level(x) == k
    ensures Up(x, k) >= 1 <==> Level(x) >= k
  {
    if k > 0 {
      UpHalf(x, k - 1);
      if x > 1 {
        UpLevel(x / 2, k - 1);
      } else {
        UpOfZero(k - 1);
      }
    }
  }

  lemma {:induction false} UpOfZero(k: nat)
    ensures Up(0, k) == 0
  {
    if k > 0 {
      UpOfZero(k - 1);
    }
  }

  lemma {:induction false} UpContains(x: nat, k: nat)
    requires Up(x, k) >= 1
    ensures Contains(Up(x, k), x)
  {
    if k > 0 {
      UpContains(x, k - 1);
      var y := Up(x, k - 1);
      assert Contains(y / 2, y);
      ContainsTrans(y / 2, y, x);
    }
  }

  /** The `k` levels below `v` exist. */
  predicate Fits(size: nat, v: nat, k: nat)
    decreases k
  {
    && v < size
    && (k > 0 ==> 2 * v + 1 < size && Fits(size, 2 * v, k - 1) && Fits(size, 2 * v + 1, k - 1))
  }

  lemma {:induction false} FitsByLevel(l: nat, v: nat, k: nat)
    requires v >= 1 && Level(v) + k <= l
    ensures Fits(2 * Pow2(l), v, k)
    decreases k
  {
    LevelExact(v, Level(v));
    PowMono(Level(v), l);
    if k > 0 {
      assert (2 * v) / 2 == v && (2 * v + 1) / 2 == v;
      FitsByLevel(l, 2 * v, k - 1);
      FitsByLevel(l, 2 * v + 1, k - 1);
    }
  }

  /** The first node that `locate_free_block` settles on, `k` levels below `v`,
      written as a depth-first search; 0 when there is none. */
  function Search(s: seq<Slot>, v: nat, k: nat): (w: nat)
    requires 1 <= v && Fits(|s|, v, k)
    ensures w != 0 ==> w < |s| && s[w] == Empty && Up(w, k) == v
    decreases k
  {
    if s[v] == Full then 0
    else if k == 0 then if s[v] == Empty then v else 0
    else if s[v] == Empty then Search(s, 2 * v, k - 1)
    else if s[v] == Reserved then 0
    else if s[2 * v] == Split && s[2 * v + 1] == Split then
      var w := Search(s, 2 * v, k - 1);
      if w != 0 then w else Search(s, 2 * v + 1, k - 1)
    else if s[2 * v] == Empty then Search(s, 2 * v, k - 1)
    else if s[2 * v + 1] == Empty then Search(s, 2 * v + 1, k - 1)
    else if s[2 * v] == Full && s[2 * v + 1] == Split then Search(s, 2 * v + 1, k - 1)
    else if s[2 * v + 1] == Full && s[2 * v] == Split then Search(s, 2 * v, k - 1)
    else 0
  }

  /** The block that `buddy_kalloc` takes at `level`, 0 for none. The search
      reports success by returning its level, so the root is never handed out. */
  function Pick(s: seq<Slot>, l: nat, level: nat): (w: nat)
    requires |s| == 2 * Pow2(l) && level <= l
    ensures w != 0 ==> w < |s| && s[w] == Empty && Level(w) == level
  {
    FitsByLevel(l, 1, level);
    var w := if level == 0 then 0 else Search(s, 1, level);
    if w != 0 then UpLevel(w, level); w else 0
  }

  // ----- Canonical trees -----

  /** Node `v` lies in an outstanding block. */
  predicate Covered(out: set<nat>, v: nat) {
    v >= 1 && (v in out || Covered(out, v / 2))
  }

  /** Outstanding blocks are nodes of the tree, none inside another. */
  predicate Blocks(out: set<nat>, n: nat) {
    forall v <- out :: 1 <= v < 2 * n && !Covered(out, v / 2)
  }

  function Combine(l: Slot, r: Slot): Slot {
    if l == Full && r == Full then Full
    else if l == Empty && r == Empty then Empty
    else Split
  }

  /** The slot that node `v` should have, given those of its children. */
  function Wanted(s: seq<Slot>, out: set<nat>, v: nat): Slot
    requires 1 <= v < |s| && |s| % 2 == 0
  {
    if v in out then Full
    else if Covered(out, v) || 2 * v >= |s| then Empty
    else Combine(s[2 * v], s[2 * v + 1])
  }

  ghost predicate CanonicalBut(s: seq<Slot>, out: set<nat>, hole: nat)
    requires |s| % 2 == 0
  {
    forall v {:trigger Wanted(s, out, v)} :: 1 <= v < |s| && v != hole ==> s[v] == Wanted(s, out, v)
  }

  /** The tree that represents exactly the outstanding blocks `out`. */
  ghost predicate Canonical(s: seq<Slot>, n: nat, out: set<nat>) {
    && n >= 1
    && |s| == 2 * n
    && Blocks(out, n)
    && CanonicalBut(s, out, 0)
  }

  /** The pages of block `v` and of block `w` have none in common. */
  ghost predicate Disjoint(n: nat, v: nat, w: nat) {
    forall x :: n <= x < 2 * n ==> !(Contains(v, x) && Contains(w, x))
  }

  /** A block that could be handed out: it meets no outstanding block. */
  ghost predicate Available(n: nat, out: set<nat>, v: nat) {
    forall o <- out :: Disjoint(n, o, v)
  }

  lemma {:induction false} CoveredExact(out: set<nat>, v: nat)
    requires v >= 1
    ensures Covered(out, v) <==> exists o <- out :: o >= 1 && Contains(o, v)
  {
    if v == 1 {
      assert forall o: nat :: o >= 1 && Contains(o, 1) ==> o == 1;
      assert Contains(1, 1);
    } else {
      CoveredExact(out, v / 2);
      if v in out {
        assert Contains(v, v);
      }
      if exists o <- out :: o >= 1 && Contains(o, v / 2) {
        var o :| o in out && o >= 1 && Contains(o, v / 2);
        assert Contains(o, v);
      }
    }
  }

  /** Below any node there is a page. */
  lemma {:induction false} SomePage(n: nat, v: nat) returns (p: nat)
    requires 1 <= v < 2 * n
    ensures p < n && Contains(v, n + p)
    decreases n - v
  {
    if v >= n {
      p := v - n;
    } else {
      p := SomePage(n, 2 * v);
      ContainsDown(v, n + p);
    }
  }

  // ----- Searching -----

  /** An EMPTY node outside every outstanding block: so is all that is below it. */
  lemma {:induction false} EmptyBelow(s: seq<Slot>, n: nat, out: set<nat>, v: nat, x: nat)
    requires Canonical(s, n, out) && 1 <= v && v <= x < 2 * n
    requires s[v] == Empty && !Covered(out, v) && Contains(v, x)
    ensures s[x] == Empty && !Covered(out, x)
  {
    if x != v {
      EmptyBelow(s, n, out, v, x / 2);
      assert s[x / 2] == Wanted(s, out, x / 2);
      assert s[x] == Wanted(s, out, x);
    }
  }

  /** A FULL node hides no EMPTY node outside the outstanding blocks. */
  lemma {:induction false} FullBelow(s: seq<Slot>, n: nat, out: set<nat>, v: nat, x: nat)
    requires Canonical(s, n, out) && 1 <= v && v <= x < 2 * n
    requires s[v] == Full && Contains(v, x)
    ensures Covered(out, x) || s[x] == Full
  {
    if x != v {
      FullBelow(s, n, out, v, x / 2);
      assert s[x / 2] == Wanted(s, out, x / 2);
      assert s[x] == Wanted(s, out, x);
    }
  }

  lemma {:induction false} SearchEmpty(s: seq<Slot>, n: nat, out: set<nat>, v: nat, k: nat)
    requires Canonical(s, n, out) && 1 <= v && Fits(|s|, v, k)
    requires v < |s| && s[v] == Empty && !Covered(out, v)
    ensures Search(s, v, k) != 0
    decreases k
  {
    if k > 0 {
      assert s[v] == Wanted(s, out, v);
      assert s[2 * v] == Wanted(s, out, 2 * v);
      SearchEmpty(s, n, out, 2 * v, k - 1);
    }
  }

  /** The search finds a node at the right depth that is EMPTY and lies outside
      every outstanding block ... */
  lemma {:induction false} SearchSound(s: seq<Slot>, n: nat, out: set<nat>, v: nat, k: nat)
    requires Canonical(s, n, out) && 1 <= v && Fits(|s|, v, k)
    requires !Covered(out, v / 2)
    ensures var w := Search(s, v, k);
            w != 0 ==> !Covered(out, w)
    decreases k
  {
    assert s[v] == Wanted(s, out, v);
    if k > 0 && s[v] != Full {
      SearchSound(s, n, out, 2 * v, k - 1);
      SearchSound(s, n, out, 2 * v + 1, k - 1);
    }
  }

  /** ... and finds one whenever there is one. */
  lemma {:induction false} SearchComplete(s: seq<Slot>, n: nat, out: set<nat>, v: nat, k: nat, x: nat)
    requires Canonical(s, n, out) && 1 <= v && Fits(|s|, v, k)
    requires !Covered(out, v / 2)
    requires x < |s| && Up(x, k) == v && s[x] == Empty && !Covered(out, x)
    ensures Search(s, v, k) != 0
    decreases k
  {
    UpContains(x, k);
    assert s[v] == Wanted(s, out, v);
    if s[v] == Full {
      FullBelow(s, n, out, v, x);
    } else if k > 0 {
      assert s[2 * v] == Wanted(s, out, 2 * v) && s[2 * v + 1] == Wanted(s, out, 2 * v + 1);
      var y := Up(x, k - 1);
      assert y == 2 * v || y == 2 * v + 1;
      UpContains(x, k - 1);
      if s[y] == Full {
        FullBelow(s, n, out, y, x);
      }
      if s[2 * v] == Empty {
        SearchEmpty(s, n, out, 2 * v, k - 1);
      } else if s[2 * v + 1] == Empty {
        SearchEmpty(s, n, out, 2 * v + 1, k - 1);
      } else {
        SearchComplete(s, n, out, y, k - 1, x);
      }
    }
  }

  // ----- Which blocks can be handed out -----

  /** Blocks that do not contain one another share no page. */
  lemma {:induction false} ApartIsDisjoint(n: nat, v: nat, w: nat)
    requires 1 <= v < 2 * n && 1 <= w < 2 * n
    ensures Disjoint(n, v, w) <==> !Contains(v, w) && !Contains(w, v)
  {
    forall x | n <= x < 2 * n && Contains(v, x) && Contains(w, x)
      ensures Contains(v, w) || Contains(w, v)
    {
      Nested(v, w, x);
    }
    if Contains(v, w) {
      var p := SomePage(n, w);
      ContainsTrans(v, w, n + p);
    } else if Contains(w, v) {
      var p := SomePage(n, v);
      ContainsTrans(w, v, n + p);
    }
  }

  /** With no outstanding block at or below `v` and none above, `v` is EMPTY. */
  lemma {:induction false} VacantIsEmpty(s: seq<Slot>, n: nat, out: set<nat>, v: nat)
    requires Canonical(s, n, out) && 1 <= v < 2 * n
    requires !Covered(out, v) && forall o <- out :: !Contains(v, o)
    ensures s[v] == Empty
    decreases n - v
  {
    assert s[v] == Wanted(s, out, v);
    if v < n {
      forall o | o in out
        ensures !Contains(2 * v, o) && !Contains(2 * v + 1, o)
      {
        ContainsDown(v, o);
      }
      assert Contains(2 * v, 2 * v) && Contains(2 * v + 1, 2 * v + 1);
      VacantIsEmpty(s, n, out, 2 * v);
      VacantIsEmpty(s, n, out, 2 * v + 1);
    }
  }

  /** In a canonical tree the blocks that meet no outstanding block are exactly
      the EMPTY nodes that lie in none. */
  lemma {:induction false} AvailableExact(s: seq<Slot>, n: nat, out: set<nat>, v: nat)
    requires Canonical(s, n, out) && 1 <= v < 2 * n
    ensures Available(n, out, v) <==> s[v] == Empty && !Covered(out, v)
  {
    CoveredExact(out, v);
    forall o | o in out
      ensures Disjoint(n, o, v) <==> !Contains(o, v) && !Contains(v, o)
    {
      ApartIsDisjoint(n, o, v);
    }
    if s[v] == Empty && !Covered(out, v) {
      forall o | o in out
        ensures !Contains(v, o)
      {
        if Contains(v, o) {
          EmptyBelow(s, n, out, v, o);
        }
      }
    } else if Available(n, out, v) {
      VacantIsEmpty(s, n, out, v);
    }
  }

  // ----- Allocating -----

  lemma {:induction false} UpAllocRestores(s: seq<Slot>, out: set<nat>, v: nat)
    requires 1 <= v < |s| && |s| % 2 == 0
    requires (s[v] == Full || s[v] == Split) && !Covered(out, v / 2)
    requires CanonicalBut(s, out, v / 2)
    ensures CanonicalBut(UpAlloc(s, v), out, 0)
    decreases v
  {
    if v > 1 {
      var p := v / 2;
      var x := if s[Sibling(v)] == Full && s[v] == Full then Full else Split;
      var t := s[p := x];
      forall u | 1 <= u < |t| && u != p / 2
        ensures t[u] == Wanted(t, out, u)
      {
        if u != p {
          assert s[u] == Wanted(s, out, u);
        }
      }
      UpAllocRestores(t, out, p);
    }
  }

  lemma {:induction false} CoveredGrows(out: set<nat>, v: nat, u: nat)
    requires v >= 1 && u >= 1
    ensures Covered(out + {v}, u) <==> Covered(out, u) || Contains(v, u)
  {
    if u > 1 {
      CoveredGrows(out, v, u / 2);
      if u < v {
        assert !Contains(v, u / 2);
      }
    }
  }

  /** Taking an EMPTY node outside the outstanding blocks keeps the tree
      canonical, for the blocks with the new one added. */
  lemma {:induction false} AllocKeepsCanonical(s: seq<Slot>, n: nat, out: set<nat>, v: nat)
    requires Canonical(s, n, out) && 1 <= v < 2 * n
    requires s[v] == Empty && !Covered(out, v)
    ensures Canonical(AllocAt(s, v), n, out + {v})
  {
    var out' := out + {v};
    var t := s[v := Full];
    forall u | 1 <= u < |t| && u != v / 2
      ensures t[u] == Wanted(t, out', u)
    {
      assert s[u] == Wanted(s, out, u);
      CoveredGrows(out, v, u);
      if Contains(v, u) {
        EmptyBelow(s, n, out, v, u);
      }
    }
    if v > 1 {
      CoveredGrows(out, v, v / 2);
    }
    forall o | o in out'
      ensures !Covered(out', o / 2)
    {
      if o > 1 {
        CoveredGrows(out, v, o / 2);
        if o != v && Contains(v, o / 2) {
          assert Contains(v, o);
          EmptyBelow(s, n, out, v, o);
        }
      }
    }
    UpAllocRestores(t, out', v);
  }

  /** Search and allocate: from a canonical tree and for every level below the
      root, the search succeeds exactly when some block of that level meets no
      outstanding block; the block it picks is such a block, and taking it leaves
      the canonical tree for the blocks now outstanding. */
  lemma {:induction false} AllocExact(s: seq<Slot>, l: nat, out: set<nat>, level: nat)
    requires Canonical(s, Pow2(l), out) && 1 <= level <= l
    ensures var w := Pick(s, l, level);
            w != 0 <==> exists x: nat :: 1 <= x < |s| && Level(x) == level && Available(Pow2(l), out, x)
    ensures var w := Pick(s, l, level);
            w != 0 ==>
              && w < |s| && Level(w) == level && s[w] == Empty
              && Available(Pow2(l), out, w)
              && Canonical(AllocAt(s, w), Pow2(l), out + {w})
  {
    var n := Pow2(l);
    FitsByLevel(l, 1, level);
    var w := Pick(s, l, level);
    SearchSound(s, n, out, 1, level);
    if w != 0 {
      UpLevel(w, level);
      AvailableExact(s, n, out, w);
      AllocKeepsCanonical(s, n, out, w);
    }
    forall x: nat | 1 <= x < |s| && Level(x) == level && Available(n, out, x)
      ensures w != 0
    {
      UpLevel(x, level);
      AvailableExact(s, n, out, x);
      SearchComplete(s, n, out, 1, level, x);
    }
  }

  // ----- Freeing -----

  /** Some ancestor of `u` is SPLIT, and the lowest one has an EMPTY child off
      the path from `u`. */
  predicate EmptySide(s: seq<Slot>, u: nat)
    requires 1 <= u < |s| && |s| % 2 == 0
    decreases u
  {
    u > 1 && if s[u / 2] == Split then s[Sibling(u)] == Empty else EmptySide(s, u / 2)
  }

  /** The shape on which `update_upstairs_free` merges too early. */
  predicate MergesEarly(s: seq<Slot>, v: nat)
    requires 1 <= v < |s| && |s| % 2 == 0
  {
    v > 1 && s[v / 2] == Full && EmptySide(s, v / 2)
  }

  /** The upward pass writes proper ancestors only. */
  lemma {:induction false} UpFreeFrame(s: seq<Slot>, v: nat, u: nat)
    requires 1 <= v <= u < |s| && |s| % 2 == 0
    ensures UpFree(s, v)[u] == s[u]
    decreases v
  {
    if v > 1 {
      if s[v / 2] == Full {
        UpFreeFrame(s[v / 2 := Split], v / 2, u);
      } else if s[v / 2] == Split {
        if s[Sibling(v)] == Empty {
          UpFreeFrame(s[v / 2 := Empty], v / 2, u);
        }
      } else {
        UpFreeFrame(s, v / 2, u);
      }
    }
  }

  lemma {:induction false} PatchParent(s: seq<Slot>, out: set<nat>, p: nat, x: Slot)
    requires 1 <= p && |s| % 2 == 0 && 2 * p < |s|
    requires CanonicalBut(s, out, p) && !Covered(out, p)
    requires x == Combine(s[2 * p], s[2 * p + 1])
    ensures CanonicalBut(s[p := x], out, p / 2)
  {
    var t := s[p := x];
    forall u | 1 <= u < |t| && u != p / 2
      ensures t[u] == Wanted(t, out, u)
    {
      if u != p {
        assert s[u] == Wanted(s, out, u);
      }
    }
  }

  /** Above an EMPTY node whose parent is SPLIT, every merge is right. */
  lemma {:induction false} MergeFromEmpty(s: seq<Slot>, out: set<nat>, v: nat)
    requires 1 <= v < |s| && |s| % 2 == 0
    requires s[v] == Empty && !Covered(out, v / 2)
    requires CanonicalBut(s, out, v / 2)
    requires v > 1 ==> s[v / 2] == Split
    ensures CanonicalBut(UpFree(s, v), out, 0)
    decreases v
  {
    if v > 1 {
      var p := v / 2;
      if s[Sibling(v)] == Empty {
        if p > 1 {
          assert s[p / 2] == Wanted(s, out, p / 2);
        }
        PatchParent(s, out, p, Empty);
        MergeFromEmpty(s[p := Empty], out, p);
      } else {
        forall u | 1 <= u < |s|
          ensures s[u] == Wanted(s, out, u)
        {
        }
      }
    }
  }

  /** Above a FULL parent, all is well until the lowest SPLIT ancestor. */
  lemma {:induction false} MergeFromFull(s: seq<Slot>, out: set<nat>, v: nat)
    requires 2 <= v < |s| && |s| % 2 == 0
    requires s[v] != Full && s[Sibling(v)] == Full && s[v / 2] == Full
    requires !Covered(out, v / 2) && CanonicalBut(s, out, v / 2)
    ensures CanonicalBut(UpFree(s, v), out, 0) <==> !EmptySide(s, v / 2)
    decreases v
  {
    var p := v / 2;
    var t := s[p := Split];
    PatchParent(s, out, p, Split);
    assert UpFree(s, v) == UpFree(t, p);
    if p > 1 {
      var q := p / 2;
      assert s[q] == Wanted(s, out, q);
      if s[q] == Full {
        EmptySideFrame(s, t, q);
        MergeFromFull(t, out, p);
      } else if s[Sibling(p)] == Empty {
        var r := UpFree(t, p);
        assert r == UpFree(t[q := Empty], q);
        UpFreeFrame(t[q := Empty], q, q);
        UpFreeFrame(t[q := Empty], q, p);
        assert r[q] == Empty && r[p] == Split;
        assert r[q] != Wanted(r, out, q);
      } else {
        forall u | 1 <= u < |t|
          ensures t[u] == Wanted(t, out, u)
        {
        }
      }
    }
  }

  lemma {:induction false} EmptySideFrame(s: seq<Slot>, t: seq<Slot>, u: nat)
    requires 1 <= u < |s| && |s| % 2 == 0 && |t| == |s|
    requires u > 1 ==> forall x :: 1 <= x <= u + 1 && x < |s| ==> s[x] == t[x]
    ensures EmptySide(s, u) == EmptySide(t, u)
    decreases u
  {
    if u > 1 {
      EmptySideFrame(s, t, u / 2);
    }
  }

  lemma {:induction false} CoveredShrinks(out: set<nat>, n: nat, v: nat, u: nat)
    requires Blocks(out, n) && v in out && u >= 1
    ensures Covered(out - {v}, u) <==> Covered(out, u) && !Contains(v, u)
  {
    if Contains(v, u) {
      CoveredExact(out - {v}, u);
      forall o | o in out && o != v && Contains(o, u)
        ensures false
      {
        Nested(o, v, u);
        if Contains(o, v) {
          CoveredExact(out, v / 2);
        } else {
          CoveredExact(out, o / 2);
        }
      }
    } else {
      CoveredExact(out, u);
      CoveredExact(out - {v}, u);
    }
  }

  /** Below an outstanding block everything is EMPTY. */
  lemma {:induction false} OutstandingBelow(s: seq<Slot>, n: nat, out: set<nat>, v: nat, u: nat)
    requires Canonical(s, n, out) && v in out && v < u < 2 * n && Contains(v, u)
    ensures s[u] == Empty
  {
    CoveredExact(out, u);
    CoveredExact(out, u / 2);
    assert s[u] == Wanted(s, out, u);
  }

  /** Clearing an outstanding block leaves every node but its parent right. */
  lemma {:induction false} FreedLocally(s: seq<Slot>, n: nat, out: set<nat>, v: nat, u: nat)
    requires Canonical(s, n, out) && v in out && 1 <= u < 2 * n && u != v / 2
    ensures s[v := Empty][u] == Wanted(s[v := Empty], out - {v}, u)
  {
    assert s[u] == Wanted(s, out, u);
    CoveredShrinks(out, n, v, u);
    if Contains(v, u) {
      if u > v {
        OutstandingBelow(s, n, out, v, u);
      }
      if u < n {
        ContainsTrans(v, u, 2 * u);
        ContainsTrans(v, u, 2 * u + 1);
        OutstandingBelow(s, n, out, v, 2 * u);
        OutstandingBelow(s, n, out, v, 2 * u + 1);
      }
    }
  }

  lemma {:induction false} BlocksShrink(out: set<nat>, n: nat, v: nat)
    requires Blocks(out, n) && v in out
    ensures Blocks(out - {v}, n) && !Covered(out - {v}, v / 2)
  {
    forall o | o in out
      ensures !Covered(out - {v}, o / 2)
    {
      if o > 1 {
        CoveredShrinks(out, n, v, o / 2);
      }
    }
  }

  /** Free, exactly: freeing an outstanding block at its own order leaves the
      canonical tree for the other blocks if and only if it is not the case that
      its parent was FULL and its lowest SPLIT ancestor has an EMPTY child off
      the path. */
  lemma {:induction false} FreeExact(s: seq<Slot>, n: nat, out: set<nat>, v: nat)
    requires Canonical(s, n, out) && v in out
    ensures Canonical(FreeAt(s, v), n, out - {v}) <==> !MergesEarly(s, v)
  {
    var out' := out - {v};
    var t := s[v := Empty];
    BlocksShrink(out, n, v);
    assert CanonicalBut(t, out', v / 2) by {
      forall u | 1 <= u < |t| && u != v / 2
        ensures t[u] == Wanted(t, out', u)
      {
        FreedLocally(s, n, out, v, u);
      }
    }
    if v > 1 {
      var p := v / 2;
      assert s[p] == Wanted(s, out, p) && s[v] == Wanted(s, out, v);
      if s[p] == Full {
        EmptySideFrame(s, t, p);
        MergeFromFull(t, out', v);
      } else {
        MergeFromEmpty(t, out', v);
      }
    }
  }
}
