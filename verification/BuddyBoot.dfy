/** Boot: `buddy_init` frees the pages above the kernel one by one, in ascending
    order, from a tree that is FULL everywhere (kernel/buddy_kalloc.c). */
module BuddyBoot {
  import opened BuddyIndex
  import opened BuddyTree
  import opened BuddyRuns

  /** The slot of node `v` once the pages `k .. m - 1` have been freed. A node
      above freed pages only is SPLIT while its right half is untouched and EMPTY
      from the first page of its right half on, too early by half its pages. */
  function BootSlot(l: nat, k: nat, m: nat, v: nat): Slot {
    var n := Pow2(l);
    if v == 0 || m <= Lo(n, v) || Hi(n, v) <= k || m <= k then Full
    else if Lo(n, v) < k then Split
    else if v < n && m <= Hi(n, 2 * v) then Split
    else Empty
  }

  function BootTree(l: nat, k: nat, m: nat): (s: seq<Slot>)
    ensures |s| == 2 * Pow2(l)
  {
    seq(2 * Pow2(l), v => if v < 0 then Full else BootSlot(l, k, m, v))
  }

  lemma {:induction false} Halves(l: nat, p: nat)
    requires 1 <= p < Pow2(l)
    ensures var n := Pow2(l);
            && Lo(n, p) == Lo(n, 2 * p) < Hi(n, 2 * p) == Lo(n, 2 * p + 1)
            && Lo(n, 2 * p + 1) < Hi(n, 2 * p + 1) == Hi(n, p)
  {
    assert (2 * p) / 2 == p && (2 * p + 1) / 2 == p;
    Adjacent(l, 2 * p);
    LoHi(l, 2 * p);
    LoHi(l, 2 * p + 1);
  }

  /** Freeing page `m` leaves alone the ancestors of a node in which an earlier
      page has already been freed. */
  lemma {:induction false} Settled(l: nat, k: nat, m: nat, p: nat, q: nat)
    requires 1 <= q && Contains(q, p) && p < 2 * Pow2(l)
    requires Lo(Pow2(l), p) <= m < Hi(Pow2(l), p)
    requires Lo(Pow2(l), p) < m && k < m
    ensures Lo(Pow2(l), q) <= Lo(Pow2(l), p) && Hi(Pow2(l), p) <= Hi(Pow2(l), q)
    ensures q != p ==> BootSlot(l, k, m, q) == BootSlot(l, k, m + 1, q)
  {
    if q != p {
      assert p / 2 < Pow2(l);
      Halves(l, p / 2);
      if q == p / 2 {
      } else {
        Settled(l, k, m, p / 2, q);
      }
    }
  }

  /** What freeing page `m` does to the parent of a node above that page. */
  lemma {:induction false} BootParent(l: nat, k: nat, m: nat, v: nat)
    requires k <= m < Pow2(l) && 2 <= v < 2 * Pow2(l)
    requires Lo(Pow2(l), v) <= m < Hi(Pow2(l), v)
    ensures var p := v / 2;
            var before, after := BootSlot(l, k, m, p), BootSlot(l, k, m + 1, p);
            var side := BootSlot(l, k, m + 1, Sibling(v));
            && Lo(Pow2(l), p) <= m < Hi(Pow2(l), p)
            && match before
               case Full => after == Split
               case Split =>
                 if side == Empty then after == Empty
                 else after == Split && Lo(Pow2(l), p) < m && k < m
               case Empty => after == Empty
               case Reserved => false
  {
    Halves(l, v / 2);
    if Sibling(v) < Pow2(l) {
      Halves(l, Sibling(v));
    }
  }

  /** The upward pass for page `m`, from a node `v` above it up to which the slots
      already show page `m` as freed. */
  lemma {:induction false} BootUp(l: nat, k: nat, m: nat, v: nat, s: seq<Slot>)
    requires k <= m < Pow2(l) && 1 <= v < 2 * Pow2(l) == |s|
    requires Lo(Pow2(l), v) <= m < Hi(Pow2(l), v)
    requires forall u :: 0 <= u < |s| ==>
               s[u] == BootSlot(l, k, if u < v && Contains(u, v) then m else m + 1, u)
    ensures UpFree(s, v) == BootTree(l, k, m + 1)
    decreases v
  {
    RootSlot(l, k, m);
    RootSlot(l, k, m + 1);
    hide BootSlot, Lo, Hi;
    if v == 1 {
      assert s == BootTree(l, k, m + 1);
    } else {
      var p := v / 2;
      BootParent(l, k, m, v);
      ParentAndSibling(v);
      if s[p] == Split && s[Sibling(v)] != Empty {
        forall u | 0 <= u < |s|
          ensures s[u] == BootSlot(l, k, m + 1, u)
        {
          assert u < v && Contains(u, v) ==> Contains(u, p);
          if 1 <= u < p && Contains(u, v) {
            Settled(l, k, m, p, u);
          }
        }
        assert s == BootTree(l, k, m + 1);
      } else {
        var t := s[p := BootSlot(l, k, m + 1, p)];
        assert s[p] == Empty ==> t == s;
        assert UpFree(s, v) == UpFree(t, p);
        forall u | 0 <= u < |t|
          ensures t[u] == BootSlot(l, k, if u < p && Contains(u, p) then m else m + 1, u)
        {
          if u != p {
            assert Contains(u, v) <==> u == v || Contains(u, p);
            assert s[u] == BootSlot(l, k, if u < v && Contains(u, v) then m else m + 1, u);
          }
        }
        BootUp(l, k, m, p, t);
      }
    }
  }

  lemma RootSlot(l: nat, k: nat, m: nat)
    ensures BootSlot(l, k, m, 0) == Full
  {
  }

  /** One iteration of `buddy_init`. */
  lemma {:induction false} BootStep(l: nat, k: nat, m: nat)
    requires k <= m < Pow2(l)
    ensures BootTree(l, k, m)[Pow2(l) + m] == Full
    ensures FreeAt(BootTree(l, k, m), Pow2(l) + m) == BootTree(l, k, m + 1)
  {
    var n := Pow2(l);
    var v := n + m;
    var s := BootTree(l, k, m)[v := Empty];
    forall u | 0 <= u < |s|
      ensures s[u] == BootSlot(l, k, if u < v && Contains(u, v) then m else m + 1, u)
    {
      if 1 <= u && !Contains(u, v) {
        PagesAreAnInterval(l, u, m);
        UntouchedNode(l, k, m, u);
      }
    }
    BootUp(l, k, m, v, s);
  }

  lemma {:induction false} UntouchedNode(l: nat, k: nat, m: nat, u: nat)
    requires k <= m < Pow2(l) && 1 <= u < 2 * Pow2(l)
    requires !(Lo(Pow2(l), u) <= m < Hi(Pow2(l), u))
    ensures BootSlot(l, k, m, u) == BootSlot(l, k, m + 1, u)
  {
    if u < Pow2(l) {
      Halves(l, u);
    }
  }

  /** The pages of the kernel, as leaves. */
  function KernelPages(l: nat, k: nat): set<nat> {
    set x: nat | x < Pow2(l) + k && IsLeaf(Pow2(l), x)
  }

  /** Boot: the tree after the last free is the canonical tree for the kernel's
      pages, for every kernel size and tree depth. */
  lemma {:induction false} BootEndsCanonical(l: nat, k: nat)
    requires k <= Pow2(l)
    ensures Canonical(BootTree(l, k, Pow2(l)), Pow2(l), KernelPages(l, k))
  {
    var n := Pow2(l);
    var out := KernelPages(l, k);
    var s := BootTree(l, k, n);
    forall v: nat | v < n
      ensures !Covered(out, v)
    {
      InnerUncovered(n, out, v);
    }
    forall v | 1 <= v < |s|
      ensures s[v] == Wanted(s, out, v)
    {
      FinalSlot(l, k, v);
      if v < n {
        Halves(l, v);
        FinalSlot(l, k, 2 * v);
        FinalSlot(l, k, 2 * v + 1);
      }
    }
  }

  lemma {:induction false} FinalSlot(l: nat, k: nat, v: nat)
    requires 1 <= v < 2 * Pow2(l) && k <= Pow2(l)
    ensures var n := Pow2(l);
            BootSlot(l, k, n, v) == if Hi(n, v) <= k then Full else if Lo(n, v) < k then Split else Empty
  {
    LoHi(l, v);
    HiBound(l, v);
    if v < Pow2(l) {
      Halves(l, v);
    }
  }

  lemma {:induction false} HiBound(l: nat, v: nat)
    requires 1 <= v < 2 * Pow2(l)
    ensures 0 <= Lo(Pow2(l), v) && Hi(Pow2(l), v) <= Pow2(l)
    decreases Pow2(l) - v
  {
    if v < Pow2(l) {
      HiBound(l, 2 * v);
      HiBound(l, 2 * v + 1);
    }
  }

  lemma {:induction false} InnerUncovered(n: nat, out: set<nat>, v: nat)
    requires v < n && forall x <- out :: x >= n
    ensures !Covered(out, v)
  {
    if v >= 1 {
      InnerUncovered(n, out, v / 2);
    }
  }

  // ----- A run on which freeing merges too early -----

  lemma FourPages()
    ensures Pow2(2) == 4
  {
    assert Pow2(1) == 2;
  }

  lemma {:induction false} BootOfFour(k: nat)
    requires k <= 1
    ensures Pow2(2) == 4
    ensures KernelPages(2, k) == if k == 0 then {} else {4}
    ensures BootTree(2, k, 4) == if k == 0 then [Full, Empty, Empty, Empty, Empty, Empty, Empty, Empty]
                                 else [Full, Split, Split, Empty, Full, Empty, Empty, Empty]
  {
    FourPages();
    assert Lo(4, 4) == 0 && Lo(4, 5) == 1 && Lo(4, 6) == 2 && Lo(4, 7) == 3;
    assert Hi(4, 4) == 1 && Hi(4, 5) == 2 && Hi(4, 6) == 3 && Hi(4, 7) == 4;
    assert Lo(4, 2) == 0 && Hi(4, 2) == 2 && Lo(4, 3) == 2 && Hi(4, 3) == 4;
    assert Lo(4, 1) == 0 && Hi(4, 1) == 4;
    hide Lo, Hi;
  }

  /** The pages that three allocations take one after the other, and what the free of
      the second of them leaves. */
  lemma {:induction false} FourSteps(out: set<nat>)
    ensures Pow2(2) == 4
    ensures Step(2, State([Full, Empty, Empty, Empty, Empty, Empty, Empty, Empty], out), Take)
            == State([Full, Split, Split, Empty, Full, Empty, Empty, Empty], out + {4})
    ensures Step(2, State([Full, Split, Split, Empty, Full, Empty, Empty, Empty], out), Take)
            == State([Full, Split, Split, Split, Full, Empty, Full, Empty], out + {6})
    ensures Step(2, State([Full, Split, Split, Split, Full, Empty, Full, Empty], out), Take)
            == State([Full, Split, Full, Split, Full, Full, Full, Empty], out + {5})
    ensures Step(2, State([Full, Split, Full, Split, Full, Full, Full, Empty], out), Release(2))
            == State([Full, Split, Full, Empty, Full, Full, Empty, Empty], out - {6})
  {
    FourPages();
    TakeFirst(out);
    TakeSecond(out);
    TakeThird(out);
    var s := [Full, Split, Full, Split, Full, Full, Full, Empty];
    assert UpFree(s[6 := Empty], 6) == UpFree(s[6 := Empty][3 := Empty], 3);
  }

  lemma {:induction false} TakeFirst(out: set<nat>)
    ensures Pow2(2) == 4
    ensures Step(2, State([Full, Empty, Empty, Empty, Empty, Empty, Empty, Empty], out), Take)
            == State([Full, Split, Split, Empty, Full, Empty, Empty, Empty], out + {4})
  {
    FourPages();
    var s := [Full, Empty, Empty, Empty, Empty, Empty, Empty, Empty];
    FitsByLevel(2, 1, 2);
    assert Search(s, 1, 2) == Search(s, 2, 1) == Search(s, 4, 0) == 4;
    assert UpAlloc(s[4 := Full], 4) == UpAlloc(s[4 := Full][2 := Split], 2);
  }

  lemma {:induction false} TakeSecond(out: set<nat>)
    ensures Pow2(2) == 4
    ensures Step(2, State([Full, Split, Split, Empty, Full, Empty, Empty, Empty], out), Take)
            == State([Full, Split, Split, Split, Full, Empty, Full, Empty], out + {6})
  {
    FourPages();
    var s := [Full, Split, Split, Empty, Full, Empty, Empty, Empty];
    FitsByLevel(2, 1, 2);
    assert Search(s, 1, 2) == Search(s, 3, 1) == Search(s, 6, 0) == 6;
    assert UpAlloc(s[6 := Full], 6) == UpAlloc(s[6 := Full][3 := Split], 3);
  }

  lemma {:induction false} TakeThird(out: set<nat>)
    ensures Pow2(2) == 4
    ensures Step(2, State([Full, Split, Split, Split, Full, Empty, Full, Empty], out), Take)
            == State([Full, Split, Full, Split, Full, Full, Full, Empty], out + {5})
  {
    FourPages();
    var s := [Full, Split, Split, Split, Full, Empty, Full, Empty];
    FitsByLevel(2, 1, 2);
    assert Search(s, 2, 1) == Search(s, 5, 0) == 5;
    assert Search(s, 1, 2) == 5;
    assert UpAlloc(s[5 := Full], 5) == UpAlloc(s[5 := Full][2 := Full], 2);
  }

  /** Why freeing is not exact on every tree, on a run from boot: whether the kernel
      fills no page of four or one, a few single-page calls lead to a canonical tree
      with the first two pages out, and freeing the second of them leaves an EMPTY root
      above the first. */
  lemma {:induction false} EarlyMergeExample(k: nat, ops: seq<Op>)
    requires k <= 1 && ops == (if k == 0 then [Take] else []) + [Take, Take, Release(2)]
    ensures Pow2(2) == 4
    ensures var st := Run(2, State(BootTree(2, k, 4), KernelPages(2, k)), ops);
            && st.out == {4, 5} && Canonical(st.slots, 4, st.out) && MergesEarly(st.slots, 5)
            && FreeAt(st.slots, 5) == [Full, Empty, Split, Empty, Full, Empty, Empty, Empty]
            && !Canonical(FreeAt(st.slots, 5), 4, {4})
  {
    BootOfFour(k);
    var s := [Full, Split, Full, Empty, Full, Full, Empty, Empty];
    RunOfFour(k, ops);
    TwoOut(s);
    var t := s[5 := Empty];
    assert UpFree(t, 5) == UpFree(t[2 := Split], 2);
    assert UpFree(t[2 := Split], 2) == t[2 := Split][1 := Empty];
    FreeExact(s, 4, {4, 5}, 5);
    assert {4, 5} - {5} == {4};
  }

  lemma {:induction false} TwoOut(s: seq<Slot>)
    requires s == [Full, Split, Full, Empty, Full, Full, Empty, Empty]
    ensures Canonical(s, 4, {4, 5}) && MergesEarly(s, 5)
  {
  }

  lemma {:induction false} RunOfFour(k: nat, ops: seq<Op>)
    requires k <= 1 && ops == (if k == 0 then [Take] else []) + [Take, Take, Release(2)]
    ensures Pow2(2) == 4
    ensures Run(2, State(BootTree(2, k, 4), KernelPages(2, k)), ops)
            == State([Full, Split, Full, Empty, Full, Full, Empty, Empty], {4, 5})
  {
    hide Step, Run, BootTree, KernelPages;
    BootOfFour(k);
    var st := State(BootTree(2, k, 4), KernelPages(2, k));
    var n := |ops|;
    var s1 := State([Full, Split, Split, Empty, Full, Empty, Empty, Empty], {4});
    var s2 := State([Full, Split, Split, Split, Full, Empty, Full, Empty], {4, 6});
    var s3 := State([Full, Split, Full, Split, Full, Full, Full, Empty], {4, 6, 5});
    var s4 := State([Full, Split, Full, Empty, Full, Full, Empty, Empty], {4, 5});
    assert {} + {4} == {4} && {4} + {6} == {4, 6} && {4, 6} + {5} == {4, 6, 5} && {4, 6, 5} - {6} == {4, 5};
    FourSteps({});
    FourSteps({4});
    FourSteps({4, 6});
    FourSteps({4, 6, 5});
    assert Step(2, s1, Take) == s2 && Step(2, s2, Take) == s3 && Step(2, s3, Release(2)) == s4;
    RunNone(2, st, ops);
    if k == 0 {
      assert Step(2, st, Take) == s1;
      RunMore(2, st, ops, 0, st, s1);
    }
    RunMore(2, st, ops, n - 3, s1, s2);
    RunMore(2, st, ops, n - 2, s2, s3);
    RunMore(2, st, ops, n - 1, s3, s4);
    assert ops[..n] == ops;
  }

  lemma RunNone(l: nat, st: State, ops: seq<Op>)
    requires |st.slots| == 2 * Pow2(l)
    ensures Run(l, st, ops[..0]) == st
  {
  }

  lemma {:induction false} RunMore(l: nat, st: State, ops: seq<Op>, i: nat, before: State, after: State)
    requires |st.slots| == 2 * Pow2(l) && i < |ops| && Run(l, st, ops[..i]) == before
    requires Step(l, before, ops[i]) == after
    ensures Run(l, st, ops[..i + 1]) == after
  {
    hide Step, Pow2;
    assert ops[..i + 1][..i] == ops[..i];
  }
}
