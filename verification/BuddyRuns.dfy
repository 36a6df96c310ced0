/** Whole runs of the buddy allocator: single-page runs, which stay safe although
    frees merge early, and the boot sequence (kernel/buddy_kalloc.c). */
module BuddyRuns {
  import opened BuddyIndex
  import opened BuddyTree

  predicate IsLeaf(n: nat, x: nat) {
    n <= x < 2 * n
  }

  function Leaves(n: nat): set<nat> {
    set x: nat | x < 2 * n && IsLeaf(n, x)
  }

  datatype Op = Take | Release(page: nat)

  /** A tree together with the leaves that callers hold. */
  datatype State = State(slots: seq<Slot>, out: set<nat>)

  /** What survives early merges when every block is one page: leaves tell the
      truth, an inner node is FULL exactly when both children are, and an EMPTY
      inner node has no FULL child. */
  ghost predicate PageInv(s: seq<Slot>, n: nat, out: set<nat>) {
    && n >= 1 && |s| == 2 * n
    && (forall v <- out :: n <= v < 2 * n)
    && (forall v {:trigger NodeOk(s, n, out, v)} :: 1 <= v < 2 * n ==> NodeOk(s, n, out, v))
  }

  predicate NodeOk(s: seq<Slot>, n: nat, out: set<nat>, v: nat)
    requires |s| == 2 * n && 1 <= v < 2 * n
  {
    if v >= n then s[v] == if v in out then Full else Empty
    else
      && s[v] != Reserved
      && (s[v] == Full <==> s[2 * v] == Full && s[2 * v + 1] == Full)
      && (s[v] == Empty ==> s[2 * v] != Full && s[2 * v + 1] != Full)
  }

  ghost predicate PageInvBut(s: seq<Slot>, n: nat, out: set<nat>, hole: nat) {
    && |s| == 2 * n
    && forall v {:trigger NodeOk(s, n, out, v)} :: 1 <= v < 2 * n && v != hole ==> NodeOk(s, n, out, v)
  }

  lemma {:induction false} TakeRestores(s: seq<Slot>, n: nat, out: set<nat>, v: nat)
    requires 1 <= v < 2 * n && PageInvBut(s, n, out, v / 2)
    requires s[v] == Full || s[v] == Split
    ensures PageInvBut(UpAlloc(s, v), n, out, 0)
    decreases v
  {
    if v > 1 {
      var p := v / 2;
      var x := if s[Sibling(v)] == Full && s[v] == Full then Full else Split;
      var t := s[p := x];
      forall u | 1 <= u < 2 * n && u != p / 2
        ensures NodeOk(t, n, out, u)
      {
        if u != p { assert NodeOk(s, n, out, u); }
      }
      TakeRestores(t, n, out, p);
    }
  }

  /** Freeing keeps the page invariant, early merges included. `s` is right
      except that its node `v` has just stopped being FULL, or changed from SPLIT
      to EMPTY. */
  lemma {:induction false} ReleaseRestores(s: seq<Slot>, n: nat, out: set<nat>, v: nat)
    requires 1 <= v < 2 * n && PageInvBut(s, n, out, v / 2)
    requires s[v] == Empty || s[v] == Split
    requires v > 1 ==>
               && s[v / 2] != Reserved
               && (s[v / 2] == Full ==> s[Sibling(v)] == Full)
               && (s[v / 2] == Empty ==> s[Sibling(v)] != Full)
    ensures PageInvBut(UpFree(s, v), n, out, 0)
    decreases v
  {
    if v > 1 {
      var p := v / 2;
      var t := if s[p] == Full then s[p := Split]
               else if s[p] == Split && s[Sibling(v)] == Empty then s[p := Empty] else s;
      forall u | 1 <= u < 2 * n && u != p / 2
        ensures NodeOk(t, n, out, u)
      {
        if u != p { assert NodeOk(s, n, out, u); }
      }
      if p > 1 {
        assert NodeOk(s, n, out, p / 2);
      }
      if s[p] == Split && s[Sibling(v)] != Empty {
        forall u | 1 <= u < 2 * n
          ensures NodeOk(s, n, out, u)
        {
          if u != p { assert NodeOk(s, n, out, u); }
        }
      } else {
        ReleaseRestores(t, n, out, p);
      }
    }
  }

  /** Below a node that is not FULL the search for a page finds one that is not out,
      and below a FULL node none. */
  lemma {:induction false} SearchFindsPage(s: seq<Slot>, l: nat, out: set<nat>, v: nat, k: nat)
    requires PageInv(s, Pow2(l), out) && 1 <= v && Level(v) + k == l && Fits(|s|, v, k)
    ensures var w := Search(s, v, k);
            if s[v] == Full then w == 0 else Pow2(l) <= w < |s| && w !in out
    decreases k
  {
    var n := Pow2(l);
    LevelExact(v, l);
    assert NodeOk(s, n, out, v);
    if k > 0 {
      PowMono(Level(v) + 1, l);
      LevelExact(v, Level(v));
      assert (2 * v) / 2 == v && (2 * v + 1) / 2 == v;
      assert NodeOk(s, n, out, 2 * v) && NodeOk(s, n, out, 2 * v + 1);
      SearchFindsPage(s, l, out, 2 * v, k - 1);
      SearchFindsPage(s, l, out, 2 * v + 1, k - 1);
    }
  }

  /** A FULL node has only pages that are out below it, and conversely. */
  lemma {:induction false} FullMeansAllOut(s: seq<Slot>, n: nat, out: set<nat>, v: nat)
    requires PageInv(s, n, out) && 1 <= v < 2 * n
    ensures s[v] == Full <==> forall x :: n <= x < 2 * n && Contains(v, x) ==> x in out
    decreases n - v
  {
    assert NodeOk(s, n, out, v);
    if v < n {
      FullMeansAllOut(s, n, out, 2 * v);
      FullMeansAllOut(s, n, out, 2 * v + 1);
      forall x | n <= x < 2 * n
        ensures Contains(v, x) <==> Contains(2 * v, x) || Contains(2 * v + 1, x)
      {
        ContainsDown(v, x);
      }
    } else {
      forall x | n <= x < 2 * n
        ensures Contains(v, x) <==> v == x
      {
        LeafContains(n, v, x);
      }
    }
  }

  lemma {:induction false} RootContains(x: nat)
    requires x >= 1
    ensures Contains(1, x)
  {
    if x > 1 { RootContains(x / 2); }
  }

  /** `buddy_kalloc(0)` returns 0 exactly when every page is out, otherwise a page
      that is not out; either way the page invariant holds afterwards. */
  lemma {:induction false} TakeIsSafe(s: seq<Slot>, l: nat, out: set<nat>)
    requires PageInv(s, Pow2(l), out) && l >= 1
    ensures var w := Pick(s, l, l);
            && (w == 0 <==> out == Leaves(Pow2(l)))
            && (w != 0 ==>
                  Pow2(l) <= w < |s| && w !in out && PageInv(AllocAt(s, w), Pow2(l), out + {w}))
  {
    var n := Pow2(l);
    FitsByLevel(l, 1, l);
    var w := Pick(s, l, l);
    SearchFindsPage(s, l, out, 1, l);
    FullMeansAllOut(s, n, out, 1);
    forall x | n <= x < 2 * n
      ensures Contains(1, x)
    {
      RootContains(x);
    }
    if w != 0 {
      var t := s[w := Full];
      forall u | 1 <= u < 2 * n && u != w / 2
        ensures NodeOk(t, n, out + {w}, u)
      {
        assert NodeOk(s, n, out, u);
      }
      TakeRestores(t, n, out + {w}, w);
    }
  }

  /** `buddy_kfree` of a page that is out keeps the page invariant. */
  lemma {:induction false} ReleaseIsSafe(s: seq<Slot>, n: nat, out: set<nat>, v: nat)
    requires PageInv(s, n, out) && v in out
    ensures PageInv(FreeAt(s, v), n, out - {v})
  {
    var t := s[v := Empty];
    var out' := out - {v};
    forall u | 1 <= u < 2 * n && u != v / 2
      ensures NodeOk(t, n, out', u)
    {
      assert NodeOk(s, n, out, u);
    }
    assert NodeOk(s, n, out, v);
    if v > 1 {
      assert NodeOk(s, n, out, v / 2);
    }
    ReleaseRestores(t, n, out', v);
  }

  /** One call at order 0: an allocation, or a free of any page. A free of a page
      that is not out finds a slot that is not FULL and changes nothing. */
  function Step(l: nat, st: State, op: Op): (r: State)
    requires |st.slots| == 2 * Pow2(l)
    ensures |r.slots| == |st.slots|
  {
    match op
    case Take =>
      var w := Pick(st.slots, l, l);
      if w == 0 then st
      else State(AllocAt(st.slots, w), st.out + {w})
    case Release(page) =>
      var v := Pow2(l) + page;
      if page >= Pow2(l) || st.slots[v] != Full then st
      else State(FreeAt(st.slots, v), st.out - {v})
  }

  function Run(l: nat, st: State, ops: seq<Op>): (r: State)
    requires |st.slots| == 2 * Pow2(l)
    ensures |r.slots| == |st.slots|
  {
    if ops == [] then st
    else Step(l, Run(l, st, ops[..|ops| - 1]), ops[|ops| - 1])
  }

  /** The state at power-on: every slot FULL, every page held by the kernel. */
  function AllFull(l: nat): (st: State)
    ensures |st.slots| == 2 * Pow2(l)
  {
    State(seq(2 * Pow2(l), _ => Full), Leaves(Pow2(l)))
  }

  /** Single-page runs: after every sequence of order-0 calls from the all-FULL
      start the page invariant holds, so the next allocation never returns a page
      already out and fails exactly when every page is out. */
  lemma {:induction false} SinglePageRuns(l: nat, ops: seq<Op>)
    requires l >= 1
    ensures var st := Run(l, AllFull(l), ops);
            var w := Pick(st.slots, l, l);
            && PageInv(st.slots, Pow2(l), st.out)
            && (w == 0 <==> st.out == AllFull(l).out)
            && (w != 0 ==> Pow2(l) <= w < 2 * Pow2(l) && w !in st.out)
  {
    var st := Run(l, AllFull(l), ops);
    if ops == [] {
      forall v | 1 <= v < 2 * Pow2(l)
        ensures NodeOk(st.slots, Pow2(l), st.out, v)
      {
      }
    } else {
      SinglePageRuns(l, ops[..|ops| - 1]);
      StepIsSafe(l, Run(l, AllFull(l), ops[..|ops| - 1]), ops[|ops| - 1]);
    }
    TakeIsSafe(st.slots, l, st.out);
  }

  lemma {:induction false} StepIsSafe(l: nat, st: State, op: Op)
    requires l >= 1 && PageInv(st.slots, Pow2(l), st.out)
    ensures PageInv(Step(l, st, op).slots, Pow2(l), Step(l, st, op).out)
  {
    match op {
      case Take =>
        TakeIsSafe(st.slots, l, st.out);
      case Release(page) =>
        var v := Pow2(l) + page;
        if page < Pow2(l) && st.slots[v] == Full {
          assert NodeOk(st.slots, Pow2(l), st.out, v);
          ReleaseIsSafe(st.slots, Pow2(l), st.out, v);
        }
    }
  }

  // ----- Blocks of any order -----

  datatype BlockOp = Get(level: nat) | Put(block: nat)

  /** One call with blocks of any order below the root; `Put` frees an outstanding
      block at its own order. */
  function BlockStep(l: nat, st: State, op: BlockOp): (r: State)
    requires |st.slots| == 2 * Pow2(l)
    ensures |r.slots| == |st.slots|
  {
    assert |st.slots| % 2 == 0;
    match op
    case Get(level) =>
      var w := if 1 <= level <= l then Pick(st.slots, l, level) else 0;
      if w == 0 then st else State(AllocAt(st.slots, w), st.out + {w})
    case Put(v) =>
      if v in st.out && 1 <= v < |st.slots| then State(FreeAt(st.slots, v), st.out - {v}) else st
  }

  /** The tree is canonical before, between and after the calls. */
  ghost predicate CanonicalThroughout(l: nat, st: State, ops: seq<BlockOp>)
    requires |st.slots| == 2 * Pow2(l)
    decreases ops
  {
    && Canonical(st.slots, Pow2(l), st.out)
    && (ops != [] ==> CanonicalThroughout(l, BlockStep(l, st, ops[0]), ops[1..]))
  }

  /** No free in the run meets the shape that merges too early. */
  predicate NeverMergesEarly(l: nat, st: State, ops: seq<BlockOp>)
    requires |st.slots| == 2 * Pow2(l)
    decreases ops
  {
    ops == [] ||
    (&& (ops[0].Put? && ops[0].block in st.out && 1 <= ops[0].block < |st.slots| ==>
           !MergesEarly(st.slots, ops[0].block))
     && NeverMergesEarly(l, BlockStep(l, st, ops[0]), ops[1..]))
  }

  /** Mixed runs: from a canonical tree, a run of allocations and frees of any
      order is canonical throughout if and only if none of its frees meets a FULL
      parent below a SPLIT ancestor with an EMPTY side. */
  lemma {:induction false} MixedRuns(l: nat, st: State, ops: seq<BlockOp>)
    requires Canonical(st.slots, Pow2(l), st.out)
    ensures CanonicalThroughout(l, st, ops) <==> NeverMergesEarly(l, st, ops)
    decreases ops
  {
    if ops != [] {
      var next := BlockStep(l, st, ops[0]);
      match ops[0] {
        case Get(level) =>
          if 1 <= level <= l {
            AllocExact(st.slots, l, st.out, level);
          }
        case Put(v) =>
          if v in st.out {
            FreeExact(st.slots, Pow2(l), st.out, v);
          }
      }
      if Canonical(next.slots, Pow2(l), next.out) {
        MixedRuns(l, next, ops[1..]);
      }
    }
  }
}
