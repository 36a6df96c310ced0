/** Slabs of equal objects (kernel/slab_allocator.c): where the slots of a slab are, the
    free lists threaded through them, and the three lists of slabs of a cache. */
module SlabModel {
  import opened Counting

  /** `sizeof(struct slab)`. */
  const HEADER: nat := 32

  /** FREE_MAGIC_NUM. */
  const MAGIC: nat := 0xDEAD

  /** A slab header, but for its `next` field. */
  datatype Slab = Slab(total: nat, freeCount: nat, freeList: nat)

  /** The lists of a cache. */
  datatype List = Full | Empty | Partial

  /** The shape of a cache's slabs: the size of an object, the order and size of the
      block a slab fills, and the slots in it. */
  datatype Shape = Shape(size: nat, order: nat, slabSize: nat, total: nat)

  /** The slots, one at least, fit in the block behind the header. */
  ghost predicate Sound(g: Shape) {
    g.size > 0 && g.total >= 1 && HEADER + g.size * g.total <= g.slabSize
  }

  /** The test of `find_obj`: `x` is one of `total` slots behind the header at `a`. */
  predicate Within(size: nat, total: nat, a: nat, x: nat)
    requires size > 0
  {
    a + HEADER <= x < a + HEADER + size * total && (x - (a + HEADER)) % size == 0
  }

  /** `x` is a slot of the slab at `a`. */
  predicate IsSlot(g: Shape, a: nat, x: nat)
    requires g.size > 0
  {
    Within(g.size, g.total, a, x)
  }

  /** The slabs of a cache occupy disjoint blocks. */
  ghost predicate Apart(g: Shape, slabs: map<nat, Slab>) {
    && (forall a <- slabs :: a > 0)
    && forall a, b :: a in slabs && b in slabs && a != b ==> a + g.slabSize <= b || b + g.slabSize <= a
  }

  /** A slot belongs to one slab. */
  lemma OneSlab(g: Shape, slabs: map<nat, Slab>, a: nat, b: nat, x: nat)
    requires Sound(g) && Apart(g, slabs) && a in slabs && b in slabs && IsSlot(g, a, x) && IsSlot(g, b, x)
    ensures a == b
  {
  }

  // ----- Linked lists -----

  function At(q: seq<nat>, i: nat): nat {
    if i < |q| then q[i] else 0
  }

  lemma AtIn(q: seq<nat>, i: nat)
    ensures At(q, i) == if i < |q| then q[i] else 0
  {
  }

  /** The nodes `q`, linked from `head` through `next` and ended by 0. */
  ghost predicate Linked(next: map<nat, nat>, head: nat, q: seq<nat>) {
    && NoRepeat(q) && head == At(q, 0)
    && forall i :: 0 <= i < |q| ==> q[i] > 0 && q[i] in next && next[q[i]] == At(q, i + 1)
  }

  /** From `head` a chain of distinct nodes leads to 0. */
  ghost predicate Ends(next: map<nat, nat>, head: nat) {
    exists q :: Linked(next, head, q)
  }

  lemma LinkedFrame(next: map<nat, nat>, head: nat, q: seq<nat>, x: nat, y: nat)
    requires Linked(next, head, q) && x !in q
    ensures Linked(next[x := y], head, q)
  {
  }

  lemma LinkedPop(next: map<nat, nat>, head: nat, q: seq<nat>)
    requires Linked(next, head, q) && q != []
    ensures head in next && head == q[0] && Linked(next, next[head], q[1..])
  {
    var p := q[1..];
    forall i | 0 <= i < |p| ensures p[i] > 0 && p[i] in next && next[p[i]] == At(p, i + 1) {
      assert p[i] == q[i + 1];
    }
    assert next[q[0]] == At(q, 1);
  }

  lemma LinkedPush(next: map<nat, nat>, head: nat, q: seq<nat>, x: nat)
    requires Linked(next, head, q) && x !in q && x > 0
    ensures Linked(next[x := head], x, [x] + q)
  {
    var n, p := next[x := head], [x] + q;
    forall i | 0 <= i < |p| ensures p[i] > 0 && p[i] in n && n[p[i]] == At(p, i + 1) {
      if i > 0 { assert p[i] == q[i - 1]; }
    }
  }

  lemma WithoutExact(q: seq<nat>, i: nat, x: nat)
    requires NoRepeat(q) && i < |q|
    ensures x in Without(q, i) <==> x in q && x != q[i]
  {
    if x in q && x != q[i] {
      var k :| 0 <= k < |q| && q[k] == x;
      assert Without(q, i)[if k < i then k else k - 1] == x;
    }
  }

  lemma WithoutAt(q: seq<nat>, i: nat, k: nat)
    requires i < |q| && k + 1 < |q|
    ensures Without(q, i)[k] == if k < i then q[k] else q[k + 1]
    ensures At(Without(q, i), k + 1) == if k + 1 < i then At(q, k + 1) else At(q, k + 2)
  {
  }

  /** Taking out a node that has one before it. */
  lemma LinkedCut(next: map<nat, nat>, head: nat, q: seq<nat>, i: nat)
    requires Linked(next, head, q) && 0 < i < |q|
    ensures q[i] in next && Linked(next[q[i - 1] := next[q[i]]], head, Without(q, i))
  {
    var n, p := next[q[i - 1] := next[q[i]]], Without(q, i);
    assert head == At(p, 0) && NoRepeat(p);
    hide At;
    forall k | 0 <= k < |p| ensures p[k] > 0 && p[k] in n && n[p[k]] == At(p, k + 1) {
      WithoutAt(q, i, k);
      hide Without;
      assert next[q[k]] == At(q, k + 1) && next[q[k + 1]] == At(q, k + 2);
      assert k != i - 1 ==> p[k] != q[i - 1];
    }
  }

  /** A node put behind the last one. */
  lemma LinkedAppend(next: map<nat, nat>, head: nat, q: seq<nat>, x: nat)
    requires Linked(next, head, q) && q != [] && x !in q && x > 0
    ensures Linked(next[q[|q| - 1] := x][x := 0], head, q + [x])
  {
    var n, p := next[q[|q| - 1] := x][x := 0], q + [x];
    assert At(p, 0) == At(q, 0);
    hide At;
    forall i | 0 <= i < |p| ensures p[i] > 0 && p[i] in n && n[p[i]] == At(p, i + 1) {
      AtAppend(q, x, i);
      if i < |q| { assert p[i] == q[i]; }
    }
  }

  lemma AtAppend(q: seq<nat>, x: nat, i: nat)
    ensures At(q + [x], i + 1) == if i + 1 < |q| then At(q, i + 1) else if i + 1 == |q| then x else 0
  {
  }

  // ----- Free lists -----

  /** The free slots of the slab at `a`: as many as its header says, its own, and linked. */
  ghost predicate Listed(g: Shape, a: nat, s: Slab, next: map<nat, nat>, q: seq<nat>)
    requires g.size > 0
  {
    && s.total == g.total && s.freeCount == |q| <= g.total
    && Linked(next, s.freeList, q)
    && forall i :: 0 <= i < |q| ==> IsSlot(g, a, q[i])
  }

  /** Every slab of the cache keeps its free slots. */
  ghost predicate Slots(g: Shape, slabs: map<nat, Slab>, next: map<nat, nat>, frees: map<nat, seq<nat>>)
    requires g.size > 0
  {
    frees.Keys == slabs.Keys && forall a <- slabs :: Listed(g, a, slabs[a], next, frees[a])
  }

  /** `x` is handed out: a slot of a slab that is not free there. */
  ghost predicate Live(g: Shape, frees: map<nat, seq<nat>>, x: nat)
    requires g.size > 0
  {
    exists a :: a in frees && IsSlot(g, a, x) && x !in frees[a]
  }

  /** What is handed out when slab `a` gets the free slots `q`. */
  lemma LiveAfter(g: Shape, slabs: map<nat, Slab>, frees: map<nat, seq<nat>>, a: nat, q: seq<nat>, x: nat)
    requires Sound(g) && Apart(g, slabs) && frees.Keys == slabs.Keys && a in slabs
    ensures IsSlot(g, a, x) ==> (Live(g, frees[a := q], x) <==> x !in q) && (Live(g, frees, x) <==> x !in frees[a])
    ensures !IsSlot(g, a, x) ==> (Live(g, frees[a := q], x) <==> Live(g, frees, x))
  {
    if IsSlot(g, a, x) {
      forall b | b in slabs && IsSlot(g, b, x) ensures b == a { OneSlab(g, slabs, a, b, x); }
      if x !in q { assert a in frees[a := q]; }
    } else if Live(g, frees, x) {
      var b :| b in frees && IsSlot(g, b, x) && x !in frees[b];
      assert b in frees[a := q];
    }
  }

  /** A slot of one slab is linked; the lists of the other slabs stay. */
  lemma SlotsFrame(
    g: Shape, slabs: map<nat, Slab>, next: map<nat, nat>, frees: map<nat, seq<nat>>, a: nat, x: nat, y: nat)
    requires Sound(g) && Apart(g, slabs) && Slots(g, slabs, next, frees) && a in slabs && IsSlot(g, a, x)
    ensures forall b <- slabs :: b != a ==> Listed(g, b, slabs[b], next[x := y], frees[b])
  {
    forall b | b in slabs && b != a ensures Listed(g, b, slabs[b], next[x := y], frees[b]) {
      assert Listed(g, b, slabs[b], next, frees[b]);
      if x in frees[b] {
        OneSlab(g, slabs, a, b, x);
        assert false;
      }
      LinkedFrame(next, slabs[b].freeList, frees[b], x, y);
    }
  }

  /** A slab added: its free list was made in its own block. */
  lemma AddSlab(g: Shape, slabs: map<nat, Slab>, next: map<nat, nat>, frees: map<nat, seq<nat>>,
                a: nat, s: Slab, next': map<nat, nat>, q: seq<nat>)
    requires Sound(g) && Apart(g, slabs[a := s]) && a !in slabs && Slots(g, slabs, next, frees)
    requires Listed(g, a, s, next', q)
    requires forall x :: x in next && !IsSlot(g, a, x) ==> x in next' && next'[x] == next[x]
    ensures Slots(g, slabs[a := s], next', frees[a := q])
  {
    forall b | b in slabs ensures Listed(g, b, slabs[b], next', frees[b]) {
      assert Listed(g, b, slabs[b], next, frees[b]);
      var q := frees[b];
      forall i | 0 <= i < |q| ensures !IsSlot(g, a, q[i]) {
        if IsSlot(g, a, q[i]) {
          OneSlab(g, slabs[a := s], a, b, q[i]);
          assert false;
        }
      }
      hide At;
    }
  }

  /** `slab_alloc`: the first free slot of the slab goes out. */
  lemma TakeSlot(g: Shape, slabs: map<nat, Slab>, next: map<nat, nat>, frees: map<nat, seq<nat>>, a: nat)
    requires Sound(g) && Apart(g, slabs) && Slots(g, slabs, next, frees) && a in slabs && frees[a] != []
    ensures var s, q := slabs[a], frees[a];
      && s.freeCount > 0 && s.freeList == q[0] && s.freeList in next && IsSlot(g, a, q[0]) && q[0] > 0
      && Slots(g, slabs[a := Slab(s.total, s.freeCount - 1, next[s.freeList])], next, frees[a := q[1..]])
  {
    assert Listed(g, a, slabs[a], next, frees[a]);
    LinkedPop(next, slabs[a].freeList, frees[a]);
  }

  /** `slab_free`: a slot that was out becomes the first free one. */
  lemma GiveSlot(g: Shape, slabs: map<nat, Slab>, next: map<nat, nat>, frees: map<nat, seq<nat>>, a: nat, x: nat)
    requires Sound(g) && Apart(g, slabs) && Slots(g, slabs, next, frees) && a in slabs && IsSlot(g, a, x)
    requires x !in frees[a]
    ensures var s := slabs[a];
      Slots(g, slabs[a := Slab(s.total, s.freeCount + 1, x)], next[x := s.freeList], frees[a := [x] + frees[a]])
  {
    var s := slabs[a];
    assert Listed(g, a, s, next, frees[a]);
    SlotsFrame(g, slabs, next, frees, a, x, s.freeList);
    LinkedPush(next, s.freeList, frees[a], x);
    RoomFor(g, a, frees[a], x);
    forall i | 0 <= i < |[x] + frees[a]| ensures IsSlot(g, a, ([x] + frees[a])[i]) {
    }
  }

  /** Freeing a slot that is free already: the list that starts at it comes back to it. */
  lemma {:induction false} Around(next: map<nat, nat>, head: nat, q: seq<nat>, x: nat, k: nat, p: seq<nat>, i: nat)
    requires Linked(next, head, q) && k < |q| && q[k] == x && Linked(next[x := head], x, p) && i <= k
    ensures i + 1 < |p| && p[i + 1] == q[i]
  {
    var n := next[x := head];
    assert p != [] && p[0] == x && head == q[0];
    if i == 0 {
      assert n[p[0]] == At(p, 1);
    } else {
      Around(next, head, q, x, k, p, i - 1);
      assert q[i - 1] != x && next[q[i - 1]] == At(q, i);
      assert n[p[i]] == At(p, i + 1);
    }
  }

  /** Exactly: pushing slot `x` of slab `a` leaves a list that ends if and only if `x` was
      not on it. */
  lemma {:induction false} GiveSlotExact(
    g: Shape, slabs: map<nat, Slab>, next: map<nat, nat>, frees: map<nat, seq<nat>>, a: nat, x: nat)
    requires Sound(g) && Slots(g, slabs, next, frees) && a in slabs && IsSlot(g, a, x)
    ensures Ends(next[x := slabs[a].freeList], x) <==> x !in frees[a]
  {
    var head, q := slabs[a].freeList, frees[a];
    assert Listed(g, a, slabs[a], next, q);
    hide IsSlot, Listed, Slots;
    if x in q {
      var k :| 0 <= k < |q| && q[k] == x;
      if Ends(next[x := head], x) {
        var p :| Linked(next[x := head], x, p);
        Around(next, head, q, x, k, p, k);
      }
    } else {
      assert x > 0 by { SlotPositive(g, a, x); }
      LinkedPush(next, head, q, x);
    }
  }

  lemma SlotPositive(g: Shape, a: nat, x: nat)
    requires g.size > 0 && IsSlot(g, a, x)
    ensures x > 0
  {
  }

  /** Distinct slots of a slab are no more than its total. */
  lemma RoomFor(g: Shape, a: nat, q: seq<nat>, x: nat)
    requires Sound(g) && NoRepeat(q) && IsSlot(g, a, x) && x !in q && forall i :: 0 <= i < |q| ==> IsSlot(g, a, q[i])
    ensures |q| < g.total
  {
    var p := [x] + q;
    var ks := seq(|p|, i requires 0 <= i < |p| => SlotNumber(g, a, p[i]));
    forall i, j | 0 <= i < j < |ks| ensures ks[i] != ks[j] {
      SlotNumberExact(g, a, p[i]);
      SlotNumberExact(g, a, p[j]);
    }
    forall i | 0 <= i < |ks| ensures ks[i] in Below(g.total) {
      SlotNumberExact(g, a, p[i]);
    }
    Pigeons(ks, Below(g.total));
  }

  function SlotNumber(g: Shape, a: nat, x: nat): nat
    requires g.size > 0
  {
    if x < a + HEADER then 0 else (x - (a + HEADER)) / g.size
  }

  lemma SlotNumberExact(g: Shape, a: nat, x: nat)
    requires g.size > 0 && IsSlot(g, a, x)
    ensures x == a + HEADER + SlotNumber(g, a, x) * g.size && SlotNumber(g, a, x) < g.total
  {
    Quotient(x - (a + HEADER), g.size, g.total);
  }

  lemma Quotient(d: nat, size: nat, total: nat)
    requires size > 0 && d % size == 0 && d < size * total
    ensures d == d / size * size && d / size < total
  {
    assert d == d / size * size;
  }

  // ----- Lists of slabs -----

  /** Where a slab belongs. A slab of one slot that is out is on the list of the partial
      slabs: no call moves it on. */
  function Class(s: Slab): List {
    if s.freeCount == s.total then Empty else if s.freeCount == 0 && s.total > 1 then Full else Partial
  }

  ghost predicate Chains(next: map<nat, nat>, heads: map<List, nat>, lists: map<List, seq<nat>>) {
    forall w: List :: w in heads && w in lists && Linked(next, heads[w], lists[w])
  }

  /** Every slab is on the list for its class and on no other, but `a`, which is on
      list `l`. */
  ghost predicate Placed(slabs: map<nat, Slab>, lists: map<List, seq<nat>>, a: nat, l: List) {
    forall w: List, b: nat {:trigger b in lists[w]} ::
      w in lists ==> (b in lists[w] <==> b in slabs && (w == if b == a then l else Class(slabs[b])))
  }

  /** Every slab is on the list for its class and on no other. */
  ghost predicate Sorted(slabs: map<nat, Slab>, lists: map<List, seq<nat>>) {
    forall w: List, b: nat {:trigger b in lists[w]} ::
      w in lists ==> (b in lists[w] <==> b in slabs && w == Class(slabs[b]))
  }

  /** The lists with slab `i` of `from` moved to the front of `to`. */
  ghost function Moved(lists: map<List, seq<nat>>, from: List, to: List, i: nat): map<List, seq<nat>>
    requires from in lists && to in lists && i < |lists[from]|
  {
    lists[from := Without(lists[from], i)][to := [lists[from][i]] + lists[to]]
  }

  lemma MovedPlaced(slabs: map<nat, Slab>, lists: map<List, seq<nat>>, from: List, to: List, i: nat)
    requires from in lists && to in lists && from != to && i < |lists[from]| && NoRepeat(lists[from])
    requires Placed(slabs, lists, lists[from][i], from) && lists[from][i] in slabs && Class(slabs[lists[from][i]]) == to
    ensures Sorted(slabs, Moved(lists, from, to, i))
  {
    var a, m := lists[from][i], Moved(lists, from, to, i);
    forall w: List, b: nat | w in m ensures b in m[w] <==> b in slabs && w == Class(slabs[b]) {
      WithoutExact(lists[from], i, b);
      assert b in lists[w] <==> b in slabs && (w == if b == a then from else Class(slabs[b]));
      if w == to { assert b in m[w] <==> b == a || b in lists[w]; }
    }
  }

  /** No node is on two lists. */
  ghost predicate Separate(lists: map<List, seq<nat>>) {
    forall v: List, w: List, b: nat {:trigger b in lists[v], b in lists[w]} ::
      v in lists && w in lists && v != w && b in lists[v] ==> b !in lists[w]
  }

  lemma PlacedSeparate(slabs: map<nat, Slab>, lists: map<List, seq<nat>>, a: nat, l: List)
    requires Placed(slabs, lists, a, l)
    ensures Separate(lists)
  {
  }

  lemma UnlinkFirst(next: map<nat, nat>, heads: map<List, nat>, lists: map<List, seq<nat>>, from: List)
    requires Chains(next, heads, lists) && from in lists && lists[from] != []
    ensures from in heads && heads[from] == lists[from][0] && heads[from] in next
    ensures Chains(next, heads[from := next[heads[from]]], lists[from := Without(lists[from], 0)])
  {
    LinkedPop(next, heads[from], lists[from]);
    assert Without(lists[from], 0) == lists[from][1..];
    hide Linked, Without;
  }

  lemma UnlinkLater(next: map<nat, nat>, heads: map<List, nat>, lists: map<List, seq<nat>>, from: List, i: nat)
    requires Chains(next, heads, lists) && Separate(lists) && from in lists && 0 < i < |lists[from]|
    ensures lists[from][i] in next
    ensures Chains(next[lists[from][i - 1] := next[lists[from][i]]], heads, lists[from := Without(lists[from], i)])
  {
    var p := lists[from][i - 1];
    LinkedCut(next, heads[from], lists[from], i);
    assert p in lists[from];
    hide Linked, Without;
    forall w: List | w != from ensures Linked(next[p := next[lists[from][i]]], heads[w], lists[w]) {
      assert p !in lists[w];
      LinkedFrame(next, heads[w], lists[w], p, next[lists[from][i]]);
    }
  }

  lemma LinkFirst(next: map<nat, nat>, heads: map<List, nat>, lists: map<List, seq<nat>>, to: List, a: nat)
    requires Chains(next, heads, lists) && a > 0 && forall w: List :: w in lists ==> a !in lists[w]
    ensures to in heads && to in lists && Chains(next[a := heads[to]], heads[to := a], lists[to := [a] + lists[to]])
  {
    LinkedPush(next, heads[to], lists[to], a);
    hide Linked;
    forall w: List | w != to ensures Linked(next[a := heads[to]], heads[w], lists[w]) {
      LinkedFrame(next, heads[w], lists[w], a, heads[to]);
    }
  }

  lemma RemovedEverywhere(lists: map<List, seq<nat>>, from: List, i: nat)
    requires Separate(lists) && from in lists && i < |lists[from]| && NoRepeat(lists[from])
    ensures forall w: List :: w in lists ==> lists[from][i] !in lists[from := Without(lists[from], i)][w]
  {
    var a := lists[from][i];
    assert a in lists[from];
    WithoutExact(lists[from], i, a);
  }

  // ----- What a step does to the objects handed out -----

  /** Exactly `x` has been handed out besides what was. */
  ghost predicate HandedOut(g: Shape, frees: map<nat, seq<nat>>, frees': map<nat, seq<nat>>, x: nat)
    requires g.size > 0
  {
    !Live(g, frees, x) && forall y: nat {:trigger Live(g, frees', y)} ::
      Live(g, frees', y) <==> Live(g, frees, y) || y == x
  }

  /** Exactly `x` has been given back of what was handed out. */
  ghost predicate GivenBack(g: Shape, frees: map<nat, seq<nat>>, frees': map<nat, seq<nat>>, x: nat)
    requires g.size > 0
  {
    Live(g, frees, x) && forall y: nat {:trigger Live(g, frees', y)} ::
      Live(g, frees', y) <==> Live(g, frees, y) && y != x
  }

  lemma TakeLive(g: Shape, slabs: map<nat, Slab>, next: map<nat, nat>, frees: map<nat, seq<nat>>, a: nat)
    requires Sound(g) && Apart(g, slabs) && Slots(g, slabs, next, frees) && a in slabs && frees[a] != []
    ensures HandedOut(g, frees, frees[a := frees[a][1..]], frees[a][0])
  {
    var q := frees[a];
    assert Listed(g, a, slabs[a], next, q) && IsSlot(g, a, q[0]);
    forall y: nat ensures Live(g, frees[a := q[1..]], y) <==> Live(g, frees, y) || y == q[0] {
      LiveAfter(g, slabs, frees, a, q[1..], y);
      assert y in q <==> y == q[0] || y in q[1..];
    }
    LiveAfter(g, slabs, frees, a, q[1..], q[0]);
  }

  lemma GiveLive(g: Shape, slabs: map<nat, Slab>, frees: map<nat, seq<nat>>, a: nat, x: nat)
    requires Sound(g) && Apart(g, slabs) && frees.Keys == slabs.Keys && a in slabs && IsSlot(g, a, x) && x !in frees[a]
    ensures GivenBack(g, frees, frees[a := [x] + frees[a]], x)
  {
    var q := [x] + frees[a];
    forall y: nat ensures Live(g, frees[a := q], y) <==> Live(g, frees, y) && y != x {
      LiveAfter(g, slabs, frees, a, q, y);
    }
    LiveAfter(g, slabs, frees, a, q, x);
  }

  /** A slab of free slots adds nothing handed out. */
  lemma AddLive(g: Shape, slabs: map<nat, Slab>, frees: map<nat, seq<nat>>, a: nat, s: Slab, q: seq<nat>)
    requires Sound(g) && Apart(g, slabs[a := s]) && frees.Keys == slabs.Keys && a !in slabs
    requires forall x: nat :: IsSlot(g, a, x) ==> x in q
    ensures forall y: nat {:trigger Live(g, frees[a := q], y)} :: Live(g, frees[a := q], y) <==> Live(g, frees, y)
  {
    forall y: nat ensures Live(g, frees[a := q], y) <==> Live(g, frees, y) {
      if Live(g, frees, y) {
        var b :| b in frees && IsSlot(g, b, y) && y !in frees[b];
        assert b in frees[a := q] && frees[a := q][b] == frees[b];
      }
    }
  }

  // ----- What a step does to the lists -----

  lemma Reclassed(slabs: map<nat, Slab>, lists: map<List, seq<nat>>, a: nat, s: Slab)
    requires Sorted(slabs, lists) && a in slabs
    ensures Placed(slabs[a := s], lists, a, Class(slabs[a]))
    ensures Class(s) == Class(slabs[a]) ==> Sorted(slabs[a := s], lists)
  {
  }

  lemma AddedSorted(slabs: map<nat, Slab>, lists: map<List, seq<nat>>, a: nat, s: Slab)
    requires Sorted(slabs, lists) && a !in slabs && Class(s) in lists
    ensures Sorted(slabs[a := s], lists[Class(s) := [a] + lists[Class(s)]])
  {
    var m := lists[Class(s) := [a] + lists[Class(s)]];
    forall w: List, b: nat | w in m ensures b in m[w] <==> b in slabs[a := s] && w == Class(slabs[a := s][b]) {
      assert b in lists[w] <==> b in slabs && w == Class(slabs[b]);
    }
  }
}
