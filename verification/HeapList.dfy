/** The free list of the user heap as a sorted list of blocks, and what `free` and
    `malloc` do to it (user/umalloc.c). Addresses count units of one header. */
module HeapList {

  datatype Block = Block(addr: nat, size: nat)

  predicate Covers(b: Block, x: nat) {
    b.addr <= x < b.addr + b.size
  }

  /** `x` lies in one of the blocks. */
  ghost predicate InSome(bs: seq<Block>, x: nat) {
    exists i :: 0 <= i < |bs| && Covers(bs[i], x)
  }

  /** The list from `base` on: addresses ascend and no two blocks touch; only
      `base`, which never leaves the list, is empty. */
  predicate Sorted(bs: seq<Block>) {
    && |bs| > 0 && bs[0].size == 0
    && (forall i :: 0 <= i < |bs| - 1 ==> bs[i].addr + bs[i].size < bs[i + 1].addr)
    && (forall i :: 0 < i < |bs| ==> bs[i].size > 0)
  }

  lemma {:induction false} Ascending(bs: seq<Block>, i: nat, j: nat)
    requires Sorted(bs) && i < j < |bs|
    ensures bs[i].addr + bs[i].size < bs[j].addr
    decreases j
  {
    if i + 1 < j {
      Ascending(bs, i, j - 1);
    }
  }

  // ----- free -----

  /** The last block below address `a`: where the search of `free` stops. */
  function Position(bs: seq<Block>, a: nat): (j: nat)
    requires |bs| > 0
    ensures j < |bs|
    ensures j > 0 ==> bs[j].addr < a
    ensures j + 1 < |bs| ==> bs[j + 1].addr >= a
  {
    if |bs| > 1 && bs[1].addr < a then 1 + Position(bs[1..], a) else 0
  }

  /** Block `b` goes after position `j`, merged with its upper neighbour when they
      touch. */
  function JoinUp(bs: seq<Block>, j: nat, b: Block): (r: seq<Block>)
    requires j < |bs|
    ensures |r| > j + 1
  {
    if j + 1 < |bs| && b.addr + b.size == bs[j + 1].addr
    then bs[j + 1 := Block(b.addr, b.size + bs[j + 1].size)]
    else bs[..j + 1] + [b] + bs[j + 1..]
  }

  /** The blocks at `j` and `j + 1` merged when they touch. */
  function JoinDown(bs: seq<Block>, j: nat): (r: seq<Block>)
    requires j + 1 < |bs|
    ensures |r| > j
  {
    if bs[j].addr + bs[j].size == bs[j + 1].addr
    then bs[..j] + [Block(bs[j].addr, bs[j].size + bs[j + 1].size)] + bs[j + 2..]
    else bs
  }

  /** `free`: the block is inserted by address and merged on both sides. */
  function Freed(bs: seq<Block>, b: Block): seq<Block>
    requires |bs| > 0
  {
    var j := Position(bs, b.addr);
    JoinDown(JoinUp(bs, j, b), j)
  }

  /** A block that can be freed: not empty, above `base`, meeting no free block. */
  ghost predicate Freeable(bs: seq<Block>, b: Block) {
    && |bs| > 0 && b.size > 0 && b.addr > bs[0].addr
    && (forall i :: 0 < i < |bs| ==> b.addr + b.size <= bs[i].addr || bs[i].addr + bs[i].size <= b.addr)
  }

  /** Sorted, except that the blocks at `j` and `j + 1` may touch. */
  predicate SortedBut(bs: seq<Block>, j: nat) {
    && |bs| > j + 1 && bs[0].size == 0 && bs[j].addr + bs[j].size <= bs[j + 1].addr
    && bs[0].addr < bs[1].addr
    && (forall i :: 0 <= i < |bs| - 1 && i != j ==> bs[i].addr + bs[i].size < bs[i + 1].addr)
    && (forall i :: 0 < i < |bs| ==> bs[i].size > 0)
  }

  /** The block fits between its neighbours at `j` and `j + 1`. */
  predicate Between(bs: seq<Block>, j: nat, b: Block) {
    && j < |bs| && b.size > 0 && bs[0].addr < b.addr && bs[j].addr + bs[j].size <= b.addr
    && (j + 1 < |bs| ==> b.addr + b.size <= bs[j + 1].addr)
  }

  lemma {:induction false} FoundBetween(bs: seq<Block>, b: Block)
    requires Sorted(bs) && Freeable(bs, b)
    ensures Between(bs, Position(bs, b.addr), b)
  {
    hide Position;
    var j := Position(bs, b.addr);
    assert j + 1 < |bs| ==> b.addr + b.size <= bs[j + 1].addr;
    assert j > 0 ==> bs[j].addr + bs[j].size <= b.addr;
  }

  lemma {:induction false} MergeSorted(bs: seq<Block>, j: nat, b: Block)
    requires Sorted(bs) && Between(bs, j, b) && j + 1 < |bs| && b.addr + b.size == bs[j + 1].addr
    ensures SortedBut(bs[j + 1 := Block(b.addr, b.size + bs[j + 1].size)], j)
  {
    var r := bs[j + 1 := Block(b.addr, b.size + bs[j + 1].size)];
    forall i | 0 <= i < |r| - 1 && i != j
      ensures r[i].addr + r[i].size < r[i + 1].addr
    {
      assert bs[i].addr + bs[i].size < bs[i + 1].addr;
    }
  }

  lemma {:induction false} InsertSorted(bs: seq<Block>, j: nat, b: Block)
    requires Sorted(bs) && Between(bs, j, b) && (j + 1 < |bs| ==> b.addr + b.size != bs[j + 1].addr)
    ensures SortedBut(bs[..j + 1] + [b] + bs[j + 1..], j)
  {
    var r := bs[..j + 1] + [b] + bs[j + 1..];
    forall i | 0 < i < |r|
      ensures r[i].size > 0
    {
      assert r[i] == if i <= j then bs[i] else if i == j + 1 then b else bs[i - 1];
    }
    forall i | 0 <= i < |r| - 1 && i != j
      ensures r[i].addr + r[i].size < r[i + 1].addr
    {
      if i < j {
        assert bs[i].addr + bs[i].size < bs[i + 1].addr;
      } else if i > j + 1 {
        assert bs[i - 1].addr + bs[i - 1].size < bs[i].addr;
        assert r[i] == bs[i - 1] && r[i + 1] == bs[i];
      }
    }
    assert j > 0 ==> bs[0].addr + bs[0].size < bs[1].addr && r[1] == bs[1];
  }

  lemma {:induction false} JoinUpSorted(bs: seq<Block>, b: Block)
    requires Sorted(bs) && Freeable(bs, b)
    ensures var j := Position(bs, b.addr);
            SortedBut(JoinUp(bs, j, b), j) && JoinUp(bs, j, b)[0] == bs[0]
  {
    hide Position, SortedBut;
    var j := Position(bs, b.addr);
    FoundBetween(bs, b);
    hide Sorted, Freeable;
    if j + 1 < |bs| && b.addr + b.size == bs[j + 1].addr {
      MergeSorted(bs, j, b);
    } else {
      InsertSorted(bs, j, b);
    }
  }

  lemma {:induction false} JoinDownSorted(bs: seq<Block>, j: nat)
    requires SortedBut(bs, j)
    ensures Sorted(JoinDown(bs, j)) && JoinDown(bs, j)[0] == bs[0]
  {
    if bs[j].addr + bs[j].size == bs[j + 1].addr {
      var r := JoinDown(bs, j);
      forall i | 0 <= i < |r| - 1
        ensures r[i].addr + r[i].size < r[i + 1].addr
      {
        if i < j {
          assert bs[i].addr + bs[i].size < bs[i + 1].addr;
        } else {
          assert bs[i + 1].addr + bs[i + 1].size < bs[i + 2].addr;
        }
      }
    }
  }

  /** Freeing keeps the list sorted, with no two blocks touching. */
  lemma {:induction false} FreedSorted(bs: seq<Block>, b: Block)
    requires Sorted(bs) && Freeable(bs, b)
    ensures Sorted(Freed(bs, b)) && Freed(bs, b)[0] == bs[0]
  {
    JoinUpSorted(bs, b);
    JoinDownSorted(JoinUp(bs, Position(bs, b.addr), b), Position(bs, b.addr));
  }

  lemma InSomeConcat(a: seq<Block>, b: seq<Block>, x: nat)
    ensures InSome(a + b, x) <==> InSome(a, x) || InSome(b, x)
  {
    if InSome(a, x) {
      var i :| 0 <= i < |a| && Covers(a[i], x);
      assert Covers((a + b)[i], x);
    }
    if InSome(b, x) {
      var i :| 0 <= i < |b| && Covers(b[i], x);
      assert Covers((a + b)[|a| + i], x);
    }
  }

  lemma InSomeOne(b: Block, x: nat)
    ensures InSome([b], x) <==> Covers(b, x)
  {
    if Covers(b, x) {
      assert Covers([b][0], x);
    }
  }

  lemma {:induction false} JoinUpUnits(bs: seq<Block>, j: nat, b: Block, x: nat)
    requires j < |bs|
    ensures InSome(JoinUp(bs, j, b), x) <==> InSome(bs, x) || Covers(b, x)
  {
    hide InSome;
    if j + 1 < |bs| && b.addr + b.size == bs[j + 1].addr {
      var r := JoinUp(bs, j, b);
      Cut(bs, j + 1, x);
      Cut(r, j + 1, x);
      assert r[..j + 1] == bs[..j + 1] && r[j + 2..] == bs[j + 2..];
    } else {
      InSomeConcat(bs[..j + 1] + [b], bs[j + 1..], x);
      InSomeConcat(bs[..j + 1], [b], x);
      InSomeOne(b, x);
      assert bs == bs[..j + 1] + bs[j + 1..];
      InSomeConcat(bs[..j + 1], bs[j + 1..], x);
    }
  }

  lemma {:induction false} JoinDownUnits(bs: seq<Block>, j: nat, x: nat)
    requires j + 1 < |bs|
    ensures InSome(JoinDown(bs, j), x) <==> InSome(bs, x)
  {
    hide InSome;
    if bs[j].addr + bs[j].size == bs[j + 1].addr {
      var low := Block(bs[j].addr, bs[j].size + bs[j + 1].size);
      InSomeConcat(bs[..j] + [low], bs[j + 2..], x);
      InSomeConcat(bs[..j], [low], x);
      InSomeOne(low, x);
      Cut(bs, j, x);
      Cut(bs[j + 1..], 0, x);
      assert bs[j + 1..][..0] == [] && bs[j + 1..][1..] == bs[j + 2..];
      Nowhere(x);
    }
  }

  lemma Nowhere(x: nat)
    ensures !InSome([], x)
  {
  }

  /** Freeing adds exactly the units of the block: merging loses and duplicates
      nothing. */
  lemma {:induction false} FreedUnits(bs: seq<Block>, b: Block, x: nat)
    requires |bs| > 0
    ensures InSome(Freed(bs, b), x) <==> InSome(bs, x) || Covers(b, x)
  {
    var j := Position(bs, b.addr);
    JoinUpUnits(bs, j, b, x);
    JoinDownUnits(JoinUp(bs, j, b), j, x);
  }

  lemma Cut(bs: seq<Block>, j: nat, x: nat)
    requires j < |bs|
    ensures InSome(bs, x) <==> InSome(bs[..j], x) || Covers(bs[j], x) || InSome(bs[j + 1..], x)
  {
    assert bs == bs[..j] + ([bs[j]] + bs[j + 1..]);
    InSomeConcat(bs[..j], [bs[j]] + bs[j + 1..], x);
    InSomeConcat([bs[j]], bs[j + 1..], x);
    InSomeOne(bs[j], x);
  }

  // ----- malloc -----

  /** The first block of at least `n` units among the `k` that follow index `i` in
      circular order; `|bs|` when there is none. */
  function FirstFit(bs: seq<Block>, i: nat, k: nat, n: nat): (r: nat)
    requires i < |bs|
    ensures r <= |bs| && (r < |bs| ==> bs[r].size >= n)
    decreases k
  {
    if k == 0 then |bs|
    else
      var next := if i + 1 < |bs| then i + 1 else 0;
      if bs[next].size >= n then next else FirstFit(bs, next, k - 1, n)
  }

  function Before(bs: seq<Block>, i: nat): (r: nat)
    requires i < |bs|
    ensures r < |bs|
  {
    if i > 0 then i - 1 else |bs| - 1
  }

  /** Taking `n` units from block `i`: all of it, or its upper end. */
  function Taken(bs: seq<Block>, i: nat, n: nat): seq<Block>
    requires i < |bs| && bs[i].size >= n
  {
    if bs[i].size == n then bs[..i] + bs[i + 1..] else bs[i := Block(bs[i].addr, bs[i].size - n)]
  }

  function TakenBlock(bs: seq<Block>, i: nat, n: nat): Block
    requires i < |bs| && bs[i].size >= n
  {
    Block(bs[i].addr + bs[i].size - n, n)
  }

  lemma {:induction false} TakenSorted(bs: seq<Block>, i: nat, n: nat)
    requires Sorted(bs) && i < |bs| && bs[i].size >= n > 0
    ensures Sorted(Taken(bs, i, n)) && Taken(bs, i, n)[0] == bs[0]
  {
    if bs[i].size == n && i + 1 < |bs| {
      Ascending(bs, i - 1, i + 1);
    }
  }

  /** Allocating removes exactly the units of the block returned. */
  lemma {:induction false} TakenUnits(bs: seq<Block>, i: nat, n: nat, x: nat)
    requires Sorted(bs) && i < |bs| && bs[i].size >= n > 0
    ensures InSome(Taken(bs, i, n), x) <==> InSome(bs, x) && !Covers(TakenBlock(bs, i, n), x)
  {
    Cut(bs, i, x);
    if bs[i].size == n {
      InSomeConcat(bs[..i], bs[i + 1..], x);
    } else {
      var less := Block(bs[i].addr, bs[i].size - n);
      Cut(bs[i := less], i, x);
      assert bs[i := less][..i] == bs[..i] && bs[i := less][i + 1..] == bs[i + 1..];
    }
    Apart(bs, i, x);
  }

  /** A unit of block `i` is in no other block. */
  lemma {:induction false} Apart(bs: seq<Block>, i: nat, x: nat)
    requires Sorted(bs) && i < |bs|
    ensures Covers(bs[i], x) ==> !InSome(bs[..i], x) && !InSome(bs[i + 1..], x)
  {
    if Covers(bs[i], x) {
      forall k | 0 <= k < i
        ensures !Covers(bs[..i][k], x)
      {
        Ascending(bs, k, i);
      }
      var above := bs[i + 1..];
      forall k | 0 <= k < |above|
        ensures !Covers(above[k], x)
      {
        Ascending(bs, i, i + 1 + k);
      }
    }
  }

  /** The index `d` places after `i` in circular order. */
  function Around(m: nat, i: nat, d: nat): nat
    requires i < m && d <= m
  {
    if i + d < m then i + d else i + d - m
  }

  /** A search that finds nothing has passed only blocks that are too small. */
  lemma {:induction false} FirstFitMisses(bs: seq<Block>, i: nat, k: nat, n: nat, d: nat)
    requires i < |bs| && k <= |bs| && FirstFit(bs, i, k, n) == |bs| && 1 <= d <= k
    ensures bs[Around(|bs|, i, d)].size < n
    decreases k
  {
    var next := if i + 1 < |bs| then i + 1 else 0;
    if d > 1 {
      FirstFitMisses(bs, next, k - 1, n, d - 1);
    }
  }

  /** A whole turn finds a block whenever one is large enough. */
  lemma {:induction false} FirstFitFinds(bs: seq<Block>, i: nat, n: nat, t: nat)
    requires i < |bs| && t < |bs| && bs[t].size >= n
    ensures FirstFit(bs, i, |bs|, n) < |bs|
  {
    if FirstFit(bs, i, |bs|, n) == |bs| {
      var d := if t > i then t - i else t - i + |bs|;
      FirstFitMisses(bs, i, |bs|, n, d);
    }
  }

  /** After a block has been freed, some free block is at least as large. */
  lemma {:induction false} FreedHasRoom(bs: seq<Block>, b: Block) returns (t: nat)
    requires |bs| > 0
    ensures t < |Freed(bs, b)| && Freed(bs, b)[t].size >= b.size
  {
    var j := Position(bs, b.addr);
    var up := JoinUp(bs, j, b);
    assert up[j + 1].size >= b.size;
    t := if up[j].addr + up[j].size == up[j + 1].addr then j else j + 1;
  }

  /** The block that the search of `free` stopped at keeps its index and address. */
  lemma {:induction false} FreedKeepsPosition(bs: seq<Block>, b: Block)
    requires |bs| > 0
    ensures var j := Position(bs, b.addr);
            j < |Freed(bs, b)| && Freed(bs, b)[j].addr == bs[j].addr
  {
  }

  lemma {:induction false} PositionUnique(bs: seq<Block>, a: nat, j: nat)
    requires Sorted(bs) && j < |bs| && bs[j].addr < a && (j + 1 < |bs| ==> a <= bs[j + 1].addr)
    ensures Position(bs, a) == j
  {
    hide Position;
    var k := Position(bs, a);
    if k < j {
      assert k + 1 < |bs| && bs[k + 1].addr >= a;
      if k + 1 < j {
        Ascending(bs, k + 1, j);
      }
    } else if j < k {
      if j + 1 < k {
        Ascending(bs, j + 1, k);
      }
    }
  }

  /** Freeing a block right after it was taken restores the free list exactly. */
  lemma {:induction false} TakeThenFree(bs: seq<Block>, i: nat, n: nat)
    requires Sorted(bs) && 0 < i < |bs| && bs[i].size >= n > 0
    ensures Freed(Taken(bs, i, n), TakenBlock(bs, i, n)) == bs
  {
    if bs[i].size == n {
      WholeBack(bs, i);
    } else {
      EndBack(bs, i, n);
    }
  }

  lemma {:induction false} WholeBack(bs: seq<Block>, i: nat)
    requires Sorted(bs) && 0 < i < |bs|
    ensures Freed(bs[..i] + bs[i + 1..], bs[i]) == bs
  {
    hide Position;
    var t := bs[..i] + bs[i + 1..];
    TakenSorted(bs, i, bs[i].size);
    assert i + 1 < |bs| ==> bs[i].addr + bs[i].size < bs[i + 1].addr;
    assert bs[i - 1].addr + bs[i - 1].size < bs[i].addr;
    assert t[i - 1] == bs[i - 1] && (i < |t| ==> t[i] == bs[i + 1]);
    PositionUnique(t, bs[i].addr, i - 1);
    hide Sorted;
    assert JoinUp(t, i - 1, bs[i]) == bs;
  }

  lemma {:induction false} EndBack(bs: seq<Block>, i: nat, n: nat)
    requires Sorted(bs) && 0 < i < |bs| && bs[i].size > n > 0
    ensures Freed(Taken(bs, i, n), TakenBlock(bs, i, n)) == bs
  {
    hide Position;
    var t, b := Taken(bs, i, n), TakenBlock(bs, i, n);
    TakenSorted(bs, i, n);
    assert i + 1 < |bs| ==> bs[i].addr + bs[i].size < bs[i + 1].addr && t[i + 1] == bs[i + 1];
    PositionUnique(t, b.addr, i);
    hide Sorted;
    var up := JoinUp(t, i, b);
    assert up == bs[..i] + [t[i], b] + bs[i + 1..];
    assert JoinDown(up, i) == bs;
  }
}
