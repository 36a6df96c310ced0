/** The user heap as it runs: headers in memory, chained in a circle and changed in
    place (user/umalloc.c). */
module HeapDevice {
  import opened HeapList
  import opened HeapRuns

  datatype Header = Header(ptr: nat, size: nat)

  function NextAddr(bs: seq<Block>, i: nat): nat
    requires i < |bs|
  {
    if i + 1 < |bs| then bs[i + 1].addr else bs[0].addr
  }

  predicate Links(mem: map<nat, Header>, bs: seq<Block>, i: nat)
    requires i < |bs|
  {
    bs[i].addr in mem && mem[bs[i].addr] == Header(NextAddr(bs, i), bs[i].size)
  }

  /** The headers form a circle through the blocks, in address order with one wrap. */
  ghost predicate Chained(mem: map<nat, Header>, bs: seq<Block>) {
    forall i {:trigger Links(mem, bs, i)} :: 0 <= i < |bs| ==> Links(mem, bs, i)
  }

  /** The header of an outstanding block keeps its size. */
  ghost predicate Sized(mem: map<nat, Header>, out: set<Block>) {
    forall o <- out :: o.addr in mem && mem[o.addr].size == o.size
  }

  /** All links are right but that of the block at `j`, whose size is. */
  ghost predicate ChainedBut(mem: map<nat, Header>, bs: seq<Block>, j: nat) {
    && j < |bs| && bs[j].addr in mem && mem[bs[j].addr].size == bs[j].size
    && forall i {:trigger Links(mem, bs, i)} :: 0 <= i < |bs| && i != j ==> Links(mem, bs, i)
  }

  lemma {:induction false} AscendingBut(bs: seq<Block>, j: nat, i: nat, k: nat)
    requires SortedBut(bs, j) && i < k < |bs|
    ensures bs[i].addr < bs[k].addr
    decreases k
  {
    assert k - 1 != j ==> bs[k - 1].addr + bs[k - 1].size < bs[k].addr;
    if i + 1 < k {
      AscendingBut(bs, j, i, k - 1);
    }
  }

  /** The header of the freed block, linked to what follows the predecessor at `p`
      or merged with it. */
  function UpHeader(mem: map<nat, Header>, p: nat, b: nat): Header
    requires p in mem && b in mem && mem[p].ptr in mem
  {
    var next := mem[p].ptr;
    if b + mem[b].size == next
    then Header(mem[next].ptr, mem[b].size + mem[next].size)
    else Header(next, mem[b].size)
  }

  /** The header of the predecessor, linked to the freed block or merged with it. */
  function DownHeader(mem: map<nat, Header>, p: nat, b: nat): Header
    requires p in mem && b in mem
  {
    if p + mem[p].size == b
    then Header(mem[b].ptr, mem[p].size + mem[b].size)
    else Header(b, mem[p].size)
  }

  lemma {:induction false} UpChain(mem: map<nat, Header>, bs: seq<Block>, b: Block)
    requires Sorted(bs) && Freeable(bs, b) && Chained(mem, bs)
    requires b.addr in mem && mem[b.addr].size == b.size
    ensures var j := Position(bs, b.addr);
            var p := bs[j].addr;
            && p in mem && mem[p].ptr in mem && p != b.addr
            && ChainedBut(mem[b.addr := UpHeader(mem, p, b.addr)], JoinUp(bs, j, b), j)
  {
    hide Position, Sorted, JoinUp;
    var j := Position(bs, b.addr);
    var p := bs[j].addr;
    assert Links(mem, bs, j);
    assert Links(mem, bs, if j + 1 < |bs| then j + 1 else 0);
    NotFree(bs, b, j);
    var after := mem[b.addr := UpHeader(mem, p, b.addr)];
    var up := JoinUp(bs, j, b);
    assert up[j].addr in after && after[up[j].addr].size == up[j].size by {
      UpShape(bs, j, b, j);
    }
    forall i | 0 <= i < |up| && i != j
      ensures Links(after, up, i)
    {
      UpLink(mem, bs, j, b, i);
    }
  }

  lemma {:induction false} UpReady(mem: map<nat, Header>, bs: seq<Block>, b: Block)
    requires Sorted(bs) && Freeable(bs, b) && Chained(mem, bs)
    requires b.addr in mem && mem[b.addr].size == b.size
    ensures var j := Position(bs, b.addr);
            var p, up := bs[j].addr, JoinUp(bs, j, b);
            && p in mem && mem[p].ptr in mem && p != b.addr
            && ChainedBut(mem[b.addr := UpHeader(mem, p, b.addr)], up, j)
            && SortedBut(up, j) && up[j].addr == p && up[j + 1].addr == b.addr
  {
    hide Position, SortedBut, Chained, ChainedBut;
    UpChain(mem, bs, b);
    JoinUpSorted(bs, b);
    UpShape(bs, Position(bs, b.addr), b, Position(bs, b.addr));
  }

  lemma LinkAt(mem: map<nat, Header>, bs: seq<Block>, i: nat)
    requires Chained(mem, bs) && i < |bs|
    ensures Links(mem, bs, i)
  {
  }

  lemma NotFree(bs: seq<Block>, b: Block, i: nat)
    requires Sorted(bs) && Freeable(bs, b) && i < |bs|
    ensures bs[i].addr != b.addr
  {
  }

  lemma UpShape(bs: seq<Block>, j: nat, b: Block, i: nat)
    requires j < |bs| && i <= j
    ensures JoinUp(bs, j, b)[i] == bs[i]
  {
  }

  lemma {:induction false} UpLink(mem: map<nat, Header>, bs: seq<Block>, j: nat, b: Block, i: nat)
    requires Sorted(bs) && Freeable(bs, b) && Chained(mem, bs) && j < |bs|
    requires b.addr in mem && mem[b.addr].size == b.size
    requires i < |JoinUp(bs, j, b)| && i != j
    requires bs[j].addr in mem && mem[bs[j].addr].ptr in mem
    ensures Links(mem[b.addr := UpHeader(mem, bs[j].addr, b.addr)], JoinUp(bs, j, b), i)
  {
    var merged := j + 1 < |bs| && b.addr + b.size == bs[j + 1].addr;
    var k := if i <= j || merged then i else i - 1;
    assert b.addr > bs[0].addr && |bs| > 0;
    NotFree(bs, b, k);
    hide Sorted, Freeable;
    assert Links(mem, bs, j) && Links(mem, bs, if j + 1 < |bs| then j + 1 else 0);
    assert Links(mem, bs, k);
    if merged {
      MergeLink(mem, bs, j, b, i);
    } else {
      InsertLink(mem, bs, j, b, i);
    }
  }

  lemma {:induction false} MergeLink(mem: map<nat, Header>, bs: seq<Block>, j: nat, b: Block, i: nat)
    requires j + 1 < |bs| && b.addr + b.size == bs[j + 1].addr && b.addr != bs[0].addr
    requires b.addr in mem && mem[b.addr].size == b.size
    requires i < |bs| && i != j && b.addr != bs[i].addr
    requires Links(mem, bs, i) && Links(mem, bs, j) && Links(mem, bs, j + 1)
    ensures var r := bs[j + 1 := Block(b.addr, b.size + bs[j + 1].size)];
            Links(mem[b.addr := UpHeader(mem, bs[j].addr, b.addr)], r, i)
  {
  }

  lemma {:induction false} InsertLink(mem: map<nat, Header>, bs: seq<Block>, j: nat, b: Block, i: nat)
    requires j < |bs| && (j + 1 < |bs| ==> b.addr + b.size != bs[j + 1].addr) && b.addr > bs[0].addr
    requires b.addr in mem && mem[b.addr].size == b.size
    requires i < |bs| + 1 && i != j && b.addr != bs[if i <= j then i else i - 1].addr
    requires Links(mem, bs, if i <= j then i else i - 1) && Links(mem, bs, j)
    requires mem[bs[j].addr].ptr in mem
    ensures var r := bs[..j + 1] + [b] + bs[j + 1..];
            Links(mem[b.addr := UpHeader(mem, bs[j].addr, b.addr)], r, i)
  {
    var r := bs[..j + 1] + [b] + bs[j + 1..];
    if i > j + 1 {
      assert r[i] == bs[i - 1] && NextAddr(r, i) == NextAddr(bs, i - 1);
    }
  }

  lemma {:induction false} DownChain(mem: map<nat, Header>, bs: seq<Block>, j: nat)
    requires SortedBut(bs, j) && ChainedBut(mem, bs, j)
    ensures bs[j + 1].addr in mem
    ensures Chained(mem[bs[j].addr := DownHeader(mem, bs[j].addr, bs[j + 1].addr)], JoinDown(bs, j))
  {
    assert Links(mem, bs, j + 1);
    var after := mem[bs[j].addr := DownHeader(mem, bs[j].addr, bs[j + 1].addr)];
    var r := JoinDown(bs, j);
    forall i | 0 <= i < |r|
      ensures Links(after, r, i)
    {
      DownLink(mem, bs, j, i);
    }
  }

  lemma {:induction false} DownLink(mem: map<nat, Header>, bs: seq<Block>, j: nat, i: nat)
    requires SortedBut(bs, j) && ChainedBut(mem, bs, j) && i < |JoinDown(bs, j)| && bs[j + 1].addr in mem
    ensures Links(mem[bs[j].addr := DownHeader(mem, bs[j].addr, bs[j + 1].addr)], JoinDown(bs, j), i)
  {
    var r := JoinDown(bs, j);
    assert Links(mem, bs, j + 1);
    var k := if i <= j || |r| == |bs| then i else i + 1;
    if k != j {
      assert Links(mem, bs, k);
      if k < j {
        AscendingBut(bs, j, k, j);
      } else {
        AscendingBut(bs, j, j, k);
      }
    }
  }

  // ----- The circular search of free -----

  /** How far the search still has to go, from index `k` to index `j`. */
  function Distance(m: nat, k: nat, j: nat): nat
    requires k < m && j < m
  {
    if k <= j then j - k else j - k + m
  }

  /** The two tests of the search succeed at the predecessor of `b` and nowhere
      else. */
  lemma {:induction false} StopsAtPosition(bs: seq<Block>, b: Block, k: nat)
    requires Sorted(bs) && Freeable(bs, b) && k < |bs|
    ensures var p, next := bs[k].addr, NextAddr(bs, k);
            ((b.addr > p && b.addr < next) || (p >= next && (b.addr > p || b.addr < next)))
            <==> k == Position(bs, b.addr)
  {
    hide Position;
    NotFree(bs, b, k);
    if k + 1 < |bs| {
      NotFree(bs, b, k + 1);
    } else if k > 0 {
      Ascending(bs, 0, k);
    }
    var j := Position(bs, b.addr);
    if bs[k].addr < b.addr && (k + 1 < |bs| ==> b.addr <= bs[k + 1].addr) {
      PositionUnique(bs, b.addr, k);
    }
  }

  // ----- The circular search of malloc -----

  /** Malloc removes block `i` from the chain ... */
  lemma {:induction false} UnlinkChain(mem: map<nat, Header>, bs: seq<Block>, i: nat)
    requires Sorted(bs) && Chained(mem, bs) && 0 < i < |bs|
    ensures Links(mem, bs, i) && Links(mem, bs, i - 1)
    ensures Chained(mem[bs[i - 1].addr := Header(mem[bs[i].addr].ptr, mem[bs[i - 1].addr].size)], bs[..i] + bs[i + 1..])
  {
    assert Links(mem, bs, i) && Links(mem, bs, i - 1);
    var r := bs[..i] + bs[i + 1..];
    var after := mem[bs[i - 1].addr := Header(mem[bs[i].addr].ptr, mem[bs[i - 1].addr].size)];
    forall k | 0 <= k < |r|
      ensures Links(after, r, k)
    {
      hide Sorted;
      var h := if k < i then k else k + 1;
      assert Links(mem, bs, h);
      if h != i - 1 {
        DistinctAddrs(bs, h, i - 1);
      }
    }
  }

  /** ... or shortens it. */
  lemma {:induction false} ShortenChain(mem: map<nat, Header>, bs: seq<Block>, i: nat, size: nat)
    requires Sorted(bs) && Chained(mem, bs) && i < |bs|
    ensures Links(mem, bs, i)
    ensures Chained(mem[bs[i].addr := Header(mem[bs[i].addr].ptr, size)], bs[i := Block(bs[i].addr, size)])
  {
    assert Links(mem, bs, i);
    var r := bs[i := Block(bs[i].addr, size)];
    var after := mem[bs[i].addr := Header(mem[bs[i].addr].ptr, size)];
    forall k | 0 <= k < |r|
      ensures Links(after, r, k)
    {
      hide Sorted;
      assert Links(mem, bs, k);
      if k != i {
        DistinctAddrs(bs, k, i);
      }
    }
  }

  lemma {:induction false} DistinctAddrs(bs: seq<Block>, i: nat, j: nat)
    requires Sorted(bs) && i < |bs| && j < |bs| && i != j
    ensures bs[i].addr != bs[j].addr
  {
    if i < j {
      Ascending(bs, i, j);
    } else {
      Ascending(bs, j, i);
    }
  }

  /** Headers written outside a chain leave it alone. */
  lemma ChainFrame(mem: map<nat, Header>, bs: seq<Block>, a: nat, h: Header)
    requires Chained(mem, bs) && forall i :: 0 <= i < |bs| ==> bs[i].addr != a
    ensures Chained(mem[a := h], bs)
  {
    var after := mem[a := h];
    forall i | 0 <= i < |bs|
      ensures Links(after, bs, i)
    {
      assert Links(mem, bs, i);
    }
  }

  /** An outstanding block and a free one have different headers. */
  lemma {:induction false} OutNotFree(base: nat, st: State, o: Block, i: nat)
    requires Inv(base, st) && o in st.out && i < |st.free|
    ensures st.free[i].addr != o.addr
  {
    if i > 0 {
      assert Covers(o, o.addr) && InOut(st.out, o.addr);
      assert Covers(st.free[i], st.free[i].addr);
      assert InSome(st.free, st.free[i].addr);
    }
  }

  /** The units of a request: its bytes rounded up to headers of 16 bytes, and one
      header more. */
  function Units(nbytes: nat): (n: nat)
    ensures n > 0
  {
    (nbytes + 15) / 16 + 1
  }

  class Heap {
    const base: nat             // the address of the static header `base`
    var mem: map<nat, Header>
    var freep: nat              // 0 before the first malloc
    ghost var st: State

    ghost predicate Valid()
      reads this
    {
      && base > 0 && Inv(base, st)
      && (if freep == 0 then st == Start(base)
          else freep == st.free[st.at].addr && Chained(mem, st.free))
      && Sized(mem, st.out)
    }

    constructor (base: nat)
      requires base > 0
      ensures Valid() && this.base == base && freep == 0
    {
      this.base := base;
      mem, freep, st := map[], 0, Start(base);
      new;
      HeapRun(base, [], st);
    }

    /** The search loop of `free`. It terminates: each step brings it closer, around
        the circle, to the one place where it stops. */
    method FindPlace(bp: nat) returns (p: nat)
      requires Valid() && freep != 0 && bp in mem && Freeable(st.free, Block(bp, mem[bp].size))
      ensures p == st.free[Position(st.free, bp)].addr
    {
      hide Position;
      ghost var bs, b := st.free, Block(bp, mem[bp].size);
      ghost var k: nat := st.at;
      ghost var j := Position(bs, bp);
      p := freep;
      while true
        invariant k < |bs| && p == bs[k].addr
        decreases Distance(|bs|, k, j)
      {
        assert Links(mem, bs, k);
        StopsAtPosition(bs, b, k);
        if (bp > p && bp < mem[p].ptr) || (p >= mem[p].ptr && (bp > p || bp < mem[p].ptr)) {
          return;
        }
        p := mem[p].ptr;
        k := if k + 1 < |bs| then k + 1 else 0;
      }
    }

    /** The rest of `free`: two header updates, each linking or merging. */
    method Link(bp: nat, p: nat)
      requires Valid() && freep != 0 && bp in mem && Freeable(st.free, Block(bp, mem[bp].size))
      requires p == st.free[Position(st.free, bp)].addr
      modifies `mem, `freep
      ensures freep == p && Chained(mem, Freed(st.free, Block(bp, old(mem)[bp].size)))
      ensures forall a :: a in old(mem) && a != bp && a != p ==> a in mem && mem[a] == old(mem)[a]
    {
      hide Position, Freeable, Sorted, SortedBut, Chained, ChainedBut, JoinUp, JoinDown, Sized, Start;
      ghost var b := Block(bp, mem[bp].size);
      ghost var j := Position(st.free, bp);
      UpReady(mem, st.free, b);
      hide Inv;
      ghost var up := JoinUp(st.free, j, b);
      mem := mem[bp := UpHeader(mem, p, bp)];
      DownChain(mem, up, j);
      mem := mem[p := DownHeader(mem, p, bp)];
      freep := p;
    }

    /** `free` of an outstanding block. */
    method Free(bp: nat)
      requires Valid() && bp in mem && Block(bp, mem[bp].size) in st.out
      modifies this
      ensures Valid() && freep != 0
      ensures st == PutBack(old(st), Block(bp, old(mem)[bp].size))
    {
      ghost var b, was := Block(bp, mem[bp].size), mem;
      OutSeparate(base, st, b);
      OutIsFreeable(base, st, b);
      PutBackKeepsInv(base, st, b);
      FreedKeepsPosition(st.free, b);
      var p := FindPlace(bp);
      Link(bp, p);
      SizedKept(base, st, was, mem, b, p);
      AboveBase(base, st, Position(st.free, bp));
      hide Inv, Freed, Position, Sized, Chained;
      st := PutBack(st, b);
    }

    /** `morecore`: a new region becomes a free block. */
    method Morecore(units: nat, sbrk: Sbrk) returns (ok: bool)
      requires Valid() && freep != 0 && units > 0
      requires sbrk.Granted? ==> Fresh(base, st, sbrk.addr)
      modifies this
      ensures Valid() && freep != 0 && (ok <==> sbrk.Granted?)
      ensures st == if ok then Grown(old(st), Region(units, sbrk.addr)) else old(st)
    {
      hide Inv, Freed, Position, Sized, Chained, Freeable, Fresh;
      if sbrk.Refused? {
        return false;
      }
      var nu := if units < 4096 then 4096 else units;
      ghost var r := Block(sbrk.addr, nu);
      AtInRange(base, st);
      RegionEnters(base, st, mem, r);
      mem := mem[sbrk.addr := Header(0, nu)];
      var p := FindPlace(sbrk.addr);
      ghost var was := mem;
      Link(sbrk.addr, p);
      RegionSized(base, st, was, mem, r, p);
      st := Grown(st, r);
      return true;
    }

    /** The end of `malloc`: unlink block `p`, or cut `n` units off its upper end. */
    method Carve(prevp: nat, p: nat, n: nat, ghost t: nat) returns (r: nat)
      requires Valid() && freep != 0 && 0 < t < |st.free| && st.free[t].size >= n > 0
      requires p == st.free[t].addr && prevp == st.free[t - 1].addr
      modifies this
      ensures Valid() && freep != 0
      ensures st == TakeFrom(old(st), t, n) && r == TakenBlock(old(st).free, t, n).addr + 1
    {
      UnlinkChain(mem, st.free, t);
      ShortenChain(mem, st.free, t, st.free[t].size - n);
      TakeKeepsInv(base, st, t, n);
      AboveBase(base, st, t - 1);
      CarveFrame(base, st, mem, t, n);
      ghost var b := TakenBlock(st.free, t, n);
      assert mem[p].size == st.free[t].size;
      hide Inv, Sized, Chained, Sorted;
      if mem[p].size == n {
        mem := mem[prevp := Header(mem[p].ptr, mem[prevp].size)];
        r := p + 1;
      } else {
        mem := mem[p := Header(mem[p].ptr, mem[p].size - n)];
        var q := p + mem[p].size;
        ChainFrame(mem, Taken(st.free, t, n), q, Header(0, n));
        mem := mem[q := Header(0, n)];
        r := q + 1;
      }
      freep := prevp;
      st := TakeFrom(st, t, n);
    }

    /** The first `malloc` sets up a circle of `base` alone. */
    method Setup()
      requires Valid()
      modifies `mem, `freep
      ensures Valid() && freep != 0
    {
      if freep == 0 {
        mem := mem[base := Header(base, 0)];
        freep := base;
        assert Links(mem, st.free, 0);
      }
    }

    /** One turn of the search loop of `malloc`, from `freep` back to `freep`. */
    method Turn(n: nat) returns (prevp: nat, p: nat, found: bool)
      requires Valid() && freep != 0 && n > 0
      ensures st.at < |st.free|
      ensures var t := Fit(st, n);
              && (found <==> t < |st.free|)
              && (found ==> t > 0 && p == st.free[t].addr && prevp == st.free[t - 1].addr)
    {
      hide Inv, Sorted, Sized, FirstFit, Turning, Chained, Start;
      AtInRange(base, st);
      ghost var bs := st.free;
      ghost var i: nat, k: nat := st.at, |bs|;
      StartTurn(base, st, n);
      LinkAt(mem, bs, i);
      prevp := freep;
      p := mem[prevp].ptr;
      while true
        invariant i < |bs| && Turning(bs, st.at, n, i, k)
        invariant prevp == bs[i].addr && p == NextAddr(bs, i)
        decreases k
      {
        TurnStep(bs, st.at, n, i, k);
        LinkAt(mem, bs, Succ(bs, i));
        if mem[p].size >= n {
          return prevp, p, true;
        }
        if p == freep {
          return prevp, p, false;
        }
        prevp := p;
        p := mem[p].ptr;
        i, k := Succ(bs, i), k - 1;
      }
    }

    /** `malloc`. Its single answer from `sbrk` is enough: it calls `morecore` at
        most once, and only when no free block is large enough. */
    method Malloc(nbytes: nat, sbrk: Sbrk) returns (r: nat, asked: bool)
      requires Valid() && (sbrk.Granted? ==> Fresh(base, st, sbrk.addr))
      modifies this
      ensures Valid() && freep != 0
      ensures var n := Units(nbytes);
              && st == Step(old(st), HeapRuns.Malloc(n, sbrk))
              && (asked <==> Fit(old(st), n) == |old(st).free|)
              && (r == 0 <==> asked && sbrk.Refused?)
              && (r != 0 ==> Block(r - 1, n) !in old(st).out && st.out == old(st).out + {Block(r - 1, n)})
    {
      hide Valid, Units, TakeFrom, Grown, Fit, Fresh;
      var n := Units(nbytes);
      Setup();
      var prevp, p, found := Turn(n);
      if found {
        r := Finish(prevp, p, n);
        return r, false;
      }
      var ok := Morecore(n, sbrk);
      if !ok {
        return 0, true;
      }
      GrownFits(old(st), n, sbrk.addr);
      prevp, p, found := Turn(n);
      r := Finish(prevp, p, n);
      return r, true;
    }

    /** Carves the block that the search found. */
    method Finish(prevp: nat, p: nat, n: nat) returns (r: nat)
      requires Valid() && freep != 0 && st.at < |st.free| && n > 0
      requires var t := Fit(st, n);
               0 < t < |st.free| && p == st.free[t].addr && prevp == st.free[t - 1].addr
      modifies this
      ensures Valid() && freep != 0 && r != 0
      ensures st == TakeFrom(old(st), Fit(old(st), n), n)
      ensures Block(r - 1, n) !in old(st).out && st.out == old(st).out + {Block(r - 1, n)}
    {
      hide Inv, TakeFrom, Fit, Sized, Chained;
      TookOne(base, st, Fit(st, n), n);
      r := Carve(prevp, p, n, Fit(st, n));
    }
  }

  lemma {:induction false} TookOne(base: nat, st: State, i: nat, n: nat)
    requires Inv(base, st) && i < |st.free| && st.free[i].size >= n > 0
    ensures var b := TakenBlock(st.free, i, n);
            b.size == n && b !in st.out && TakeFrom(st, i, n).out == st.out + {b}
  {
    TakeKeepsInv(base, st, i, n);
  }

  function Succ(bs: seq<Block>, i: nat): (t: nat)
    requires i < |bs|
    ensures t < |bs|
  {
    if i + 1 < |bs| then i + 1 else 0
  }

  /** The loop invariant of the search: from `i` it finds, among the `k` blocks left
      of the turn, what it finds from `at` in a whole turn. */
  ghost predicate Turning(bs: seq<Block>, at: nat, n: nat, i: nat, k: nat) {
    && at < |bs| && i < |bs| && 1 <= k <= |bs| && i == Around(|bs|, at, |bs| - k)
    && FirstFit(bs, i, k, n) == FirstFit(bs, at, |bs|, n)
  }

  lemma {:induction false} StartTurn(base: nat, st: State, n: nat)
    requires Inv(base, st)
    ensures Sorted(st.free) && Turning(st.free, st.at, n, st.at, |st.free|)
  {
  }

  lemma {:induction false} TurnStep(bs: seq<Block>, at: nat, n: nat, i: nat, k: nat)
    requires Sorted(bs) && Turning(bs, at, n, i, k) && n > 0
    ensures var t := Succ(bs, i);
            && 1 <= k && bs[t].addr == NextAddr(bs, i)
            && (if bs[t].size >= n then t == i + 1 && FirstFit(bs, at, |bs|, n) == t
                else if bs[t].addr == bs[at].addr then FirstFit(bs, at, |bs|, n) == |bs|
                else Turning(bs, at, n, t, k - 1))
  {
    var t := Succ(bs, i);
    assert t == Around(|bs|, at, |bs| - k + 1);
    if k > 1 {
      DistinctAddrs(bs, t, at);
    }
  }

  /** The headers that `malloc` writes belong to no outstanding block, and the one
      of the block it cuts off to no free one. */
  lemma {:induction false} CarveFrame(base: nat, st: State, mem: map<nat, Header>, t: nat, n: nat)
    requires Inv(base, st) && Sized(mem, st.out) && 0 < t < |st.free| && st.free[t].size >= n > 0
    ensures var b := TakenBlock(st.free, t, n);
            && (forall o <- st.out :: o.addr != st.free[t].addr && o.addr != st.free[t - 1].addr && o.addr != b.addr)
            && (st.free[t].size > n ==>
                  var r := Taken(st.free, t, n);
                  forall i :: 0 <= i < |r| ==> r[i].addr != b.addr)
  {
    var b := TakenBlock(st.free, t, n);
    TakeKeepsInv(base, st, t, n);
    forall o | o in st.out
      ensures o.addr != st.free[t].addr && o.addr != st.free[t - 1].addr && o.addr != b.addr
    {
      OutNotFree(base, st, o, t);
      OutNotFree(base, st, o, t - 1);
      assert Separate(o, b);
    }
    if st.free[t].size > n {
      var after := TakeFrom(st, t, n);
      forall i | 0 <= i < |after.free|
        ensures after.free[i].addr != b.addr
      {
        OutNotFree(base, after, b, i);
      }
    }
  }

  lemma SizedFrame(mem: map<nat, Header>, out: set<Block>, a: nat, h: Header)
    requires Sized(mem, out) && forall o <- out :: o.addr != a
    ensures Sized(mem[a := h], out)
  {
  }

  /** A new region meets nothing that is free or outstanding. */
  lemma {:induction false} RegionFreeable(base: nat, st: State, r: Block)
    requires Inv(base, st) && r.size > 0 && Fresh(base, st, r.addr)
    ensures Freeable(st.free, r) && (forall i :: 0 <= i < |st.free| ==> st.free[i].addr != r.addr)
    ensures forall o <- st.out :: o.addr != r.addr
  {
    forall x: nat | Covers(r, x)
      ensures !InSome(st.free, x) && !InOut(st.out, x)
    {
      assert !InSome(st.regions, x);
    }
    OutIsFreeable(base, st, r);
    forall i | 0 <= i < |st.free|
      ensures st.free[i].addr != r.addr
    {
      NotFree(st.free, r, i);
    }
    assert Covers(r, r.addr);
    forall o | o in st.out
      ensures o.addr != r.addr
    {
      assert Covers(o, o.addr) && InOut(st.out, o.addr);
    }
  }

  /** The header of a new region changes no chain; freed into the list, the region
      keeps the invariant. */
  lemma {:induction false} RegionEnters(base: nat, st: State, mem: map<nat, Header>, r: Block)
    requires Inv(base, st) && Chained(mem, st.free) && Sized(mem, st.out)
    requires r.size > 0 && Fresh(base, st, r.addr) && |st.free| > 0
    ensures Freeable(st.free, r) && forall o <- st.out :: o.addr != r.addr
    ensures var h := mem[r.addr := Header(0, r.size)]; Chained(h, st.free) && Sized(h, st.out)
    ensures var j := Position(st.free, r.addr);
            && Inv(base, Grown(st, r)) && st.free[j].addr >= base
            && j < |Freed(st.free, r)| && Freed(st.free, r)[j].addr == st.free[j].addr
  {
    RegionFreeable(base, st, r);
    GrownKeepsInv(base, st, r);
    FreedKeepsPosition(st.free, r);
    AboveBase(base, st, Position(st.free, r.addr));
    hide Inv, Freed, Position, Chained, Freeable, Fresh;
    ChainFrame(mem, st.free, r.addr, Header(0, r.size));
    SizedFrame(mem, st.out, r.addr, Header(0, r.size));
  }

  lemma {:induction false} RegionSized(
    base: nat, st: State, was: map<nat, Header>, now: map<nat, Header>, r: Block, p: nat)
    requires Inv(base, st) && Sized(was, st.out) && forall o <- st.out :: o.addr != r.addr
    requires p == st.free[Position(st.free, r.addr)].addr
    requires forall a :: a in was && a != r.addr && a != p ==> a in now && now[a] == was[a]
    ensures Sized(now, st.out)
  {
    forall o | o in st.out
      ensures o.addr in now && now[o.addr].size == o.size
    {
      OutNotFree(base, st, o, Position(st.free, r.addr));
    }
  }

  /** Freeing `b` writes no header of another outstanding block. */
  lemma {:induction false} SizedKept(
    base: nat, st: State, was: map<nat, Header>, now: map<nat, Header>, b: Block, p: nat)
    requires Inv(base, st) && b in st.out && Sized(was, st.out)
    requires p == st.free[Position(st.free, b.addr)].addr
    requires forall a :: a in was && a != b.addr && a != p ==> a in now && now[a] == was[a]
    ensures Sized(now, st.out - {b})
  {
    forall o | o in st.out - {b}
      ensures o.addr in now && now[o.addr].size == o.size
    {
      OutNotFree(base, st, o, Position(st.free, b.addr));
      assert Separate(o, b);
    }
  }

  lemma {:induction false} AboveBase(base: nat, st: State, i: nat)
    requires Inv(base, st) && i < |st.free|
    ensures st.free[i].addr >= base
  {
    if i > 0 {
      Ascending(st.free, 0, i);
    }
  }

  lemma {:induction false} OutSeparate(base: nat, st: State, b: Block)
    requires Inv(base, st) && b in st.out
    ensures b.size > 0 && b.addr > base && forall x: nat :: Covers(b, x) ==> !InSome(st.free, x)
  {
    forall x: nat | Covers(b, x)
      ensures !InSome(st.free, x)
    {
      assert InOut(st.out, x);
    }
  }
}
