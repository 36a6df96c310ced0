/** Whole runs of the user heap: any sequence of `malloc` and valid `free`, with
    `sbrk` answering as it likes (user/umalloc.c). */
module HeapRuns {
  import opened HeapList

  /** The free list, the index in it of `freep`, the blocks handed out, and every
      region obtained from `sbrk`. */
  datatype State = State(free: seq<Block>, at: nat, out: set<Block>, regions: seq<Block>)

  datatype Sbrk = Refused | Granted(addr: nat)

  datatype Op = Malloc(units: nat, sbrk: Sbrk) | Free(b: Block)

  ghost predicate InOut(out: set<Block>, x: nat) {
    exists o <- out :: Covers(o, x)
  }

  /** Every unit obtained from `sbrk` is in exactly one free or outstanding block. */
  ghost predicate Inv(base: nat, st: State) {
    && Sorted(st.free) && st.free[0].addr == base && st.at < |st.free|
    && (forall o <- st.out :: o.size > 0 && o.addr > base)
    && (forall o, o' :: o in st.out && o' in st.out && o != o' ==> Separate(o, o'))
    && (forall x: nat {:trigger InSome(st.free, x)} :: !(InSome(st.free, x) && InOut(st.out, x)))
    && (forall x: nat {:trigger InSome(st.regions, x)} ::
          InSome(st.regions, x) <==> InSome(st.free, x) || InOut(st.out, x))
    && (forall x: nat {:trigger InSome(st.regions, x)} :: InSome(st.regions, x) ==> x > base)
  }

  predicate Separate(a: Block, b: Block) {
    a.addr + a.size <= b.addr || b.addr + b.size <= a.addr
  }

  /** Non-empty blocks are separate exactly when they share no unit. */
  lemma SeparateExact(a: Block, b: Block)
    requires a.size > 0 && b.size > 0
    ensures Separate(a, b) <==> forall x: nat :: !(Covers(a, x) && Covers(b, x))
  {
    if !Separate(a, b) {
      var x := if a.addr < b.addr then b.addr else a.addr;
      assert Covers(a, x) && Covers(b, x);
    }
  }

  /** `morecore` asks for at least 4096 units. */
  function Region(units: nat, addr: nat): Block {
    Block(addr, if units < 4096 then 4096 else units)
  }

  /** A region that `sbrk` may return: above `base` and every earlier region. */
  ghost predicate Fresh(base: nat, st: State, addr: nat) {
    addr > base && forall x: nat {:trigger InSome(st.regions, x)} :: InSome(st.regions, x) ==> x < addr
  }

  ghost predicate Legal(base: nat, st: State, op: Op) {
    match op
    case Malloc(n, sbrk) => n > 0 && (sbrk.Granted? ==> Fresh(base, st, sbrk.addr))
    case Free(b) => b in st.out
  }

  function TakeFrom(st: State, i: nat, n: nat): State
    requires i < |st.free| && st.free[i].size >= n
  {
    st.(free := Taken(st.free, i, n), at := Before(st.free, i), out := st.out + {TakenBlock(st.free, i, n)})
  }

  function PutBack(st: State, b: Block): State
    requires |st.free| > 0
  {
    st.(free := Freed(st.free, b), at := Position(st.free, b.addr), out := st.out - {b})
  }

  /** The state in which `malloc` resumes its search after `morecore`. */
  function Grown(st: State, r: Block): State
    requires |st.free| > 0
  {
    State(Freed(st.free, r), Position(st.free, r.addr), st.out, st.regions + [r])
  }

  /** The search of `malloc` from `freep`. */
  function Fit(st: State, n: nat): (i: nat)
    requires st.at < |st.free|
    ensures i <= |st.free| && (i < |st.free| ==> st.free[i].size >= n)
  {
    FirstFit(st.free, st.at, |st.free|, n)
  }

  function Step(st: State, op: Op): State {
    match op
    case Malloc(n, sbrk) =>
      if st.at >= |st.free| then st
      else
        var i := Fit(st, n);
        if i < |st.free| then TakeFrom(st, i, n)
        else if sbrk.Refused? then st
        else
          FreedKeepsPosition(st.free, Region(n, sbrk.addr));
          var grown := Grown(st, Region(n, sbrk.addr));
          var k := Fit(grown, n);
          if k < |grown.free| then TakeFrom(grown, k, n) else grown
    case Free(b) => if |st.free| > 0 then PutBack(st, b) else st
  }

  lemma {:induction false} TakeKeepsInv(base: nat, st: State, i: nat, n: nat)
    requires Inv(base, st) && i < |st.free| && st.free[i].size >= n > 0
    ensures Inv(base, TakeFrom(st, i, n))
    ensures var b := TakenBlock(st.free, i, n);
            b !in st.out && forall o <- st.out :: Separate(o, b)
  {
    var b := TakenBlock(st.free, i, n);
    var t := TakeFrom(st, i, n);
    TakenSorted(st.free, i, n);
    Ascending(st.free, 0, i);
    forall x: nat
      ensures InSome(t.free, x) <==> InSome(st.free, x) && !Covers(b, x)
      ensures InOut(t.out, x) <==> InOut(st.out, x) || Covers(b, x)
      ensures Covers(b, x) ==> InSome(st.free, x)
    {
      TakenUnits(st.free, i, n, x);
      if Covers(b, x) {
        assert Covers(st.free[i], x);
      }
    }
    forall o | o in st.out
      ensures Separate(o, b)
    {
      SeparateExact(o, b);
      forall x: nat | Covers(o, x) && Covers(b, x)
        ensures false
      {
        assert InSome(st.free, x) && InOut(st.out, x);
      }
    }
    assert b !in st.out by {
      assert Covers(b, b.addr) && InSome(st.free, b.addr);
    }
  }

  /** An outstanding block can be freed. */
  lemma {:induction false} OutIsFreeable(base: nat, st: State, b: Block)
    requires Inv(base, st) && b.size > 0 && b.addr > base
    requires forall x: nat :: Covers(b, x) ==> !InSome(st.free, x)
    ensures Freeable(st.free, b)
  {
    forall i | 0 < i < |st.free|
      ensures Separate(b, st.free[i])
    {
      SeparateExact(b, st.free[i]);
      forall x: nat | Covers(b, x) && Covers(st.free[i], x)
        ensures false
      {
        assert InSome(st.free, x);
      }
    }
  }

  lemma {:induction false} PutBackKeepsInv(base: nat, st: State, b: Block)
    requires Inv(base, st) && b in st.out
    ensures Inv(base, PutBack(st, b))
  {
    var t := PutBack(st, b);
    forall x: nat | Covers(b, x)
      ensures !InSome(st.free, x)
    {
      assert InOut(st.out, x);
    }
    OutIsFreeable(base, st, b);
    FreedSorted(st.free, b);
    FreedKeepsPosition(st.free, b);
    forall x: nat
      ensures InSome(t.free, x) <==> InSome(st.free, x) || Covers(b, x)
      ensures InOut(st.out, x) <==> InOut(t.out, x) || Covers(b, x)
      ensures InOut(t.out, x) ==> !Covers(b, x)
    {
      FreedUnits(st.free, b, x);
    }
  }

  lemma {:induction false} GrownKeepsInv(base: nat, st: State, r: Block)
    requires Inv(base, st) && r.size > 0 && Fresh(base, st, r.addr)
    ensures Inv(base, Grown(st, r))
  {
    var t := Grown(st, r);
    forall x: nat | Covers(r, x)
      ensures !InSome(st.free, x)
    {
      assert !InSome(st.regions, x);
    }
    OutIsFreeable(base, st, r);
    FreedSorted(st.free, r);
    FreedKeepsPosition(st.free, r);
    forall x: nat
      ensures InSome(t.free, x) <==> InSome(st.free, x) || Covers(r, x)
      ensures InSome(t.regions, x) <==> InSome(st.regions, x) || Covers(r, x)
      ensures Covers(r, x) ==> !InOut(st.out, x)
    {
      FreedUnits(st.free, r, x);
      InSomeConcat(st.regions, [r], x);
      InSomeOne(r, x);
      assert Covers(r, x) ==> !InSome(st.regions, x);
    }
  }

  /** One `morecore` is always enough: the search that resumes after it succeeds. */
  lemma {:induction false} GrownFits(st: State, n: nat, addr: nat)
    requires |st.free| > 0
    ensures var grown := Grown(st, Region(n, addr));
            grown.at < |grown.free| && Fit(grown, n) < |grown.free| && grown.out == st.out
  {
    var r := Region(n, addr);
    FreedKeepsPosition(st.free, r);
    var t := FreedHasRoom(st.free, r);
    FirstFitFinds(Freed(st.free, r), Position(st.free, r.addr), n, t);
  }

  lemma {:induction false} StepKeepsInv(base: nat, st: State, op: Op)
    requires Inv(base, st) && Legal(base, st, op)
    ensures Inv(base, Step(st, op))
  {
    hide Inv, Taken, Freed, FirstFit;
    AtInRange(base, st);
    match op {
      case Free(b) =>
        PutBackKeepsInv(base, st, b);
      case Malloc(n, sbrk) =>
        var i := Fit(st, n);
        if i < |st.free| {
          TakeKeepsInv(base, st, i, n);
        } else if sbrk.Granted? {
          var grown := Grown(st, Region(n, sbrk.addr));
          GrownKeepsInv(base, st, Region(n, sbrk.addr));
          GrownFits(st, n, sbrk.addr);
          TakeKeepsInv(base, grown, Fit(grown, n), n);
        }
    }
  }

  lemma AtInRange(base: nat, st: State)
    requires Inv(base, st)
    ensures st.at < |st.free|
  {
  }

  // ----- Whole runs -----

  /** The list that the first `malloc` sets up. */
  function Start(base: nat): State {
    State([Block(base, 0)], 0, {}, [])
  }

  ghost predicate Reaches(base: nat, s0: State, ops: seq<Op>, s: State)
    decreases ops
  {
    if ops == [] then s == s0
    else Legal(base, s0, ops[0]) && Reaches(base, Step(s0, ops[0]), ops[1..], s)
  }

  lemma {:induction false} RunKeepsInv(base: nat, s0: State, ops: seq<Op>, s: State)
    requires Inv(base, s0) && Reaches(base, s0, ops, s)
    ensures Inv(base, s)
    decreases ops
  {
    hide Inv, Step, Legal;
    if ops != [] {
      StepKeepsInv(base, s0, ops[0]);
      RunKeepsInv(base, Step(s0, ops[0]), ops[1..], s);
    }
  }

  /** Heap safety: after every run of `malloc` and valid `free`, the free list is
      sorted with no two blocks touching, and the free and outstanding blocks
      partition exactly the units obtained from `sbrk`. */
  lemma {:induction false} HeapRun(base: nat, ops: seq<Op>, s: State)
    requires Reaches(base, Start(base), ops, s)
    ensures Inv(base, s)
  {
    forall x: nat
      ensures !InSome([Block(base, 0)], x) && !InSome([], x)
    {
      InSomeOne(Block(base, 0), x);
    }
    RunKeepsInv(base, Start(base), ops, s);
  }

  /** What `malloc` returns meets no outstanding block, comes from the free list or
      the new region, and it fails only when no free block is large enough and
      `sbrk` refuses. */
  lemma {:induction false} MallocExact(base: nat, ops: seq<Op>, s: State, n: nat, sbrk: Sbrk)
    requires Reaches(base, Start(base), ops, s) && Legal(base, s, Malloc(n, sbrk))
    ensures var t := Step(s, Malloc(n, sbrk));
            if t.out == s.out
            then t == s && sbrk == Refused && forall i :: 0 <= i < |s.free| ==> s.free[i].size < n
            else exists b :: b !in s.out && t.out == s.out + {b} && b.size == n && forall o <- s.out :: Separate(o, b)
  {
    HeapRun(base, ops, s);
    hide FirstFit, Taken, Freed, Reaches;
    var i := Fit(s, n);
    if i < |s.free| {
      TakeKeepsInv(base, s, i, n);
    } else {
      forall t | 0 <= t < |s.free|
        ensures s.free[t].size < n
      {
        if s.free[t].size >= n {
          FirstFitFinds(s.free, s.at, n, t);
        }
      }
      if sbrk.Granted? {
        var grown := Grown(s, Region(n, sbrk.addr));
        GrownKeepsInv(base, s, Region(n, sbrk.addr));
        GrownFits(s, n, sbrk.addr);
        TakeKeepsInv(base, grown, Fit(grown, n), n);
      }
    }
  }
}
