/** Every run of a slab cache (kernel/slab_allocator.c). */
module SlabRuns {
  import opened Counting
  import opened SlabModel
  import opened SlabCache

  /** An allocation, for which the buddy allocator would give the block `mem` with `words`
      in it; a free; a shrink; or a store by the owner of an object. */
  datatype Event =
    | Alloc(mem: nat, words: map<nat, nat>)
    | Free(obj: nat)
    | Shrink
    | Store(obj: nat, next: nat, word: nat)

  /** What a call comes to; `Refused` is one that its caller may not make. */
  datatype Answer = Allocated(grant: Grant) | Done(outcome: Outcome) | Given(blocks: seq<(nat, nat)>) | Stored | Refused

  /** What a cache stands for: where its slabs are, the objects that clients hold, and
      those given back and not handed out again. */
  datatype Pool = Pool(slabs: set<nat>, held: set<nat>, returned: set<nat>)

  ghost predicate Represents(c: Cache, p: Pool)
    requires c.g.size > 0
    reads c
  {
    && p.slabs == c.slabs.Keys && p.returned == c.book.returned
    && forall x: nat :: x in p.held <==> Live(c.g, c.book.frees, x)
  }

  /** `x` is a slot of one of the slabs. */
  ghost predicate SlotOf(g: Shape, p: Pool, x: nat)
    requires g.size > 0
  {
    exists a :: a in p.slabs && IsSlot(g, a, x)
  }

  /** Some slot is not held. */
  ghost predicate Room(g: Shape, p: Pool)
    requires g.size > 0
  {
    exists x: nat :: x !in p.held && SlotOf(g, p, x)
  }

  /** An object of the slab at `a` is held. */
  ghost predicate InUse(g: Shape, p: Pool, a: nat)
    requires g.size > 0
  {
    exists x :: x in p.held && IsSlot(g, a, x)
  }

  /** The block lies apart from the slabs. */
  predicate Clear(slabSize: nat, slabs: set<nat>, mem: nat) {
    mem !in slabs && forall b <- slabs :: mem + slabSize <= b || b + slabSize <= mem
  }

  /** The slabs that a shrink gives up, each once and at the order it was taken with. */
  ghost predicate GivesUp(g: Shape, gone: set<nat>, blocks: seq<(nat, nat)>) {
    && (forall i :: 0 <= i < |blocks| ==> blocks[i].0 in gone && blocks[i].1 == g.order)
    && (forall i, j :: 0 <= i < j < |blocks| ==> blocks[i].0 != blocks[j].0)
    && (forall a <- gone :: (a, g.order) in blocks)
  }

  /** What a call answers, and what it leaves. */
  ghost predicate Next(g: Shape, p: Pool, e: Event, r: Answer, p': Pool)
    requires g.size > 0
  {
    match e
    case Alloc(mem, _) =>
      if mem > 0 && !Clear(g.slabSize, p.slabs, mem) then r == Refused && p' == p
      else if g.total == 1 && p.held != {} then r == Allocated(BadSlab) && p' == p
      else if !Room(g, p) && mem == 0 then r == Allocated(NoMemory) && p' == p
      else
        && r.Allocated? && r.grant.Object? && r.grant.obj !in p.held
        && p'.held == p.held + {r.grant.obj} && p'.returned == p.returned - {r.grant.obj}
        && (if Room(g, p) then p'.slabs == p.slabs && SlotOf(g, p, r.grant.obj)
            else p'.slabs == p.slabs + {mem} && IsSlot(g, mem, r.grant.obj))
    case Free(obj) =>
      if obj == 0 then r == Done(Nothing) && p' == p
      else if obj in p.held then
        r == Done(Freed) && p' == Pool(p.slabs, p.held - {obj}, p.returned + {obj})
      else if obj in p.returned then r == Done(DoubleFree) && p' == p
      else if exists a :: a in p.slabs && InUse(g, p, a) && IsSlot(g, a, obj) then r == Refused && p' == p
      else (r == Done(DoubleFree) || r == Done(NotFound)) && p' == p
    case Shrink =>
      var gone := p.slabs - p'.slabs;
      && p'.slabs <= p.slabs && (forall a <- p.slabs :: a in p'.slabs <==> InUse(g, p, a))
      && p'.held == p.held
      && (forall x: nat :: x in p'.returned <==> x in p.returned && !exists a :: a in gone && IsSlot(g, a, x))
      && r.Given? && GivesUp(g, gone, r.blocks)
    case Store(obj, _, word) =>
      p' == p && r == if obj in p.held && word != MAGIC then Stored else Refused
  }

  /** Call `i` of a run. */
  ghost predicate Follows(g: Shape, events: seq<Event>, answers: seq<Answer>, pools: seq<Pool>, i: nat)
    requires g.size > 0 && i < |events| == |answers| && |pools| == |events| + 1
  {
    Next(g, pools[i], events[i], answers[i], pools[i + 1])
  }

  ghost predicate IsRun(g: Shape, events: seq<Event>, answers: seq<Answer>, pools: seq<Pool>)
    requires g.size > 0
  {
    && |answers| == |events| && |pools| == |events| + 1
    && forall i {:trigger Follows(g, events, answers, pools, i)} :: 0 <= i < |events| ==>
         Follows(g, events, answers, pools, i)
  }

  // ----- Counts and slots -----

  function Elems(q: seq<nat>): (s: set<nat>)
    ensures |s| <= |q| && forall x :: x in s <==> x in q
  {
    if q == [] then {} else Elems(q[1..]) + {q[0]}
  }

  ghost predicate FreeSlot(g: Shape, frees: map<nat, seq<nat>>, a: nat, x: nat)
    requires g.size > 0
  {
    IsSlot(g, a, x) && !Live(g, frees, x)
  }

  ghost predicate BusySlot(g: Shape, frees: map<nat, seq<nat>>, a: nat, x: nat)
    requires g.size > 0
  {
    IsSlot(g, a, x) && Live(g, frees, x)
  }

  /** The count in a slab's header tells whether a slot of it is free, and whether one is
      out. */
  lemma {:induction false} CountTells(
    g: Shape, slabs: map<nat, Slab>, next: map<nat, nat>, frees: map<nat, seq<nat>>, a: nat)
    requires Sound(g) && Apart(g, slabs) && Slots(g, slabs, next, frees) && a in slabs
    ensures slabs[a].total == g.total && slabs[a].freeCount <= g.total
    ensures slabs[a].freeCount > 0 <==> exists x: nat :: FreeSlot(g, frees, a, x)
    ensures slabs[a].freeCount < g.total <==> exists x: nat :: BusySlot(g, frees, a, x)
  {
    var q := frees[a];
    assert Listed(g, a, slabs[a], next, q);
    forall x: nat | IsSlot(g, a, x)
      ensures Live(g, frees, x) <==> x !in q
    {
      LiveAfter(g, slabs, frees, a, q, x);
    }
    hide Live, Slots, Apart, Linked;
    if q != [] {
      assert FreeSlot(g, frees, a, q[0]);
    }
    if x: nat :| BusySlot(g, frees, a, x) {
      assert NoRepeat(q) by { ListedDistinct(g, a, slabs[a], next, q); }
      RoomFor(g, a, q, x);
    }
    if !exists x: nat :: BusySlot(g, frees, a, x) {
      AllListed(g, a, q, frees);
    }
  }

  lemma ListedDistinct(g: Shape, a: nat, s: Slab, next: map<nat, nat>, q: seq<nat>)
    requires g.size > 0 && Listed(g, a, s, next, q)
    ensures NoRepeat(q)
  {
  }

  lemma {:induction false} AllListed(g: Shape, a: nat, q: seq<nat>, frees: map<nat, seq<nat>>)
    requires Sound(g) && forall x: nat :: IsSlot(g, a, x) ==> Live(g, frees, x) || x in q
    requires forall x: nat :: !BusySlot(g, frees, a, x)
    ensures g.total <= |q|
  {
    hide Live;
    var all := SlotsUpTo(g, a, g.total);
    forall i, j | 0 <= i < j < |all|
      ensures all[i] != all[j]
    {
      SlotsDiffer(g, a, i, j);
    }
    forall k | 0 <= k < |all|
      ensures all[k] in Elems(q)
    {
      SlotIs(g, a, k);
      assert !BusySlot(g, frees, a, all[k]);
    }
    Pigeons(all, Elems(q));
  }

  ghost predicate Agrees(g: Shape, frees: map<nat, seq<nat>>, p: Pool)
    requires g.size > 0
  {
    p.slabs == frees.Keys && forall x: nat :: x in p.held <==> Live(g, frees, x)
  }

  lemma {:induction false} RoomTells(
    g: Shape, slabs: map<nat, Slab>, next: map<nat, nat>, frees: map<nat, seq<nat>>, p: Pool)
    requires Sound(g) && Apart(g, slabs) && Slots(g, slabs, next, frees) && Agrees(g, frees, p)
    ensures Room(g, p) <==> exists a :: a in slabs && slabs[a].freeCount > 0
  {
    hide Live, Apart, IsSlot, Listed;
    if a :| a in slabs && slabs[a].freeCount > 0 {
      CountTells(g, slabs, next, frees, a);
      var x: nat :| FreeSlot(g, frees, a, x);
      assert SlotOf(g, p, x);
    }
    if Room(g, p) {
      var x: nat :| x !in p.held && SlotOf(g, p, x);
      var a :| a in p.slabs && IsSlot(g, a, x);
      assert FreeSlot(g, frees, a, x);
      CountTells(g, slabs, next, frees, a);
    }
  }

  lemma {:induction false} UseTells(
    g: Shape, slabs: map<nat, Slab>, next: map<nat, nat>, frees: map<nat, seq<nat>>, p: Pool, a: nat)
    requires Sound(g) && Apart(g, slabs) && Slots(g, slabs, next, frees) && Agrees(g, frees, p) && a in slabs
    ensures InUse(g, p, a) <==> slabs[a].freeCount < g.total
    ensures slabs[a].total == g.total && slabs[a].freeCount <= g.total
  {
    hide Live, Apart, IsSlot, Listed;
    CountTells(g, slabs, next, frees, a);
    if x: nat :| BusySlot(g, frees, a, x) { assert x in p.held; }
    if InUse(g, p, a) {
      var x :| x in p.held && IsSlot(g, a, x);
      assert BusySlot(g, frees, a, x);
    }
  }

  lemma {:induction false} HeldTells(
    g: Shape, slabs: map<nat, Slab>, next: map<nat, nat>, frees: map<nat, seq<nat>>, p: Pool)
    requires Sound(g) && Apart(g, slabs) && Slots(g, slabs, next, frees) && Agrees(g, frees, p)
    ensures p.held != {} <==> exists a :: a in slabs && slabs[a].freeCount < g.total
  {
    hide Live, Apart, IsSlot, Listed;
    if a :| a in slabs && slabs[a].freeCount < g.total {
      CountTells(g, slabs, next, frees, a);
      var x: nat :| BusySlot(g, frees, a, x);
      assert x in p.held;
    }
    if x :| x in p.held {
      HeldWhere(g, slabs, next, frees, x);
      var a :| a in slabs && BusySlot(g, frees, a, x);
      CountTells(g, slabs, next, frees, a);
    }
  }

  lemma HeldWhere(g: Shape, slabs: map<nat, Slab>, next: map<nat, nat>, frees: map<nat, seq<nat>>, x: nat)
    requires g.size > 0 && Slots(g, slabs, next, frees) && Live(g, frees, x)
    ensures exists a :: a in slabs && BusySlot(g, frees, a, x)
  {
    var a :| a in frees && IsSlot(g, a, x) && x !in frees[a];
    assert a in slabs && BusySlot(g, frees, a, x);
  }

  // ----- Runs -----

  method AllocStep(c: Cache, p: Pool, mem: nat, words: map<nat, nat>) returns (r: Answer, p': Pool)
    requires c.Valid() && Represents(c, p)
    modifies c
    ensures c.Valid() && Represents(c, p') && Next(c.g, p, Alloc(mem, words), r, p')
  {
    hide Live, Guarded, Slots, Sorted, Chains, Apart, Fits, Sound, Smallest, BlockBytes, IsSlot, Room, SlotOf;
    SomeSlots(c.g);
    var order, slabSize := GetOrderFromSize(c.size);
    TheOrder(c.g, order, slabSize);
    if mem > 0 && !Clear(slabSize, p.slabs, mem) {
      return Refused, p;
    }
    ghost var slabs, next, frees := c.slabs, c.freeNext, c.book.frees;
    PoolAgrees(c.g, slabs, next, frees, p);
    RoomTells(c.g, slabs, next, frees, p);
    HeldTells(c.g, slabs, next, frees, p);
    CountsBound(c.g, slabs, next, frees);
    var grant := c.CacheAlloc(mem, words);
    r := Allocated(grant);
    if !grant.Object? {
      return r, p;
    }
    var obj := grant.obj;
    p' := Pool(c.slabs.Keys, p.held + {obj}, p.returned - {obj});
    KeysSame(c.g, c.slabs, c.freeNext, c.book.frees);
    Placed(c.g, c.book.frees, p, p', obj, mem);
  }

  lemma PoolAgrees(g: Shape, slabs: map<nat, Slab>, next: map<nat, nat>, frees: map<nat, seq<nat>>, p: Pool)
    requires Sound(g) && Slots(g, slabs, next, frees) && p.slabs == slabs.Keys
    requires forall x: nat :: x in p.held <==> Live(g, frees, x)
    ensures Agrees(g, frees, p)
  {
    hide Live;
  }

  lemma CountsBound(g: Shape, slabs: map<nat, Slab>, next: map<nat, nat>, frees: map<nat, seq<nat>>)
    requires Sound(g) && Slots(g, slabs, next, frees)
    ensures forall a <- slabs :: slabs[a].total == g.total && slabs[a].freeCount <= g.total
  {
    forall a | a in slabs
      ensures slabs[a].total == g.total && slabs[a].freeCount <= g.total
    {
      assert Listed(g, a, slabs[a], next, frees[a]);
    }
  }

  /** An object handed out is a slot of a slab, of the new one if no other had room. */
  lemma Placed(g: Shape, frees: map<nat, seq<nat>>, p: Pool, p': Pool, obj: nat, mem: nat)
    requires g.size > 0 && Live(g, frees, obj) && obj !in p.held && p'.slabs == frees.Keys
    ensures p'.slabs == p.slabs ==> SlotOf(g, p, obj)
    ensures p'.slabs == p.slabs + {mem} && !Room(g, p) ==> IsSlot(g, mem, obj)
  {
    hide IsSlot;
    var a :| a in frees && IsSlot(g, a, obj) && obj !in frees[a];
    if a in p.slabs {
      assert SlotOf(g, p, obj);
    }
  }

  method FreeStep(c: Cache, p: Pool, obj: nat) returns (r: Answer, p': Pool)
    requires c.Valid() && Represents(c, p)
    modifies c
    ensures c.Valid() && Represents(c, p') && Next(c.g, p, Free(obj), r, p')
  {
    hide Live, Guarded, Slots, Sorted, Chains, Apart, Fits, Sound, IsSlot, InUse;
    SomeSlots(c.g);
    ghost var g, slabs, next, frees := c.g, c.slabs, c.freeNext, c.book.frees;
    PoolAgrees(g, slabs, next, frees, p);
    CountsBound(g, slabs, next, frees);
    forall a | a in slabs
      ensures InUse(g, p, a) <==> slabs[a].freeCount < slabs[a].total
    {
      UseTells(g, slabs, next, frees, p, a);
    }
    GuardReads(g, frees, c.magic, c.book.returned, obj);
    assert Foreign(g, slabs, obj) <==> !exists a :: a in p.slabs && InUse(g, p, a) && IsSlot(g, a, obj);
    if obj != 0 && obj !in p.held && obj !in p.returned {
      var taken := exists a | a in c.slabs ::
        c.slabs[a].freeCount < c.slabs[a].total && Within(c.size, c.slabs[a].total, a, obj);
      SlotWithin(g, slabs, obj);
      if taken { return Refused, p; }
    }
    hide Foreign;
    var outcome := c.CacheFree(obj);
    r := Done(outcome);
    p' := if obj in p.held then Pool(p.slabs, p.held - {obj}, p.returned + {obj}) else p;
  }

  lemma SlotWithin(g: Shape, slabs: map<nat, Slab>, obj: nat)
    requires g.size > 0 && forall a <- slabs :: slabs[a].total == g.total
    ensures forall a <- slabs :: Within(g.size, slabs[a].total, a, obj) <==> IsSlot(g, a, obj)
  {
  }

  method StoreStep(c: Cache, p: Pool, obj: nat, next: nat, word: nat) returns (r: Answer, p': Pool)
    requires c.Valid() && Represents(c, p)
    modifies c
    ensures c.Valid() && Represents(c, p') && Next(c.g, p, Store(obj, next, word), r, p')
  {
    hide Live, Guarded, Slots, Sorted, Chains, Apart, Fits, Sound;
    SomeSlots(c.g);
    if obj !in p.held || word == MAGIC { return Refused, p; }
    c.ClientWrite(obj, next, word);
    return Stored, p;
  }

  method ShrinkStep(c: Cache, p: Pool) returns (r: Answer, p': Pool)
    requires c.Valid() && Represents(c, p)
    modifies c
    ensures c.Valid() && Represents(c, p') && Next(c.g, p, Shrink, r, p')
  {
    hide Live, Guarded, Slots, Sorted, Chains, Apart, Fits, Sound, Smallest, BlockBytes, IsSlot, InUse, InSlab, Listed;
    hide GivesUp, Class, Linked, Within, Next;
    SomeSlots(c.g);
    var order, slabSize := GetOrderFromSize(c.size);
    TheOrder(c.g, order, slabSize);
    FitsTotal(c.g);
    ghost var g, slabs, next, frees, lists := c.g, c.slabs, c.freeNext, c.book.frees, c.book.lists;
    PoolAgrees(g, slabs, next, frees, p);
    ChainOf(c.slabNext, c.heads, lists, Empty);
    EmptyOnes(g, slabs, next, frees, lists, p);
    var total := (slabSize - HEADER) / c.size;
    var released, blocks := c.CacheShrink();
    r := Given(blocks);
    var lost := set x | x in p.returned && exists i | 0 <= i < |blocks| :: Within(c.size, total, blocks[i].0, x);
    p' := Pool(c.slabs.Keys, p.held, p.returned - lost);
    ShrinkIs(g, p, lists[Empty], p', lost, blocks);
  }

  lemma ShrinkIs(g: Shape, p: Pool, q: seq<nat>, p': Pool, lost: set<nat>, blocks: seq<(nat, nat)>)
    requires g.size > 0 && NoRepeat(q) && |blocks| == |q| && forall i :: 0 <= i < |q| ==> blocks[i] == (q[i], g.order)
    requires forall a :: a in q <==> a in p.slabs && !InUse(g, p, a)
    requires forall a: nat :: a in p'.slabs <==> a in p.slabs && a !in q
    requires p'.held == p.held && p'.returned == p.returned - lost
    requires forall x: nat :: x in lost <==>
               x in p.returned && exists i :: 0 <= i < |blocks| && Within(g.size, g.total, blocks[i].0, x)
    ensures Next(g, p, Shrink, Given(blocks), p')
    ensures forall x: nat :: x in p'.returned <==> x in p.returned && !InSlab(g, q, x)
  {
    hide IsSlot, InUse, InSlab, GivesUp, Within;
    var gone := p.slabs - p'.slabs;
    forall a ensures a in gone <==> a in q {
    }
    BlocksGiven(g, q, gone, blocks);
    forall x: nat | x in p.returned
      ensures x in lost <==> InSlab(g, q, x)
      ensures InSlab(g, q, x) <==> exists a :: a in gone && IsSlot(g, a, x)
    {
      LostIs(g, q, gone, blocks, x);
    }
  }

  lemma FitsTotal(g: Shape)
    requires Fits(g)
    ensures g.slabSize >= HEADER && g.size > 0 && g.total == (g.slabSize - HEADER) / g.size
  {
    FitsSound(g);
  }

  lemma {:induction false} EmptyOnes(g: Shape, slabs: map<nat, Slab>, next: map<nat, nat>, frees: map<nat, seq<nat>>,
                                     lists: map<List, seq<nat>>, p: Pool)
    requires Sound(g) && Apart(g, slabs) && Slots(g, slabs, next, frees) && Agrees(g, frees, p)
    requires Sorted(slabs, lists) && Empty in lists
    ensures forall a :: a in lists[Empty] <==> a in slabs && !InUse(g, p, a)
  {
    hide Live, Apart, Slots, InUse, Agrees;
    forall a | a in slabs
      ensures InUse(g, p, a) <==> Class(slabs[a]) != Empty
    {
      UseTells(g, slabs, next, frees, p, a);
    }
    forall a: nat
      ensures a in lists[Empty] <==> a in slabs && Class(slabs[a]) == Empty
    {
    }
  }

  lemma BlocksGiven(g: Shape, q: seq<nat>, gone: set<nat>, blocks: seq<(nat, nat)>)
    requires NoRepeat(q) && |blocks| == |q| && forall i :: 0 <= i < |q| ==> blocks[i] == (q[i], g.order)
    requires forall a :: a in gone <==> a in q
    ensures GivesUp(g, gone, blocks)
  {
    forall a | a in gone ensures (a, g.order) in blocks {
      var i :| 0 <= i < |q| && q[i] == a;
      assert blocks[i] == (a, g.order);
    }
    assert forall i :: 0 <= i < |q| ==> q[i] in q;
  }

  lemma LostIs(g: Shape, q: seq<nat>, gone: set<nat>, blocks: seq<(nat, nat)>, x: nat)
    requires g.size > 0 && |blocks| == |q| && (forall i :: 0 <= i < |q| ==> blocks[i] == (q[i], g.order))
    requires forall a :: a in gone <==> a in q
    ensures (exists i :: 0 <= i < |blocks| && Within(g.size, g.total, blocks[i].0, x)) <==> InSlab(g, q, x)
    ensures InSlab(g, q, x) <==> exists a :: a in gone && IsSlot(g, a, x)
  {
    hide Within;
    if i :| 0 <= i < |q| && IsSlot(g, q[i], x) {
      assert Within(g.size, g.total, blocks[i].0, x) && q[i] in q;
    }
    if i :| 0 <= i < |blocks| && Within(g.size, g.total, blocks[i].0, x) {
      assert IsSlot(g, q[i], x);
    }
    if a :| a in gone && IsSlot(g, a, x) {
      var i :| 0 <= i < |q| && q[i] == a;
      assert IsSlot(g, q[i], x);
    }
  }

  method Step(c: Cache, p: Pool, e: Event) returns (r: Answer, p': Pool)
    requires c.Valid() && Represents(c, p)
    modifies c
    ensures c.Valid() && Represents(c, p') && Next(c.g, p, e, r, p')
  {
    hide Live, Guarded, Slots, Sorted, Chains, Apart, Fits, Sound, Next;
    SomeSlots(c.g);
    match e {
      case Alloc(mem, words) => r, p' := AllocStep(c, p, mem, words);
      case Free(obj) => r, p' := FreeStep(c, p, obj);
      case Shrink => r, p' := ShrinkStep(c, p);
      case Store(obj, next, word) => r, p' := StoreStep(c, p, obj, next, word);
    }
  }

  /** Whatever is asked of a cache in whatever order, each call answers from the pool as
      the calls before it left it, and the cache represents the pool at the end. */
  method Run(c: Cache, p: Pool, events: seq<Event>) returns (answers: seq<Answer>, pools: seq<Pool>)
    requires c.Valid() && Represents(c, p)
    modifies c
    ensures c.Valid() && c.g.size > 0 && IsRun(c.g, events, answers, pools)
    ensures pools[0] == p && Represents(c, pools[|events|])
  {
    hide Live, Guarded, Slots, Sorted, Chains, Apart, Fits, Sound, Next, Represents;
    SomeSlots(c.g);
    answers, pools := [], [p];
    var i := 0;
    while i < |events|
      invariant 0 <= i <= |events| && c.Valid() && c.g.size > 0 && IsRun(c.g, events[..i], answers, pools)
      invariant pools[0] == p && Represents(c, pools[i])
    {
      var r, p' := Step(c, pools[i], events[i]);
      RunMore(c.g, events[..i], answers, pools, events[i], r, p');
      assert events[..i] + [events[i]] == events[..i + 1];
      answers, pools := answers + [r], pools + [p'];
      i := i + 1;
    }
    assert events[..i] == events;
  }

  lemma RunMore(g: Shape, events: seq<Event>, answers: seq<Answer>, pools: seq<Pool>, e: Event, r: Answer, p: Pool)
    requires g.size > 0 && IsRun(g, events, answers, pools) && Next(g, pools[|events|], e, r, p)
    ensures IsRun(g, events + [e], answers + [r], pools + [p])
  {
    hide Next;
    forall i | 0 <= i < |events + [e]|
      ensures Follows(g, events + [e], answers + [r], pools + [p], i)
    {
      if i < |events| { assert Follows(g, events, answers, pools, i); }
    }
  }

  // ----- What holds of every run -----

  predicate HandsOut(r: Answer, x: nat) {
    r.Allocated? && r.grant == Object(x)
  }

  lemma {:induction false} StepHeld(g: Shape, p: Pool, e: Event, r: Answer, p': Pool, x: nat)
    requires g.size > 0 && Next(g, p, e, r, p')
    ensures x in p.held && r != Done(Freed) ==> x in p'.held
    ensures x in p.held && e != Free(x) ==> x in p'.held
    ensures HandsOut(r, x) ==> x !in p.held && x in p'.held
  {
    hide Room, SlotOf, IsSlot, InUse, GivesUp;
  }

  /** No object is handed out twice: in every run, between two allocations that return
      the same object it was freed. */
  lemma {:induction false} NeverTwice(
    g: Shape, events: seq<Event>, answers: seq<Answer>, pools: seq<Pool>, i: nat, j: nat, x: nat)
    requires g.size > 0 && IsRun(g, events, answers, pools) && i < j < |events|
    requires HandsOut(answers[i], x) && HandsOut(answers[j], x)
    ensures exists k :: i < k < j && events[k] == Free(x) && answers[k] == Done(Freed)
  {
    hide Next;
    assert Follows(g, events, answers, pools, i) && Follows(g, events, answers, pools, j);
    StepHeld(g, pools[i], events[i], answers[i], pools[i + 1], x);
    StepHeld(g, pools[j], events[j], answers[j], pools[j + 1], x);
    var k := FirstFree(g, events, answers, pools, i + 1, j, x);
  }

  lemma {:induction false} FirstFree(
    g: Shape, events: seq<Event>, answers: seq<Answer>, pools: seq<Pool>, i: nat, j: nat, x: nat) returns (k: nat)
    requires g.size > 0 && IsRun(g, events, answers, pools) && i <= j <= |events|
    requires x in pools[i].held && x !in pools[j].held
    ensures i <= k < j && events[k] == Free(x) && answers[k] == Done(Freed)
    decreases j - i
  {
    hide Next;
    assert Follows(g, events, answers, pools, i);
    StepHeld(g, pools[i], events[i], answers[i], pools[i + 1], x);
    if x in pools[i + 1].held {
      k := FirstFree(g, events, answers, pools, i + 1, j, x);
    } else {
      k := i;
    }
  }

  // ----- Slabs of one slot -----

  /** The counterexample to what the caches for 65536 and 131072 bytes promise: a new one
      hands out one object, and panics at the next allocation though the buddy allocator
      has another block. */
  method OneSlotPanics(size: nat, ghost g: Shape, m1: nat, m2: nat) returns (answers: seq<Answer>)
    requires Fits(g) && g.size == size && (size == 65536 || size == 131072)
    requires 0 < m1 && m1 + g.slabSize <= m2
    ensures |answers| == 2 && answers[0].Allocated? && answers[0].grant.Object?
    ensures answers[1] == Allocated(BadSlab)
  {
    hide Live, Guarded, Slots, Sorted, Chains, Apart, Fits, Sound, IsSlot;
    OneSlotSizes(g);
    FitsSound(g);
    var c := new Cache(size, g);
    SomeSlots(g);
    var p := Pool({}, {}, {});
    assert !Room(g, p);
    var pools;
    answers, pools := Run(c, p, [Alloc(m1, map[]), Alloc(m2, map[])]);
    assert Follows(g, [Alloc(m1, map[]), Alloc(m2, map[])], answers, pools, 0);
    assert pools[1].slabs == {m1} && answers[0].grant.obj in pools[1].held;
    assert Follows(g, [Alloc(m1, map[]), Alloc(m2, map[])], answers, pools, 1);
  }
}
