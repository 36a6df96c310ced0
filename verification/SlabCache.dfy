/** A cache of equal objects (kernel/slab_allocator.c), under the cache's lock. */
module SlabCache {
  import opened BuddyIndex
  import opened Counting
  import opened SlabModel

  // ----- The size of a slab -----

  /** The objects a slab should at least hold. */
  function Target(size: nat): nat {
    if size <= 256 then 8 else if size <= 4096 then 4 else if size <= 32768 then 2 else 1
  }

  /** The bytes of a block of an order. */
  function BlockBytes(order: nat): nat {
    4096 * Pow2(order)
  }

  /** `order` is the smallest whose blocks hold the objects wanted behind a header. */
  ghost predicate Smallest(size: nat, order: nat) {
    && BlockBytes(order) - HEADER >= Target(size) * size
    && (order > 0 ==> BlockBytes(order - 1) - HEADER < Target(size) * size)
  }

  lemma {:induction false} BlockGrows(j: nat, k: nat)
    requires j <= k
    ensures BlockBytes(j) <= BlockBytes(k)
    decreases k - j
  {
    if j < k { BlockGrows(j, k - 1); }
  }

  lemma SmallestUnique(size: nat, j: nat, k: nat)
    requires Smallest(size, j) && Smallest(size, k)
    ensures j == k
  {
    if j < k { BlockGrows(j, k - 1); }
    if k < j { BlockGrows(k, j - 1); }
  }

  /** `get_order_from_size`. */
  method GetOrderFromSize(size: nat) returns (order: nat, slabSize: nat)
    ensures Smallest(size, order) && slabSize == BlockBytes(order)
  {
    slabSize := 4096;
    var target := if size <= 256 then 8 else if size <= 4096 then 4 else if size <= 32768 then 2 else 1;
    order := 0;
    while slabSize - HEADER < target * size
      invariant slabSize == BlockBytes(order)
      invariant order > 0 ==> BlockBytes(order - 1) - HEADER < target * size
      decreases target * size + HEADER - slabSize
    {
      slabSize := slabSize * 2;
      order := order + 1;
    }
  }

  /** The shape of the slabs for objects of a size. */
  ghost predicate Fits(g: Shape) {
    && LINK <= g.size && Smallest(g.size, g.order)
    && g.slabSize == BlockBytes(g.order) && g.total == (g.slabSize - HEADER) / g.size
  }

  /** A slab holds one object at least, and two for sizes up to 32768. */
  lemma FitsSound(g: Shape)
    requires Fits(g)
    ensures Sound(g) && g.slabSize >= HEADER && (g.size <= 32768 ==> g.total >= 2)
  {
    var t := Target(g.size);
    assert g.slabSize - HEADER >= t * g.size && t >= 1;
    SomeAtLeast(g.slabSize - HEADER, g.size, t);
  }

  lemma SomeAtLeast(d: int, size: nat, t: nat)
    requires size > 0 && t >= 1 && d >= t * size
    ensures d / size >= 1 && (t >= 2 ==> d / size >= 2) && size * (d / size) <= d
  {
    assert t * size >= size && (t >= 2 ==> t * size >= 2 * size);
    if t >= 2 { AtLeastTwo(d, size); } else { AtLeastOne(d, size); }
  }

  lemma AtLeastOne(d: nat, size: nat)
    requires size > 0 && d >= size
    ensures d / size >= 1 && size * (d / size) <= d
  {
    assert d == size * (d / size) + d % size;
  }

  /** The caches for buffers of 65536 and 131072 bytes have slabs of a single slot. */
  lemma OneSlotSizes(g: Shape)
    requires Fits(g) && (g.size == 65536 || g.size == 131072)
    ensures g.total == 1
  {
    assert Pow2(0) == 1 && Pow2(1) == 2 && Pow2(2) == 4 && Pow2(3) == 8;
    assert Pow2(4) == 16 && Pow2(5) == 32 && Pow2(6) == 64;
    hide Pow2;
    var order := if g.size == 65536 then 5 else 6;
    assert Smallest(g.size, order);
    SmallestUnique(g.size, order, g.order);
  }

  lemma AtLeastTwo(d: nat, size: nat)
    requires size > 0 && d >= 2 * size
    ensures d / size >= 2 && size * (d / size) <= d
  {
    assert d == size * (d / size) + d % size;
  }

  // ----- The bytes of slots and objects -----

  /** The bytes that the link and the guard word of a free slot fill: a pointer and an int. */
  const LINK: nat := 12

  /** The link and the guard word of every slot lie in the slab's block and apart from
      those of the other slots if and only if an object has room for them. */
  lemma {:induction false} LinksApart(g: Shape, a: nat)
    requires Sound(g) && g.total >= 2
    ensures (&& SlotAt(g, a, g.total - 1) + LINK <= a + g.slabSize
             && forall i: nat, j: nat :: i < j < g.total ==> SlotAt(g, a, i) + LINK <= SlotAt(g, a, j))
            <==> g.size >= LINK
  {
    if g.size >= LINK {
      forall i: nat, j: nat | i < j < g.total
        ensures SlotAt(g, a, i) + LINK <= SlotAt(g, a, j)
      {
        LessRoom(i, j, g.size);
      }
      LessRoom(g.total - 1, g.total, g.size);
    } else {
      assert SlotAt(g, a, 0) + LINK > SlotAt(g, a, 1);
    }
  }

  /** An object that is out lies in the block of a slab, behind the header. */
  lemma {:induction false} ObjectInside(g: Shape, frees: map<nat, seq<nat>>, x: nat) returns (a: nat)
    requires Sound(g) && Live(g, frees, x)
    ensures a in frees && IsSlot(g, a, x) && a + HEADER <= x && x + g.size <= a + g.slabSize
  {
    a :| a in frees && IsSlot(g, a, x) && x !in frees[a];
    SlotInside(g, a, x);
  }

  lemma {:induction false} SlotInside(g: Shape, a: nat, x: nat)
    requires Sound(g) && IsSlot(g, a, x)
    ensures a + HEADER <= x && x + g.size <= a + g.slabSize
  {
    SlotNumberExact(g, a, x);
    LessRoom(SlotNumber(g, a, x), g.total, g.size);
  }

  /** Two objects that are out share no byte. */
  lemma {:induction false} ObjectsApart(g: Shape, slabs: map<nat, Slab>, frees: map<nat, seq<nat>>, x: nat, y: nat)
    requires Sound(g) && Apart(g, slabs) && frees.Keys == slabs.Keys
    requires Live(g, frees, x) && Live(g, frees, y) && x < y
    ensures x + g.size <= y
  {
    hide Live;
    var a := ObjectInside(g, frees, x);
    var b := ObjectInside(g, frees, y);
    if a == b {
      SlotNumberExact(g, a, x);
      SlotNumberExact(g, a, y);
      hide SlotNumber, IsSlot;
      var i, j := SlotNumber(g, a, x), SlotNumber(g, a, y);
      if i < j { LessRoom(i, j, g.size); } else if j < i { LessRoom(j, i, g.size); }
    }
  }

  // ----- A new slab -----

  /** Slot `k` of the slab at `a`. */
  function SlotAt(g: Shape, a: nat, k: nat): nat {
    a + HEADER + k * g.size
  }

  lemma SlotIs(g: Shape, a: nat, k: nat)
    requires g.size > 0 && k < g.total
    ensures IsSlot(g, a, SlotAt(g, a, k))
  {
    Multiple(k, g.size, g.total);
  }

  lemma Multiple(k: nat, size: nat, total: nat)
    requires size > 0 && k < total
    ensures k * size % size == 0 && k * size < size * total
  {
    var d := k * size;
    var t := k - d / size;
    assert size * t == d % size by {
      assert d == size * (d / size) + d % size;
      assert size * t == size * k - size * (d / size);
    }
    NoMultiple(size, t, d % size);
    Grows(k, total, size);
  }

  lemma NoMultiple(size: nat, t: int, r: nat)
    requires size * t == r < size
    ensures r == 0
  {
  }

  /** The slots from `j` to `k`. */
  ghost function SlotsUpTo(g: Shape, a: nat, k: nat): (q: seq<nat>)
    ensures |q| == k && forall i :: 0 <= i < k ==> q[i] == SlotAt(g, a, i)
  {
    seq(k, i requires 0 <= i < k => SlotAt(g, a, i))
  }

  lemma SlotsDiffer(g: Shape, a: nat, i: nat, j: nat)
    requires g.size > 0 && i < j
    ensures SlotAt(g, a, i) < SlotAt(g, a, j)
  {
    Grows(i, j, g.size);
  }

  lemma Grows(i: nat, j: nat, size: nat)
    requires size > 0 && i < j
    ensures i * size < j * size
  {
    assert j * size == i * size + (j - i) * size;
  }

  /** `temp + obj_size <= slab + slab_size` says that slot `k` is there. */
  lemma Room(d: nat, size: nat, k: nat)
    requires size > 0
    ensures k * size + size <= d <==> k < d / size
  {
    var q := d / size;
    assert d == size * q + d % size;
    if k < q { LessRoom(k, q, size); } else { LessRoom(q, k + 1, size); }
  }

  lemma LessRoom(i: nat, j: nat, size: nat)
    requires i < j
    ensures i * size + size <= j * size == size * j
  {
    assert j * size == i * size + size + (j - i - 1) * size;
  }

  /** `x` is a slot of one of the slabs. */
  ghost predicate SlotIn(g: Shape, frees: map<nat, seq<nat>>, x: nat)
    requires g.size > 0
  {
    exists a :: a in frees && IsSlot(g, a, x)
  }

  /** The guard words once a block has been taken in which `words` stand. */
  function Renewed(magic: map<nat, nat>, mem: nat, slabSize: nat, words: map<nat, nat>): (m: map<nat, nat>)
    ensures forall x: nat :: Get(m, x) == if mem <= x < mem + slabSize then Get(words, x) else Get(magic, x)
  {
    map x | x in magic.Keys + words.Keys :: if mem <= x < mem + slabSize then Get(words, x) else Get(magic, x)
  }

  /** Objects handed out do not carry the magic number, objects given back do. */
  ghost predicate Guarded(g: Shape, frees: map<nat, seq<nat>>, magic: map<nat, nat>, returned: set<nat>)
    requires g.size > 0
  {
    && (forall x: nat :: Live(g, frees, x) ==> Get(magic, x) != MAGIC)
    && (forall x <- returned :: !Live(g, frees, x) && Get(magic, x) == MAGIC && SlotIn(g, frees, x))
  }

  /** The lists of slabs, the free slots of each slab, and the objects given back and
      not handed out again. */
  datatype Book = Book(lists: map<List, seq<nat>>, frees: map<nat, seq<nat>>, returned: set<nat>)

  class Cache {
    const size: nat
    ghost const g: Shape
    /** Slab headers, and apart from them their `next` fields. */
    var slabs: map<nat, Slab>
    var slabNext: map<nat, nat>
    /** The fields of `struct free` in the slots. */
    var freeNext: map<nat, nat>
    var magic: map<nat, nat>
    var heads: map<List, nat>

    ghost var book: Book

    ghost predicate Valid()
      reads this
    {
      Core() && Guarded(g, book.frees, magic, book.returned)
    }

    /** `cache_create`. */
    constructor (size: nat, ghost g: Shape)
      requires Fits(g) && g.size == size
      ensures Valid() && this.size == size && this.g == g && slabs == map[] && book.returned == {}
      ensures forall x: nat :: !Live(g, book.frees, x)
    {
      this.size, this.g := size, g;
      slabs, slabNext, freeNext, magic := map[], map[], map[], map[];
      heads := map[Full := 0, Empty := 0, Partial := 0];
      book := Book(map[Full := [], Empty := [], Partial := []], map[], {});
      new;
      FitsSound(g);
      forall w: List ensures w in heads && w in book.lists && heads[w] == 0 && book.lists[w] == [] {
        match w case Full => case Empty => case Partial =>
      }
    }

    /** `slab_init` of the block at `a`. */
    method SlabInit(a: nat, slabSize: nat)
      requires Fits(g) && Sound(g) && g.size == size && slabSize == g.slabSize && a > 0
      modifies `slabs, `freeNext
      ensures a in slabs && slabs == old(slabs)[a := slabs[a]]
      ensures Listed(g, a, slabs[a], freeNext, SlotsUpTo(g, a, g.total)) && slabs[a].freeCount == g.total
      ensures forall x :: x in old(freeNext) && !IsSlot(g, a, x) ==> x in freeNext && freeNext[x] == old(freeNext)[x]
    {
      hide Linked, IsSlot, SlotsUpTo, Smallest, SlotAt, Fits, Sound, BlockBytes;
      assert size > 0 && g.total >= 1 by { SoundBasics(g); }
      var freeList := a + HEADER;
      var prev := freeList;
      var temp := freeList + size;
      freeNext := freeNext[prev := 0];
      ghost var k := 1;
      FirstSlot(g, a, freeNext);
      while temp + size <= a + slabSize
        invariant 1 <= k <= g.total && prev == SlotAt(g, a, k - 1) && temp == SlotAt(g, a, k)
        invariant slabs == old(slabs) && Linked(freeNext, freeList, SlotsUpTo(g, a, k))
        invariant forall x ::
          x in old(freeNext) && !IsSlot(g, a, x) ==> x in freeNext && freeNext[x] == old(freeNext)[x]
        decreases g.total - k
      {
        NextSlot(g, a, freeNext, k);
        freeNext := freeNext[prev := temp];
        prev := temp;
        freeNext := freeNext[prev := 0];
        temp := temp + size;
        k := k + 1;
      }
      AllSlots(g, a, freeNext, k);
      slabs := slabs[a := Slab((slabSize - HEADER) / size, (slabSize - HEADER) / size, freeList)];
    }

    /** `move_slab`, which panics when the slab is not on the list. */
    method MoveSlab(from: List, to: List, a: nat) returns (ghost i: nat)
      requires Chains(slabNext, heads, book.lists) && Placed(slabs, book.lists, a, from) && a in slabs && a > 0
      requires from != to
      modifies `slabNext, `heads, `book
      ensures Chains(slabNext, heads, book.lists) && from in old(book).lists && to in old(book).lists
      ensures book == old(book).(lists := book.lists)
      ensures i < |old(book).lists[from]| && old(book).lists[from][i] == a
      ensures book.lists == Moved(old(book).lists, from, to, i)
    {
      hide Placed, Separate, Moved, Without, Chains, Linked;
      ghost var lists := book.lists;
      PlacedSeparate(slabs, lists, a, from);
      i := OnList(slabs, slabNext, heads, lists, a, from);
      ChainOf(slabNext, heads, lists, from);
      if heads[from] == a {
        FirstIs(slabNext, heads[from], lists[from], i);
        UnlinkFirst(slabNext, heads, lists, from);
        heads := heads[from := slabNext[a]];
      } else {
        var prev := heads[from];
        ghost var k := 0;
        FirstIs(slabNext, heads[from], lists[from], i);
        while prev != 0 && slabNext[prev] != a
          invariant 0 <= k < i && prev == lists[from][k] && prev in slabNext && prev > 0
          invariant slabNext == old(slabNext) && heads == old(heads) && book == old(book)
          decreases i - k
        {
          NextIs(slabNext, heads[from], lists[from], k, i);
          prev := slabNext[prev];
          k := k + 1;
        }
        NextIs(slabNext, heads[from], lists[from], k, i);
        UnlinkLater(slabNext, heads, lists, from, i);
        slabNext := slabNext[prev := slabNext[a]];
      }
      ghost var less := lists[from := Without(lists[from], i)];
      RemovedEverywhere(lists, from, i);
      LinkFirst(slabNext, heads, less, to, a);
      slabNext := slabNext[a := heads[to]];
      heads := heads[to := a];
      book := book.(lists := Moved(lists, from, to, i));
      MovedIs(lists, from, to, i);
    }

    /** All of `Valid` but the magic numbers. */
    ghost predicate Core()
      reads this
    {
      && Fits(g) && g.size == size && Sound(g)
      && Apart(g, slabs)
      && Slots(g, slabs, freeNext, book.frees)
      && Chains(slabNext, heads, book.lists)
      && Sorted(slabs, book.lists)
    }

    /** `slab_alloc`, which panics when the slab has no free slot. */
    method SlabAlloc(a: nat) returns (obj: nat)
      requires Sound(g) && Apart(g, slabs) && Slots(g, slabs, freeNext, book.frees)
      requires a in slabs && slabs[a].freeCount > 0
      modifies `slabs, `book
      ensures Slots(g, slabs, freeNext, book.frees) && obj > 0 && HandedOut(g, old(book).frees, book.frees, obj)
      ensures book == old(book).(frees := book.frees) && a in slabs && slabs == old(slabs)[a := slabs[a]]
      ensures slabs[a].total == old(slabs)[a].total && slabs[a].freeCount == old(slabs)[a].freeCount - 1
    {
      ghost var f := book.frees;
      Free(g, slabs, freeNext, f, a);
      TakeSlot(g, slabs, freeNext, f, a);
      TakeLive(g, slabs, freeNext, f, a);
      hide Sound, Apart, Slots, HandedOut, IsSlot;
      var s := slabs[a];
      obj := s.freeList;
      slabs := slabs[a := Slab(s.total, s.freeCount - 1, freeNext[s.freeList])];
      book := book.(frees := f[a := f[a][1..]]);
    }

    /** `slab_free`. Of a slot that is out it takes back exactly that slot; of one that is
        free already it leaves a list that does not end. */
    method SlabFree(a: nat, obj: nat)
      requires Sound(g) && Apart(g, slabs) && Slots(g, slabs, freeNext, book.frees)
      requires a in slabs && IsSlot(g, a, obj)
      modifies `slabs, `freeNext, `book
      ensures Live(g, old(book).frees, obj) ==>
        Slots(g, slabs, freeNext, book.frees) && GivenBack(g, old(book).frees, book.frees, obj)
      ensures book == old(book).(frees := book.frees) && a in slabs && slabs == old(slabs)[a := slabs[a]]
      ensures slabs[a].total == old(slabs)[a].total && slabs[a].freeCount == old(slabs)[a].freeCount + 1
      ensures Ends(freeNext, slabs[a].freeList) <==> Live(g, old(book).frees, obj)
    {
      hide Apart, Slots, GivenBack, IsSlot, Live, Ends;
      ghost var f := book.frees;
      PushSlot(g, slabs, freeNext, f, a, obj);
      hide Sound;
      var s := slabs[a];
      freeNext := freeNext[obj := s.freeList];
      slabs := slabs[a := Slab(s.total, s.freeCount + 1, obj)];
      book := book.(frees := f[a := [obj] + f[a]]);
    }

    /** Put a slab whose count has changed where it now belongs. */
    method Reclass(from: List, to: List, a: nat)
      requires Sound(g) && Apart(g, slabs) && Fits(g) && g.size == size
      requires Chains(slabNext, heads, book.lists) && Placed(slabs, book.lists, a, from)
      requires a in slabs && Class(slabs[a]) == to && from != to
      modifies `slabNext, `heads, `book
      ensures Slots(g, slabs, freeNext, old(book).frees) ==> Core()
      ensures book == old(book).(lists := book.lists)
    {
      hide Sound, Slots, Placed, Sorted, Moved, Chains, Class;
      assert a > 0;
      hide Apart;
      ghost var lists := book.lists;
      var i := MoveSlab(from, to, a);
      ChainOf(old(slabNext), old(heads), lists, from);
      MovedPlaced(slabs, lists, from, to, i);
    }

    /** `cache_alloc` from the first partial slab, or else the first empty one. */
    method AllocFrom(l: List) returns (obj: nat)
      requires Core() && (l == Partial || l == Empty) && l in heads && heads[l] != 0
      requires heads[l] in slabs && slabs[heads[l]].freeCount > 0
      modifies `slabs, `slabNext, `heads, `book
      ensures Core() && obj > 0 && HandedOut(g, old(book).frees, book.frees, obj)
      ensures book.returned == old(book).returned && slabs.Keys == old(slabs).Keys
    {
      hide Sound, Slots, Placed, Sorted, Chains, HandedOut, Apart, Fits;
      var a := heads[l];
      FirstSlab(g, slabs, slabNext, freeNext, heads, book.lists, book.frees, l);
      ghost var s := slabs;
      obj := SlabAlloc(a);
      Reclassed(s, book.lists, a, slabs[a]);
      assert Apart(g, slabs) by { SameApart(g, s, slabs); }
      if l == Partial {
        if slabs[a].freeCount == 0 { Reclass(Partial, Full, a); }
      } else {
        Reclass(Empty, Partial, a);
      }
    }

    /** `cache_alloc` from a new slab at `mem`, a block in which `words` stand. */
    method AllocNew(mem: nat, words: map<nat, nat>) returns (obj: nat)
      requires Core() && mem > 0 && mem !in slabs
      requires forall b <- slabs :: mem + g.slabSize <= b || b + g.slabSize <= mem
      modifies `slabs, `slabNext, `freeNext, `magic, `heads, `book
      ensures Core() && obj > 0 && HandedOut(g, old(book).frees, book.frees, obj)
      ensures book.returned == old(book).returned && slabs.Keys == old(slabs).Keys + {mem}
      ensures magic == Renewed(old(magic), mem, g.slabSize, words)
    {
      hide Sound, Slots, Sorted, Chains, HandedOut, Fits, Listed, SlotsUpTo, Smallest, BlockBytes, Apart, IsSlot, Live;
      var order, slabSize := GetOrderFromSize(size);
      TheOrder(g, order, slabSize);
      SomeSlots(g);
      ghost var s, f, nx := slabs, book.frees, freeNext;
      ghost var q := SlotsUpTo(g, mem, g.total);
      magic := Renewed(magic, mem, slabSize, words);
      SlabInit(mem, slabSize);
      ApartAdd(g, s, mem, slabs[mem]);
      NewSlab(g, s, nx, f, mem, slabs[mem], freeNext);
      book := book.(frees := f[mem := q]);
      ghost var f1 := book.frees;
      ghost var s1 := slabs;
      Free(g, slabs, freeNext, f1, mem);
      obj := SlabAlloc(mem);
      assert Apart(g, slabs) by { SameApart(g, s1, slabs); }
      assert HandedOut(g, f, book.frees, obj) by { HandedOutAfter(g, f, f1, book.frees, obj); }
      assert slabs == s[mem := slabs[mem]];
      ChainOf(slabNext, heads, book.lists, Partial);
      AddedSorted(s, book.lists, mem, slabs[mem]);
      Absent(s, book.lists, mem);
      LinkFirst(slabNext, heads, book.lists, Partial, mem);
      slabNext := slabNext[mem := heads[Partial]];
      heads := heads[Partial := mem];
      book := book.(lists := book.lists[Partial := [mem] + book.lists[Partial]]);
    }

    /** `cache_alloc`; `mem` is the block that the buddy allocator gives for a new slab,
        0 when it has none, which is a panic, and `words` is what stands in it. With slabs
        of one slot it also panics whenever an object is out. */
    method CacheAlloc(mem: nat, words: map<nat, nat>) returns (r: Grant)
      requires Valid()
      requires mem > 0 ==> mem !in slabs && forall b <- slabs :: mem + g.slabSize <= b || b + g.slabSize <= mem
      modifies this
      ensures Valid()
      ensures r == BadSlab <==> g.total == 1 && exists a :: a in old(slabs) && old(slabs)[a].freeCount == 0
      ensures r == NoMemory <==> r != BadSlab && mem == 0 && forall a <- old(slabs) :: old(slabs)[a].freeCount == 0
      ensures !r.Object? ==> book == old(book) && slabs == old(slabs)
      ensures r.Object? ==>
        && r.obj > 0 && HandedOut(g, old(book).frees, book.frees, r.obj) && r.obj in magic && magic[r.obj] == 0
        && book.returned == old(book).returned - {r.obj}
        && slabs.Keys == old(slabs).Keys + if forall a <- old(slabs) :: old(slabs)[a].freeCount == 0 then {mem} else {}
    {
      hide Sound, Slots, Sorted, Chains, HandedOut, Fits, Apart, Live, Guarded;
      SomeSlots(g);
      ghost var f := book.frees;
      NoneFree(g, slabs, freeNext, slabNext, heads, book.lists, f);
      var obj;
      if heads[Partial] == 0 && heads[Empty] == 0 {
        if mem == 0 { return NoMemory; }
        KeysSame(g, slabs, freeNext, f);
        GuardNew(g, slabs, f, magic, book.returned, mem, words);
        obj := AllocNew(mem, words);
      } else {
        var l := if heads[Partial] != 0 then Partial else Empty;
        FirstSlab(g, slabs, slabNext, freeNext, heads, book.lists, f, l);
        if slabs[heads[l]].freeCount == 0 { return BadSlab; }
        obj := AllocFrom(l);
      }
      KeysSame(g, old(slabs), old(freeNext), f);
      KeysSame(g, slabs, freeNext, book.frees);
      GuardOut(g, f, book.frees, magic, book.returned, obj);
      magic := magic[obj := 0];
      book := book.(returned := book.returned - {obj});
      r := Object(obj);
    }

    /** `find_obj` on one of the lists. */
    method FindObj(w: List, obj: nat) returns (found: bool, a: nat)
      requires Core() && w in heads && w in book.lists
      ensures found ==> a in book.lists[w] && IsSlot(g, a, obj)
      ensures !found && obj != 0 ==> forall b <- book.lists[w] :: !IsSlot(g, b, obj)
    {
      hide Sound, Slots, Sorted, Fits, Apart, Within, Chains, Linked;
      SomeSlots(g);
      ChainOf(slabNext, heads, book.lists, w);
      ghost var q := book.lists[w];
      found, a := false, heads[w];
      if obj == 0 { return; }
      ghost var i := 0;
      assert a == At(q, 0) by { LinkedHead(slabNext, a, q); }
      while a != 0
        invariant 0 <= i <= |q| && a == At(q, i)
        invariant forall k :: 0 <= k < i ==> !IsSlot(g, q[k], obj)
        decreases |q| - i
      {
        assert a == q[i];
        OnAList(g, slabs, freeNext, book.lists, book.frees, w, a);
        if Within(size, slabs[a].total, a, obj) { return true, a; }
        LinkedNext(slabNext, heads[w], q, i);
        a := slabNext[a];
        i := i + 1;
      }
    }

    /** `cache_free`. An object that is out is taken back; one given back before is a
        double free; what is no slot of a slab with objects out is not found. A slot that
        is free without having been given back passes all tests, and the free list of
        its slab then no longer ends: `Valid` holds afterwards in every other case. */
    method CacheFree(obj: nat) returns (r: Outcome)
      requires Valid()
      modifies this
      ensures slabs.Keys == old(slabs).Keys
      ensures !Stray(g, old(slabs), old(book), old(magic), obj) ==> Valid()
      ensures obj == 0 ==> r == Nothing && book == old(book)
      ensures obj != 0 && obj in old(book).returned ==> r == DoubleFree && book == old(book)
      ensures Live(g, old(book).frees, obj) ==>
        && r == Freed && GivenBack(g, old(book).frees, book.frees, obj)
        && book.returned == old(book).returned + {obj}
      ensures obj != 0 && obj !in old(book).returned && Foreign(g, old(slabs), obj) ==>
        book == old(book) && r == if Get(old(magic), obj) == MAGIC then DoubleFree else NotFound
      ensures Stray(g, old(slabs), old(book), old(magic), obj) ==>
        r == Freed && exists a :: a in slabs && !Ends(freeNext, slabs[a].freeList)
    {
      hide Foreign, Sound, Slots, Sorted, Chains, GivenBack, Fits, Apart, Guarded, Live, IsSlot, Ends;
      SomeSlots(g);
      if obj == 0 {
        NoZero(g, slabs, freeNext, book.frees);
        return Nothing;
      }
      GuardReads(g, book.frees, magic, book.returned, obj);
      LiveWhere(g, slabs, slabNext, freeNext, heads, book.lists, book.frees, obj);
      if Get(magic, obj) == MAGIC { return DoubleFree; }
      ghost var f := book.frees;
      var found, a := FindObj(Partial, obj);
      if found {
        FreeIn(Partial, a, obj);
      } else {
        found, a := FindObj(Full, obj);
        if !found { return NotFound; }
        FreeIn(Full, a, obj);
      }
      r := Freed;
      if Live(g, f, obj) {
        KeysSame(g, old(slabs), old(freeNext), f);
        KeysSame(g, slabs, freeNext, book.frees);
        GuardBack(g, f, book.frees, magic, book.returned, obj);
      }
      magic := magic[obj := MAGIC];
      book := book.(returned := book.returned + {obj});
    }

    /** The part of `cache_free` for an object found on list `w`. */
    method FreeIn(w: List, a: nat, obj: nat)
      requires Core() && (w == Partial || w == Full) && w in book.lists && a in book.lists[w]
      requires IsSlot(g, a, obj)
      modifies `slabs, `slabNext, `freeNext, `heads, `book
      ensures Live(g, old(book).frees, obj) ==> Core() && GivenBack(g, old(book).frees, book.frees, obj)
      ensures book.returned == old(book).returned && slabs.Keys == old(slabs).Keys
      ensures a in slabs && (Ends(freeNext, slabs[a].freeList) <==> Live(g, old(book).frees, obj))
    {
      hide Sound, Slots, Placed, Sorted, Chains, GivenBack, Apart, Fits, IsSlot, Live, Ends;
      OnAList(g, slabs, freeNext, book.lists, book.frees, w, a);
      ghost var s := slabs;
      SlabFree(a, obj);
      SomeSlots(g);
      Reclassed(s, book.lists, a, slabs[a]);
      assert Apart(g, slabs) by { SameApart(g, s, slabs); }
      if w == Partial {
        if slabs[a].freeCount == slabs[a].total { Reclass(Partial, Empty, a); }
      } else {
        Reclass(Full, Partial, a);
      }
    }

    /** `cache_shrink`: the empty slabs go back to the buddy allocator, each at the order
        it was taken with; `given` is what `buddy_kfree` is called with. */
    method CacheShrink() returns (released: nat, given: seq<(nat, nat)>)
      requires Valid()
      modifies this
      ensures Valid() && Empty in old(book).lists && Empty in book.lists && book.lists[Empty] == []
      ensures |given| == |old(book).lists[Empty]| && released == |given| * Pow2(g.order)
      ensures forall i :: 0 <= i < |given| ==> given[i] == (old(book).lists[Empty][i], g.order)
      ensures forall a: nat :: a in slabs <==> a in old(slabs) && a !in old(book).lists[Empty]
      ensures forall x: nat :: Live(g, book.frees, x) <==> Live(g, old(book).frees, x)
      ensures forall x: nat :: x in book.returned <==> x in old(book).returned && !InSlab(g, old(book).lists[Empty], x)
    {
      hide Sound, Slots, Sorted, Chains, Fits, Apart, Guarded, Live, Pow2, Shrunk, Less, InSlab;
      SomeSlots(g);
      ChainOf(slabNext, heads, book.lists, Empty);
      ghost var s0, b0, q0 := slabs, book, book.lists[Empty];
      released, given := 0, [];
      ShrunkNone(g, s0, b0, q0);
      while heads[Empty] != 0
        invariant Valid() && Empty in heads && |given| <= |q0| && Shrunk(g, s0, b0, q0, slabs, book, |given|)
        invariant released == Times(|given|, Pow2(g.order))
        invariant forall i :: 0 <= i < |given| ==> given[i] == (q0[i], g.order)
        decreases |q0| - |given|
      {
        ghost var s, b := slabs, book;
        var a, order := FreeFirst();
        ShrunkNext(g, s0, b0, q0, s, b, |given|);
        given := given + [(a, order)];
        released := released + Pow2(order);
        ChainOf(slabNext, heads, book.lists, Empty);
      }
      ShrunkDone(g, s0, b0, q0, slabs, book, slabNext, heads, |given|);
      TimesExact(|given|, Pow2(g.order));
    }

    /** One round of `free_slab_list` on the empty slabs, with `free_slab`. */
    method FreeFirst() returns (a: nat, order: nat)
      requires Valid() && Empty in heads && heads[Empty] != 0
      modifies `slabs, `heads, `book
      ensures Valid() && Empty in heads && order == g.order
      ensures Empty in old(book).lists && old(book).lists[Empty] != [] && a == old(book).lists[Empty][0]
      ensures slabs == old(slabs) - {a} && book == Less(g, old(book), a)
      ensures forall x: nat {:trigger Live(g, Less(g, old(book), a).frees, x)} ::
        Live(g, Less(g, old(book), a).frees, x) <==> Live(g, old(book).frees, x)
    {
      hide Sound, Slots, Sorted, Chains, Fits, Apart, Guarded, Live, Smallest, BlockBytes, Without;
      SomeSlots(g);
      a := heads[Empty];
      EmptyHead(slabNext, heads, book.lists);
      ChainOf(slabNext, heads, book.lists, Empty);
      UnlinkFirst(slabNext, heads, book.lists, Empty);
      DropSlab(g, slabs, freeNext, book, magic, a);
      heads := heads[Empty := slabNext[a]];
      var slabSize;
      order, slabSize := GetOrderFromSize(size);
      TheOrder(g, order, slabSize);
      slabs := slabs - {a};
      book := Less(g, book, a);
    }

    /** The owner of an object stores what it likes in it, the magic number apart. */
    method ClientWrite(obj: nat, next: nat, word: nat)
      requires Valid() && Live(g, book.frees, obj) && word != MAGIC
      modifies `freeNext, `magic
      ensures Valid()
    {
      hide Sound, Sorted, Chains, Fits, Apart, Slots, Guarded, Live;
      SomeSlots(g);
      GuardStore(g, book.frees, magic, book.returned, obj, word);
      ClientSlots(g, slabs, freeNext, book.frees, obj, next);
      freeNext := freeNext[obj := next];
      magic := magic[obj := word];
    }
  }

  function Times(k: nat, n: nat): nat {
    if k == 0 then 0 else Times(k - 1, n) + n
  }

  lemma {:induction false} TimesExact(k: nat, n: nat)
    ensures Times(k, n) == k * n
  {
    if k > 0 { TimesExact(k - 1, n); }
  }

  /** The book without the slab at `a`, first of the empty ones. */
  ghost function Less(g: Shape, b: Book, a: nat): Book
    requires g.size > 0 && Empty in b.lists && b.lists[Empty] != []
  {
    Book(b.lists[Empty := Without(b.lists[Empty], 0)], b.frees - {a}, set x | x in b.returned && !IsSlot(g, a, x))
  }

  lemma EmptyHead(next: map<nat, nat>, heads: map<List, nat>, lists: map<List, seq<nat>>)
    requires Chains(next, heads, lists) && Empty in heads && heads[Empty] != 0
    ensures Empty in lists && lists[Empty] != [] && lists[Empty][0] == heads[Empty]
  {
    ChainOf(next, heads, lists, Empty);
  }

  /** A slab without objects out goes; nothing else changes. */
  lemma DropSlab(g: Shape, slabs: map<nat, Slab>, next: map<nat, nat>, b: Book, magic: map<nat, nat>, a: nat)
    requires Sound(g) && Apart(g, slabs) && Slots(g, slabs, next, b.frees) && Sorted(slabs, b.lists)
    requires Guarded(g, b.frees, magic, b.returned)
    requires Empty in b.lists && NoRepeat(b.lists[Empty]) && b.lists[Empty] != [] && b.lists[Empty][0] == a
    ensures a in slabs && Apart(g, slabs - {a})
    ensures Slots(g, slabs - {a}, next, Less(g, b, a).frees) && Sorted(slabs - {a}, Less(g, b, a).lists)
    ensures Guarded(g, Less(g, b, a).frees, magic, Less(g, b, a).returned)
    ensures forall x: nat {:trigger Live(g, Less(g, b, a).frees, x)} ::
      Live(g, Less(g, b, a).frees, x) <==> Live(g, b.frees, x)
  {
    assert a in b.lists[Empty];
    Free(g, slabs, next, b.frees, a);
    DropApart(g, slabs, a);
    DropSorted(slabs, b.lists);
    DropLive(g, slabs, next, b.frees, a);
    hide Apart, Sorted, Live;
  }

  lemma DropApart(g: Shape, slabs: map<nat, Slab>, a: nat)
    requires Apart(g, slabs)
    ensures Apart(g, slabs - {a})
  {
  }

  lemma DropSorted(slabs: map<nat, Slab>, lists: map<List, seq<nat>>)
    requires Sorted(slabs, lists) && Empty in lists && lists[Empty] != [] && NoRepeat(lists[Empty])
    ensures Sorted(slabs - {lists[Empty][0]}, lists[Empty := Without(lists[Empty], 0)])
  {
    var q := lists[Empty];
    var a, m := q[0], lists[Empty := Without(q, 0)];
    assert a in lists[Empty];
    forall w: List, b: nat | w in m ensures b in m[w] <==> b in slabs - {a} && w == Class(slabs[b]) {
      WithoutExact(q, 0, b);
      assert b in lists[w] <==> b in slabs && w == Class(slabs[b]);
    }
  }

  lemma DropLive(g: Shape, slabs: map<nat, Slab>, next: map<nat, nat>, frees: map<nat, seq<nat>>, a: nat)
    requires Sound(g) && Slots(g, slabs, next, frees) && a in slabs && slabs[a].freeCount == slabs[a].total
    ensures forall x: nat {:trigger Live(g, frees - {a}, x)} :: Live(g, frees - {a}, x) <==> Live(g, frees, x)
  {
    assert Listed(g, a, slabs[a], next, frees[a]);
    forall x: nat ensures Live(g, frees - {a}, x) <==> Live(g, frees, x) {
      if Live(g, frees, x) {
        var b :| b in frees && IsSlot(g, b, x) && x !in frees[b];
        if b == a {
          RoomFor(g, a, frees[a], x);
          assert false;
        }
        assert b in frees - {a};
      }
    }
  }

  /** `x` is a slot of one of the slabs `q`. */
  ghost predicate InSlab(g: Shape, q: seq<nat>, x: nat)
    requires g.size > 0
  {
    exists i :: 0 <= i < |q| && IsSlot(g, q[i], x)
  }

  /** The first `k` of the empty slabs `q0` are gone. */
  ghost predicate Shrunk(g: Shape, s0: map<nat, Slab>, b0: Book, q0: seq<nat>, slabs: map<nat, Slab>, b: Book, k: nat)
    requires g.size > 0
  {
    && k <= |q0| && Empty in b.lists && b.lists[Empty] == q0[k..]
    && (forall a: nat :: a in slabs <==> a in s0 && a !in q0[..k])
    && (forall x: nat {:trigger Live(g, b.frees, x)} :: Live(g, b.frees, x) <==> Live(g, b0.frees, x))
    && (forall x: nat :: x in b.returned <==> x in b0.returned && !InSlab(g, q0[..k], x))
  }

  lemma ShrunkNone(g: Shape, s0: map<nat, Slab>, b0: Book, q0: seq<nat>)
    requires g.size > 0 && Empty in b0.lists && b0.lists[Empty] == q0
    ensures Shrunk(g, s0, b0, q0, s0, b0, 0)
  {
    hide Live;
    assert q0[..0] == [];
  }

  lemma ShrunkNext(g: Shape, s0: map<nat, Slab>, b0: Book, q0: seq<nat>, slabs: map<nat, Slab>, b: Book, k: nat)
    requires g.size > 0 && Shrunk(g, s0, b0, q0, slabs, b, k) && b.lists[Empty] != []
    requires forall x: nat {:trigger Live(g, Less(g, b, b.lists[Empty][0]).frees, x)} ::
      Live(g, Less(g, b, b.lists[Empty][0]).frees, x) <==> Live(g, b.frees, x)
    ensures k < |q0| && b.lists[Empty][0] == q0[k]
    ensures Shrunk(g, s0, b0, q0, slabs - {b.lists[Empty][0]}, Less(g, b, b.lists[Empty][0]), k + 1)
  {
    hide Live, IsSlot, InSlab;
    assert b.lists[Empty][0] == q0[k];
    assert q0[..k + 1] == q0[..k] + [q0[k]];
    assert Without(q0[k..], 0) == q0[k + 1..];
    forall x: nat ensures InSlab(g, q0[..k + 1], x) <==> InSlab(g, q0[..k], x) || IsSlot(g, q0[k], x) {
      InSlabMore(g, q0[..k], q0[k], x);
    }
  }

  lemma InSlabMore(g: Shape, q: seq<nat>, a: nat, x: nat)
    requires g.size > 0
    ensures InSlab(g, q + [a], x) <==> InSlab(g, q, x) || IsSlot(g, a, x)
  {
    hide IsSlot;
    if i :| 0 <= i < |q| && IsSlot(g, q[i], x) { assert (q + [a])[i] == q[i]; }
    if IsSlot(g, a, x) { assert (q + [a])[|q|] == a; }
  }

  lemma ShrunkDone(g: Shape, s0: map<nat, Slab>, b0: Book, q0: seq<nat>, slabs: map<nat, Slab>, b: Book,
                   next: map<nat, nat>, heads: map<List, nat>, k: nat)
    requires g.size > 0 && Shrunk(g, s0, b0, q0, slabs, b, k)
    requires Chains(next, heads, b.lists) && Empty in heads && heads[Empty] == 0
    ensures k == |q0| && Empty in b.lists && b.lists[Empty] == []
    ensures forall a: nat :: a in slabs <==> a in s0 && a !in q0
    ensures forall x: nat :: Live(g, b.frees, x) <==> Live(g, b0.frees, x)
    ensures forall x: nat :: x in b.returned <==> x in b0.returned && !InSlab(g, q0, x)
  {
    hide Live, InSlab;
    ChainOf(next, heads, b.lists, Empty);
    assert q0[..|q0|] == q0;
  }

  /** What `cache_alloc` comes to: an object, or one of two panics. */
  datatype Grant = Object(obj: nat) | NoMemory | BadSlab

  /** What `cache_free` comes to. */
  datatype Outcome = Nothing | DoubleFree | Freed | NotFound

  /** `x` is no slot of a slab that has objects out. */
  ghost predicate Foreign(g: Shape, slabs: map<nat, Slab>, x: nat)
    requires g.size > 0
  {
    forall a <- slabs :: slabs[a].freeCount < slabs[a].total ==> !IsSlot(g, a, x)
  }

  /** `x` is a free slot of a slab with objects out, and does not carry the magic number. */
  ghost predicate Stray(g: Shape, slabs: map<nat, Slab>, b: Book, magic: map<nat, nat>, x: nat)
    requires g.size > 0
  {
    x != 0 && Get(magic, x) != MAGIC && !Live(g, b.frees, x) && !Foreign(g, slabs, x)
  }

  /** A slot pushed on its slab's free list. */
  lemma PushSlot(g: Shape, slabs: map<nat, Slab>, next: map<nat, nat>, frees: map<nat, seq<nat>>, a: nat, x: nat)
    requires Sound(g) && Apart(g, slabs) && Slots(g, slabs, next, frees) && a in slabs && IsSlot(g, a, x)
    ensures a in frees && (Ends(next[x := slabs[a].freeList], x) <==> Live(g, frees, x))
    ensures Live(g, frees, x) ==>
      var s := slabs[a];
      && Slots(g, slabs[a := Slab(s.total, s.freeCount + 1, x)], next[x := s.freeList], frees[a := [x] + frees[a]])
      && GivenBack(g, frees, frees[a := [x] + frees[a]], x)
  {
    hide Apart, GivenBack, IsSlot, Live, Ends;
    KeysSame(g, slabs, next, frees);
    SlotState(g, slabs, next, frees, a, x);
    GiveSlotExact(g, slabs, next, frees, a, x);
    hide Slots;
    if x !in frees[a] {
      GiveSlot(g, slabs, next, frees, a, x);
      GiveLive(g, slabs, frees, a, x);
    }
  }

  /** Whether a slot is out or on its slab's free list. */
  lemma SlotState(g: Shape, slabs: map<nat, Slab>, next: map<nat, nat>, frees: map<nat, seq<nat>>, a: nat, x: nat)
    requires Sound(g) && Apart(g, slabs) && Slots(g, slabs, next, frees) && a in slabs && IsSlot(g, a, x)
    ensures Live(g, frees, x) <==> x !in frees[a]
  {
    LiveAfter(g, slabs, frees, a, frees[a], x);
  }

  /** What the first slab of the lists tells about all slabs. */
  lemma NoneFree(g: Shape, slabs: map<nat, Slab>, freeNext: map<nat, nat>, next: map<nat, nat>, heads: map<List, nat>,
                 lists: map<List, seq<nat>>, frees: map<nat, seq<nat>>)
    requires Sound(g) && Slots(g, slabs, freeNext, frees) && Chains(next, heads, lists) && Sorted(slabs, lists)
    ensures Partial in heads && Empty in heads
    ensures heads[Partial] == 0 && heads[Empty] == 0 ==>
              (forall a <- slabs :: slabs[a].freeCount == 0) && (g.total == 1 ==> slabs == map[])
    ensures g.total > 1 && (heads[Partial] != 0 || heads[Empty] != 0) ==>
              exists a :: a in slabs && slabs[a].freeCount > 0
    ensures g.total == 1 ==> (heads[Partial] != 0 <==> exists a :: a in slabs && slabs[a].freeCount == 0)
    ensures heads[Partial] == 0 && heads[Empty] != 0 ==> heads[Empty] in slabs && slabs[heads[Empty]].freeCount > 0
  {
    ChainOf(next, heads, lists, Partial);
    ChainOf(next, heads, lists, Empty);
    assert lists[Partial] == [] <==> heads[Partial] == 0;
    assert lists[Empty] == [] <==> heads[Empty] == 0;
    if heads[Partial] != 0 { FirstSlab(g, slabs, next, freeNext, heads, lists, frees, Partial); }
    if heads[Empty] != 0 { FirstSlab(g, slabs, next, freeNext, heads, lists, frees, Empty); }
    forall a | a in slabs
      ensures slabs[a].total == g.total && slabs[a].freeCount <= g.total
      ensures Class(slabs[a]) == Partial ==> heads[Partial] != 0
      ensures Class(slabs[a]) == Empty ==> heads[Empty] != 0
    {
      Free(g, slabs, freeNext, frees, a);
      assert a in lists[Partial] <==> Class(slabs[a]) == Partial;
      assert a in lists[Empty] <==> Class(slabs[a]) == Empty;
    }
    hide Linked, Sorted, Slots, Chains;
  }

  /** A block that is taken for a new slab holds none of the guard words that count. */
  lemma GuardNew(g: Shape, slabs: map<nat, Slab>, f: map<nat, seq<nat>>, magic: map<nat, nat>, returned: set<nat>,
                 mem: nat, words: map<nat, nat>)
    requires Sound(g) && Guarded(g, f, magic, returned) && f.Keys == slabs.Keys
    requires forall b <- slabs :: mem + g.slabSize <= b || b + g.slabSize <= mem
    ensures Guarded(g, f, Renewed(magic, mem, g.slabSize, words), returned)
  {
    hide IsSlot, Renewed;
    forall a, x: nat | a in slabs && IsSlot(g, a, x)
      ensures !(mem <= x < mem + g.slabSize)
    {
      SlotInside(g, a, x);
    }
  }

  lemma GuardOut(
    g: Shape, f: map<nat, seq<nat>>, f': map<nat, seq<nat>>, magic: map<nat, nat>, returned: set<nat>, x: nat)
    requires g.size > 0 && Guarded(g, f, magic, returned) && HandedOut(g, f, f', x) && f.Keys <= f'.Keys
    ensures Guarded(g, f', magic[x := 0], returned - {x})
  {
    hide Live, IsSlot;
    assert forall y: nat :: SlotIn(g, f, y) ==> SlotIn(g, f', y);
  }

  lemma GuardBack(
    g: Shape, f: map<nat, seq<nat>>, f': map<nat, seq<nat>>, magic: map<nat, nat>, returned: set<nat>, x: nat)
    requires g.size > 0 && Guarded(g, f, magic, returned) && GivenBack(g, f, f', x) && f.Keys <= f'.Keys
    ensures Guarded(g, f', magic[x := MAGIC], returned + {x})
  {
    assert SlotIn(g, f, x);
    hide Live, IsSlot;
    assert forall y: nat :: SlotIn(g, f, y) ==> SlotIn(g, f', y);
  }

  lemma GuardReads(g: Shape, f: map<nat, seq<nat>>, magic: map<nat, nat>, returned: set<nat>, x: nat)
    requires g.size > 0 && Guarded(g, f, magic, returned)
    ensures Live(g, f, x) ==> Get(magic, x) != MAGIC && x !in returned
    ensures x in returned ==> Get(magic, x) == MAGIC
  {
    hide Live;
  }

  lemma GuardStore(g: Shape, f: map<nat, seq<nat>>, magic: map<nat, nat>, returned: set<nat>, x: nat, word: nat)
    requires g.size > 0 && Guarded(g, f, magic, returned) && Live(g, f, x) && word != MAGIC
    ensures Guarded(g, f, magic[x := word], returned)
  {
    hide Live;
  }

  lemma NoZero(g: Shape, slabs: map<nat, Slab>, next: map<nat, nat>, frees: map<nat, seq<nat>>)
    requires g.size > 0 && Slots(g, slabs, next, frees)
    ensures !Live(g, frees, 0)
  {
  }

  lemma OnAList(g: Shape, slabs: map<nat, Slab>, next: map<nat, nat>, lists: map<List, seq<nat>>,
                frees: map<nat, seq<nat>>, w: List, a: nat)
    requires Sound(g) && Slots(g, slabs, next, frees) && Sorted(slabs, lists) && w in lists && a in lists[w]
    ensures a in slabs && Class(slabs[a]) == w && slabs[a].total == g.total && slabs[a].freeCount <= g.total
  {
    Free(g, slabs, next, frees, a);
  }

  lemma LinkedHead(next: map<nat, nat>, head: nat, q: seq<nat>)
    requires Linked(next, head, q)
    ensures head == At(q, 0)
  {
  }

  lemma LinkedNext(next: map<nat, nat>, head: nat, q: seq<nat>, i: nat)
    requires Linked(next, head, q) && i < |q|
    ensures q[i] in next && next[q[i]] == At(q, i + 1)
  {
    hide At;
  }

  /** An object that is out is in a partial or a full slab, and what is foreign in none. */
  lemma LiveWhere(
    g: Shape, slabs: map<nat, Slab>, slabNext: map<nat, nat>, freeNext: map<nat, nat>, heads: map<List, nat>,
    lists: map<List, seq<nat>>, frees: map<nat, seq<nat>>, x: nat)
    requires Sound(g) && Apart(g, slabs) && Slots(g, slabs, freeNext, frees)
    requires Chains(slabNext, heads, lists) && Sorted(slabs, lists)
    ensures Partial in lists && Full in lists && Partial in heads && Full in heads
    ensures Live(g, frees, x) ==> exists a :: (a in lists[Partial] || a in lists[Full]) && IsSlot(g, a, x)
    ensures Foreign(g, slabs, x) <==> forall a :: a in lists[Partial] || a in lists[Full] ==> !IsSlot(g, a, x)
  {
    ChainOf(slabNext, heads, lists, Partial);
    ChainOf(slabNext, heads, lists, Full);
    if Live(g, frees, x) {
      var a := LiveIn(g, slabs, freeNext, frees, x);
      assert a in lists[Class(slabs[a])];
    }
    forall a | a in lists[Partial] || a in lists[Full] ensures a in slabs && slabs[a].freeCount < slabs[a].total {
      OnAList(g, slabs, freeNext, lists, frees, if a in lists[Partial] then Partial else Full, a);
    }
  }

  lemma LiveIn(g: Shape, slabs: map<nat, Slab>, next: map<nat, nat>, frees: map<nat, seq<nat>>, x: nat) returns (a: nat)
    requires Sound(g) && Slots(g, slabs, next, frees) && Live(g, frees, x)
    ensures a in slabs && IsSlot(g, a, x) && Class(slabs[a]) != Empty
  {
    a :| a in frees && IsSlot(g, a, x) && x !in frees[a];
    assert Listed(g, a, slabs[a], next, frees[a]);
    RoomFor(g, a, frees[a], x);
  }

  lemma ClientSlots(g: Shape, slabs: map<nat, Slab>, next: map<nat, nat>, frees: map<nat, seq<nat>>, x: nat, y: nat)
    requires Sound(g) && Apart(g, slabs) && Slots(g, slabs, next, frees) && Live(g, frees, x)
    ensures Slots(g, slabs, next[x := y], frees)
  {
    var a :| a in frees && IsSlot(g, a, x) && x !in frees[a];
    SlotsFrame(g, slabs, next, frees, a, x, y);
    assert Listed(g, a, slabs[a], next, frees[a]);
    LinkedFrame(next, slabs[a].freeList, frees[a], x, y);
  }

  lemma FirstSlab(g: Shape, slabs: map<nat, Slab>, slabNext: map<nat, nat>, freeNext: map<nat, nat>,
                  heads: map<List, nat>, lists: map<List, seq<nat>>, frees: map<nat, seq<nat>>, l: List)
    requires Sound(g) && Slots(g, slabs, freeNext, frees) && Chains(slabNext, heads, lists) && Sorted(slabs, lists)
    requires l in heads && heads[l] != 0
    ensures var a := heads[l];
      && a in slabs && Class(slabs[a]) == l && slabs[a].total == g.total >= 1 && slabs[a].freeCount <= g.total
      && (l != Full && g.total > 1 ==> slabs[a].freeCount > 0)
  {
    var a := heads[l];
    assert l in lists && Linked(slabNext, a, lists[l]);
    assert lists[l] != [] && a == lists[l][0];
    assert a in lists[l];
    Free(g, slabs, freeNext, frees, a);
  }

  lemma SameApart(g: Shape, s: map<nat, Slab>, t: map<nat, Slab>)
    requires Apart(g, s) && s.Keys == t.Keys
    ensures Apart(g, t)
  {
  }

  lemma SomeSlots(g: Shape)
    requires Sound(g)
    ensures g.size > 0 && g.total >= 1
  {
  }

  lemma NewSlab(g: Shape, slabs: map<nat, Slab>, next: map<nat, nat>, frees: map<nat, seq<nat>>,
                a: nat, s: Slab, next': map<nat, nat>)
    requires Sound(g) && Apart(g, slabs[a := s]) && a !in slabs && Slots(g, slabs, next, frees)
    requires Listed(g, a, s, next', SlotsUpTo(g, a, g.total))
    requires forall x :: x in next && !IsSlot(g, a, x) ==> x in next' && next'[x] == next[x]
    ensures var f := frees[a := SlotsUpTo(g, a, g.total)];
      && Slots(g, slabs[a := s], next', f)
      && forall y: nat {:trigger Live(g, f, y)} :: Live(g, f, y) <==> Live(g, frees, y)
  {
    hide Sound, Apart, Slots, Listed, SlotsUpTo, IsSlot, Live;
    SomeSlots(g);
    var q := SlotsUpTo(g, a, g.total);
    AddSlab(g, slabs, next, frees, a, s, next', q);
    forall x: nat | IsSlot(g, a, x) ensures x in q { SlotListed(g, a, x); }
    KeysSame(g, slabs, next, frees);
    AddLive(g, slabs, frees, a, s, q);
  }

  lemma KeysSame(g: Shape, slabs: map<nat, Slab>, next: map<nat, nat>, frees: map<nat, seq<nat>>)
    requires g.size > 0 && Slots(g, slabs, next, frees)
    ensures frees.Keys == slabs.Keys
  {
  }

  lemma SlotListed(g: Shape, a: nat, x: nat)
    requires g.size > 0 && IsSlot(g, a, x)
    ensures x in SlotsUpTo(g, a, g.total)
  {
    SlotNumberExact(g, a, x);
    hide IsSlot;
    var q := SlotsUpTo(g, a, g.total);
    assert q[SlotNumber(g, a, x)] == SlotAt(g, a, SlotNumber(g, a, x));
  }

  lemma TheOrder(g: Shape, order: nat, slabSize: nat)
    requires Fits(g) && Smallest(g.size, order) && slabSize == BlockBytes(order)
    ensures order == g.order && slabSize == g.slabSize
  {
    SmallestUnique(g.size, order, g.order);
  }

  lemma ApartAdd(g: Shape, slabs: map<nat, Slab>, a: nat, s: Slab)
    requires Apart(g, slabs) && a > 0 && forall b <- slabs :: a + g.slabSize <= b || b + g.slabSize <= a
    ensures Apart(g, slabs[a := s])
  {
  }

  lemma HandedOutAfter(g: Shape, f: map<nat, seq<nat>>, f1: map<nat, seq<nat>>, f2: map<nat, seq<nat>>, x: nat)
    requires g.size > 0 && HandedOut(g, f1, f2, x)
    requires forall y: nat {:trigger Live(g, f1, y)} :: Live(g, f1, y) <==> Live(g, f, y)
    ensures HandedOut(g, f, f2, x)
  {
    hide Live;
  }

  lemma Absent(slabs: map<nat, Slab>, lists: map<List, seq<nat>>, a: nat)
    requires Sorted(slabs, lists) && a !in slabs
    ensures forall w: List :: w in lists ==> a !in lists[w]
  {
  }

  lemma Free(g: Shape, slabs: map<nat, Slab>, next: map<nat, nat>, frees: map<nat, seq<nat>>, a: nat)
    requires Sound(g) && Slots(g, slabs, next, frees) && a in slabs
    ensures a in frees && |frees[a]| == slabs[a].freeCount <= slabs[a].total == g.total
  {
    assert Listed(g, a, slabs[a], next, frees[a]);
  }

  /** Where a slab is on its list. */
  lemma OnList(
    slabs: map<nat, Slab>, next: map<nat, nat>, heads: map<List, nat>, lists: map<List, seq<nat>>, a: nat, l: List)
    returns (i: nat)
    requires Chains(next, heads, lists) && Placed(slabs, lists, a, l) && a in slabs
    ensures l in lists && i < |lists[l]| && lists[l][i] == a
  {
    assert l in lists;
    assert a in lists[l];
    i :| i < |lists[l]| && lists[l][i] == a;
  }

  lemma ChainOf(next: map<nat, nat>, heads: map<List, nat>, lists: map<List, seq<nat>>, w: List)
    requires Chains(next, heads, lists)
    ensures w in heads && w in lists && Linked(next, heads[w], lists[w]) && NoRepeat(lists[w])
    ensures forall i :: 0 <= i < |lists[w]| ==> lists[w][i] in next
  {
  }

  lemma FirstIs(next: map<nat, nat>, head: nat, q: seq<nat>, i: nat)
    requires Linked(next, head, q) && i < |q|
    ensures head == q[0] && head > 0 && head in next && (head == q[i] <==> i == 0)
  {
  }

  lemma NextIs(next: map<nat, nat>, head: nat, q: seq<nat>, k: nat, i: nat)
    requires Linked(next, head, q) && k < i < |q|
    ensures q[k] in next && next[q[k]] == q[k + 1] && q[k + 1] > 0 && q[k + 1] in next
    ensures next[q[k]] == q[i] <==> k + 1 == i
  {
    hide At;
    AtIn(q, k + 1);
  }

  lemma MovedIs(lists: map<List, seq<nat>>, from: List, to: List, i: nat)
    requires from in lists && to in lists && from != to && i < |lists[from]|
    ensures Moved(lists, from, to, i)
         == lists[from := Without(lists[from], i)][to := [lists[from][i]] + lists[from := Without(lists[from], i)][to]]
  {
  }

  lemma FirstSlot(g: Shape, a: nat, next: map<nat, nat>)
    requires Sound(g) && a + HEADER in next && next[a + HEADER] == 0
    ensures SlotAt(g, a, 0) == a + HEADER && SlotAt(g, a, 1) == a + HEADER + g.size && IsSlot(g, a, a + HEADER)
    ensures Linked(next, a + HEADER, SlotsUpTo(g, a, 1))
  {
    SlotIs(g, a, 0);
  }

  lemma SoundBasics(g: Shape)
    requires Sound(g)
    ensures g.size > 0 && g.total >= 1
  {
  }

  lemma SlotPositive(g: Shape, a: nat, k: nat)
    ensures SlotAt(g, a, k) > 0
  {
  }

  lemma SlotRoom(g: Shape, a: nat, k: nat)
    requires Fits(g) && Sound(g)
    ensures SlotAt(g, a, k) + g.size <= a + g.slabSize <==> k < g.total
    ensures SlotAt(g, a, k + 1) == SlotAt(g, a, k) + g.size
  {
    hide Smallest, BlockBytes;
    Room(g.slabSize - HEADER, g.size, k);
  }

  lemma NextSlot(g: Shape, a: nat, next: map<nat, nat>, k: nat)
    requires Fits(g) && Sound(g) && 1 <= k && SlotAt(g, a, k) + g.size <= a + g.slabSize
    requires Linked(next, a + HEADER, SlotsUpTo(g, a, k))
    ensures k < g.total && IsSlot(g, a, SlotAt(g, a, k)) && IsSlot(g, a, SlotAt(g, a, k - 1))
    ensures SlotAt(g, a, k + 1) == SlotAt(g, a, k) + g.size
    ensures var n := next[SlotAt(g, a, k - 1) := SlotAt(g, a, k)][SlotAt(g, a, k) := 0];
      Linked(n, a + HEADER, SlotsUpTo(g, a, k + 1))
  {
    hide SlotAt, Fits, Sound, IsSlot, Linked;
    SlotRoom(g, a, k);
    SoundBasics(g);
    SlotPositive(g, a, k);
    SlotIs(g, a, k);
    SlotIs(g, a, k - 1);
    var q := SlotsUpTo(g, a, k);
    forall i | 0 <= i < k ensures q[i] != SlotAt(g, a, k) { SlotsDiffer(g, a, i, k); }
    LinkedAppend(next, a + HEADER, q, SlotAt(g, a, k));
    assert q + [SlotAt(g, a, k)] == SlotsUpTo(g, a, k + 1);
  }

  lemma AllSlots(g: Shape, a: nat, next: map<nat, nat>, k: nat)
    requires Fits(g) && Sound(g) && 1 <= k <= g.total && SlotAt(g, a, k) + g.size > a + g.slabSize
    requires Linked(next, a + HEADER, SlotsUpTo(g, a, k))
    ensures k == g.total == (g.slabSize - HEADER) / g.size && g.slabSize >= HEADER
    ensures Listed(g, a, Slab(k, k, a + HEADER), next, SlotsUpTo(g, a, k))
  {
    hide SlotAt, Sound, Linked, Smallest, BlockBytes;
    SlotRoom(g, a, k);
    SoundBasics(g);
    forall i | 0 <= i < k ensures IsSlot(g, a, SlotsUpTo(g, a, k)[i]) { SlotIs(g, a, i); }
  }
}
