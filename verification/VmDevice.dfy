/** The page-table code of kernel/vm.c over physical memory. Addresses are page and
    frame numbers; process sizes are bytes. */
module VmDevice {
  import Counting
  import opened VmTables
  import opened VmPages
  import opened VmFree

  const PGSIZE: nat := 4096

  /** The pages that `sz` bytes need: `PGROUNDUP(sz) / PGSIZE`. */
  function PagesIn(sz: nat): (n: nat)
    ensures sz <= n * PGSIZE < sz + PGSIZE
  {
    (sz + PGSIZE - 1) / PGSIZE
  }

  /** The pages `lo` to `hi` map, with `flags`, to pages of zeroes. */
  ghost predicate Blank(s: State, r: nat, lo: nat, hi: nat, flags: nat)
    requires hi <= MAXPAGE
  {
    forall v: nat {:trigger Pte(s, r, v)} :: lo <= v < hi ==>
      var f := FrameOf(Pte(s, r, v)); Pte(s, r, v) == Entry(f, flags) && f in s.mem && s.mem[f] == Zeroes()
  }

  /** In `s`, the first `n` pages of `to` are copies, with the same flags, of what the
      pages of `from` were in `s0`. */
  ghost predicate Copied(s0: State, s: State, from: nat, to: nat, n: nat)
    requires n <= MAXPAGE
  {
    forall v: nat {:trigger Pte(s, to, v)} :: v < n ==> CopiedPage(s0, s, Pte(s0, from, v), Pte(s, to, v))
  }

  ghost predicate CopiedPage(s0: State, s: State, w: nat, w': nat) {
    if w == 0 then w' == 0 else
      && w' == Entry(FrameOf(w'), Flags(w))
      && FrameOf(w) in s0.mem && FrameOf(w') in s.mem && s.mem[FrameOf(w')] == s0.mem[FrameOf(w)]
  }

  class Vm {
    var mem: map<nat, Page>
    /** What the page allocator has to give. */
    var free: set<nat>
    ghost var t: map<Key, nat>

    ghost function St(): State
      reads this
    {
      State(mem, free, t)
    }

    ghost predicate Valid()
      reads this
    {
      Tables(St())
    }

    constructor (mem: map<nat, Page>, free: set<nat>)
      requires (forall f <- mem :: |mem[f]| == ENTRIES) && free <= mem.Keys
      ensures Valid() && this.mem == mem && this.free == free && t == map[]
    {
      this.mem, this.free, t := mem, free, map[];
    }

    method Kalloc() returns (ok: bool, f: nat)
      modifies `free
      ensures ok == (old(free) != {})
      ensures ok ==> f in old(free) && free == old(free) - {f}
      ensures !ok ==> free == {}
    {
      ok, f := free != {}, 0;
      if ok {
        f :| f in free;
        free := free - {f};
      }
    }

    method Kfree(f: nat)
      requires f in mem && f !in free
      modifies `free
      ensures free == old(free) + {f}
    {
      free := free + {f};
    }

    /** One level of `walk`: from entry `i` of page `p` to the page of `child` below it. */
    method Down(p: nat, i: nat, alloc: bool, ghost child: Key) returns (ok: bool, q: nat)
      requires Valid() && Hangs(t, child) && BelowMax(child) && i == Slot(child) && p == t[Parent(child)]
      modifies this
      ensures Widened(old(St()), St(), child.r)
      ensures ok ==> child in t && q == t[child]
      ensures !ok ==> child !in t && (alloc ==> free == {})
      ensures !alloc ==> St() == old(St())
    {
      hide Tables, Widened;
      ghost var s := St();
      Below(s, child);
      WidenedNot(s, child.r);
      if IsValid(mem[p][i]) {
        return true, FrameOf(mem[p][i]);
      }
      if !alloc { return false, 0; }
      var got, f := Kalloc();
      if !got { return false, 0; }
      NewPage(s, child, f);
      mem := mem[f := Zeroes()];
      mem := Store(mem, p, i, Entry(f, 0));
      t := t[child := f];
      return true, f;
    }

    /** `walk`: the page that holds the leaf entry of `v`, entry `I0(v)` of it. */
    method Walk(r: nat, v: nat, alloc: bool) returns (ok: bool, p: nat)
      requires Valid() && Root(r) in t && v < MAXPAGE
      modifies this
      ensures Widened(old(St()), St(), r)
      ensures ok ==> Leaf(r, v) in t && p == t[Leaf(r, v)]
      ensures !ok ==> if alloc then free == {} else Leaf(r, v) !in t
      ensures !alloc ==> St() == old(St())
    {
      hide Tables, Widened, I1, I2;
      Indices(v);
      AtRoot(St(), r, v);
      p := r;
      ghost var k := Root(r);
      var level := 2;
      while level > 0
        invariant 0 <= level <= 2
        invariant Widened(old(St()), St(), r) && Valid()
        invariant !alloc ==> St() == old(St())
        invariant k == if level == 2 then Root(r) else if level == 1 then Mid(r, I2(v)) else Leaf(r, v)
        invariant k in t && t[k] == p
      {
        ghost var child := if level == 2 then Mid(r, I2(v)) else Leaf(r, v);
        ghost var s := St();
        ok, p := Down(p, if level == 2 then I2(v) else I1(v), alloc, child);
        WidenedTrans(old(St()), s, St(), r);
        if !ok { return; }
        assert Valid() by { WidenedValid(s, St(), r); }
        k := child;
        level := level - 1;
      }
      ok := true;
    }

    /** `mappages`, which panics when a page of the range is mapped already. */
    method Mappages(r: nat, v: nat, n: nat, pa: nat, flags: nat) returns (ok: bool, ghost done: nat)
      requires Valid() && Root(r) in t && flags < 1024
      requires 0 < n && v + n <= MAXPAGE && Vacant(St(), r, v, v + n)
      modifies this
      ensures Mapping(old(St()), St(), r, v, done, pa, flags)
      ensures if ok then done == n else done < n && free == {}
    {
      hide Tables, Widened, Grown, Pte, I0, I1, I2, Leafed, Entry, Mapping;
      var a, f, last := v, pa, v + n - 1;
      MapNone(St(), r, v, pa, flags);
      while true
        invariant v <= a <= last && f == pa + (a - v)
        invariant Mapping(old(St()), St(), r, v, a - v, pa, flags)
        decreases last - a
      {
        ghost var s := St();
        assert Valid() && Root(r) in t && Pte(s, r, a) == 0 by { MappingHere(old(St()), s, r, v, a - v, pa, flags); }
        ok, done := false, a - v;
        var p;
        ok, p := Walk(r, a, true);
        MapWider(old(St()), s, St(), r, v, a - v, pa, flags);
        if !ok { return; }
        LeafWord(s, St(), r, a);
        assert !IsValid(mem[p][I0(a)]);
        MapNext(old(St()), St(), r, v, a - v, pa, flags);
        LeafedIs(St(), r, a, Entry(f, flags));
        mem := Store(mem, p, I0(a), Entry(f, flags));
        done := a - v + 1;
        if a == last { break; }
        a, f := a + 1, f + 1;
      }
    }

    /** `uvmunmap`. */
    method Uvmunmap(r: nat, v: nat, npages: nat, doFree: bool)
      requires Valid() && Root(r) in t && v + npages <= MAXPAGE
      requires doFree ==> Owned(St(), r, v, v + npages)
      modifies this
      ensures Unmapping(old(St()), St(), r, v, npages, doFree)
    {
      hide Tables, Pte, I0, I1, I2, Leafed, Unmapping, FrameOf, Widened, Vacant;
      UnmapNone(St(), r, v, doFree);
      var a := v;
      while a < v + npages
        invariant v <= a <= v + npages
        invariant Unmapping(old(St()), St(), r, v, a - v, doFree)
      {
        ghost var s := St();
        assert Valid() && t == old(t) by { UnmappingHere(old(St()), s, r, v, a - v, doFree); }
        var ok, p := Walk(r, a, false);
        PteAt(St(), r, a);
        if !ok || !IsValid(mem[p][I0(a)]) {
          UnmapSkip(old(St()), s, r, v, a - v, doFree);
        } else {
          assert doFree ==> Owned(old(St()), r, v, a + 1);
          if doFree {
            UnmapFresh(old(St()), s, r, v, a - v);
            Kfree(FrameOf(mem[p][I0(a)]));
          }
          UnmapNext(old(St()), s, r, v, a - v, doFree, free);
          LeafedIs(s, r, a, 0);
          mem := Store(mem, p, I0(a), 0);
        }
        a := a + 1;
      }
    }

    /** `uvmdealloc`. */
    method Uvmdealloc(r: nat, oldsz: nat, newsz: nat) returns (sz: nat)
      requires Valid() && Root(r) in t && oldsz <= MAXPAGE * PGSIZE
      requires Owned(St(), r, PagesIn(newsz), PagesIn(oldsz))
      modifies this
      ensures sz == if newsz >= oldsz then oldsz else newsz
      ensures newsz >= oldsz ==> St() == old(St())
      ensures newsz < oldsz ==> PagesIn(newsz) <= PagesIn(oldsz)
      ensures newsz < oldsz ==>
        Unmapping(old(St()), St(), r, PagesIn(newsz), PagesIn(oldsz) - PagesIn(newsz), true)
    {
      hide Tables, Unmapping, Owned;
      if newsz >= oldsz { return oldsz; }
      if PagesIn(newsz) < PagesIn(oldsz) {
        Uvmunmap(r, PagesIn(newsz), PagesIn(oldsz) - PagesIn(newsz), true);
      } else {
        UnmapNone(St(), r, PagesIn(newsz), true);
      }
      sz := newsz;
    }

    /** The way out of `uvmalloc`: give back the pages `lo` to `a`. */
    method Retreat(r: nat, lo: nat, a: nat, ghost s0: State)
      requires lo <= a <= MAXPAGE && Root(r) in t && Vacant(s0, r, lo, a)
      requires Taking(s0, St(), r, lo, a)
      modifies this
      ensures Widened(s0, St(), r)
      ensures |free| <= old(|free|) + (a - lo)
    {
      hide Tables, Taking, Unmapping, Owned, Vacant, Widened, PagesIn;
      ghost var s := St();
      TakingBasics(s0, s, r, lo, a);
      WholePages(a);
      WholePages(lo);
      var sz := Uvmdealloc(r, a * PGSIZE, lo * PGSIZE);
      assert Unmapping(s, St(), r, lo, a - lo, true) by {
        if a == lo { UnmapNone(s, r, lo, true); }
      }
      Retreated(s0, s, St(), r, lo, a);
    }

    /** `uvmalloc`, which returns 0 when memory runs out. */
    method Uvmalloc(r: nat, oldsz: nat, newsz: nat, xperm: nat) returns (sz: nat)
      requires Valid() && Root(r) in t && newsz <= MAXPAGE * PGSIZE && xperm in {0, 4, 8, 12}
      requires Vacant(St(), r, PagesIn(oldsz), PagesIn(newsz))
      modifies this
      ensures newsz < oldsz ==> sz == oldsz && St() == old(St())
      ensures newsz >= oldsz && sz == newsz ==>
        && Taking(old(St()), St(), r, PagesIn(oldsz), PagesIn(newsz))
        && Blank(St(), r, PagesIn(oldsz), PagesIn(newsz), UserFlags(xperm))
      ensures newsz >= oldsz && sz != newsz ==>
        sz == 0 && Widened(old(St()), St(), r) && |free| <= PagesIn(newsz) - PagesIn(oldsz)
    {
      hide Tables, Widened, Taking, Mapping, Vacant, Blank, Pte, PagesIn, Filled, Owned;
      if newsz < oldsz { return oldsz; }
      var lo := PagesIn(oldsz);
      ghost var s0, hi, flags := St(), PagesIn(newsz), UserFlags(xperm);
      TakeNone(s0, r, lo);
      BlankNone(s0, r, lo, flags);
      var a := lo;
      while a * PGSIZE < newsz
        invariant lo <= a <= hi
        invariant Taking(s0, St(), r, lo, a) && Blank(St(), r, lo, a, flags)
      {
        ghost var s := St();
        TakingHere(s0, s, r, lo, a, hi);
        var ok, f := Kalloc();
        if !ok {
          Retreat(r, lo, a, s0);
          return 0;
        }
        mem := mem[f := Zeroes()];
        assert St() == Filled(s, f, Zeroes()) by { FilledIs(s, f, Zeroes()); }
        FilledHere(s, r, a, f, Zeroes());
        ghost var done;
        ok, done := Mappages(r, a, 1, f, UserFlags(xperm));
        if !ok {
          TakeBack(s, St(), r, a, f, Zeroes(), flags);
          Kfree(f);
          TakeWider(s0, s, St(), r, lo, a);
          TakingHere(s0, St(), r, lo, a, hi);
          Retreat(r, lo, a, s0);
          return 0;
        }
        BlankNext(s0, s, St(), r, lo, a, f, flags);
        a := a + 1;
      }
      sz := newsz;
    }

    /** The way out of `uvmcopy`: unmap the first `i` pages. */
    method Abandon(r: nat, i: nat, ghost s0: State)
      requires i <= MAXPAGE && Root(r) in t && Vacant(s0, r, 0, i) && Taking(s0, St(), r, 0, i)
      modifies this
      ensures Widened(s0, St(), r)
      ensures |free| <= old(|free|) + i
    {
      hide Tables, Taking, Unmapping, Owned, Vacant, Widened;
      ghost var s := St();
      TakingBasics(s0, s, r, 0, i);
      Uvmunmap(r, 0, i, true);
      Retreated(s0, s, St(), r, 0, i);
    }

    /** `uvmcopy`, which fails when memory runs out. */
    method Uvmcopy(from: nat, to: nat, sz: nat) returns (ok: bool)
      requires Valid() && Root(from) in t && Root(to) in t && from != to && sz <= MAXPAGE * PGSIZE
      requires Owned(St(), from, 0, PagesIn(sz)) && Vacant(St(), to, 0, PagesIn(sz))
      modifies this
      ensures ok ==>
        Taking(old(St()), St(), to, 0, PagesIn(sz)) && Copied(old(St()), St(), from, to, PagesIn(sz))
      ensures !ok ==> Widened(old(St()), St(), to) && |free| <= PagesIn(sz)
    {
      hide Tables, Widened, Taking, Mapping, Vacant, Copied, Pte, PagesIn, Filled, Owned, FrameOf, Flags, I0, I1, I2;
      ghost var s0, n := St(), PagesIn(sz);
      TakeNone(s0, to, 0);
      CopiedNone(s0, from, to);
      var i := 0;
      while i * PGSIZE < sz
        invariant 0 <= i <= n
        invariant Taking(s0, St(), to, 0, i) && Copied(s0, St(), from, to, i)
      {
        ghost var s := St();
        TakingHere(s0, s, to, 0, i, n);
        SourceHere(s0, s, from, to, i, n);
        var found, p := Walk(from, i, false);
        PteAt(s, from, i);
        if !found || !IsValid(mem[p][I0(i)]) {
          CopiedSkip(s0, s, from, to, i);
        } else {
          var pa, flags := FrameOf(mem[p][I0(i)]), Flags(mem[p][I0(i)]);
          var f;
          ok, f := Kalloc();
          if !ok {
            Abandon(to, i, s0);
            return;
          }
          mem := mem[f := mem[pa]];
          assert St() == Filled(s, f, s.mem[pa]) by { FilledIs(s, f, s.mem[pa]); }
          FilledHere(s, to, i, f, s.mem[pa]);
          ghost var done;
          ok, done := Mappages(to, i, 1, f, flags);
          if !ok {
            TakeBack(s, St(), to, i, f, s.mem[pa], flags);
            Kfree(f);
            TakeWider(s0, s, St(), to, 0, i);
            TakingHere(s0, St(), to, 0, i, n);
            Abandon(to, i, s0);
            return;
          }
          CopiedNext(s0, s, St(), from, to, i, f, flags);
        }
        i := i + 1;
      }
      ok := true;
    }

    /** `freewalk`, which panics at a leaf entry; `level` is how far `f` is from the
        pages of leaf entries. */
    method Freewalk(f: nat, ghost level: nat)
      requires Clean(mem, f, level) && Reach(mem, f, level) !! free
      requires forall x <- mem :: |mem[x]| == ENTRIES
      modifies `mem, `free
      ensures free == old(free) + Reach(old(mem), f, level)
      ensures SameBut(old(St()), St(), Reach(old(mem), f, level))
      ensures forall x <- mem :: |mem[x]| == ENTRIES
      decreases level
    {
      hide Reach, ReachFrom, Clean, Freeing;
      FreeingStart(St(), f, level);
      var i := 0;
      ghost var done: set<nat> := {};
      while i < ENTRIES
        invariant 0 <= i <= ENTRIES
        invariant Freeing(old(St()), St(), f, level, i, done)
      {
        ghost var s := St();
        FreeingHere(old(St()), s, f, level, i, done);
        var pte := mem[f][i];
        if IsValid(pte) && !IsLeaf(pte) {
          var child := FrameOf(pte);
          Freewalk(child, level - 1);
          ghost var s1 := St();
          FreeingChild(old(St()), s, s1, f, level, i, done);
          mem := Store(mem, f, i, 0);
          done := done + Reach(s.mem, child, level - 1);
        } else {
          assert !IsValid(pte);
        }
        i := i + 1;
      }
      FreeingDone(old(St()), St(), f, level, done);
      FreeingWhole(old(St()), St(), f, level, done);
      Kfree(f);
    }

    /** `uvmcreate`. */
    method Uvmcreate() returns (ok: bool, r: nat)
      requires Valid()
      modifies this
      ensures ok == (old(free) != {})
      ensures !ok ==> St() == old(St())
      ensures ok ==> r in old(free) && St() == Created(old(St()), r)
      ensures Valid() && SameMap(old(St()), St())
      ensures ok ==> Vacant(St(), r, 0, MAXPAGE) && FramesOf(t, r) == {r}
    {
      hide Tables, SameMap, Vacant, FramesOf, Pte;
      ghost var s := St();
      assert SameMap(s, s) by { SameMapSelf(s); }
      ok, r := Kalloc();
      if !ok { return; }
      CreateStep(s, r);
      mem := mem[r := Zeroes()];
      t := t[Root(r) := r];
    }

    /** `uvmfree`: all of a page table and of the memory it maps. */
    method Uvmfree(r: nat, sz: nat)
      requires Valid() && Root(r) in t && sz <= MAXPAGE * PGSIZE
      requires Owned(St(), r, 0, PagesIn(sz)) && Vacant(St(), r, PagesIn(sz), MAXPAGE)
      modifies this
      ensures Valid() && t == Without(old(t), r)
      ensures free == old(free) + Frames(old(St()), r, 0, PagesIn(sz)) + FramesOf(old(t), r)
      ensures SameBut(old(St()), St(), FramesOf(old(t), r))
      ensures forall r': nat, v: nat {:trigger Pte(St(), r', v)} :: v < MAXPAGE && r' != r ==>
        Pte(St(), r', v) == Pte(old(St()), r', v)
    {
      hide Tables, Pte, Owned, Vacant, Unmapping, Reach, Clean, Frames, FramesOf, Without, PagesIn;
      if sz > 0 {
        Uvmunmap(r, 0, PagesIn(sz), true);
      } else {
        NoPages();
        UnmapNone(St(), r, 0, true);
      }
      ghost var s := St();
      Emptied(old(St()), s, r, PagesIn(sz));
      Freewalk(r, 2);
      t := Without(t, r);
      Dropped(old(St()), s, St(), r, PagesIn(sz));
    }

    /** What a `fork` takes for the address space of the child, it gives back when the
        child is freed, whether or not the copy succeeded. */
    method ForkAndFree(from: nat, sz: nat)
      requires Valid() && Root(from) in t && sz <= MAXPAGE * PGSIZE && Owned(St(), from, 0, PagesIn(sz))
      modifies this
      ensures Valid() && free == old(free) && t == old(t)
      ensures SameMap(old(St()), St()) && SameBut(old(St()), St(), old(free))
    {
      hide Tables, Pte, Owned, Vacant, Taking, Widened, Created, SameMap, SameBut, Frames, FramesOf, Without, PagesIn;
      ghost var s0, n := St(), PagesIn(sz);
      var ok, r := Uvmcreate();
      if !ok {
        assert SameBut(s0, s0, s0.free) by { SameButSelf(s0); }
        return;
      }
      ghost var s1 := St();
      Forking(s0, from, r, n);
      ok := Uvmcopy(from, r, sz);
      ghost var s2 := St();
      if ok {
        Forked(s1, s2, r, n);
        Uvmfree(r, sz);
        Reaped(s0, s2, St(), r, n);
      } else {
        NoPages();
        NotForked(s1, s2, r);
        Forked(s1, s2, r, 0);
        Uvmfree(r, 0);
        Reaped(s0, s2, St(), r, 0);
      }
    }
  }

  lemma SameMapSelf(s: State)
    ensures SameMap(s, s)
  {
  }

  lemma SameButSelf(s: State)
    ensures SameBut(s, s, s.free)
  {
  }

  lemma Forking(s0: State, from: nat, r: nat, n: nat)
    requires n <= MAXPAGE && Tables(s0) && r in s0.free && Root(from) in s0.t && Owned(s0, from, 0, n)
    ensures var s1 := Created(s0, r);
      Root(from) in s1.t && Root(r) in s1.t && from != r && Owned(s1, from, 0, n) && Vacant(s1, r, 0, n)
  {
    assert s0.t[Root(from)] == from && from !in s0.free;
    hide Pte, Tables, FrameOf, FramesOf, Owned, SameMap;
    CreateStep(s0, r);
    CreatedValues(s0, r);
    OwnedStill(s0, Created(s0, r), from, r, n);
  }

  lemma OwnedStill(s: State, s': State, from: nat, r: nat, n: nat)
    requires n <= MAXPAGE && Owned(s, from, 0, n) && SameMap(s, s') && r in s.free
    requires s'.free <= s.free && s'.t.Values == s.t.Values + {r} && s.mem.Keys <= s'.mem.Keys
    ensures Owned(s', from, 0, n)
  {
    hide Pte, FrameOf;
    forall v: nat | v < n ensures Pte(s', from, v) == Pte(s, from, v) {
    }
  }

  lemma CreatedValues(s0: State, r: nat)
    requires Tables(s0) && r in s0.free
    ensures Created(s0, r).t.Values == s0.t.Values + {r}
  {
    var t := s0.t[Root(r) := r];
    NoneBelowAll(s0, r);
    forall x | x in s0.t.Values + {r} ensures x in t.Values {
      if x in s0.t.Values {
        var k :| k in s0.t && s0.t[k] == x;
        assert t[k] == x;
      } else {
        assert t[Root(r)] == r;
      }
    }
  }

  lemma NoneBelowAll(s: State, r: nat)
    requires Tables(s) && r in s.free
    ensures forall k <- s.t :: k.r != r
  {
    forall k | k in s.t ensures k.r != r { NoneBelow(s, k, r); }
  }

  /** The child's address space, ready to be freed. */
  lemma Forked(s1: State, s2: State, r: nat, n: nat)
    requires n <= MAXPAGE && Root(r) in s1.t
    requires Taking(s1, s2, r, 0, n) && Vacant(s1, r, 0, MAXPAGE)
    ensures Tables(s2) && Root(r) in s2.t && Owned(s2, r, 0, n) && Vacant(s2, r, n, MAXPAGE)
  {
    hide Pte, Tables;
  }

  lemma NotForked(s1: State, s2: State, r: nat)
    requires Widened(s1, s2, r)
    ensures Taking(s1, s2, r, 0, 0)
  {
    assert Frames(s2, r, 0, 0) == {};
    hide Pte, Tables;
  }

  /** Freeing the child gives back exactly what was taken since `s0`. */
  lemma Reaped(s0: State, s2: State, s3: State, r: nat, n: nat)
    requires n <= MAXPAGE && Tables(s0) && r in s0.free
    requires Taking(Created(s0, r), s2, r, 0, n)
    requires SameMap(s0, Created(s0, r)) && Vacant(Created(s0, r), r, 0, MAXPAGE)
    requires s3.t == Without(s2.t, r) && s3.free == s2.free + Frames(s2, r, 0, n) + FramesOf(s2.t, r)
    requires SameBut(s2, s3, FramesOf(s2.t, r))
    requires forall r': nat, v: nat {:trigger Pte(s3, r', v)} ::
      v < MAXPAGE && r' != r ==> Pte(s3, r', v) == Pte(s2, r', v)
    ensures s3.free == s0.free && s3.t == s0.t
    ensures SameMap(s0, s3) && SameBut(s0, s3, s0.free)
  {
    ReapedFrames(s0, s2, s3, r, Frames(s2, r, 0, n));
    ReapedMap(s0, s2, s3, r, n);
  }

  lemma ReapedFrames(s0: State, s2: State, s3: State, r: nat, taken: set<nat>)
    requires Tables(s0) && r in s0.free
    requires Grown(Created(s0, r), s2, r, taken)
    requires s3.t == Without(s2.t, r) && s3.free == s2.free + taken + FramesOf(s2.t, r)
    requires SameBut(s2, s3, FramesOf(s2.t, r))
    ensures s3.free == s0.free && s3.t == s0.t
    ensures SameBut(s0, s3, s0.free)
  {
    var s1 := Created(s0, r);
    NoneBelowAll(s0, r);
    ReapedKeys(s0, s2, r, taken);
    ReapedBack(s0, s2, r, taken);
    assert FramesOf(s1.t, r) <= {r};
    hide Tables, FramesOf, Without;
  }

  lemma ReapedKeys(s0: State, s2: State, r: nat, taken: set<nat>)
    requires Tables(s0) && r in s0.free && Grown(Created(s0, r), s2, r, taken)
    ensures Without(s2.t, r) == s0.t
    ensures FramesOf(s2.t, r) <= s0.free
  {
    NoneBelowAll(s0, r);
    var s1 := Created(s0, r);
    hide Tables, SameBut;
    forall k | k in s2.t && k.r == r ensures s2.t[k] in s0.free {
      if k in s1.t { assert k == Root(r); }
    }
  }

  lemma ReapedBack(s0: State, s2: State, r: nat, taken: set<nat>)
    requires Tables(s0) && r in s0.free && Grown(Created(s0, r), s2, r, taken)
    ensures s0.free <= s2.free + taken + FramesOf(s2.t, r)
  {
    var s1 := Created(s0, r);
    CreatedValues(s0, r);
    assert s1.t[Root(r)] == r;
    forall x | x in s0.free ensures x in s2.free + taken + FramesOf(s2.t, r) {
      if x == r {
        assert s2.t[Root(r)] == r;
      } else if x in s2.t.Values {
        var k :| k in s2.t && s2.t[k] == x;
        assert k in s1.t ==> k in s0.t;
      }
    }
  }

  lemma ReapedMap(s0: State, s2: State, s3: State, r: nat, n: nat)
    requires n <= MAXPAGE && Tables(s0) && r in s0.free && s3.t == s0.t
    requires SameMap(s0, Created(s0, r)) && SameOutside(Created(s0, r), s2, r, 0, n)
    requires forall r': nat, v: nat {:trigger Pte(s3, r', v)} ::
      v < MAXPAGE && r' != r ==> Pte(s3, r', v) == Pte(s2, r', v)
    ensures SameMap(s0, s3)
  {
    NoneBelowAll(s0, r);
    forall r': nat, v: nat | v < MAXPAGE ensures Pte(s3, r', v) == Pte(s0, r', v) {
      if r' == r {
        assert Leaf(r, v) !in s0.t;
      } else {
        assert Pte(s3, r', v) == Pte(s2, r', v) == Pte(Created(s0, r), r', v);
      }
    }
  }

  lemma NoPages()
    ensures PagesIn(0) == 0
  {
  }

  /** With its pages unmapped a page table is ready for `freewalk`. */
  lemma Emptied(s0: State, s: State, r: nat, n: nat)
    requires n <= MAXPAGE && Root(r) in s0.t
    requires Unmapping(s0, s, r, 0, n, true) && Vacant(s0, r, n, MAXPAGE)
    ensures Clean(s.mem, r, 2) && Reach(s.mem, r, 2) == FramesOf(s0.t, r) && Reach(s.mem, r, 2) !! s.free
    ensures forall x <- s.mem :: |s.mem[x]| == ENTRIES
  {
    assert Tables(s) && s.t == s0.t;
    assert Vacant(s, r, 0, MAXPAGE) by {
      hide Pte, Tables;
    }
    ReachesTables(s, r);
    assert forall x <- s.mem :: |s.mem[x]| == ENTRIES;
    hide Pte, Clean, Reach, FramesOf;
  }

  /** And with its table pages free too it is gone. */
  lemma Dropped(s0: State, s: State, s1: State, r: nat, n: nat)
    requires n <= MAXPAGE
    requires Unmapping(s0, s, r, 0, n, true)
    requires s1.free == s.free + FramesOf(s0.t, r) && SameBut(s, s1, FramesOf(s0.t, r)) && s1.t == Without(s.t, r)
    requires forall x <- s1.mem :: |s1.mem[x]| == ENTRIES
    ensures Tables(s1) && s1.t == Without(s0.t, r)
    ensures s1.free == s0.free + Frames(s0, r, 0, n) + FramesOf(s0.t, r)
    ensures SameBut(s0, s1, FramesOf(s0.t, r))
    ensures forall r': nat, v: nat {:trigger Pte(s1, r', v)} :: v < MAXPAGE && r' != r ==>
      Pte(s1, r', v) == Pte(s0, r', v)
  {
    hide Tables, Pte, Frames, FramesOf, Without;
    DropTables(s, s1, r);
    forall r': nat, v: nat | v < MAXPAGE && r' != r ensures Pte(s1, r', v) == Pte(s0, r', v) {
      assert Pte(s1, r', v) == Pte(s, r', v) == Pte(s0, r', v);
    }
  }

  /** `freewalk` of frame `f` has freed `done`, reached through the first `i` entries. */
  ghost predicate Freeing(s0: State, s: State, f: nat, level: nat, i: nat, done: set<nat>)
    requires i <= ENTRIES
  {
    var all, rest := ReachFrom(s0.mem, f, level, 0), ReachFrom(s.mem, f, level, i);
    && CleanFrom(s.mem, f, level, i)
    && done + rest == all && f !in all && rest !! s.free
    && s.free == s0.free + done && f !in s.free
    && SameBut(s0, s, done + {f})
    && (forall x <- s.mem :: |s.mem[x]| == ENTRIES)
  }

  lemma FreeingStart(s: State, f: nat, level: nat)
    requires Clean(s.mem, f, level) && Reach(s.mem, f, level) !! s.free
    requires forall x <- s.mem :: |s.mem[x]| == ENTRIES
    ensures Freeing(s, s, f, level, 0, {})
  {
    SelfApart(s.mem, f, level, 0);
    assert f in Reach(s.mem, f, level);
    hide CleanFrom, ReachFrom;
  }

  lemma {:induction false} SelfApart(mem: map<nat, Page>, f: nat, level: nat, i: nat)
    requires i <= ENTRIES && CleanFrom(mem, f, level, i)
    ensures f !in ReachFrom(mem, f, level, i)
    decreases ENTRIES - i
  {
    if i < ENTRIES { SelfApart(mem, f, level, i + 1); }
  }

  lemma FreeingHere(s0: State, s: State, f: nat, level: nat, i: nat, done: set<nat>)
    requires i < ENTRIES && Freeing(s0, s, f, level, i, done)
    ensures f in s.mem && |s.mem[f]| == ENTRIES
    ensures IsValid(s.mem[f][i]) ==>
      && !IsLeaf(s.mem[f][i]) && level > 0
      && Clean(s.mem, FrameOf(s.mem[f][i]), level - 1) && Reach(s.mem, FrameOf(s.mem[f][i]), level - 1) !! s.free
    ensures !IsValid(s.mem[f][i]) ==> Freeing(s0, s, f, level, i + 1, done)
    ensures forall x <- s.mem :: |s.mem[x]| == ENTRIES
  {
    assert CleanEntry(s.mem, f, level, i);
    hide Clean, Reach, IsLeaf, FrameOf, IsValid;
  }

  lemma CleanChild(mem: map<nat, Page>, f: nat, level: nat, i: nat)
    requires i < ENTRIES && f in mem && |mem[f]| == ENTRIES && IsValid(mem[f][i]) && level > 0
    requires CleanFrom(mem, f, level, i)
    ensures var below, rest := Reach(mem, FrameOf(mem[f][i]), level - 1), ReachFrom(mem, f, level, i + 1);
      ReachFrom(mem, f, level, i) == below + rest && below !! rest && f !in below && CleanFrom(mem, f, level, i + 1)
  {
    assert CleanEntry(mem, f, level, i);
  }

  /** The entry is cleared once the frames below it are free. */
  lemma FreeingChild(s0: State, s: State, s1: State, f: nat, level: nat, i: nat, done: set<nat>)
    requires i < ENTRIES && Freeing(s0, s, f, level, i, done)
    requires f in s.mem && |s.mem[f]| == ENTRIES && IsValid(s.mem[f][i]) && level > 0
    requires var below := Reach(s.mem, FrameOf(s.mem[f][i]), level - 1);
      s1.free == s.free + below && SameBut(s, s1, below) && s1.t == s.t
    requires forall x <- s1.mem :: |s1.mem[x]| == ENTRIES
    ensures f in s1.mem
    ensures Freeing(s0, s1.(mem := Store(s1.mem, f, i, 0)), f, level, i + 1,
              done + Reach(s.mem, FrameOf(s.mem[f][i]), level - 1))
  {
    hide Clean, Reach, IsLeaf, FrameOf, IsValid, CleanFrom, CleanEntry, ReachFrom;
    var below := Reach(s.mem, FrameOf(s.mem[f][i]), level - 1);
    var mem' := Store(s1.mem, f, i, 0);
    CleanChild(s.mem, f, level, i);
    ReachInMem(s.mem, f, level, i + 1);
    ReachFromFrame(s.mem, mem', f, level, i + 1);
  }

  lemma FreeingWhole(s0: State, s: State, f: nat, level: nat, done: set<nat>)
    requires Freeing(s0, s, f, level, ENTRIES, done)
    ensures forall x <- s.mem :: |s.mem[x]| == ENTRIES
  {
  }

  lemma FreeingDone(s0: State, s: State, f: nat, level: nat, done: set<nat>)
    requires Freeing(s0, s, f, level, ENTRIES, done)
    ensures f in s.mem && f !in s.free
    ensures s.free + {f} == s0.free + Reach(s0.mem, f, level)
    ensures SameBut(s0, s, Reach(s0.mem, f, level))
  {
  }

  lemma CopiedNone(s: State, from: nat, to: nat)
    ensures Copied(s, s, from, to, 0)
  {
  }

  /** The page to copy is as it was. */
  lemma SourceHere(s0: State, s: State, from: nat, to: nat, i: nat, n: nat)
    requires i < n <= MAXPAGE && from != to
    requires Tables(s0) && Taking(s0, s, to, 0, i) && Owned(s0, from, 0, n) && Root(from) in s0.t
    ensures Root(from) in s.t && Pte(s, from, i) == Pte(s0, from, i) && Flags(Pte(s, from, i)) < 1024
    ensures Pte(s, from, i) != 0 ==>
      var f := FrameOf(Pte(s, from, i)); f in s0.mem && f in s.mem && s.mem[f] == s0.mem[f] && |s.mem[f]| == ENTRIES
  {
    hide Pte, FrameOf;
    FramesOfValues(s0.t, to);
  }

  lemma CopiedZero(s0: State, s: State)
    ensures CopiedPage(s0, s, 0, 0)
  {
  }

  lemma CopiedSkip(s0: State, s: State, from: nat, to: nat, i: nat)
    requires i < MAXPAGE
    requires Taking(s0, s, to, 0, i) && Copied(s0, s, from, to, i)
    requires Pte(s, to, i) == 0 && Pte(s0, from, i) == 0
    ensures Taking(s0, s, to, 0, i + 1) && Copied(s0, s, from, to, i + 1)
  {
    hide Tables, Pte, Grown, Taking, CopiedPage;
    TakeSkip(s0, s, to, 0, i);
    assert CopiedPage(s0, s, Pte(s0, from, i), Pte(s, to, i)) by { CopiedZero(s0, s); }
  }

  lemma CopiedNext(s0: State, s: State, s2: State, from: nat, to: nat, i: nat, f: nat, flags: nat)
    requires i < MAXPAGE && Pte(s, to, i) == 0
    requires Taking(s0, s, to, 0, i) && Copied(s0, s, from, to, i)
    requires var w := Pte(s0, from, i);
      && w != 0 && flags == Flags(w) && FrameOf(w) in s0.mem && |s0.mem[FrameOf(w)]| == ENTRIES
      && f in s.free && Mapping(Filled(s, f, s0.mem[FrameOf(w)]), s2, to, i, 1, f, flags)
    ensures Taking(s0, s2, to, 0, i + 1) && Copied(s0, s2, from, to, i + 1)
  {
    hide Tables, Pte, Grown, Mapping, Entry, FrameOf, SameOutside;
    assert flags < 1024;
    TakeNext(s0, s, s2, to, 0, i, f, s0.mem[FrameOf(Pte(s0, from, i))], flags);
    hide Flags;
    forall v: nat | v < i + 1 ensures CopiedPage(s0, s2, Pte(s0, from, v), Pte(s2, to, v)) {
      if v < i {
        assert Pte(s2, to, v) == Pte(s, to, v);
        if Pte(s0, from, v) != 0 {
          EntryNonzero(FrameOf(Pte(s, to, v)), Flags(Pte(s0, from, v)));
        }
      }
    }
  }

  /** `PTE_R | PTE_U | xperm`. */
  function UserFlags(xperm: nat): nat {
    18 + xperm
  }

  lemma WholePages(n: nat)
    ensures PagesIn(n * PGSIZE) == n
  {
  }

  lemma TakingBasics(s0: State, s: State, r: nat, lo: nat, a: nat)
    requires a <= MAXPAGE && Taking(s0, s, r, lo, a)
    ensures Tables(s) && Owned(s, r, lo, a)
  {
  }

  lemma FilledIs(s: State, f: nat, p: Page)
    ensures Filled(s, f, p) == State(s.mem[f := p], s.free - {f}, s.t)
  {
  }

  lemma Retreated(s0: State, s: State, s1: State, r: nat, lo: nat, a: nat)
    requires lo <= a <= MAXPAGE
    requires Taking(s0, s, r, lo, a) && Vacant(s0, r, lo, a)
    requires Unmapping(s, s1, r, lo, a - lo, true)
    ensures Widened(s0, s1, r) && |s1.free| <= |s.free| + (a - lo)
  {
    TakeUndone(s0, s, s1, r, lo, a);
    hide Tables, Taking, Vacant, Widened, Frames, SameOutside;
    FramesCount(s, r, lo, a);
    assert s1.free == s.free + Frames(s, r, lo, a);
    Counting.UnionSize(s.free, Frames(s, r, lo, a));
  }

  lemma BlankNone(s: State, r: nat, lo: nat, flags: nat)
    requires lo <= MAXPAGE
    ensures Blank(s, r, lo, lo, flags)
  {
  }

  /** What the loops of `uvmalloc` and `uvmcopy` know of the next page. */
  lemma TakingHere(s0: State, s: State, r: nat, lo: nat, a: nat, hi: nat)
    requires lo <= a < hi <= MAXPAGE
    requires Taking(s0, s, r, lo, a) && Root(r) in s0.t && Vacant(s0, r, lo, hi)
    ensures Tables(s) && Root(r) in s.t && Pte(s, r, a) == 0 && Vacant(s0, r, lo, a)
    ensures Owned(s, r, lo, a)
  {
    hide Pte;
  }

  lemma FilledHere(s: State, r: nat, a: nat, f: nat, p: Page)
    requires a < MAXPAGE && f in s.free && |p| == ENTRIES
    requires Tables(s) && Root(r) in s.t && Pte(s, r, a) == 0
    ensures Tables(Filled(s, f, p)) && Root(r) in Filled(s, f, p).t && Vacant(Filled(s, f, p), r, a, a + 1)
  {
    FillStep(s, r, f, p);
    hide Tables, Pte;
  }

  lemma BlankNext(s0: State, s: State, s2: State, r: nat, lo: nat, a: nat, f: nat, flags: nat)
    requires lo <= a < MAXPAGE && flags < 1024
    requires Taking(s0, s, r, lo, a) && Blank(s, r, lo, a, flags) && Pte(s, r, a) == 0
    requires f in s.free && Mapping(Filled(s, f, Zeroes()), s2, r, a, 1, f, flags)
    ensures Taking(s0, s2, r, lo, a + 1) && Blank(s2, r, lo, a + 1, flags)
  {
    hide Tables, Pte, Grown, Mapping, Entry, FrameOf, Zeroes, SameOutside;
    TakeNext(s0, s, s2, r, lo, a, f, Zeroes(), flags);
    forall v: nat | lo <= v < a + 1
      ensures var f := FrameOf(Pte(s2, r, v)); Pte(s2, r, v) == Entry(f, flags) && f in s2.mem && s2.mem[f] == Zeroes()
    {
      if v < a {
        assert Pte(s2, r, v) == Pte(s, r, v);
        EntryNonzero(FrameOf(Pte(s, r, v)), flags);
      }
    }
  }

  lemma MappingHere(s0: State, s: State, r: nat, v: nat, n: nat, f: nat, flags: nat)
    requires Mapping(s0, s, r, v, n, f, flags)
    requires v + n < MAXPAGE && Root(r) in s0.t && Pte(s0, r, v + n) == 0
    ensures Tables(s) && Root(r) in s.t && Pte(s, r, v + n) == 0
  {
    hide Pte, Entry;
  }

  lemma UnmappingHere(s0: State, s: State, r: nat, v: nat, n: nat, freeing: bool)
    requires v + n <= MAXPAGE
    requires Unmapping(s0, s, r, v, n, freeing)
    ensures Tables(s) && s.t == s0.t
  {
  }

  /** The flat map at `v`, read off the page that `walk` found. */
  lemma PteAt(s: State, r: nat, v: nat)
    requires Tables(s) && v < MAXPAGE
    ensures Leaf(r, v) !in s.t ==> Pte(s, r, v) == 0
    ensures Leaf(r, v) in s.t ==>
      && s.t[Leaf(r, v)] in s.mem && I0(v) < |s.mem[s.t[Leaf(r, v)]]|
      && var w := s.mem[s.t[Leaf(r, v)]][I0(v)];
         if IsValid(w) then Pte(s, r, v) == w && w != 0 else Pte(s, r, v) == 0
  {
  }

  lemma LeafWord(s: State, s': State, r: nat, v: nat)
    requires v < MAXPAGE && Leaf(r, v) in s'.t
    requires Widened(s, s', r) && Pte(s, r, v) == 0
    ensures Tables(s') && s'.t[Leaf(r, v)] in s'.mem && I0(v) < |s'.mem[s'.t[Leaf(r, v)]]|
    ensures !IsValid(s'.mem[s'.t[Leaf(r, v)]][I0(v)])
  {
    PteAt(s', r, v);
    assert Pte(s', r, v) == 0;
  }

  lemma LeafedIs(s: State, r: nat, v: nat, w: nat)
    requires Tables(s) && v < MAXPAGE && Leaf(r, v) in s.t
    ensures s.t[Leaf(r, v)] in s.mem && I0(v) < |s.mem[s.t[Leaf(r, v)]]|
    ensures Leafed(s, r, v, w) == s.(mem := Store(s.mem, s.t[Leaf(r, v)], I0(v), w))
  {
  }

  lemma WidenedValid(s: State, s': State, r: nat)
    requires Widened(s, s', r)
    ensures Tables(s')
  {
  }

  lemma AtRoot(s: State, r: nat, v: nat)
    requires Tables(s) && Root(r) in s.t
    ensures s.t[Root(r)] == r && Widened(s, s, r)
    ensures Leaf(r, v) in s.t ==> Mid(r, I2(v)) in s.t
  {
  }

  /** The entry for `k` as `walk` reads it. */
  lemma Below(s: State, k: Key)
    requires Tables(s) && Hangs(s.t, k)
    ensures var p := s.t[Parent(k)];
      && p in s.mem && |s.mem[p]| == ENTRIES
      && (IsValid(s.mem[p][Slot(k)]) <==> k in s.t)
      && (k in s.t ==> FrameOf(s.mem[p][Slot(k)]) == s.t[k])
  {
    assert Points(s.mem, s.t, k);
    if k in s.t { EntryExact(s.t[k], 0); }
  }

  /** What `walk` needs of hanging a page taken from the free frames. */
  lemma NewPage(s: State, k: Key, f: nat)
    requires Tables(s)
    requires Hangs(s.t, k) && BelowMax(k) && k !in s.t && f in s.free
    ensures Points(s.mem, s.t, k) && s.t[Parent(k)] != f
    ensures Widened(s, Hung(s.(free := s.free - {f}), k, f), k.r)
  {
    var s1 := s.(free := s.free - {f});
    assert f !in s.t.Values;
    ChangeFree(s, s1.free);
    assert Points(s.mem, s.t, k);
    HangPage(s1, k, f);
    GrownByPage(s, k, f);
  }
}
