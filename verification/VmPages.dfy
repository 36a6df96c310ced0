/** Mapping, unmapping and allocating ranges of pages (kernel/vm.c), as steps between
    states. */
module VmPages {
  import opened VmTables

  /** The first `n` pages of a mapping from page `v` on are in place. */
  ghost predicate Mapping(s0: State, s: State, r: nat, v: nat, n: nat, f: nat, flags: nat) {
    Tables(s) && Grown(s0, s, r, {}) && Mapped(s0, s, r, v, n, f, flags)
  }

  lemma MapNone(s: State, r: nat, v: nat, f: nat, flags: nat)
    requires Tables(s)
    ensures Mapping(s, s, r, v, 0, f, flags)
  {
  }

  /** Table pages added on the way. */
  lemma MapWider(s0: State, s: State, s1: State, r: nat, v: nat, n: nat, f: nat, flags: nat)
    requires Mapping(s0, s, r, v, n, f, flags) && Widened(s, s1, r)
    ensures Mapping(s0, s1, r, v, n, f, flags)
  {
    var none: set<nat> := {};
    GrownTrans(s0, s, s1, r, none, none);
    assert none + none == none;
    hide Tables, Grown, Pte, Entry;
  }

  /** The next page mapped. */
  lemma MapNext(s0: State, s: State, r: nat, v: nat, n: nat, f: nat, flags: nat)
    requires Mapping(s0, s, r, v, n, f, flags)
    requires v + n < MAXPAGE && Leaf(r, v + n) in s.t && flags < 1024
    ensures Mapping(s0, Leafed(s, r, v + n, Entry(f + n, flags)), r, v, n + 1, f, flags)
  {
    hide Tables, Grown, Pte, Entry, Leafed, Flags, FrameOf, IsValid, I1, I2;
    var w, none: set<nat> := Entry(f + n, flags), {};
    var s' := Leafed(s, r, v + n, w);
    EntryExact(f + n, flags);
    LeafStep(s, r, v + n, w);
    GrownTrans(s0, s, s', r, none, none);
    assert none + none == none;
  }

  /** The first `n` pages from `v` on are unmapped, their frames free when asked. */
  ghost predicate Unmapping(s0: State, s: State, r: nat, v: nat, n: nat, freeing: bool)
    requires v + n <= MAXPAGE
  {
    && Tables(s) && s.t == s0.t
    && s.free == s0.free + (if freeing then Frames(s0, r, v, v + n) else {})
    && SameBut(s0, s, FramesOf(s0.t, r))
    && SameOutside(s0, s, r, v, v + n)
    && Vacant(s, r, v, v + n)
  }

  lemma UnmapNone(s: State, r: nat, v: nat, freeing: bool)
    requires Tables(s) && v <= MAXPAGE
    ensures Unmapping(s, s, r, v, 0, freeing)
  {
  }

  /** A page that was not mapped. */
  lemma UnmapSkip(s0: State, s: State, r: nat, v: nat, n: nat, freeing: bool)
    requires v + n < MAXPAGE
    requires Unmapping(s0, s, r, v, n, freeing)
    requires Pte(s, r, v + n) == 0
    ensures Unmapping(s0, s, r, v, n + 1, freeing)
  {
    hide Tables, Pte;
    FramesStep(s0, r, v, v + n);
    assert Pte(s0, r, v + n) == 0;
    hide Frames;
  }

  /** A page that was: its frame is in use and has not been freed yet. */
  lemma UnmapFresh(s0: State, s: State, r: nat, v: nat, n: nat)
    requires v + n < MAXPAGE
    requires Unmapping(s0, s, r, v, n, true)
    requires Pte(s, r, v + n) != 0
    requires Owned(s0, r, v, v + n + 1)
    ensures var f := FrameOf(Pte(s, r, v + n));
      f in s.mem && f !in s.free && f !in s.t.Values && f in Frames(s0, r, v, v + n + 1)
  {
    hide Pte;
    assert Pte(s, r, v + n) == Pte(s0, r, v + n);
  }

  /** Its entry is cleared, its frame freed when asked. */
  lemma UnmapNext(s0: State, s: State, r: nat, v: nat, n: nat, freeing: bool, free: set<nat>)
    requires v + n < MAXPAGE
    requires Pte(s, r, v + n) != 0 && Leaf(r, v + n) in s.t
    requires free == s.free + if freeing then {FrameOf(Pte(s, r, v + n))} else {}
    requires freeing ==> Owned(s0, r, v, v + n + 1)
    requires Unmapping(s0, s, r, v, n, freeing)
    ensures Unmapping(s0, Leafed(s, r, v + n, 0).(free := free), r, v, n + 1, freeing)
  {
    hide Tables, Pte, Leafed, FrameOf, Frames, FramesOf, I1, I2, Owned, Vacant, SameMap;
    var s1 := Leafed(s, r, v + n, 0);
    LeafStep(s, r, v + n, 0);
    assert Pte(s, r, v + n) == Pte(s0, r, v + n);
    assert free <= s.mem.Keys && free !! s.t.Values by {
      TablesApart(s);
      if freeing { UnmapFresh(s0, s, r, v, n); }
    }
    FramesStep(s0, r, v, v + n);
    ChangeFree(s1, free);
    UnmapClose(s0, s, s1, free, r, v, n, freeing);
  }

  lemma TablesApart(s: State)
    requires Tables(s)
    ensures s.free <= s.mem.Keys && s.free !! s.t.Values
  {
  }

  lemma UnmapClose(s0: State, s: State, s1: State, free: set<nat>, r: nat, v: nat, n: nat, freeing: bool)
    requires v + n < MAXPAGE
    requires Unmapping(s0, s, r, v, n, freeing)
    requires s1.t == s.t && SameBut(s, s1, FramesOf(s.t, r))
    requires SameOutside(s, s1, r, v + n, v + n + 1) && Pte(s1, r, v + n) == 0
    requires Tables(s1.(free := free)) && SameMap(s1, s1.(free := free))
    requires free == s0.free + if freeing then Frames(s0, r, v, v + n + 1) else {}
    ensures Unmapping(s0, s1.(free := free), r, v, n + 1, freeing)
  {
    hide Tables, Pte, Frames, FramesOf;
  }

  // ----- Taking pages -----

  /** The pages `lo` to `hi` of page table `r`, vacant in `s0`, map to frames of their
      own that were free then; every frame is accounted for. */
  ghost predicate Taking(s0: State, s: State, r: nat, lo: nat, hi: nat)
    requires hi <= MAXPAGE
  {
    && Tables(s)
    && Owned(s, r, lo, hi)
    && Grown(s0, s, r, Frames(s, r, lo, hi))
    && SameOutside(s0, s, r, lo, hi)
  }

  lemma TakeNone(s: State, r: nat, lo: nat)
    requires Tables(s) && lo <= MAXPAGE
    ensures Taking(s, s, r, lo, lo)
  {
    assert Frames(s, r, lo, lo) == {};
  }

  /** `s` after the frame `f` is taken and filled with `p`. */
  ghost function Filled(s: State, f: nat, p: Page): State {
    State(s.mem[f := p], s.free - {f}, s.t)
  }

  lemma FillStep(s: State, r: nat, f: nat, p: Page)
    requires Tables(s) && f in s.free && |p| == ENTRIES
    ensures Tables(Filled(s, f, p)) && SameMap(s, Filled(s, f, p))
    ensures Grown(s, Filled(s, f, p), r, {f})
  {
    hide Pte;
    TablesApart(s);
    StoreData(s, f, p);
    ChangeFree(s.(mem := s.mem[f := p]), s.free - {f});
    SameMapTrans(s, s.(mem := s.mem[f := p]), Filled(s, f, p));
    GrownByData(s, r, f, p);
  }

  /** A page that stays unmapped. */
  lemma TakeSkip(s0: State, s: State, r: nat, lo: nat, hi: nat)
    requires lo <= hi < MAXPAGE
    requires Taking(s0, s, r, lo, hi) && Pte(s, r, hi) == 0
    ensures Taking(s0, s, r, lo, hi + 1)
  {
    hide Tables, Pte, Grown;
    FramesStep(s, r, lo, hi);
    assert Frames(s, r, lo, hi + 1) == Frames(s, r, lo, hi);
  }

  /** A page mapped to the frame just filled. */
  lemma TakeNext(s0: State, s: State, s2: State, r: nat, lo: nat, hi: nat, f: nat, p: Page, flags: nat)
    requires lo <= hi < MAXPAGE
    requires Taking(s0, s, r, lo, hi) && Pte(s, r, hi) == 0
    requires f in s.free && |p| == ENTRIES && flags < 1024
    requires Mapping(Filled(s, f, p), s2, r, hi, 1, f, flags)
    ensures Taking(s0, s2, r, lo, hi + 1)
    ensures Pte(s2, r, hi) == Entry(f, flags) && FrameOf(Entry(f, flags)) == f && f in s2.mem && s2.mem[f] == p
    ensures forall v: nat {:trigger Pte(s2, r, v)} :: lo <= v < hi ==> Pte(s2, r, v) == Pte(s, r, v)
    ensures forall x :: x in s.mem && x !in s.free && x !in s.t.Values ==> x in s2.mem && s2.mem[x] == s.mem[x]
  {
    TakeNextMap(s, s2, r, hi, f, p, flags);
    TakeNextGrown(s0, s, s2, r, lo, hi, f, p, flags);
    TakeNextOwned(s, s2, r, lo, hi, f, p);
    hide Tables, Pte, Grown, Frames, Owned, Entry, FrameOf;
  }

  lemma TakeNextMap(s: State, s2: State, r: nat, hi: nat, f: nat, p: Page, flags: nat)
    requires hi < MAXPAGE
    requires Tables(s) && f in s.free && |p| == ENTRIES && flags < 1024
    requires Mapping(Filled(s, f, p), s2, r, hi, 1, f, flags)
    ensures Pte(s2, r, hi) == Entry(f, flags) && FrameOf(Entry(f, flags)) == f && Entry(f, flags) != 0
    ensures SameOutside(s, s2, r, hi, hi + 1)
    ensures Grown(s, s2, r, {f}) && s2.mem[f] == p
    ensures forall x :: x in s.mem && x !in s.free && x !in s.t.Values ==> x in s2.mem && s2.mem[x] == s.mem[x]
  {
    hide Pte, Tables, Entry, FrameOf, Flags, IsValid;
    FillStep(s, r, f, p);
    EntryExact(f, flags);
    GrownTrans(s, Filled(s, f, p), s2, r, {f}, {});
    assert {f} + {} == {f};
    assert Entry(f, flags) != 0 by { EntryNonzero(f, flags); }
    FramesOfValues(s.t, r);
  }

  lemma EntryNonzero(f: nat, flags: nat)
    ensures Entry(f, flags) > 0
  {
  }

  lemma FramesOfValues(t: map<Key, nat>, r: nat)
    ensures FramesOf(t, r) <= t.Values
  {
  }

  lemma TakeNextGrown(s0: State, s: State, s2: State, r: nat, lo: nat, hi: nat, f: nat, p: Page, flags: nat)
    requires lo <= hi < MAXPAGE
    requires Taking(s0, s, r, lo, hi)
    requires Grown(s, s2, r, {f}) && SameOutside(s, s2, r, hi, hi + 1)
    requires Pte(s2, r, hi) == Entry(f, flags) && FrameOf(Entry(f, flags)) == f && Entry(f, flags) != 0
    ensures Grown(s0, s2, r, Frames(s2, r, lo, hi + 1))
    ensures SameOutside(s0, s2, r, lo, hi + 1)
  {
    hide Tables, Pte, Grown, Entry, FrameOf;
    FramesStep(s2, r, lo, hi);
    FramesSame(s, s2, r, lo, hi);
    GrownTrans(s0, s, s2, r, Frames(s, r, lo, hi), {f});
  }

  lemma TakeNextOwned(s: State, s2: State, r: nat, lo: nat, hi: nat, f: nat, p: Page)
    requires lo <= hi < MAXPAGE
    requires Owned(s, r, lo, hi) && f in s.free && f in s.mem
    requires Grown(s, s2, r, {f}) && SameOutside(s, s2, r, hi, hi + 1)
    requires Pte(s2, r, hi) != 0 && FrameOf(Pte(s2, r, hi)) == f
    ensures Owned(s2, r, lo, hi + 1)
  {
    hide Pte, FrameOf, FramesOf;
    forall v: nat | lo <= v < hi ensures Pte(s2, r, v) == Pte(s, r, v) {
    }
  }

  /** The frame just taken goes back when its page could not be mapped. */
  lemma TakeBack(s: State, s2: State, r: nat, hi: nat, f: nat, p: Page, flags: nat)
    requires Tables(s) && f in s.free && |p| == ENTRIES
    requires Mapping(Filled(s, f, p), s2, r, hi, 0, f, flags)
    ensures f in s2.mem && f !in s2.free
    ensures Widened(s, s2.(free := s2.free + {f}), r)
  {
    hide Pte, Tables;
    FillStep(s, r, f, p);
    GrownTrans(s, Filled(s, f, p), s2, r, {f}, {});
    assert {f} + {} == {f};
    assert f in s2.mem by { TablesApart(s); }
    var free := s2.free + {f};
    ChangeFree(s2, free) by { TablesApart(s2); }
    SameMapTrans(s, Filled(s, f, p), s2);
    SameMapTrans(s, s2, s2.(free := free));
  }

  /** Table pages added on the way. */
  lemma TakeWider(s0: State, s: State, s1: State, r: nat, lo: nat, hi: nat)
    requires lo <= hi <= MAXPAGE
    requires Taking(s0, s, r, lo, hi) && Widened(s, s1, r)
    ensures Taking(s0, s1, r, lo, hi)
  {
    hide Tables, Pte, FrameOf, FramesOf;
    FramesSame(s, s1, r, lo, hi);
    GrownTrans(s0, s, s1, r, Frames(s, r, lo, hi), {});
    assert Frames(s, r, lo, hi) + {} == Frames(s, r, lo, hi);
    TakeWiderOwned(s, s1, r, lo, hi);
    hide Grown, Owned, Frames;
  }

  lemma TakeWiderOwned(s: State, s1: State, r: nat, lo: nat, hi: nat)
    requires hi <= MAXPAGE
    requires Owned(s, r, lo, hi) && SameMap(s, s1) && Grown(s, s1, r, {})
    ensures Owned(s1, r, lo, hi)
  {
    hide Pte, FrameOf, FramesOf;
  }

  /** Unmapping all the pages taken undoes the taking. */
  lemma TakeUndone(s0: State, s: State, s1: State, r: nat, lo: nat, hi: nat)
    requires lo <= hi <= MAXPAGE
    requires Taking(s0, s, r, lo, hi) && Vacant(s0, r, lo, hi)
    requires Unmapping(s, s1, r, lo, hi - lo, true)
    ensures Widened(s0, s1, r)
  {
    hide Tables, Pte, FrameOf, FramesOf, Owned;
    TakeUndoneGrown(s0, s, s1, r, Frames(s, r, lo, hi));
    hide Grown, Frames;
    forall r': nat, v: nat | v < MAXPAGE ensures Pte(s1, r', v) == Pte(s0, r', v) {
      assert Pte(s1, r', v) == if r' == r && lo <= v < hi then 0 else Pte(s, r', v);
    }
  }

  lemma TakeUndoneGrown(s0: State, s: State, s1: State, r: nat, taken: set<nat>)
    requires Grown(s0, s, r, taken)
    requires s1.t == s.t && s1.free == s.free + taken && SameBut(s, s1, FramesOf(s.t, r))
    ensures Grown(s0, s1, r, {})
  {
    assert s1.free + s1.t.Values + {} == s0.free + s0.t.Values;
    forall f | f in s0.mem && f !in s0.free + FramesOf(s0.t, r) ensures s1.mem[f] == s0.mem[f] {
      assert f !in FramesOf(s.t, r);
    }
  }

  /** No more frames than pages. */
  lemma {:induction false} FramesCount(s: State, r: nat, lo: nat, hi: nat)
    requires lo <= hi <= MAXPAGE
    ensures |Frames(s, r, lo, hi)| <= hi - lo
  {
    hide Pte, FrameOf;
    if lo == hi {
      assert Frames(s, r, lo, hi) == {};
    } else {
      FramesCount(s, r, lo, hi - 1);
      FramesStep(s, r, lo, hi - 1);
    }
  }
}
