/** Sv39 page tables in physical memory, and the flat map from virtual page to leaf
    entry that they represent (kernel/vm.c; section 4.4 of the RISC-V Privileged
    Architecture manual). */
module VmTables {

  const ENTRIES: nat := 512

  /** Virtual pages below MAXVA, which is one bit short of what Sv39 allows. */
  const MAXPAGE: nat := 512 * 512 * 256

  /** A page of memory: 512 64-bit words. */
  type Page = seq<nat>

  /** Which table page: the root of a page table, the one its entry `i` points to,
      or the one that entry `j` of that page points to. */
  datatype Key = Root(r: nat) | Mid(r: nat, i: nat) | Low(r: nat, i: nat, j: nat)

  // ----- Entries -----

  /** PTE_V. */
  predicate IsValid(w: nat) {
    w % 2 == 1
  }

  /** PTE2PA, as a frame number. */
  function FrameOf(w: nat): nat {
    w / 1024
  }

  /** PTE_FLAGS. */
  function Flags(w: nat): nat {
    w % 1024
  }

  /** Whether PTE_R, PTE_W or PTE_X is set. */
  predicate IsLeaf(w: nat) {
    (w / 2) % 8 != 0
  }

  /** `flags | PTE_V`. */
  function Marked(flags: nat): nat {
    if IsValid(flags) then flags else flags + 1
  }

  /** `PA2PTE(pa) | flags | PTE_V`. */
  function Entry(frame: nat, flags: nat): nat {
    frame * 1024 + Marked(flags)
  }

  lemma EntryExact(frame: nat, flags: nat)
    requires flags < 1024
    ensures IsValid(Entry(frame, flags))
    ensures FrameOf(Entry(frame, flags)) == frame
    ensures Flags(Entry(frame, flags)) == Marked(flags)
    ensures flags == 0 ==> !IsLeaf(Entry(frame, flags))
  {
    Digits(frame, Marked(flags));
    Parity(frame, Marked(flags));
    if flags == 0 { Pointer(frame); }
  }

  lemma Digits(f: nat, b: nat)
    requires b < 1024
    ensures (f * 1024 + b) / 1024 == f && (f * 1024 + b) % 1024 == b
  {
  }

  lemma Parity(f: nat, b: nat)
    ensures (f * 1024 + b) % 2 == b % 2
  {
    assert f * 1024 + b == 2 * (512 * f) + b;
  }

  lemma Pointer(f: nat)
    ensures ((f * 1024 + 1) / 2) % 8 == 0
  {
    assert (f * 1024 + 1) / 2 == 8 * (64 * f);
  }

  // ----- Virtual pages -----

  function I0(v: nat): nat { v % 512 }
  function I1(v: nat): nat { (v / 512) % 512 }
  function I2(v: nat): nat { v / 262144 }

  lemma Indices(v: nat)
    requires v < MAXPAGE
    ensures I0(v) < 512 && I1(v) < 512 && I2(v) < 256
    ensures v == (I2(v) * 512 + I1(v)) * 512 + I0(v)
  {
  }

  // ----- The representation -----

  /** Physical memory, the frames that are free, and the table pages of every page
      table: what each key names and in which frame it is. */
  datatype State = State(mem: map<nat, Page>, free: set<nat>, t: map<Key, nat>)

  /** The page that points to the page of `k`, and the entry that does. */
  function Parent(k: Key): Key
    requires !k.Root?
  {
    if k.Mid? then Root(k.r) else Mid(k.r, k.i)
  }

  function Slot(k: Key): nat
    requires !k.Root?
  {
    if k.Mid? then k.i else k.j
  }

  /** `k` has a place below a table page. */
  predicate Hangs(t: map<Key, nat>, k: Key) {
    !k.Root? && Slot(k) < ENTRIES && Parent(k) in t
  }

  /** `k` is for virtual pages below MAXVA: the root uses half of its entries. */
  predicate BelowMax(k: Key) {
    k.Mid? ==> k.i < 256
  }

  /** The entry that should point to the page of `k` does, or is invalid when there
      is no such page. */
  predicate Points(mem: map<nat, Page>, t: map<Key, nat>, k: Key)
    requires Hangs(t, k)
  {
    var p := t[Parent(k)];
    && p in mem && |mem[p]| == ENTRIES
    && if k in t then mem[p][Slot(k)] == Entry(t[k], 0) else !IsValid(mem[p][Slot(k)])
  }

  ghost predicate Injective(t: map<Key, nat>) {
    forall k, k' :: k in t && k' in t && t[k] == t[k'] ==> k == k'
  }

  /** Memory consists of whole pages; the table pages are distinct, none is free, and
      they are linked as their keys say. */
  ghost predicate Tables(s: State) {
    && (forall f <- s.mem :: |s.mem[f]| == ENTRIES)
    && (forall f <- s.free :: f in s.mem)
    && Injective(s.t)
    && (forall k <- s.t :: s.t[k] in s.mem && s.t[k] !in s.free)
    && (forall k <- s.t :: if k.Root? then s.t[k] == k.r else Hangs(s.t, k) && BelowMax(k))
    && (forall k {:trigger Points(s.mem, s.t, k)} :: Hangs(s.t, k) ==> Points(s.mem, s.t, k))
  }

  /** The page that holds the leaf entry of virtual page `v`. */
  function Leaf(r: nat, v: nat): Key {
    Low(r, I2(v), I1(v))
  }

  /** The leaf entry of virtual page `v` in page table `r`, 0 when it is not mapped:
      the flat map that the three levels represent. */
  ghost function Pte(s: State, r: nat, v: nat): nat
    requires v < MAXPAGE
  {
    var k := Leaf(r, v);
    if k in s.t && s.t[k] in s.mem && |s.mem[s.t[k]]| == ENTRIES && IsValid(s.mem[s.t[k]][I0(v)]) then
      s.mem[s.t[k]][I0(v)]
    else 0
  }

  /** The same flat map in every page table. */
  ghost predicate SameMap(s: State, s': State) {
    forall r: nat, v: nat {:trigger Pte(s', r, v)} :: v < MAXPAGE ==> Pte(s', r, v) == Pte(s, r, v)
  }

  /** Memory is the same outside the frames `but`. */
  ghost predicate SameBut(s: State, s': State, but: set<nat>) {
    && s.mem.Keys == s'.mem.Keys
    && forall f :: f in s.mem && f !in but ==> s'.mem[f] == s.mem[f]
  }

  /** The table pages of page table `r`. */
  ghost function FramesOf(t: map<Key, nat>, r: nat): set<nat> {
    set k | k in t && k.r == r :: t[k]
  }

  // ----- Storing into memory -----

  function Store(mem: map<nat, Page>, f: nat, i: nat, w: nat): map<nat, Page>
    requires f in mem && i < |mem[f]|
  {
    var p: Page := mem[f][i := w];
    mem[f := p]
  }

  function Zeroes(): (p: Page)
    ensures |p| == ENTRIES && forall i :: 0 <= i < ENTRIES ==> p[i] == 0
  {
    seq(ENTRIES, i => 0)
  }

  /** Changing a page that is no table page changes no table. */
  lemma StoreData(s: State, f: nat, p: Page)
    requires Tables(s)
    requires f in s.mem && f !in s.t.Values && |p| == ENTRIES
    ensures var s' := s.(mem := s.mem[f := p]); Tables(s') && SameMap(s, s')
  {
    var s' := s.(mem := s.mem[f := p]);
    forall k | k in s.t ensures s.t[k] != f {
      assert s.t[k] in s.t.Values;
    }
    forall k | Hangs(s'.t, k) ensures Points(s'.mem, s'.t, k) {
      assert Points(s.mem, s.t, k);
    }
  }

  /** Taking a frame for data, or giving one back, leaves the tables alone. */
  lemma ChangeFree(s: State, free: set<nat>)
    requires Tables(s)
    requires free <= s.mem.Keys && free !! s.t.Values
    ensures var s' := s.(free := free); Tables(s') && SameMap(s, s')
  {
    var s' := s.(free := free);
    forall k | k in s.t ensures s.t[k] !in free {
      assert s.t[k] in s.t.Values;
    }
    forall k | Hangs(s'.t, k) ensures Points(s'.mem, s'.t, k) {
      assert Points(s.mem, s.t, k);
    }
  }

  /** `s` after the leaf entry of `v` in `r` is set to `w`. */
  ghost function Leafed(s: State, r: nat, v: nat, w: nat): State
    requires Tables(s)
    requires v < MAXPAGE && Leaf(r, v) in s.t
  {
    s.(mem := Store(s.mem, s.t[Leaf(r, v)], I0(v), w))
  }

  /** Storing a leaf entry changes the flat map at that page and nowhere else. */
  lemma StoreLeaf(s: State, r: nat, v: nat, w: nat)
    requires Tables(s)
    requires v < MAXPAGE && Leaf(r, v) in s.t
    requires IsValid(w) || w == 0
    ensures var s' := Leafed(s, r, v, w);
      && Tables(s')
      && Pte(s', r, v) == w
      && forall r': nat, v': nat {:trigger Pte(s', r', v')} :: v' < MAXPAGE && (r', v') != (r, v) ==>
           Pte(s', r', v') == Pte(s, r', v')
  {
    Indices(v);
    var s' := Leafed(s, r, v, w);
    forall k | Hangs(s.t, k) ensures Points(s'.mem, s.t, k) {
      assert Points(s.mem, s.t, k);
      assert Parent(k) != Leaf(r, v);
    }
    forall r': nat, v': nat | v' < MAXPAGE && (r', v') != (r, v)
      ensures Pte(s', r', v') == Pte(s, r', v')
    {
      LeafElsewhere(r, v, r', v');
    }
  }

  /** Distinct pages have their leaf entries in distinct places. */
  lemma LeafElsewhere(r: nat, v: nat, r': nat, v': nat)
    requires v < MAXPAGE && v' < MAXPAGE && (r', v') != (r, v)
    ensures Leaf(r, v) != Leaf(r', v') || I0(v) != I0(v')
  {
    Indices(v);
    Indices(v');
  }

  /** `s` after the frame `f`, zeroed, is hung in the place of `k`. */
  ghost function Hung(s: State, k: Key, f: nat): State
    requires Hangs(s.t, k) && s.t[Parent(k)] in s.mem && |s.mem[s.t[Parent(k)]]| == ENTRIES
  {
    State(Store(s.mem[f := Zeroes()], s.t[Parent(k)], Slot(k), Entry(f, 0)), s.free, s.t[k := f])
  }

  /** Hanging an empty table page changes no mapping. */
  lemma HangPage(s: State, k: Key, f: nat)
    requires Tables(s)
    requires Hangs(s.t, k) && BelowMax(k) && k !in s.t
    requires f in s.mem && f !in s.free && f !in s.t.Values
    ensures Points(s.mem, s.t, k)
    ensures Tables(Hung(s, k, f)) && SameMap(s, Hung(s, k, f))
  {
    assert Points(s.mem, s.t, k);
    var s' := Hung(s, k, f);
    forall k' | k' in s.t ensures s.t[k'] != f {
      assert s.t[k'] in s.t.Values;
    }
    forall k' | Hangs(s'.t, k') ensures Points(s'.mem, s'.t, k') {
      HangPoints(s, k, f, k');
    }
    forall r: nat, v: nat | v < MAXPAGE ensures Pte(s', r, v) == Pte(s, r, v) {
      Indices(v);
    }
  }

  lemma HangPoints(s: State, k: Key, f: nat, k': Key)
    requires Tables(s)
    requires Hangs(s.t, k) && k !in s.t && Points(s.mem, s.t, k)
    requires f in s.mem && forall k :: k in s.t ==> s.t[k] != f
    requires Hangs(s.t[k := f], k')
    ensures Points(Hung(s, k, f).mem, s.t[k := f], k')
  {
    if Parent(k') in s.t {
      assert Points(s.mem, s.t, k');
    } else {
      assert k' !in s.t;
    }
  }

  // ----- Growing a page table -----

  /** From `s` to `s'` the frames `taken` have left the free ones for the data pages of
      page table `r`, which may have gained table pages too. Every frame is accounted
      for, no other page table and no frame in use has changed. */
  ghost predicate Grown(s: State, s': State, r: nat, taken: set<nat>) {
    && s'.free <= s.free
    && taken <= s.free && taken !! s'.free && taken !! s'.t.Values
    && s'.free + s'.t.Values + taken == s.free + s.t.Values
    && (forall k <- s.t :: k in s'.t && s'.t[k] == s.t[k])
    && (forall k <- s'.t :: k in s.t || (k.r == r && s'.t[k] in s.free))
    && SameBut(s, s', s.free + FramesOf(s.t, r))
  }

  lemma GrownTrans(a: State, b: State, c: State, r: nat, first: set<nat>, second: set<nat>)
    requires Grown(a, b, r, first) && Grown(b, c, r, second)
    ensures Grown(a, c, r, first + second)
  {
  }

  lemma SameMapTrans(a: State, b: State, c: State)
    requires SameMap(a, b) && SameMap(b, c)
    ensures SameMap(a, c)
  {
    hide Pte;
    forall r: nat, v: nat | v < MAXPAGE ensures Pte(c, r, v) == Pte(a, r, v) {
      assert Pte(c, r, v) == Pte(b, r, v) == Pte(a, r, v);
    }
  }

  /** From `s` to `s'` page table `r` may have gained empty table pages, no more. */
  ghost predicate Widened(s: State, s': State, r: nat) {
    Tables(s') && SameMap(s, s') && Grown(s, s', r, {})
  }

  lemma WidenedTrans(a: State, b: State, c: State, r: nat)
    requires Widened(a, b, r) && Widened(b, c, r)
    ensures Widened(a, c, r)
  {
    hide Tables, SameMap, Grown;
    var none: set<nat> := {};
    GrownTrans(a, b, c, r, none, none);
    SameMapTrans(a, b, c);
    assert none + none == none;
  }

  lemma WidenedNot(s: State, r: nat)
    requires Tables(s)
    ensures Widened(s, s, r)
  {
  }

  lemma GrownByPage(s: State, k: Key, f: nat)
    requires Tables(s)
    requires Hangs(s.t, k) && k !in s.t && Points(s.mem, s.t, k)
    requires f in s.free
    ensures Grown(s, Hung(s.(free := s.free - {f}), k, f), k.r, {})
  {
    var s' := Hung(s.(free := s.free - {f}), k, f);
    forall x | x in s'.free + s'.t.Values ensures x in s.free + s.t.Values {
      if x in s'.t.Values {
        var k' :| k' in s'.t && s'.t[k'] == x;
      }
    }
    forall x | x in s.free + s.t.Values ensures x in s'.free + s'.t.Values {
      if x in s.t.Values {
        var k' :| k' in s.t && s.t[k'] == x;
        assert s'.t[k'] == x;
      } else if x == f {
        assert s'.t[k] == f;
      }
    }
    assert s.t[Parent(k)] in FramesOf(s.t, k.r);
  }

  lemma GrownByLeaf(s: State, r: nat, v: nat, w: nat)
    requires Tables(s)
    requires v < MAXPAGE && Leaf(r, v) in s.t
    ensures Grown(s, Leafed(s, r, v, w), r, {})
  {
    assert s.t[Leaf(r, v)] in FramesOf(s.t, r);
  }

  lemma GrownByData(s: State, r: nat, f: nat, p: Page)
    requires Tables(s) && f in s.free
    ensures Grown(s, State(s.mem[f := p], s.free - {f}, s.t), r, {f})
  {
  }

  // ----- Ranges of virtual pages -----

  /** Pages `v` to `v + n` of page table `r` map to the frames from `f` on with
      `flags`; every other page maps as before. */
  ghost predicate Mapped(s: State, s': State, r: nat, v: nat, n: nat, f: nat, flags: nat) {
    forall r': nat, v': nat {:trigger Pte(s', r', v')} :: v' < MAXPAGE ==>
      Pte(s', r', v') == if r' == r && v <= v' < v + n then Entry(f + (v' - v), flags) else Pte(s, r', v')
  }

  /** No page from `lo` to `hi` of page table `r` is mapped. */
  ghost predicate Vacant(s: State, r: nat, lo: nat, hi: nat)
    requires hi <= MAXPAGE
  {
    forall v: nat :: lo <= v < hi ==> Pte(s, r, v) == 0
  }

  /** Outside the pages `lo` to `hi` of page table `r` every mapping is the same. */
  ghost predicate SameOutside(s: State, s': State, r: nat, lo: nat, hi: nat) {
    forall r': nat, v': nat {:trigger Pte(s', r', v')} :: v' < MAXPAGE && !(r' == r && lo <= v' < hi) ==>
      Pte(s', r', v') == Pte(s, r', v')
  }

  /** The frames that the pages `lo` to `hi` map to. */
  ghost function Frames(s: State, r: nat, lo: nat, hi: nat): set<nat>
    requires hi <= MAXPAGE
  {
    set v: nat | lo <= v < hi && Pte(s, r, v) != 0 :: FrameOf(Pte(s, r, v))
  }

  /** The pages `lo` to `hi` map to frames of their own. */
  ghost predicate Owned(s: State, r: nat, lo: nat, hi: nat)
    requires hi <= MAXPAGE
  {
    && (forall v: nat :: lo <= v < hi && Pte(s, r, v) != 0 ==>
          FrameOf(Pte(s, r, v)) in s.mem && FrameOf(Pte(s, r, v)) !in s.free && FrameOf(Pte(s, r, v)) !in s.t.Values)
    && (forall v: nat, v': nat :: lo <= v < v' < hi && Pte(s, r, v) != 0 && Pte(s, r, v') != 0 ==>
          FrameOf(Pte(s, r, v)) != FrameOf(Pte(s, r, v')))
  }

  lemma FramesStep(s: State, r: nat, lo: nat, hi: nat)
    requires lo <= hi < MAXPAGE
    ensures Frames(s, r, lo, hi + 1)
         == Frames(s, r, lo, hi) + if Pte(s, r, hi) == 0 then {} else {FrameOf(Pte(s, r, hi))}
  {
  }

  lemma FramesSame(s: State, s': State, r: nat, lo: nat, hi: nat)
    requires hi <= MAXPAGE
    requires forall v: nat :: lo <= v < hi ==> Pte(s', r, v) == Pte(s, r, v)
    ensures Frames(s', r, lo, hi) == Frames(s, r, lo, hi)
  {
    hide Pte;
  }

  /** Storing a leaf entry, in terms of the flat map. */
  lemma LeafStep(s: State, r: nat, v: nat, w: nat)
    requires Tables(s)
    requires v < MAXPAGE && Leaf(r, v) in s.t
    requires IsValid(w) || w == 0
    ensures var s' := Leafed(s, r, v, w);
      && Tables(s') && s'.t == s.t && s'.free == s.free
      && Pte(s', r, v) == w && SameOutside(s, s', r, v, v + 1)
      && SameBut(s, s', FramesOf(s.t, r)) && Grown(s, s', r, {})
  {
    StoreLeaf(s, r, v, w);
    GrownByLeaf(s, r, v, w);
    assert s.t[Leaf(r, v)] in FramesOf(s.t, r);
    hide Tables, Pte, Grown;
  }
}
