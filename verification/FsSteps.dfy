/** Mapping a block of a file, and what a write logs (kernel/fs.c). */
module FsSteps {
  import opened Counting
  import opened FsDisk
  import opened FsBlocks
  import opened FsContent

  // ----- bmap -----

  /** Every block is marked in use. */
  ghost predicate Full(sb: Super, s: State) {
    forall b: nat :: b < sb.size ==> Bit(sb, s.disk, b)
  }

  /** `bmap` of block `bn` of file `n` gives `a`, 0 when the disk is full; the blocks
      that the files had are where they were and hold what they held. */
  ghost predicate Bmapped(sb: Super, s: State, s': State, n: nat, bn: nat, a: nat)
    requires n in s.inodes && bn < MAXFILE
  {
    && Owns(sb, s') && DataKept(s, s')
    && a == At(s', PlaceOf(n, bn))
    && (a == 0 ==> Full(sb, s'))
    && (PtrOf(s, n) != 0 ==> PtrOf(s', n) == PtrOf(s, n))
    && (forall p {:trigger At(s', p)} :: IsPlace(s, p) && p != PlaceOf(n, bn) && p != Ptr(n) ==> At(s', p) == At(s, p))
  }

  /** Nothing needs mapping. */
  lemma BmapNone(sb: Super, s: State, n: nat, bn: nat, a: nat)
    requires Owns(sb, s) && n in s.inodes && bn < MAXFILE
    requires a == At(s, PlaceOf(n, bn)) && (a == 0 ==> Full(sb, s))
    ensures Bmapped(sb, s, s, n, bn, a)
  {
    hide At, Bit, PtrOf;
  }

  lemma KeptByAlloc(sb: Super, s: State, b: nat)
    requires Owns(sb, s) && 0 < b < sb.size && !Bit(sb, s.disk, b)
    ensures Bblock(sb, b) < |s.disk| && b % BPB / 8 < |s.disk[Bblock(sb, b)]|
    ensures DataKept(s, Allocated(sb, s, b))
  {
    AllocStep(sb, s, b);
    hide At, Bit, Allocated;
    forall p | IsPlace(s, p) && !p.Ptr? && At(s, p) != 0
      ensures At(Allocated(sb, s, b), p) == At(s, p)
      ensures At(s, p) < |s.disk| ==> Allocated(sb, s, b).disk[At(s, p)] == s.disk[At(s, p)]
    {
      assert InUse(sb, s, At(s, p));
    }
  }

  /** A direct block is allocated. */
  lemma BmapDirect(sb: Super, s: State, n: nat, bn: nat, b: nat)
    requires Owns(sb, s) && n in s.inodes && bn < NDIRECT && At(s, Direct(n, bn)) == 0
    requires 0 < b < sb.size && !Bit(sb, s.disk, b)
    ensures Bblock(sb, b) < |s.disk| && b % BPB / 8 < |s.disk[Bblock(sb, b)]|
    ensures var s' := SetAddr(Allocated(sb, s, b), n, bn, b);
      Bmapped(sb, s, s', n, bn, b) && PtrOf(s', n) == PtrOf(s, n)
  {
    AllocStep(sb, s, b);
    KeptByAlloc(sb, s, b);
    var s1 := Allocated(sb, s, b);
    var s' := SetAddr(s1, n, bn, b);
    assert PtrOf(s', n) == PtrOf(s, n);
    hide Allocated, Bit, At, PtrOf;
    SetDirect(sb, s1, n, bn, b);
    forall p | IsPlace(s, p) && p != Direct(n, bn) ensures At(s', p) == At(s, p) {
      assert At(s', p) == At(s1, p) == At(s, p);
    }
  }

  /** The indirect block is allocated. */
  lemma BmapPtr(sb: Super, s: State, n: nat, b: nat)
    requires Owns(sb, s) && n in s.inodes && PtrOf(s, n) == 0
    requires 0 < b < sb.size && !Bit(sb, s.disk, b)
    ensures Bblock(sb, b) < |s.disk| && b % BPB / 8 < |s.disk[Bblock(sb, b)]|
    ensures var s' := SetAddr(Allocated(sb, s, b), n, NDIRECT, b);
      && Owns(sb, s') && DataKept(s, s') && PtrOf(s', n) == b && SameRefsBut(s, s', Ptr(n))
  {
    AllocStep(sb, s, b);
    KeptByAlloc(sb, s, b);
    var s1 := Allocated(sb, s, b);
    var s' := SetAddr(s1, n, NDIRECT, b);
    assert PtrOf(s', n) == b && PtrOf(s1, n) == 0;
    hide Allocated, Bit, At, PtrOf;
    SetPtr(sb, s1, n, b);
    forall p | IsPlace(s, p) && p != Ptr(n) ensures At(s', p) == At(s, p) {
      assert At(s', p) == At(s1, p) == At(s, p);
    }
  }

  /** A block is allocated for a slot of the indirect block. */
  lemma BmapSlot(sb: Super, s: State, n: nat, j: nat, b: nat)
    requires Owns(sb, s) && n in s.inodes && PtrOf(s, n) != 0 && j < NINDIRECT && At(s, Slot(n, j)) == 0
    requires 0 < b < sb.size && !Bit(sb, s.disk, b)
    ensures Bblock(sb, b) < |s.disk| && b % BPB / 8 < |s.disk[Bblock(sb, b)]|
    ensures PtrOf(s, n) < |s.disk| && PtrOf(s, n) != b && |Allocated(sb, s, b).disk[PtrOf(s, n)]| == BSIZE
    ensures Allocated(sb, s, b).disk[PtrOf(s, n)] == s.disk[PtrOf(s, n)]
    ensures var s' := SetEntry(Allocated(sb, s, b), PtrOf(s, n), j, b);
      Bmapped(sb, s, s', n, NDIRECT + j, b) && PtrOf(s', n) == PtrOf(s, n)
  {
    AllocStep(sb, s, b);
    KeptByAlloc(sb, s, b);
    PtrsAreData(sb, s);
    ClearIsLoose(sb, s, b);
    AtPtr(s, n);
    var s1, c := Allocated(sb, s, b), PtrOf(s, n);
    assert PtrOf(s1, n) == c;
    hide Allocated, Bit, At;
    SetSlot(sb, s1, n, j, b);
    var s' := SetEntry(s1, c, j, b);
    assert PtrOf(s', n) == c;
    hide PtrOf;
    forall p | IsPlace(s, p) && p != Slot(n, j) ensures At(s', p) == At(s, p) {
      assert At(s', p) == At(s1, p) == At(s, p);
    }
    forall p | IsPlace(s, p) && !p.Ptr? && At(s, p) != 0
      ensures At(s', p) == At(s, p) && At(s, p) < |s.disk| ==> s'.disk[At(s, p)] == s.disk[At(s, p)]
    {
      assert At(s, p) != At(s, Ptr(n)) && At(s1, p) == At(s, p);
    }
  }

  /** `bmap` in two steps, the indirect block first. */
  lemma BmapTwo(sb: Super, s: State, s1: State, s2: State, n: nat, bn: nat, a: nat)
    requires n in s.inodes && NDIRECT <= bn < MAXFILE && PtrOf(s, n) == 0
    requires DataKept(s, s1) && SameRefsBut(s, s1, Ptr(n))
    requires Bmapped(sb, s1, s2, n, bn, a)
    ensures Bmapped(sb, s, s2, n, bn, a)
  {
    hide At, Bit, PtrOf;
    DataKeptTrans(s, s1, s2);
    forall p | IsPlace(s, p) && p != PlaceOf(n, bn) && p != Ptr(n) ensures At(s2, p) == At(s, p) {
      assert At(s2, p) == At(s1, p) == At(s, p);
    }
  }

  // ----- What a step takes and what it logs -----

  /** From `s` to `s'` only file `n` has changed: its places still refer to what they
      referred to, or now to a block that was free; the blocks that became used are its
      own; and every block of the disk that changed is in `logged`. */
  ghost predicate Extended(sb: Super, s: State, s': State, n: nat, logged: set<nat>) {
    && Grew(sb, s, s', n) && Covers(s, s', n, logged)
  }

  ghost predicate Grew(sb: Super, s: State, s': State, n: nat) {
    && s'.inodes.Keys == s.inodes.Keys
    && (forall p {:trigger At(s', p)} :: IsPlace(s, p) ==>
          At(s', p) == At(s, p) || (p.n == n && At(s, p) == 0 && !Bit(sb, s.disk, At(s', p))))
    && (forall b: nat {:trigger Bit(sb, s'.disk, b)} :: 0 < b < sb.size ==>
          && (Bit(sb, s.disk, b) ==> Bit(sb, s'.disk, b))
          && (Bit(sb, s'.disk, b) ==> Bit(sb, s.disk, b) || Refers(s', n, b)))
  }

  ghost predicate Covers(s: State, s': State, n: nat, logged: set<nat>) {
    && |s'.disk| == |s.disk| && s'.inodes.Keys == s.inodes.Keys
    && (forall b :: 0 <= b < |s.disk| && b !in logged ==> s'.disk[b] == s.disk[b])
    && (forall m <- s.inodes :: m != n ==> s'.inodes[m] == s.inodes[m])
  }

  lemma ExtendedNone(sb: Super, s: State, n: nat, logged: set<nat>)
    ensures Extended(sb, s, s, n, logged)
  {
    hide At, Bit;
  }

  lemma ExtendedTrans(sb: Super, a: State, b: State, c: State, n: nat, la: set<nat>, lb: set<nat>)
    requires Extended(sb, a, b, n, la) && Extended(sb, b, c, n, lb) && la <= lb
    requires Owns(sb, b) && Owns(sb, c)
    ensures Extended(sb, a, c, n, lb)
  {
    hide At, Bit, Covers;
    GrewTrans(sb, a, b, c, n);
    assert Covers(a, c, n, lb) by { CoversTrans(a, b, c, n, la, lb); }
  }

  lemma CoversTrans(a: State, b: State, c: State, n: nat, la: set<nat>, lb: set<nat>)
    requires Covers(a, b, n, la) && Covers(b, c, n, lb) && la <= lb
    ensures Covers(a, c, n, lb)
  {
  }

  lemma GrewTrans(sb: Super, a: State, b: State, c: State, n: nat)
    requires Grew(sb, a, b, n) && Grew(sb, b, c, n) && Owns(sb, b) && Owns(sb, c)
    ensures Grew(sb, a, c, n)
  {
    hide At, Bit;
    forall p | IsPlace(a, p)
      ensures At(c, p) == At(a, p) || (p.n == n && At(a, p) == 0 && !Bit(sb, a.disk, At(c, p)))
    {
      assert At(b, p) == At(a, p) || (At(a, p) == 0 && !Bit(sb, a.disk, At(b, p)));
      if At(c, p) != At(b, p) {
        assert InUse(sb, c, At(c, p));
        assert !Bit(sb, b.disk, At(c, p)) && At(c, p) > 0;
      }
    }
    forall x: nat | 0 < x < sb.size && Bit(sb, c.disk, x) && !Bit(sb, a.disk, x)
      ensures Refers(c, n, x)
    {
      if Bit(sb, b.disk, x) {
        var p :| IsPlace(b, p) && p.n == n && At(b, p) == x;
        assert At(c, p) == x;
      }
    }
  }

  /** What `balloc` writes. */
  lemma AllocCovers(sb: Super, s: State, b: nat, c: nat)
    requires Bblock(sb, b) < |s.disk| && b % BPB / 8 < |s.disk[Bblock(sb, b)]| && b < |s.disk|
    requires c < |s.disk| && c != b && c != Bblock(sb, b)
    ensures Allocated(sb, s, b).disk[c] == s.disk[c]
  {
    hide Or, AndNot;
  }

  lemma ExtendedAlloc(sb: Super, s: State, s': State, n: nat, q: Place, b: nat, logged: set<nat>)
    requires Owns(sb, s) && 0 < b < sb.size && !Bit(sb, s.disk, b) && n in s.inodes
    requires Bblock(sb, b) < |s.disk| && b % BPB / 8 < |s.disk[Bblock(sb, b)]|
    requires SameRefsBut(s, s', q) && IsPlace(s, q) && q.n == n && At(s, q) == 0 && At(s', q) == b
    requires SameBits(sb, Allocated(sb, s, b), s')
    requires Covers(Allocated(sb, s, b), s', n, logged) && {b, Bblock(sb, b)} <= logged
    ensures Extended(sb, s, s', n, logged)
  {
    AllocStep(sb, s, b);
    forall c: nat | c < |s.disk| && c !in logged
      ensures s'.disk[c] == s.disk[c]
    {
      AllocCovers(sb, s, b, c);
    }
    AllocatedRest(sb, s, b);
    hide At, Bit, Allocated, Owns;
    forall p | IsPlace(s, p) && p != q
      ensures At(s', p) == At(s, p)
    {
    }
    assert IsPlace(s', q);
  }

  lemma AllocatedRest(sb: Super, s: State, b: nat)
    requires Bblock(sb, b) < |s.disk| && b % BPB / 8 < |s.disk[Bblock(sb, b)]| && b < |s.disk|
    ensures Allocated(sb, s, b).inodes == s.inodes && |Allocated(sb, s, b).disk| == |s.disk|
  {
    hide Or, AndNot;
  }

  lemma ExtendedDirect(sb: Super, s: State, n: nat, bn: nat, b: nat, logged: set<nat>)
    requires Owns(sb, s) && n in s.inodes && bn < NDIRECT && At(s, Direct(n, bn)) == 0
    requires 0 < b < sb.size && !Bit(sb, s.disk, b) && {b, Bblock(sb, b)} <= logged
    ensures Bblock(sb, b) < |s.disk| && b % BPB / 8 < |s.disk[Bblock(sb, b)]|
    ensures Extended(sb, s, SetAddr(Allocated(sb, s, b), n, bn, b), n, logged)
  {
    AllocStep(sb, s, b);
    AllocatedRest(sb, s, b);
    var s1 := Allocated(sb, s, b);
    var s' := SetAddr(s1, n, bn, b);
    hide Allocated, Bit, At, PtrOf;
    SetDirect(sb, s1, n, bn, b);
    forall p | IsPlace(s, p) && p != Direct(n, bn) ensures At(s', p) == At(s, p) {
      assert At(s', p) == At(s1, p) == At(s, p);
    }
    ExtendedAlloc(sb, s, s', n, Direct(n, bn), b, logged);
  }

  lemma ExtendedPtr(sb: Super, s: State, n: nat, b: nat, logged: set<nat>)
    requires Owns(sb, s) && n in s.inodes && PtrOf(s, n) == 0
    requires 0 < b < sb.size && !Bit(sb, s.disk, b) && {b, Bblock(sb, b)} <= logged
    ensures Bblock(sb, b) < |s.disk| && b % BPB / 8 < |s.disk[Bblock(sb, b)]|
    ensures Extended(sb, s, SetAddr(Allocated(sb, s, b), n, NDIRECT, b), n, logged)
  {
    AllocStep(sb, s, b);
    AllocatedRest(sb, s, b);
    AtPtr(s, n);
    var s1 := Allocated(sb, s, b);
    var s' := SetAddr(s1, n, NDIRECT, b);
    assert PtrOf(s1, n) == 0;
    hide Allocated, Bit, At, PtrOf;
    SetPtr(sb, s1, n, b);
    forall p | IsPlace(s, p) && p != Ptr(n) ensures At(s', p) == At(s, p) {
      assert At(s', p) == At(s1, p) == At(s, p);
    }
    ExtendedAlloc(sb, s, s', n, Ptr(n), b, logged);
  }

  lemma ExtendedSlot(sb: Super, s: State, n: nat, j: nat, b: nat, logged: set<nat>)
    requires Owns(sb, s) && n in s.inodes && PtrOf(s, n) != 0 && j < NINDIRECT && At(s, Slot(n, j)) == 0
    requires 0 < b < sb.size && !Bit(sb, s.disk, b) && {b, Bblock(sb, b), PtrOf(s, n)} <= logged
    ensures Bblock(sb, b) < |s.disk| && b % BPB / 8 < |s.disk[Bblock(sb, b)]|
    ensures PtrOf(s, n) < |s.disk| && |Allocated(sb, s, b).disk[PtrOf(s, n)]| == BSIZE
    ensures Extended(sb, s, SetEntry(Allocated(sb, s, b), PtrOf(s, n), j, b), n, logged)
  {
    AllocStep(sb, s, b);
    AllocatedRest(sb, s, b);
    PtrsAreData(sb, s);
    var s1, c := Allocated(sb, s, b), PtrOf(s, n);
    assert PtrOf(s1, n) == c;
    hide Allocated, Bit, At;
    SetSlot(sb, s1, n, j, b);
    var s' := SetEntry(s1, c, j, b);
    hide PtrOf;
    forall p | IsPlace(s, p) && p != Slot(n, j) ensures At(s', p) == At(s, p) {
      assert At(s', p) == At(s1, p) == At(s, p);
    }
    ExtendedAlloc(sb, s, s', n, Slot(n, j), b, logged);
  }

  /** Storing into a data block of file `n` takes nothing. */
  lemma ExtendedStore(sb: Super, s: State, n: nat, p: Place, block: Block, logged: set<nat>)
    requires Owns(sb, s) && n in s.inodes && IsPlace(s, p) && p.n == n && !p.Ptr? && At(s, p) != 0
    requires |block| == BSIZE && At(s, p) in logged
    ensures At(s, p) < |s.disk| && Extended(sb, s, s.(disk := s.disk[At(s, p) := block]), n, logged)
    ensures SameRefs(s, s.(disk := s.disk[At(s, p) := block]))
  {
    forall m | m in s.inodes
      ensures PtrOf(s, m) != At(s, p)
    {
      AtPtr(s, m);
    }
    assert InUse(sb, s, At(s, p));
    hide At, Bit, PtrOf;
    StoreData(sb, s, At(s, p), block);
  }

  /** Raising the size of file `n` takes nothing. */
  lemma ExtendedRaise(sb: Super, s: State, n: nat, size: nat, logged: set<nat>)
    requires n in s.inodes
    ensures Extended(sb, s, Raised(s, n, size), n, logged) && SameRefs(s, Raised(s, n, size))
  {
    RaisedRefs(s, n, size);
    hide At, Bit;
  }

  /** The block of its file that a place refers to. */
  function NumberOf(p: Place): nat
    requires !p.Ptr?
  {
    if p.Direct? then p.i else NDIRECT + p.j
  }

  /** Of all places only the indirect pointer of file `n` and those of its blocks `lo` to
      `hi` may refer to something else. */
  ghost predicate OnlyAt(s: State, s': State, n: nat, lo: nat, hi: nat) {
    && s'.inodes.Keys == s.inodes.Keys
    && forall p {:trigger At(s', p)} ::
         IsPlace(s, p) && p != Ptr(n) && !(p.n == n && !p.Ptr? && lo <= NumberOf(p) < hi) ==> At(s', p) == At(s, p)
  }

  lemma OnlyAtNone(s: State, n: nat, lo: nat)
    ensures OnlyAt(s, s, n, lo, lo)
  {
    hide At;
  }

  lemma OnlyAtBmap(sb: Super, s0: State, s: State, s': State, n: nat, lo: nat, bn: nat, a: nat)
    requires n in s.inodes && lo <= bn < MAXFILE && OnlyAt(s0, s, n, lo, bn) && Bmapped(sb, s, s', n, bn, a)
    ensures OnlyAt(s0, s', n, lo, bn + 1)
  {
    hide At, Owns, Bit, PtrOf;
    forall p | IsPlace(s0, p) && p != Ptr(n) && !(p.n == n && !p.Ptr? && lo <= NumberOf(p) < bn + 1)
      ensures At(s', p) == At(s0, p)
    {
      assert IsPlace(s, p) && p != PlaceOf(n, bn);
      assert At(s', p) == At(s, p) == At(s0, p);
    }
  }

  lemma OnlyAtSame(s0: State, s: State, s': State, n: nat, lo: nat, hi: nat)
    requires OnlyAt(s0, s, n, lo, hi) && SameRefs(s, s')
    ensures OnlyAt(s0, s', n, lo, hi)
  {
    hide At;
    forall p | IsPlace(s0, p) && p != Ptr(n) && !(p.n == n && !p.Ptr? && lo <= NumberOf(p) < hi)
      ensures At(s', p) == At(s0, p)
    {
      assert IsPlace(s, p) && At(s', p) == At(s, p) == At(s0, p);
    }
  }

  lemma OnlyAtWider(s: State, s': State, n: nat, lo: nat, hi: nat, hi': nat)
    requires OnlyAt(s, s', n, lo, hi) && hi <= hi'
    ensures OnlyAt(s, s', n, lo, hi')
  {
    hide At;
  }

  // ----- Transactions -----

  /** `IBLOCK`: 16 inodes to a block. */
  function Iblock(sb: Super, n: nat): nat {
    n / 16 + sb.inodestart
  }

  /** A transaction from `begin_op` to `end_op`: the state before and after, and the
      blocks that were passed to `log_write` in between. */
  datatype Trans = Trans(before: State, after: State, logged: set<nat>)

  /** Everything that the transaction changed was logged: the blocks of the disk, and
      of the inodes in memory the block that each is stored in. */
  ghost predicate Complete(sb: Super, t: Trans) {
    && |t.after.disk| == |t.before.disk| && t.after.inodes.Keys == t.before.inodes.Keys
    && (forall b :: 0 <= b < |t.before.disk| && b !in t.logged ==> t.after.disk[b] == t.before.disk[b])
    && (forall m <- t.before.inodes :: t.after.inodes[m] != t.before.inodes[m] ==> Iblock(sb, m) in t.logged)
  }

  /** The transactions lead from `s` to `s'`, one from where the other ended. */
  ghost predicate Chain(s: State, s': State, ts: seq<Trans>) {
    && (ts == [] ==> s == s')
    && (ts != [] ==> ts[0].before == s && ts[|ts| - 1].after == s')
    && (forall i :: 0 < i < |ts| ==> ts[i].before == ts[i - 1].after)
  }

  lemma ChainNext(s: State, s': State, ts: seq<Trans>, t: Trans)
    requires Chain(s, s', ts) && t.before == s'
    ensures Chain(s, t.after, ts + [t])
  {
  }

  // ----- What a write logs -----

  /** What a `bmap` that goes from `s` to `s'` may log: for the block allocated its
      bitmap block, itself and the indirect block that refers to it, and the like for
      an indirect block allocated. */
  ghost function Charge(sb: Super, s: State, s': State, n: nat, bn: nat): set<nat>
    requires n in s.inodes && n in s'.inodes && bn < MAXFILE
  {
    var a, c := At(s', PlaceOf(n, bn)), PtrOf(s', n);
    (if At(s, PlaceOf(n, bn)) == 0 && a != 0 then {a, Bblock(sb, a)} + (if bn < NDIRECT then {} else {c}) else {})
    + (if PtrOf(s, n) == 0 && c != 0 then {c, Bblock(sb, c)} else {})
  }

  lemma Charges(sb: Super, s: State, s1: State, s2: State, n: nat, bn: nat, a: nat)
    requires n in s.inodes && NDIRECT <= bn < MAXFILE && PtrOf(s, n) == 0
    requires SameRefsBut(s, s1, Ptr(n)) && Bmapped(sb, s1, s2, n, bn, a) && PtrOf(s1, n) != 0
    ensures n in s2.inodes
    ensures Charge(sb, s, s2, n, bn) == Charge(sb, s1, s2, n, bn) + {PtrOf(s1, n), Bblock(sb, PtrOf(s1, n))}
  {
    hide At, Owns, Bit, PtrOf;
    assert At(s1, PlaceOf(n, bn)) == At(s, PlaceOf(n, bn));
  }

  /** The blocks logged: the data blocks `dat`, the bitmap blocks `bms`, the indirect
      block, and its bitmap block when it is `added`. */
  ghost predicate Charged(sb: Super, s: State, n: nat, logged: set<nat>, dat: set<nat>, bms: set<nat>, added: bool)
    requires n in s.inodes
  {
    var c := PtrOf(s, n);
    && (added ==> c != 0)
    && logged <= dat + bms + (if c == 0 then {} else {c}) + (if added then {Bblock(sb, c)} else {})
  }

  lemma ChargedNext(sb: Super, s: State, s': State, n: nat, bn: nat, a: nat,
                    logged: set<nat>, logged': set<nat>, dat: set<nat>, bms: set<nat>, added: bool)
    requires n in s.inodes && bn < MAXFILE && Charged(sb, s, n, logged, dat, bms, added)
    requires Bmapped(sb, s, s', n, bn, a) && logged' <= logged + Charge(sb, s, s', n, bn)
    ensures n in s'.inodes
    ensures Charged(sb, s', n, logged', if a == 0 then dat else dat + {a},
              if At(s, PlaceOf(n, bn)) == 0 && a != 0 then bms + {Bblock(sb, a)} else bms,
              added || (PtrOf(s, n) == 0 && PtrOf(s', n) != 0))
  {
    assert bn >= NDIRECT && a != 0 ==> PtrOf(s', n) != 0;
    hide At, Owns, Bit, PtrOf, Bblock;
  }

  /** The blocks that `len` bytes from `off` on touch. */
  function Touched(off: nat, len: nat): nat {
    if len == 0 then 0 else (off + len - 1) / BSIZE - off / BSIZE + 1
  }

  /** The next chunk of a write, up to the end of its block, touches one more. */
  lemma TouchedNext(off: nat, tot: nat, n: nat, m: nat)
    requires tot < n && (tot == 0 || (off + tot) % BSIZE == 0)
    requires m == if n - tot < BSIZE - (off + tot) % BSIZE then n - tot else BSIZE - (off + tot) % BSIZE
    ensures m > 0 && tot + m <= n
    ensures Touched(off, tot + m) == Touched(off, tot) + 1
    ensures tot + m < n ==> (off + tot + m) % BSIZE == 0
    ensures Touched(off, tot + m) <= Touched(off, n)
  {
    var q, r := (off + tot) / BSIZE, (off + tot) % BSIZE;
    assert off + tot == BSIZE * q + r;
    assert (off + tot + m - 1) / BSIZE == q;
    if tot > 0 {
      assert r == 0 && (off + tot - 1) / BSIZE == q - 1;
    }
    assert (off + tot + m - 1) / BSIZE <= (off + n - 1) / BSIZE;
  }

  /** The next block of a write is the one after those it has touched. */
  lemma NextTouched(off: nat, tot: nat)
    requires tot == 0 || (off + tot) % BSIZE == 0
    ensures (off + tot) / BSIZE == off / BSIZE + Touched(off, tot)
  {
    if tot > 0 {
      var q := (off + tot) / BSIZE;
      assert off + tot == BSIZE * q;
      assert (off + tot - 1) / BSIZE == q - 1;
    }
  }

  /** A chunk of `filewrite` touches three blocks, four when it starts inside one. */
  lemma TouchedFew(off: nat, n: nat)
    requires n <= 3 * BSIZE
    ensures Touched(off, n) <= if off % BSIZE == 0 then 3 else 4
  {
  }

  /** With one bitmap block for each block allocated, none for a first block that was
      there, all that a chunk logs is ten blocks. */
  lemma ChargedFew(sb: Super, s: State, n: nat, logged: set<nat>, dat: set<nat>, bms: set<nat>, added: bool,
                   inode: nat, off: nat, len: nat)
    requires n in s.inodes && Charged(sb, s, n, logged, dat, bms, added) && len <= 3 * BSIZE
    requires |dat| <= Touched(off, len)
    requires |bms| <= Touched(off, len) && (off % BSIZE != 0 && |bms| > 0 ==> |bms| < Touched(off, len))
    ensures |logged + {inode}| <= 10
  {
    hide PtrOf, Bblock, Touched;
    TouchedFew(off, len);
    var c := PtrOf(s, n);
    var x: set<nat> := if c == 0 then {} else {c};
    var y: set<nat> := if added then {Bblock(sb, c)} else {};
    SubsetSize(logged + {inode}, dat + bms + x + y + {inode});
    UnionSize(dat, bms);
    UnionSize(dat + bms, x);
    UnionSize(dat + bms + x, y);
    UnionSize(dat + bms + x + y, {inode});
  }

  /** The blocks `dat` and bitmap blocks `bms` of a write that has touched the first
      `lim` bytes: none of the latter for a first block that was there. */
  ghost predicate Counted(off: nat, lim: nat, dat: set<nat>, bms: set<nat>) {
    && |dat| <= Touched(off, lim) && |bms| <= Touched(off, lim)
    && (off % BSIZE != 0 && |bms| > 0 ==> |bms| < Touched(off, lim))
  }

  /** What a write of which the first `lim` bytes have touched their blocks has logged. */
  ghost predicate Account(sb: Super, s: State, n: nat, logged: set<nat>, off: nat, lim: nat)
    requires n in s.inodes
  {
    exists dat, bms, added :: Charged(sb, s, n, logged, dat, bms, added) && Counted(off, lim, dat, bms)
  }

  lemma TouchedMore(off: nat, lim: nat, len: nat)
    requires lim <= len
    ensures Touched(off, lim) <= Touched(off, len)
  {
    if 0 < lim { assert (off + lim - 1) / BSIZE <= (off + len - 1) / BSIZE; }
  }

  /** `bmap` found the disk full. */
  lemma AccountMiss(sb: Super, s: State, s1: State, n: nat, bn: nat, logged: set<nat>, logged1: set<nat>,
                    off: nat, lim: nat, len: nat)
    requires n in s.inodes && bn < MAXFILE && lim <= len
    requires Account(sb, s, n, logged, off, lim) && Bmapped(sb, s, s1, n, bn, 0)
    requires logged1 <= logged + Charge(sb, s, s1, n, bn)
    ensures n in s1.inodes && Account(sb, s1, n, logged1, off, len)
  {
    hide Charged, Charge, Bmapped, PtrOf, Touched;
    var dat, bms, added :| Charged(sb, s, n, logged, dat, bms, added) && Counted(off, lim, dat, bms);
    ChargedNext(sb, s, s1, n, bn, 0, logged, logged1, dat, bms, added);
    TouchedMore(off, lim, len);
    assert Counted(off, len, dat, bms);
  }

  /** `bmap` gave a block, to be logged. */
  lemma AccountNext(sb: Super, s: State, s1: State, n: nat, bn: nat, a: nat, logged: set<nat>, logged1: set<nat>,
                    off: nat, tot: nat, m: nat, len: nat)
    requires n in s.inodes && bn < MAXFILE && a != 0 && tot + m <= len
    requires Account(sb, s, n, logged, off, tot) && Bmapped(sb, s, s1, n, bn, a)
    requires logged1 <= logged + Charge(sb, s, s1, n, bn)
    requires Touched(off, tot + m) == Touched(off, tot) + 1
    requires tot == 0 && off % BSIZE != 0 ==> At(s, PlaceOf(n, bn)) != 0
    ensures n in s1.inodes && Account(sb, s1, n, logged1 + {a}, off, tot + m) && Account(sb, s1, n, logged1, off, len)
  {
    hide Charged, Charge, Bmapped, PtrOf, Touched, Bblock, At;
    var dat, bms, added :| Charged(sb, s, n, logged, dat, bms, added) && Counted(off, tot, dat, bms);
    var more := At(s, PlaceOf(n, bn)) == 0;
    ChargedNext(sb, s, s1, n, bn, a, logged, logged1, dat, bms, added);
    TouchedSome(off, tot);
    TouchedMore(off, tot + m, len);
    var dat', bms' := dat + {a}, if more then bms + {Bblock(sb, a)} else bms;
    assert Counted(off, tot + m, dat', bms') && Counted(off, len, dat', bms');
    var added' := added || (PtrOf(s, n) == 0 && PtrOf(s1, n) != 0);
    ChargedData(sb, s1, n, logged1, dat', bms', added', a);
  }

  lemma TouchedSome(off: nat, len: nat)
    ensures len > 0 ==> Touched(off, len) > 0
  {
  }

  lemma ChargedData(sb: Super, s: State, n: nat, logged: set<nat>, dat: set<nat>, bms: set<nat>, added: bool, a: nat)
    requires n in s.inodes && a in dat && Charged(sb, s, n, logged, dat, bms, added)
    ensures Charged(sb, s, n, logged + {a}, dat, bms, added)
  {
  }

  lemma AccountSame(sb: Super, s: State, s1: State, n: nat, logged: set<nat>, off: nat, lim: nat)
    requires n in s.inodes && s1.inodes == s.inodes && Account(sb, s, n, logged, off, lim)
    ensures Account(sb, s1, n, logged, off, lim)
  {
    var dat, bms, added :| Charged(sb, s, n, logged, dat, bms, added) && Counted(off, lim, dat, bms);
    assert Charged(sb, s1, n, logged, dat, bms, added);
  }

  lemma AccountFew(sb: Super, s: State, n: nat, logged: set<nat>, inode: nat, off: nat, len: nat)
    requires n in s.inodes && Account(sb, s, n, logged, off, len) && len <= 3 * BSIZE
    ensures |logged + {inode}| <= 10
  {
    var dat, bms, added :| Charged(sb, s, n, logged, dat, bms, added) && Counted(off, len, dat, bms);
    ChargedFew(sb, s, n, logged, dat, bms, added, inode, off, len);
  }
}
