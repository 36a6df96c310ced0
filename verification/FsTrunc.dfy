/** Truncating an inode (kernel/fs.c): which bits of the bitmap are cleared on the way. */
module FsTrunc {
  import opened FsDisk
  import opened FsBlocks
  import opened FsContent

  /** Data blocks hold what they held. */
  ghost predicate SameData(sb: Super, s: State, s': State) {
    |s.disk| == |s'.disk| == sb.size && forall b :: sb.datastart <= b < sb.size ==> s'.disk[b] == s.disk[b]
  }

  /** One of the first `i` direct slots of `n` refers to `b`. */
  ghost predicate ByDirect(s: State, n: nat, i: nat, b: nat)
    requires n in s.inodes && i <= NDIRECT
  {
    exists i': nat :: i' < i && At(s, Direct(n, i')) == b
  }

  /** One of the first `j` slots of the indirect block of `n` refers to `b`. */
  ghost predicate BySlot(s: State, n: nat, j: nat, b: nat)
    requires n in s.inodes && j <= NINDIRECT
  {
    exists j': nat :: j' < j && At(s, Slot(n, j')) == b
  }

  // ----- Direct blocks -----

  /** The first `i` direct slots of inode `n` are cleared and their blocks free. */
  ghost predicate Directs(sb: Super, s0: State, s: State, n: nat, i: nat)
    requires n in s0.inodes && i <= NDIRECT
  {
    && Owns(sb, s) && SameSizes(s0, s) && SameData(sb, s0, s)
    && (forall p {:trigger At(s, p)} :: IsPlace(s0, p) ==>
          At(s, p) == if p.Direct? && p.n == n && p.i < i then 0 else At(s0, p))
    && (forall b: nat {:trigger Bit(sb, s.disk, b)} :: 0 < b < sb.size ==>
          Bit(sb, s.disk, b) == (Bit(sb, s0.disk, b) && !ByDirect(s0, n, i, b)))
  }

  lemma DirectsNone(sb: Super, s: State, n: nat)
    requires Owns(sb, s) && n in s.inodes
    ensures Directs(sb, s, s, n, 0)
  {
    hide At, Bit;
  }

  lemma DirectsSkip(sb: Super, s0: State, s: State, n: nat, i: nat)
    requires n in s0.inodes && i < NDIRECT && Directs(sb, s0, s, n, i) && At(s, Direct(n, i)) == 0
    ensures Directs(sb, s0, s, n, i + 1)
  {
    hide At, Bit;
    assert At(s0, Direct(n, i)) == 0;
    forall b: nat | 0 < b < sb.size ensures ByDirect(s0, n, i + 1, b) == ByDirect(s0, n, i, b) {
    }
  }

  /** `s` with the block of a direct slot freed and the slot cleared. */
  ghost function Dropped(sb: Super, s: State, n: nat, i: nat, b: nat): State
    requires n in s.inodes && i < |s.inodes[n].addrs|
    requires Bblock(sb, b) < |s.disk| && b % BPB / 8 < |s.disk[Bblock(sb, b)]|
  {
    SetAddr(s.(disk := Switched(sb, s.disk, b, false)), n, i, 0)
  }

  /** Freeing the block of one place and clearing the place keeps ownership. */
  lemma Unreferred(sb: Super, s: State, s': State, q: Place)
    requires Owns(sb, s) && Sound(sb, s') && IsPlace(s, q) && At(s, q) != 0
    requires SameRefsBut(s, s', q) && At(s', q) == 0 && SameBitsBut(sb, s, s', At(s, q))
    ensures Owns(sb, s')
  {
    hide At, Bit;
    assert InUse(sb, s, At(s, q));
    forall p | IsPlace(s', p) && At(s', p) != 0 ensures InUse(sb, s', At(s', p)) {
      assert IsPlace(s, p) && At(s', p) == At(s, p) && At(s, p) != At(s, q);
    }
    forall p, p' | IsPlace(s', p) && IsPlace(s', p') && At(s', p) != 0 && At(s', p) == At(s', p') ensures p == p' {
      assert At(s', p) == At(s, p) && At(s', p') == At(s, p');
    }
  }

  lemma DropDirect(sb: Super, s: State, n: nat, i: nat)
    requires Owns(sb, s) && n in s.inodes && i < NDIRECT && At(s, Direct(n, i)) != 0
    ensures var b := At(s, Direct(n, i));
      && b < sb.size && Bblock(sb, b) < |s.disk| && b % BPB / 8 < |s.disk[Bblock(sb, b)]|
      && var s' := Dropped(sb, s, n, i, b);
         && Owns(sb, s') && SameSizes(s, s') && SameData(sb, s, s')
         && SameRefsBut(s, s', Direct(n, i)) && At(s', Direct(n, i)) == 0
         && SameBitsBut(sb, s, s', b) && !Bit(sb, s'.disk, b)
  {
    var b := At(s, Direct(n, i));
    assert IsPlace(s, Direct(n, i)) && InUse(sb, s, b);
    PtrsAreData(sb, s);
    Switch(sb, s, b, false);
    var s1 := s.(disk := Switched(sb, s.disk, b, false));
    var s' := Dropped(sb, s, n, i, b);
    assert At(s', Direct(n, i)) == 0;
    ClearDirect(s1, n, i);
    hide At, Bit, Switched;
    Unreferred(sb, s, s', Direct(n, i)) by {
      forall p | IsPlace(s, p) && p != Direct(n, i) ensures At(s', p) == At(s, p) {
        assert At(s', p) == At(s1, p) == At(s, p);
      }
    }
  }

  lemma ClearDirect(s: State, n: nat, i: nat)
    requires n in s.inodes && i < NDIRECT < |s.inodes[n].addrs|
    ensures SameRefsBut(s, SetAddr(s, n, i, 0), Direct(n, i))
  {
  }

  lemma DirectsNext(sb: Super, s0: State, s: State, s': State, n: nat, i: nat)
    requires n in s0.inodes && i < NDIRECT && Directs(sb, s0, s, n, i) && At(s, Direct(n, i)) != 0
    requires Owns(sb, s') && SameSizes(s, s') && SameData(sb, s, s')
    requires SameRefsBut(s, s', Direct(n, i)) && At(s', Direct(n, i)) == 0
    requires SameBitsBut(sb, s, s', At(s, Direct(n, i))) && !Bit(sb, s'.disk, At(s, Direct(n, i)))
    ensures Directs(sb, s0, s', n, i + 1)
  {
    hide At, Bit, Owns;
    assert At(s0, Direct(n, i)) == At(s, Direct(n, i));
    forall b: nat | 0 < b < sb.size
      ensures Bit(sb, s'.disk, b) == (Bit(sb, s0.disk, b) && !ByDirect(s0, n, i + 1, b))
    {
      assert ByDirect(s0, n, i + 1, b) == (ByDirect(s0, n, i, b) || At(s0, Direct(n, i)) == b);
    }
    forall p | IsPlace(s0, p) ensures At(s', p) == if p.Direct? && p.n == n && p.i < i + 1 then 0 else At(s0, p) {
      if p != Direct(n, i) { assert At(s', p) == At(s, p); }
    }
  }

  // ----- The indirect block -----

  /** The blocks of the first `j` slots of the indirect block are free; the slots still
      name them. */
  ghost predicate Slots(sb: Super, s0: State, s: State, n: nat, j: nat)
    requires n in s0.inodes && j <= NINDIRECT
  {
    && Sound(sb, s) && s.inodes == s0.inodes && SameData(sb, s0, s)
    && (forall b: nat {:trigger Bit(sb, s.disk, b)} :: 0 < b < sb.size ==>
          Bit(sb, s.disk, b) == (Bit(sb, s0.disk, b) && !BySlot(s0, n, j, b)))
    && Bit(sb, s.disk, 0)
  }

  lemma SlotsNone(sb: Super, s: State, n: nat)
    requires Owns(sb, s) && n in s.inodes
    ensures Slots(sb, s, s, n, 0)
  {
    hide At, Bit;
  }

  lemma SlotsSkip(sb: Super, s0: State, s: State, n: nat, j: nat)
    requires n in s0.inodes && j < NINDIRECT && Slots(sb, s0, s, n, j) && At(s0, Slot(n, j)) == 0
    ensures Slots(sb, s0, s, n, j + 1)
  {
    hide At, Bit;
    forall b: nat | 0 < b < sb.size ensures BySlot(s0, n, j + 1, b) == BySlot(s0, n, j, b) {
    }
  }

  /** The next block is still in use. */
  lemma SlotInUse(sb: Super, s0: State, s: State, n: nat, j: nat)
    requires n in s0.inodes && j < NINDIRECT && Slots(sb, s0, s, n, j) && Owns(sb, s0) && At(s0, Slot(n, j)) != 0
    ensures InUse(sb, s, At(s0, Slot(n, j)))
  {
    hide At, Bit;
    assert IsPlace(s0, Slot(n, j)) && InUse(sb, s0, At(s0, Slot(n, j)));
    forall j': nat | j' < j ensures At(s0, Slot(n, j')) != At(s0, Slot(n, j)) {
      assert IsPlace(s0, Slot(n, j'));
    }
  }

  lemma SlotsNext(sb: Super, s0: State, s: State, n: nat, j: nat)
    requires n in s0.inodes && j < NINDIRECT && Slots(sb, s0, s, n, j) && Owns(sb, s0) && At(s0, Slot(n, j)) != 0
    ensures var b := At(s0, Slot(n, j));
      && b < sb.size && Bblock(sb, b) < |s.disk| && b % BPB / 8 < |s.disk[Bblock(sb, b)]|
      && Slots(sb, s0, s.(disk := Switched(sb, s.disk, b, false)), n, j + 1)
  {
    var b := At(s0, Slot(n, j));
    SlotInUse(sb, s0, s, n, j);
    PtrsAreData(sb, s0);
    PtrsSame(s0, s);
    hide At, Owns;
    Switch(sb, s, b, false);
    hide Bit, Switched;
    var s' := s.(disk := Switched(sb, s.disk, b, false));
    forall c: nat | 0 < c < sb.size ensures Bit(sb, s'.disk, c) == (Bit(sb, s0.disk, c) && !BySlot(s0, n, j + 1, c)) {
      assert BySlot(s0, n, j + 1, c) == (BySlot(s0, n, j, c) || At(s0, Slot(n, j)) == c);
    }
  }

  lemma PtrsSame(s0: State, s: State)
    requires s.inodes == s0.inodes
    ensures forall n <- s.inodes :: PtrOf(s, n) == PtrOf(s0, n)
  {
  }

  /** After the indirect block itself: every place of the inode but its direct slots is
      clear, and exactly the bits of their blocks. */
  ghost predicate Indirects(sb: Super, s0: State, s: State, n: nat)
    requires n in s0.inodes
  {
    && Owns(sb, s) && SameSizes(s0, s) && SameData(sb, s0, s)
    && (forall p {:trigger At(s, p)} :: IsPlace(s0, p) ==>
          At(s, p) == if !p.Direct? && p.n == n then 0 else At(s0, p))
    && (forall b: nat {:trigger Bit(sb, s.disk, b)} :: 0 < b < sb.size ==>
          Bit(sb, s.disk, b) == (Bit(sb, s0.disk, b) && !BySlot(s0, n, NINDIRECT, b) && At(s0, Ptr(n)) != b))
  }

  /** No indirect block, nothing to do. */
  lemma IndirectsNone(sb: Super, s: State, n: nat)
    requires Owns(sb, s) && n in s.inodes && PtrOf(s, n) == 0
    ensures Indirects(sb, s, s, n)
  {
    AtPtr(s, n);
    assert forall j: nat :: j < NINDIRECT ==> At(s, Slot(n, j)) == 0;
    hide At, Bit;
  }

  /** The indirect block is still in use when its slots are done. */
  lemma PtrInUse(sb: Super, s0: State, s: State, n: nat)
    requires n in s0.inodes && Owns(sb, s0) && Slots(sb, s0, s, n, NINDIRECT) && PtrOf(s0, n) != 0
    ensures InUse(sb, s, PtrOf(s0, n))
  {
    AtPtr(s0, n);
    hide At, Bit, PtrOf;
    assert InUse(sb, s0, At(s0, Ptr(n)));
    forall j: nat | j < NINDIRECT ensures At(s0, Slot(n, j)) != At(s0, Ptr(n)) {
      assert IsPlace(s0, Slot(n, j));
    }
  }

  lemma DropPtr(sb: Super, s0: State, s: State, n: nat)
    requires n in s0.inodes && Owns(sb, s0) && Slots(sb, s0, s, n, NINDIRECT) && PtrOf(s0, n) != 0
    ensures var b := PtrOf(s0, n);
      && b < sb.size && Bblock(sb, b) < |s.disk| && b % BPB / 8 < |s.disk[Bblock(sb, b)]|
      && Indirects(sb, s0, Dropped(sb, s, n, NDIRECT, b), n)
  {
    var b := PtrOf(s0, n);
    PtrInUse(sb, s0, s, n);
    PtrsAreData(sb, s0);
    PtrsSame(s0, s);
    Switch(sb, s, b, false) by { hide At, Bit; }
    var s1 := s.(disk := Switched(sb, s.disk, b, false));
    var s' := Dropped(sb, s, n, NDIRECT, b);
    AtPtr(s0, n);
    DropPtrRefs(sb, s0, s1, n);
    hide At, Bit, Switched, PtrOf;
    DropPtrOwns(sb, s0, s', n);
  }

  lemma DropPtrRefs(sb: Super, s0: State, s: State, n: nat)
    requires Owns(sb, s0) && Sound(sb, s) && n in s0.inodes && s.inodes == s0.inodes && SameData(sb, s0, s)
    ensures var s' := SetAddr(s, n, NDIRECT, 0);
      forall p {:trigger At(s', p)} :: IsPlace(s0, p) ==> At(s', p) == if !p.Direct? && p.n == n then 0 else At(s0, p)
  {
    PtrsAreData(sb, s0);
  }

  lemma DropPtrOwns(sb: Super, s0: State, s: State, n: nat)
    requires Owns(sb, s0) && Sound(sb, s) && n in s0.inodes && s.inodes.Keys == s0.inodes.Keys
    requires forall p {:trigger At(s, p)} ::
      IsPlace(s0, p) ==> At(s, p) == if !p.Direct? && p.n == n then 0 else At(s0, p)
    requires forall b: nat {:trigger Bit(sb, s.disk, b)} :: 0 < b < sb.size ==>
      Bit(sb, s.disk, b) == (Bit(sb, s0.disk, b) && !BySlot(s0, n, NINDIRECT, b) && At(s0, Ptr(n)) != b)
    requires Bit(sb, s.disk, 0)
    ensures Owns(sb, s)
  {
    hide At, Bit;
    forall p | IsPlace(s, p) && At(s, p) != 0 ensures InUse(sb, s, At(s, p)) {
      assert IsPlace(s0, p) && At(s, p) == At(s0, p) && InUse(sb, s0, At(s0, p)) && IsPlace(s0, Ptr(n));
      forall j: nat | j < NINDIRECT ensures At(s0, Slot(n, j)) != At(s0, p) {
        assert IsPlace(s0, Slot(n, j));
      }
    }
    forall p, q | IsPlace(s, p) && IsPlace(s, q) && At(s, p) != 0 && At(s, p) == At(s, q) ensures p == q {
      assert IsPlace(s0, p) && IsPlace(s0, q) && At(s, p) == At(s0, p) && At(s, q) == At(s0, q);
    }
    forall b: nat | b < sb.datastart ensures Bit(sb, s.disk, b) {
      if b > 0 {
        assert Bit(sb, s0.disk, b);
        forall p | IsPlace(s0, p) ensures At(s0, p) != b {
        }
        assert IsPlace(s0, Ptr(n));
        forall j: nat | j < NINDIRECT ensures At(s0, Slot(n, j)) != b {
          assert IsPlace(s0, Slot(n, j));
        }
      }
    }
  }

  // ----- The whole inode -----

  /** `itrunc`: inode `n` refers to no block and has size 0; exactly the bits of the
      blocks it referred to are clear; the other inodes are as they were. */
  ghost predicate Truncated(sb: Super, s0: State, s: State, n: nat)
    requires n in s0.inodes
  {
    && Owns(sb, s) && SameData(sb, s0, s) && s.inodes.Keys == s0.inodes.Keys
    && (forall m <- s0.inodes :: s.inodes[m].size == if m == n then 0 else s0.inodes[m].size)
    && (forall p {:trigger At(s, p)} :: IsPlace(s0, p) ==> At(s, p) == if p.n == n then 0 else At(s0, p))
    && (forall b: nat {:trigger Bit(sb, s.disk, b)} :: 0 < b < sb.size ==>
          Bit(sb, s.disk, b) == (Bit(sb, s0.disk, b) && !Refers(s0, n, b)))
  }

  ghost function Sized(s: State, n: nat, size: nat): State
    requires n in s.inodes
  {
    s.(inodes := s.inodes[n := s.inodes[n].(size := size)])
  }

  lemma TruncDone(sb: Super, s0: State, s1: State, s: State, n: nat)
    requires n in s0.inodes && Directs(sb, s0, s1, n, NDIRECT) && Indirects(sb, s1, s, n)
    ensures Truncated(sb, s0, Sized(s, n, 0), n)
  {
    var s' := Sized(s, n, 0);
    SizedRefs(s, n, 0);
    hide At, Bit;
    assert SameBits(sb, s, s');
    Kept(sb, s, s');
    forall p | IsPlace(s0, p) ensures At(s', p) == if p.n == n then 0 else At(s0, p) {
      assert IsPlace(s1, p) && IsPlace(s, p);
      assert At(s', p) == At(s, p) == if !p.Direct? && p.n == n then 0 else At(s1, p);
    }
    forall b: nat | 0 < b < sb.size ensures Bit(sb, s'.disk, b) == (Bit(sb, s0.disk, b) && !Refers(s0, n, b)) {
      TruncBit(sb, s0, s1, n, b);
    }
  }

  lemma SizedRefs(s: State, n: nat, size: nat)
    requires n in s.inodes
    ensures SameRefs(s, Sized(s, n, size))
  {
  }

  lemma TruncBit(sb: Super, s0: State, s1: State, n: nat, b: nat)
    requires n in s0.inodes && Directs(sb, s0, s1, n, NDIRECT) && b > 0
    ensures Refers(s0, n, b) == (ByDirect(s0, n, NDIRECT, b) || BySlot(s1, n, NINDIRECT, b) || At(s1, Ptr(n)) == b)
  {
    hide At, Bit;
    if Refers(s0, n, b) {
      var p :| IsPlace(s0, p) && p.n == n && At(s0, p) == b;
      match p
      case Direct(_, i) => assert At(s0, Direct(n, i)) == b;
      case Ptr(_) => assert At(s1, Ptr(n)) == b;
      case Slot(_, j) => assert At(s1, Slot(n, j)) == b;
    }
    if ByDirect(s0, n, NDIRECT, b) {
      var i: nat :| i < NDIRECT && At(s0, Direct(n, i)) == b;
      assert IsPlace(s0, Direct(n, i));
    }
    if BySlot(s1, n, NINDIRECT, b) {
      var j: nat :| j < NINDIRECT && At(s1, Slot(n, j)) == b;
      assert IsPlace(s0, Slot(n, j));
    }
    if At(s1, Ptr(n)) == b {
      assert IsPlace(s0, Ptr(n));
    }
  }

  /** The other files hold what they held; the file truncated holds nothing. */
  lemma TruncContent(sb: Super, s0: State, s: State, n: nat)
    requires n in s0.inodes && Filled(s0) && Owns(sb, s0) && Truncated(sb, s0, s, n)
    ensures Filled(s) && Content(s, n) == []
    ensures forall m <- s0.inodes :: m != n ==> Content(s, m) == Content(s0, m)
  {
    forall m: nat, k: nat | m in s0.inodes && m != n && k < MAXBYTES && Peek(s0, m, k) != -1
      ensures Peek(s, m, k) == Peek(s0, m, k)
    {
      hide At, Bit;
      var p := PlaceOf(m, k / BSIZE);
      assert IsPlace(s0, p) && At(s, p) == At(s0, p) && InUse(sb, s0, At(s0, p));
    }
    hide At, Bit, Peek, Owns;
    forall m: nat, k: nat | m in s.inodes && k < s.inodes[m].size ensures Peek(s, m, k) != -1 {
      assert Peek(s0, m, k) != -1;
      assert Peek(s, m, k) == Peek(s0, m, k);
    }
    forall m | m in s0.inodes && m != n ensures Content(s, m) == Content(s0, m) {
      forall k: nat | k < s0.inodes[m].size ensures Peek(s, m, k) == Peek(s0, m, k) {
        assert Peek(s0, m, k) != -1;
      }
    }
  }
}
