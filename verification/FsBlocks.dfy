/** Which disk blocks the inodes refer to, and the steps of kernel/fs.c that change
    that. */
module FsBlocks {
  import opened FsDisk

  /** An inode: `NDIRECT` block numbers and that of the indirect block, and its size. */
  datatype Inode = Inode(addrs: seq<nat>, size: nat)

  datatype State = State(disk: seq<Block>, inodes: map<nat, Inode>)

  /** A place that can refer to a block: a direct slot, the indirect pointer, or a slot
      of the indirect block. */
  datatype Place = Direct(n: nat, i: nat) | Ptr(n: nat) | Slot(n: nat, j: nat)

  predicate IsPlace(s: State, p: Place) {
    p.n in s.inodes && match p
      case Direct(_, i) => i < NDIRECT
      case Ptr(_) => true
      case Slot(_, j) => j < NINDIRECT
  }

  ghost predicate Sound(sb: Super, s: State) {
    && Laid(sb) && Whole(sb, s.disk)
    && forall n <- s.inodes :: |s.inodes[n].addrs| == NDIRECT + 1
  }

  /** The indirect pointer of inode `n`. */
  function PtrOf(s: State, n: nat): nat
    requires n in s.inodes
  {
    if |s.inodes[n].addrs| == NDIRECT + 1 then s.inodes[n].addrs[NDIRECT] else 0
  }

  /** The block that a place refers to, 0 for none. */
  function At(s: State, p: Place): nat
    requires IsPlace(s, p)
  {
    match p
    case Direct(n, i) => if i < |s.inodes[n].addrs| then s.inodes[n].addrs[i] else 0
    case Ptr(n) => PtrOf(s, n)
    case Slot(n, j) =>
      var b := PtrOf(s, n);
      if b == 0 || b >= |s.disk| || |s.disk[b]| != BSIZE then 0 else Get(s.disk[b], j)
  }

  /** The place of block `bn` of file `n`. */
  function PlaceOf(n: nat, bn: nat): (p: Place)
    requires bn < MAXFILE
  {
    if bn < NDIRECT then Direct(n, bn) else Slot(n, bn - NDIRECT)
  }

  /** A block in use: a data block of the disk, marked in the bitmap. */
  predicate InUse(sb: Super, s: State, b: nat) {
    sb.datastart <= b < sb.size && Bit(sb, s.disk, b)
  }

  /** No two places refer to the same block, every block referred to is in use, and
      the blocks below the data blocks are marked. */
  ghost predicate Owns(sb: Super, s: State) {
    && Sound(sb, s)
    && (forall p :: IsPlace(s, p) && At(s, p) != 0 ==> InUse(sb, s, At(s, p)))
    && (forall p, q :: IsPlace(s, p) && IsPlace(s, q) && At(s, p) != 0 && At(s, p) == At(s, q) ==> p == q)
    && (forall b: nat :: b < sb.datastart ==> Bit(sb, s.disk, b))
  }

  /** Nothing refers to block `b`. */
  ghost predicate Loose(s: State, b: nat) {
    forall p :: IsPlace(s, p) ==> At(s, p) != b
  }

  /** Some place of inode `n` refers to `b`. */
  ghost predicate Refers(s: State, n: nat, b: nat) {
    exists p :: IsPlace(s, p) && p.n == n && At(s, p) == b
  }

  /** The places refer to the same blocks. */
  ghost predicate SameRefs(s: State, s': State) {
    && s'.inodes.Keys == s.inodes.Keys
    && forall p {:trigger At(s', p)} :: IsPlace(s, p) ==> At(s', p) == At(s, p)
  }

  /** The places refer to the same blocks, but for `q`. */
  ghost predicate SameRefsBut(s: State, s': State, q: Place) {
    && s'.inodes.Keys == s.inodes.Keys
    && forall p {:trigger At(s', p)} :: IsPlace(s, p) && p != q ==> At(s', p) == At(s, p)
  }

  ghost predicate SameBits(sb: Super, s: State, s': State) {
    forall b: nat {:trigger Bit(sb, s'.disk, b)} :: b < sb.size ==> Bit(sb, s'.disk, b) == Bit(sb, s.disk, b)
  }

  ghost predicate SameBitsBut(sb: Super, s: State, s': State, c: nat) {
    forall b: nat {:trigger Bit(sb, s'.disk, b)} :: b < sb.size && b != c ==> Bit(sb, s'.disk, b) == Bit(sb, s.disk, b)
  }

  // ----- Steps -----

  /** Replacing a data block that is no indirect block changes no reference. */
  lemma StoreData(sb: Super, s: State, b: nat, block: Block)
    requires Owns(sb, s)
    requires sb.datastart <= b < sb.size && |block| == BSIZE
    requires forall n <- s.inodes :: PtrOf(s, n) != b
    ensures var s' := s.(disk := s.disk[b := block]);
      Owns(sb, s') && SameRefs(s, s') && SameBits(sb, s, s')
  {
    var s' := s.(disk := s.disk[b := block]);
    forall c: nat | c < sb.size ensures Bit(sb, s'.disk, c) == Bit(sb, s.disk, c) {
      BitKept(sb, s.disk, s'.disk, c);
    }
    forall p | IsPlace(s, p) ensures At(s', p) == At(s, p) {
    }
    Kept(sb, s, s');
  }

  /** What keeps references and bits keeps ownership. */
  lemma Kept(sb: Super, s: State, s': State)
    requires Owns(sb, s) && Sound(sb, s') && SameRefs(s, s') && SameBits(sb, s, s')
    ensures Owns(sb, s')
  {
    hide At, Bit;
    forall p | IsPlace(s', p) && At(s', p) != 0 ensures InUse(sb, s', At(s', p)) {
      assert IsPlace(s, p) && At(s', p) == At(s, p);
    }
    forall p, q | IsPlace(s', p) && IsPlace(s', q) && At(s', p) != 0 && At(s', p) == At(s', q) ensures p == q {
      assert At(s', p) == At(s, p) && At(s', q) == At(s, q);
    }
  }

  /** A new reference to a loose block in use keeps ownership. */
  lemma Referred(sb: Super, s: State, s': State, q: Place)
    requires Owns(sb, s) && Sound(sb, s') && IsPlace(s, q)
    requires SameRefsBut(s, s', q) && SameBits(sb, s, s')
    requires At(s', q) != 0 ==> Loose(s, At(s', q)) && InUse(sb, s, At(s', q))
    ensures Owns(sb, s')
  {
    hide At, Bit;
    forall p | IsPlace(s', p) && At(s', p) != 0 ensures InUse(sb, s', At(s', p)) {
      assert IsPlace(s, p);
      if p != q { assert At(s', p) == At(s, p); }
    }
    forall p, q' | IsPlace(s', p) && IsPlace(s', q') && At(s', p) != 0 && At(s', p) == At(s', q') ensures p == q' {
      assert IsPlace(s, p) && IsPlace(s, q');
      if p != q { assert At(s', p) == At(s, p); }
      if q' != q { assert At(s', q') == At(s, q'); }
    }
  }

  /** A block whose bit is clear is loose. */
  lemma ClearIsLoose(sb: Super, s: State, b: nat)
    requires Owns(sb, s) && 0 < b < sb.size && !Bit(sb, s.disk, b)
    ensures Loose(s, b) && sb.datastart <= b && forall n <- s.inodes :: PtrOf(s, n) != b
  {
    hide At, Bit;
    forall n | n in s.inodes ensures PtrOf(s, n) != b {
      assert IsPlace(s, Ptr(n)) && At(s, Ptr(n)) == PtrOf(s, n) by { AtPtr(s, n); }
    }
  }

  lemma AtPtr(s: State, n: nat)
    requires n in s.inodes
    ensures IsPlace(s, Ptr(n)) && At(s, Ptr(n)) == PtrOf(s, n)
  {
  }

  /** The disk with the bit of block `b` switched. */
  function Switched(sb: Super, disk: seq<Block>, b: nat, on: bool): (d: seq<Block>)
    requires Bblock(sb, b) < |disk| && b % BPB / 8 < |disk[Bblock(sb, b)]|
  {
    var x := disk[Bblock(sb, b)][b % BPB / 8];
    Poke(disk, Bblock(sb, b), b % BPB / 8, if on then Or(x, b % BPB % 8) else AndNot(x, b % BPB % 8))
  }

  /** Switching a bit changes no reference. */
  lemma Switch(sb: Super, s: State, b: nat, on: bool)
    requires Sound(sb, s) && b < sb.size
    requires forall n <- s.inodes :: PtrOf(s, n) == 0 || sb.datastart <= PtrOf(s, n)
    ensures Bblock(sb, b) < sb.datastart && b % BPB / 8 < |s.disk[Bblock(sb, b)]|
    ensures var s' := s.(disk := Switched(sb, s.disk, b, on));
      && Sound(sb, s') && SameRefs(s, s') && SameBitsBut(sb, s, s', b) && Bit(sb, s'.disk, b) == on
      && forall c :: sb.datastart <= c < sb.size ==> s'.disk[c] == s.disk[c]
  {
    BitPlace(sb, b);
    PokeBit(sb, s.disk, b, on);
    hide Bit, Get;
  }

  lemma PtrsAreData(sb: Super, s: State)
    requires Owns(sb, s)
    ensures forall n <- s.inodes :: PtrOf(s, n) == 0 || sb.datastart <= PtrOf(s, n) < sb.size
  {
    forall n | n in s.inodes ensures PtrOf(s, n) == 0 || sb.datastart <= PtrOf(s, n) < sb.size {
      AtPtr(s, n);
    }
  }

  /** `balloc` of block `b`: marked and zeroed. */
  ghost function Allocated(sb: Super, s: State, b: nat): State
    requires Bblock(sb, b) < |s.disk| && b % BPB / 8 < |s.disk[Bblock(sb, b)]| && b < |s.disk|
  {
    s.(disk := Switched(sb, s.disk, b, true)[b := Zero()])
  }

  /** A block whose bit was clear becomes in use, zero and still loose. */
  lemma AllocStep(sb: Super, s: State, b: nat)
    requires Owns(sb, s) && 0 < b < sb.size && !Bit(sb, s.disk, b)
    ensures Bblock(sb, b) < |s.disk| && b % BPB / 8 < |s.disk[Bblock(sb, b)]| && sb.datastart <= b
    ensures var s' := Allocated(sb, s, b);
      && Owns(sb, s') && SameRefs(s, s') && SameBitsBut(sb, s, s', b)
      && InUse(sb, s', b) && Loose(s, b) && Loose(s', b) && s'.disk[b] == Zero()
      && forall c :: sb.datastart <= c < sb.size && c != b ==> s'.disk[c] == s.disk[c]
  {
    ClearIsLoose(sb, s, b);
    PtrsAreData(sb, s);
    Switch(sb, s, b, true);
    var s1 := s.(disk := Switched(sb, s.disk, b, true));
    assert forall n <- s1.inodes :: PtrOf(s1, n) != b;
    assert Owns(sb, s1) by { Marked(sb, s, s1, b); }
    hide At, Bit, Has, Or, Switched, PtrOf;
    StoreData(sb, s1, b, Zero());
  }

  lemma Marked(sb: Super, s: State, s1: State, b: nat)
    requires Owns(sb, s) && Sound(sb, s1) && SameRefs(s, s1) && SameBitsBut(sb, s, s1, b) && b < sb.size
    requires Bit(sb, s1.disk, b)
    ensures Owns(sb, s1)
  {
    hide At, Bit;
    forall p | IsPlace(s1, p) && At(s1, p) != 0 ensures InUse(sb, s1, At(s1, p)) {
      assert IsPlace(s, p) && At(s1, p) == At(s, p);
    }
    forall p, q | IsPlace(s1, p) && IsPlace(s1, q) && At(s1, p) != 0 && At(s1, p) == At(s1, q) ensures p == q {
      assert At(s1, p) == At(s, p) && At(s1, q) == At(s, q);
    }
  }

  // ----- Setting a reference -----

  function SetAddr(s: State, n: nat, i: nat, b: nat): State
    requires n in s.inodes && i < |s.inodes[n].addrs|
  {
    s.(inodes := s.inodes[n := s.inodes[n].(addrs := s.inodes[n].addrs[i := b])])
  }

  lemma SetDirect(sb: Super, s: State, n: nat, i: nat, b: nat)
    requires Owns(sb, s) && n in s.inodes && i < NDIRECT
    requires b != 0 ==> Loose(s, b) && InUse(sb, s, b)
    ensures var s' := SetAddr(s, n, i, b);
      Owns(sb, s') && SameRefsBut(s, s', Direct(n, i)) && At(s', Direct(n, i)) == b
  {
    var s' := SetAddr(s, n, i, b);
    assert SameRefsBut(s, s', Direct(n, i)) by { hide Get; }
    assert At(s', Direct(n, i)) == b;
    hide At, Bit, PtrOf;
    Referred(sb, s, s', Direct(n, i));
  }

  /** A new indirect block refers to nothing. */
  lemma SetPtr(sb: Super, s: State, n: nat, b: nat)
    requires Owns(sb, s) && n in s.inodes && PtrOf(s, n) == 0
    requires b != 0 && Loose(s, b) && InUse(sb, s, b) && s.disk[b] == Zero()
    ensures var s' := SetAddr(s, n, NDIRECT, b);
      Owns(sb, s') && SameRefsBut(s, s', Ptr(n)) && At(s', Ptr(n)) == b
  {
    hide Bit, Get;
    var s' := SetAddr(s, n, NDIRECT, b);
    assert At(s', Ptr(n)) == b && |s'.inodes[n].addrs| == NDIRECT + 1;
    hide At, PtrOf;
    forall p | IsPlace(s, p) && p != Ptr(n) ensures At(s', p) == At(s, p) {
      PtrElsewhere(s, n, b, p);
    }
    Referred(sb, s, s', Ptr(n));
  }

  lemma PtrElsewhere(s: State, n: nat, b: nat, p: Place)
    requires n in s.inodes && |s.inodes[n].addrs| == NDIRECT + 1 && PtrOf(s, n) == 0
    requires 0 < b < |s.disk| && s.disk[b] == Zero() && IsPlace(s, p) && p != Ptr(n)
    ensures At(SetAddr(s, n, NDIRECT, b), p) == At(s, p)
  {
    hide Get;
    if p.Slot? { GetZero(p.j); }
  }

  function SetEntry(s: State, b: nat, j: nat, a: nat): State
    requires b < |s.disk| && |s.disk[b]| == BSIZE && j < NINDIRECT
  {
    s.(disk := s.disk[b := Put(s.disk[b], j, a)])
  }

  lemma SetSlot(sb: Super, s: State, n: nat, j: nat, a: nat)
    requires Owns(sb, s) && n in s.inodes && PtrOf(s, n) != 0 && j < NINDIRECT
    requires a != 0 && Loose(s, a) && InUse(sb, s, a)
    ensures sb.datastart <= PtrOf(s, n) < sb.size && |s.disk[PtrOf(s, n)]| == BSIZE
    ensures var s' := SetEntry(s, PtrOf(s, n), j, a);
      && Owns(sb, s') && SameRefsBut(s, s', Slot(n, j)) && At(s', Slot(n, j)) == a
      && SameBits(sb, s, s')
  {
    AtPtr(s, n);
    PtrsAreData(sb, s);
    var b := PtrOf(s, n);
    var s' := SetEntry(s, b, j, a);
    forall c: nat | c < sb.size ensures Bit(sb, s'.disk, c) == Bit(sb, s.disk, c) {
      BitKept(sb, s.disk, s'.disk, c);
    }
    forall p | IsPlace(s, p) && p != Slot(n, j) ensures At(s', p) == At(s, p) {
      SlotElsewhere(sb, s, n, j, a, p);
    }
    PutGet(s.disk[b], j, a, j);
    assert At(s', Slot(n, j)) == a;
    hide At, Bit, PtrOf, Put;
    Referred(sb, s, s', Slot(n, j));
  }

  lemma SlotElsewhere(sb: Super, s: State, n: nat, j: nat, a: nat, p: Place)
    requires Owns(sb, s) && n in s.inodes && 0 < PtrOf(s, n) < |s.disk| && j < NINDIRECT
    requires |s.disk[PtrOf(s, n)]| == BSIZE
    requires IsPlace(s, p) && p != Slot(n, j)
    ensures At(SetEntry(s, PtrOf(s, n), j, a), p) == At(s, p)
  {
    if p.Slot? {
      AtPtr(s, n);
      AtPtr(s, p.n);
      if p.n == n {
        PutGet(s.disk[PtrOf(s, n)], j, a, p.j);
      }
      hide Put, Get, Bit;
    }
  }
}
