/** The bytes of a file, as the blocks that its inode refers to hold them (kernel/fs.c). */
module FsContent {
  import opened FsDisk
  import opened FsBlocks

  /** The most bytes a file can have. */
  const MAXBYTES: nat := MAXFILE * BSIZE

  /** Byte `k` of file `n`, -1 when its block is not allocated. */
  function Peek(s: State, n: nat, k: nat): int
    requires n in s.inodes && k < MAXBYTES
  {
    var b := At(s, PlaceOf(n, k / BSIZE));
    if b == 0 || b >= |s.disk| || |s.disk[b]| != BSIZE then -1 else s.disk[b][k % BSIZE]
  }

  /** Every byte below the size of a file is there. */
  ghost predicate Filled(s: State) {
    && (forall n <- s.inodes :: s.inodes[n].size <= MAXBYTES)
    && forall n, k: nat :: n in s.inodes && k < s.inodes[n].size ==> Peek(s, n, k) != -1
  }

  /** What a file holds. */
  ghost function Content(s: State, n: nat): (c: seq<int>)
    requires n in s.inodes && s.inodes[n].size <= MAXBYTES
    ensures |c| == s.inodes[n].size
  {
    seq(s.inodes[n].size, k requires 0 <= k < s.inodes[n].size => Peek(s, n, k))
  }

  /** The same inodes with the same sizes. */
  ghost predicate SameSizes(s: State, s': State) {
    s'.inodes.Keys == s.inodes.Keys && forall n <- s.inodes :: s'.inodes[n].size == s.inodes[n].size
  }

  /** From `s` to `s'` the bytes `data` were stored from byte `off` of file `n` on; no
      other byte of any file has changed. */
  ghost predicate Wrote(s: State, s': State, n: nat, off: nat, data: seq<nat>) {
    && SameSizes(s, s')
    && (forall k: nat {:trigger Peek(s', n, k)} :: n in s.inodes && off <= k < off + |data| && k < MAXBYTES ==>
          Peek(s', n, k) == data[k - off])
    && (forall m: nat, k: nat {:trigger Peek(s', m, k)} ::
          m in s.inodes && k < MAXBYTES && !(m == n && off <= k < off + |data|) && Peek(s, m, k) != -1 ==>
          Peek(s', m, k) == Peek(s, m, k))
  }

  lemma WroteTrans(a: State, b: State, c: State, n: nat, off: nat, x: seq<nat>, y: seq<nat>)
    requires Wrote(a, b, n, off, x) && Wrote(b, c, n, off + |x|, y)
    requires n in a.inodes
    ensures Wrote(a, c, n, off, x + y)
  {
    hide Peek;
    forall k: nat | off <= k < off + |x + y| && k < MAXBYTES ensures Peek(c, n, k) == (x + y)[k - off] {
      if k < off + |x| { assert Peek(b, n, k) == x[k - off]; }
    }
    forall m: nat, k: nat |
      m in a.inodes && k < MAXBYTES && !(m == n && off <= k < off + |x + y|) && Peek(a, m, k) != -1
      ensures Peek(c, m, k) == Peek(a, m, k)
    {
      assert Peek(b, m, k) == Peek(a, m, k);
    }
  }

  /** The blocks of the files are where they were and hold what they held. */
  ghost predicate DataKept(s: State, s': State) {
    && SameSizes(s, s')
    && forall p {:trigger At(s', p)} :: IsPlace(s, p) && !p.Ptr? && At(s, p) != 0 ==>
         && At(s', p) == At(s, p)
         && |s'.disk| == |s.disk| && (At(s, p) < |s.disk| ==> s'.disk[At(s, p)] == s.disk[At(s, p)])
  }

  lemma DataKeptTrans(a: State, b: State, c: State)
    requires DataKept(a, b) && DataKept(b, c)
    ensures DataKept(a, c)
  {
    hide At;
    forall p | IsPlace(a, p) && !p.Ptr? && At(a, p) != 0
      ensures At(c, p) == At(a, p) && |c.disk| == |a.disk|
      ensures At(a, p) < |a.disk| ==> c.disk[At(a, p)] == a.disk[At(a, p)]
    {
      assert At(b, p) == At(a, p);
    }
  }

  lemma KeptWrote(s: State, s': State, n: nat, off: nat)
    requires DataKept(s, s')
    ensures Wrote(s, s', n, off, [])
  {
    hide At;
    forall m: nat, k: nat | m in s.inodes && k < MAXBYTES && Peek(s, m, k) != -1
      ensures Peek(s', m, k) == Peek(s, m, k)
    {
      assert IsPlace(s, PlaceOf(m, k / BSIZE));
      assert At(s', PlaceOf(m, k / BSIZE)) == At(s, PlaceOf(m, k / BSIZE));
    }
  }

  // ----- One block -----

  /** `block` with `data` copied to offset `o`. */
  function Splice(block: Block, o: nat, data: seq<nat>): (r: Block)
    requires o + |data| <= |block|
    ensures |r| == |block|
  {
    block[..o] + data + block[o + |data|..]
  }

  /** Copying into a block of a file writes those bytes of the file. */
  lemma CopyIn(sb: Super, s: State, n: nat, off: nat, data: seq<nat>)
    requires Owns(sb, s) && n in s.inodes && off < MAXBYTES
    requires off % BSIZE + |data| <= BSIZE && At(s, PlaceOf(n, off / BSIZE)) != 0
    ensures var b := At(s, PlaceOf(n, off / BSIZE));
      && sb.datastart <= b < sb.size && |s.disk[b]| == BSIZE
      && var s' := s.(disk := s.disk[b := Splice(s.disk[b], off % BSIZE, data)]);
         Owns(sb, s') && SameRefs(s, s') && Wrote(s, s', n, off, data)
  {
    var q := PlaceOf(n, off / BSIZE);
    var b := At(s, q);
    assert IsPlace(s, q) && InUse(sb, s, b);
    var s' := s.(disk := s.disk[b := Splice(s.disk[b], off % BSIZE, data)]);
    forall m | m in s.inodes ensures PtrOf(s, m) != b {
      AtPtr(s, m);
    }
    hide At, Bit, PtrOf;
    StoreData(sb, s, b, Splice(s.disk[b], off % BSIZE, data));
    forall k: nat | off <= k < off + |data| && k < MAXBYTES ensures Peek(s', n, k) == data[k - off] {
      SameBlock(off, k, |data|);
      assert At(s', q) == b;
    }
    forall m: nat, k: nat | m in s.inodes && k < MAXBYTES && !(m == n && off <= k < off + |data|) && Peek(s, m, k) != -1
      ensures Peek(s', m, k) == Peek(s, m, k)
    {
      Elsewhere(sb, s, n, off, |data|, m, k);
      assert At(s', PlaceOf(m, k / BSIZE)) == At(s, PlaceOf(m, k / BSIZE));
    }
  }

  lemma SameBlock(off: nat, k: nat, len: nat)
    requires off % BSIZE + len <= BSIZE && off <= k < off + len
    ensures k / BSIZE == off / BSIZE && k % BSIZE == off % BSIZE + (k - off)
  {
  }

  /** A byte outside the range lies in another block or outside the range there. */
  lemma Elsewhere(sb: Super, s: State, n: nat, off: nat, len: nat, m: nat, k: nat)
    requires Owns(sb, s) && n in s.inodes && m in s.inodes && off < MAXBYTES && k < MAXBYTES
    requires off % BSIZE + len <= BSIZE && !(m == n && off <= k < off + len)
    requires At(s, PlaceOf(n, off / BSIZE)) != 0
    ensures At(s, PlaceOf(m, k / BSIZE)) != At(s, PlaceOf(n, off / BSIZE))
      || k % BSIZE < off % BSIZE || k % BSIZE >= off % BSIZE + len
  {
    hide At;
    if At(s, PlaceOf(m, k / BSIZE)) == At(s, PlaceOf(n, off / BSIZE)) {
      assert IsPlace(s, PlaceOf(m, k / BSIZE)) && IsPlace(s, PlaceOf(n, off / BSIZE));
      assert PlaceOf(m, k / BSIZE) == PlaceOf(n, off / BSIZE);
      assert m == n && k / BSIZE == off / BSIZE;
      Aligned(off, k, len);
    }
  }

  lemma Aligned(off: nat, k: nat, len: nat)
    requires k / BSIZE == off / BSIZE && !(off <= k < off + len)
    ensures k % BSIZE < off % BSIZE || k % BSIZE >= off % BSIZE + len
  {
  }

  // ----- Whole files -----

  /** `c` with `data` written at `off`. */
  function Overlay(c: seq<int>, off: nat, data: seq<nat>): seq<int>
    requires off <= |c|
  {
    c[..off] + data + if off + |data| < |c| then c[off + |data|..] else []
  }

  /** `s` with the size of inode `n` raised to `size` where it is below. */
  function Raised(s: State, n: nat, size: nat): State
    requires n in s.inodes
  {
    if size > s.inodes[n].size then s.(inodes := s.inodes[n := s.inodes[n].(size := size)]) else s
  }

  lemma RaisedRefs(s: State, n: nat, size: nat)
    requires n in s.inodes
    ensures SameRefs(s, Raised(s, n, size))
    ensures forall m: nat, k: nat {:trigger Peek(Raised(s, n, size), m, k)} :: m in s.inodes && k < MAXBYTES ==>
      Peek(Raised(s, n, size), m, k) == Peek(s, m, k)
  {
  }

  /** The file after a write is the file before with the bytes written over it; no
      other file has changed. */
  lemma WriteContent(s0: State, s: State, n: nat, off: nat, data: seq<nat>)
    requires n in s0.inodes && Filled(s0) && Wrote(s0, s, n, off, data)
    requires off <= s0.inodes[n].size && off + |data| <= MAXBYTES
    ensures var s' := Raised(s, n, off + |data|);
      && s'.inodes.Keys == s0.inodes.Keys && Filled(s')
      && Content(s', n) == Overlay(Content(s0, n), off, data)
      && forall m <- s0.inodes :: m != n ==> Content(s', m) == Content(s0, m)
  {
    WriteFilled(s0, s, n, off, data);
    WriteOther(s0, s, n, off, data);
    WriteThis(s0, s, n, off, data);
    hide Peek, Filled, Overlay;
  }

  lemma WriteFilled(s0: State, s: State, n: nat, off: nat, data: seq<nat>)
    requires n in s0.inodes && Filled(s0) && Wrote(s0, s, n, off, data)
    requires off <= s0.inodes[n].size && off + |data| <= MAXBYTES
    ensures Filled(Raised(s, n, off + |data|))
  {
    hide Peek;
    var s' := Raised(s, n, off + |data|);
    RaisedRefs(s, n, off + |data|);
    forall m: nat, k: nat | m in s'.inodes && k < s'.inodes[m].size ensures Peek(s', m, k) != -1 {
      assert Peek(s', m, k) == Peek(s, m, k);
      if m == n && off <= k < off + |data| {
        assert Peek(s, n, k) == data[k - off];
      } else {
        assert Peek(s0, m, k) != -1;
        assert Peek(s, m, k) == Peek(s0, m, k);
      }
    }
  }

  lemma WriteOther(s0: State, s: State, n: nat, off: nat, data: seq<nat>)
    requires n in s0.inodes && Filled(s0) && Wrote(s0, s, n, off, data)
    requires off <= s0.inodes[n].size && off + |data| <= MAXBYTES
    requires Filled(Raised(s, n, off + |data|))
    ensures forall m <- s0.inodes :: m != n ==> Content(Raised(s, n, off + |data|), m) == Content(s0, m)
  {
    hide Peek;
    var s' := Raised(s, n, off + |data|);
    RaisedRefs(s, n, off + |data|);
    forall m | m in s0.inodes && m != n ensures Content(s', m) == Content(s0, m) {
      forall k: nat | k < s0.inodes[m].size ensures Peek(s', m, k) == Peek(s0, m, k) {
        assert Peek(s0, m, k) != -1;
        assert Peek(s, m, k) == Peek(s0, m, k);
      }
    }
  }

  lemma WriteThis(s0: State, s: State, n: nat, off: nat, data: seq<nat>)
    requires n in s0.inodes && Filled(s0) && Wrote(s0, s, n, off, data)
    requires off <= s0.inodes[n].size && off + |data| <= MAXBYTES
    requires Filled(Raised(s, n, off + |data|))
    ensures Content(Raised(s, n, off + |data|), n) == Overlay(Content(s0, n), off, data)
  {
    hide Peek;
    var s' := Raised(s, n, off + |data|);
    RaisedRefs(s, n, off + |data|);
    var c, d := Content(s', n), Content(s0, n);
    forall k: nat | k < |c| ensures c[k] == if off <= k < off + |data| then data[k - off] else Peek(s0, n, k) {
      assert c[k] == Peek(s', n, k) == Peek(s, n, k);
      if !(off <= k < off + |data|) {
        assert Peek(s0, n, k) != -1;
        assert Peek(s, n, k) == Peek(s0, n, k);
      }
    }
    assert forall k: nat :: k < |d| ==> d[k] == Peek(s0, n, k);
    hide Content, Raised, Filled, Wrote;
    IsOverlay(d, off, data, c);
  }

  lemma IsOverlay(d: seq<int>, off: nat, data: seq<nat>, c: seq<int>)
    requires off <= |d| && |c| == if off + |data| > |d| then off + |data| else |d|
    requires forall k: nat :: k < |c| ==> c[k] == if off <= k < off + |data| then data[k - off] else d[k]
    ensures c == Overlay(d, off, data)
  {
  }

  /** Two writes one after the other are one write. */
  lemma OverlayTwice(c: seq<int>, off: nat, x: seq<nat>, y: seq<nat>)
    requires off <= |c|
    ensures |Overlay(c, off, x)| >= off + |x|
    ensures Overlay(Overlay(c, off, x), off + |x|, y) == Overlay(c, off, x + y)
  {
    var d := Overlay(c, off, x);
    var e, f := Overlay(d, off + |x|, y), Overlay(c, off, x + y);
    assert |e| == |f|;
    forall k: nat | k < |e| ensures e[k] == f[k] {
    }
  }

  lemma OverlayNone(c: seq<int>, off: nat)
    requires off <= |c|
    ensures Overlay(c, off, []) == c
  {
  }
}
