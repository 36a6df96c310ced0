/** The file system code of kernel/fs.c and the inode branch of kernel/file.c's
    `filewrite`, over the disk as the buffer cache shows it. */
module FsDevice {
  import opened FsDisk
  import opened FsBlocks
  import opened FsContent
  import opened FsTrunc
  import opened FsSteps

  const MAXOPBLOCKS: nat := 10
  const UINT: nat := 0x1_0000_0000

  class Fs {
    const sb: Super
    var disk: seq<Block>
    /** What the inodes in memory say. */
    var inodes: map<nat, Inode>
    /** The blocks passed to `log_write` since `begin_op`. */
    var logged: set<nat>
    /** The state at the last `begin_op`, and the transactions ended so far. */
    ghost var start: State
    ghost var done: seq<Trans>

    ghost function St(): State
      reads this
    {
      State(disk, inodes)
    }

    ghost predicate Valid()
      reads this
    {
      Owns(sb, St()) && Filled(St())
    }

    /** A disk whose inodes refer to what is theirs. */
    constructor (sb: Super, disk: seq<Block>, inodes: map<nat, Inode>)
      requires Owns(sb, State(disk, inodes)) && Filled(State(disk, inodes))
      ensures Valid() && this.sb == sb && St() == State(disk, inodes) && logged == {} && done == []
    {
      this.sb, this.disk, this.inodes, logged := sb, disk, inodes, {};
      start, done := State(disk, inodes), [];
    }

    method BeginOp()
      modifies `logged, `start
      ensures logged == {} && start == St()
    {
      logged, start := {}, St();
    }

    method EndOp()
      modifies `done
      ensures done == old(done) + [Trans(start, St(), logged)]
    {
      done := done + [Trans(start, St(), logged)];
    }

    method LogWrite(b: nat)
      modifies `logged
      ensures logged == old(logged) + {b}
    {
      logged := logged + {b};
    }

    /** `balloc`: the first free block, marked and zeroed, or 0. */
    method Balloc() returns (r: nat)
      requires Owns(sb, St())
      modifies `disk, `logged
      ensures r == 0 ==> St() == old(St()) && logged == old(logged) && Full(sb, St())
      ensures r != 0 ==>
        && r < sb.size && !Bit(sb, old(disk), r) && (forall c: nat :: c < r ==> Bit(sb, old(disk), c))
        && Bblock(sb, r) < sb.size && |old(disk)| == sb.size && r % BPB / 8 < |old(disk)[Bblock(sb, r)]|
        && St() == Allocated(sb, old(St()), r)
        && logged == old(logged) + {Bblock(sb, r), r}
    {
      hide Owns, Has, Or, Zero, Bit, Bblock, Poke;
      assert Sound(sb, St()) && Bit(sb, disk, 0) by { OwnsBasics(sb, St()); }
      var b := 0;
      while b < sb.size
        invariant b % BPB == 0
        invariant disk == old(disk) && logged == old(logged)
        invariant forall c: nat :: c < b && c < sb.size ==> Bit(sb, disk, c)
      {
        var bi := 0;
        while bi < BPB && b + bi < sb.size
          invariant 0 <= bi <= BPB
          invariant disk == old(disk) && logged == old(logged)
          invariant forall c: nat :: c < b + bi && c < sb.size ==> Bit(sb, disk, c)
        {
          BitIn(sb, disk, b, bi);
          var x := disk[Bblock(sb, b)][bi / 8];
          if !Has(x, bi % 8) {
            disk := Poke(disk, Bblock(sb, b), bi / 8, Or(x, bi % 8));
            LogWrite(Bblock(sb, b));
            disk := disk[b + bi := Zero()];
            LogWrite(b + bi);
            return b + bi;
          }
          bi := bi + 1;
        }
        b := b + BPB;
      }
      r := 0;
    }

    /** `bfree`, which panics when the block is free. */
    method Bfree(b: nat)
      requires Sound(sb, St()) && b < sb.size && Bit(sb, disk, b)
      modifies `disk, `logged
      ensures Bblock(sb, b) < |old(disk)| && b % BPB / 8 < |old(disk)[Bblock(sb, b)]|
      ensures disk == Switched(sb, old(disk), b, false)
      ensures logged == old(logged) + {Bblock(sb, b)}
    {
      BitPlace(sb, b);
      var bi := b % BPB;
      var x := disk[Bblock(sb, b)][bi / 8];
      assert Has(x, bi % 8);
      disk := Poke(disk, Bblock(sb, b), bi / 8, AndNot(x, bi % 8));
      LogWrite(Bblock(sb, b));
    }

    /** `bmap`, which panics past the largest file. */
    method Bmap(n: nat, bn: nat) returns (addr: nat)
      requires Owns(sb, St()) && n in inodes && bn < MAXFILE
      modifies `disk, `inodes, `logged
      ensures Bmapped(sb, old(St()), St(), n, bn, addr)
      ensures At(old(St()), PlaceOf(n, bn)) != 0 ==> St() == old(St()) && logged == old(logged)
      ensures old(logged) <= logged <= old(logged) + Charge(sb, old(St()), St(), n, bn)
      ensures Extended(sb, old(St()), St(), n, logged)
    {
      hide Owns, Bmapped, Bit, Allocated, DataKept, SameRefsBut, Full, Extended;
      ghost var s := St();
      OwnsBasics(sb, s);
      ExtendedNone(sb, s, n, logged);
      if bn < NDIRECT {
        addr := inodes[n].addrs[bn];
        if addr == 0 {
          addr := Balloc();
          if addr == 0 {
            BmapNone(sb, s, n, bn, 0);
            return;
          }
          BmapDirect(sb, s, n, bn, addr);
          ExtendedDirect(sb, s, n, bn, addr, logged);
          AllocatedInodes(sb, s, addr);
          inodes := inodes[n := inodes[n].(addrs := inodes[n].addrs[bn := addr])];
          BmappedAt(sb, s, St(), n, bn, addr);
        } else {
          BmapNone(sb, s, n, bn, addr);
        }
        return;
      }
      addr := inodes[n].addrs[NDIRECT];
      if addr == 0 {
        addr := Balloc();
        if addr == 0 {
          BmapNone(sb, s, n, bn, 0);
          return;
        }
        BmapPtr(sb, s, n, addr);
        ExtendedPtr(sb, s, n, addr, logged);
        AllocatedInodes(sb, s, addr);
        inodes := inodes[n := inodes[n].(addrs := inodes[n].addrs[NDIRECT := addr])];
        ghost var s1, log := St(), logged;
        addr := BmapIndirect(n, bn - NDIRECT, addr);
        BmapTwo(sb, s, s1, St(), n, bn, addr);
        BmappedOwns(sb, s1, St(), n, bn, addr);
        ExtendedTrans(sb, s, s1, St(), n, log, logged);
        Charges(sb, s, s1, St(), n, bn, addr);
      } else {
        addr := BmapIndirect(n, bn - NDIRECT, addr);
      }
    }

    /** The rest of `bmap`: slot `j` of the indirect block `b`. */
    method BmapIndirect(n: nat, j: nat, b: nat) returns (addr: nat)
      requires Owns(sb, St()) && n in inodes && j < NINDIRECT && b == PtrOf(St(), n) && b != 0
      modifies `disk, `inodes, `logged
      ensures Bmapped(sb, old(St()), St(), n, NDIRECT + j, addr)
      ensures At(old(St()), Slot(n, j)) != 0 ==> St() == old(St()) && logged == old(logged)
      ensures old(logged) <= logged <= old(logged) + Charge(sb, old(St()), St(), n, NDIRECT + j)
      ensures Extended(sb, old(St()), St(), n, logged)
    {
      hide Owns, Bmapped, Bit, Allocated, PtrOf, Full, Get, Put, Extended;
      ghost var s := St();
      IndirectBlock(sb, s, n, j);
      ExtendedNone(sb, s, n, logged);
      addr := Get(disk[b], j);
      if addr == 0 {
        addr := Balloc();
        if addr != 0 {
          BmapSlot(sb, s, n, j, addr);
          AllocatedInodes(sb, s, addr);
          assert disk[b] == s.disk[b];
          disk := disk[b := Put(disk[b], j, addr)];
          LogWrite(b);
          ExtendedSlot(sb, s, n, j, addr, logged);
          BmappedAt(sb, s, St(), n, NDIRECT + j, addr);
        } else {
          BmapNone(sb, s, n, NDIRECT + j, 0);
        }
      } else {
        BmapNone(sb, s, n, NDIRECT + j, addr);
      }
    }

    /** `itrunc`. */
    method Itrunc(n: nat)
      requires Valid() && n in inodes
      modifies `disk, `inodes, `logged
      ensures Valid() && Truncated(sb, old(St()), St(), n)
      ensures Content(St(), n) == []
      ensures forall m <- old(inodes) :: m != n ==> Content(St(), m) == Content(old(St()), m)
      ensures old(logged) <= logged && Complete(sb, Trans(old(St()), St(), logged))
    {
      hide Owns, Bit, Directs, Slots, Indirects, Truncated, Filled, Peek, Get, Switched, SameSizes, SameData;
      hide Covers, Complete;
      ghost var s0 := St();
      CoversNone(s0, n, logged);
      DirectsNone(sb, s0, n);
      var i := 0;
      while i < NDIRECT
        invariant 0 <= i <= NDIRECT
        invariant n in inodes && Directs(sb, s0, St(), n, i)
        invariant old(logged) <= logged && Covers(s0, St(), n, logged)
      {
        ghost var s, log := St(), logged;
        DirectsBasics(sb, s0, s, n, i);
        if inodes[n].addrs[i] != 0 {
          DropDirect(sb, s, n, i);
          assert Bit(sb, disk, inodes[n].addrs[i]) by { InUseAt(sb, s, Direct(n, i)); }
          Bfree(inodes[n].addrs[i]);
          inodes := inodes[n := inodes[n].(addrs := inodes[n].addrs[i := 0])];
          DirectsNext(sb, s0, s, St(), n, i);
          FreedCovers(sb, s, St(), n, s.inodes[n].addrs[i], logged);
          CoversTrans(s0, s, St(), n, log, logged);
        } else {
          DirectsSkip(sb, s0, s, n, i);
        }
        i := i + 1;
      }
      ghost var s1, log := St(), logged;
      DirectsBasics(sb, s0, s1, n, NDIRECT);
      if inodes[n].addrs[NDIRECT] != 0 {
        FreeIndirect(n);
        CoversTrans(s0, s1, St(), n, log, logged);
      } else {
        IndirectsNone(sb, s1, n);
      }
      TruncDone(sb, s0, s1, St(), n);
      EmptiedComplete(sb, s0, St(), n, logged);
      inodes := inodes[n := inodes[n].(size := 0)];
      LogWrite(Iblock(sb, n));
      TruncContent(sb, s0, St(), n);
      assert Owns(sb, St()) by { TruncOwns(sb, s0, St(), n); }
    }

    /** The part of `itrunc` for the indirect block. */
    method FreeIndirect(n: nat)
      requires Owns(sb, St()) && n in inodes && PtrOf(St(), n) != 0
      modifies `disk, `inodes, `logged
      ensures n in inodes && Indirects(sb, old(St()), St(), n)
      ensures old(logged) <= logged && Covers(old(St()), St(), n, logged)
    {
      hide Owns, Bit, Slots, Indirects, Get, Switched, SameData, Covers;
      ghost var s1 := St();
      CoversNone(s1, n, logged);
      PtrIs(sb, s1, n);
      var b := inodes[n].addrs[NDIRECT];
      var a := disk[b];
      SlotsNone(sb, s1, n);
      var j := 0;
      while j < NINDIRECT
        invariant 0 <= j <= NINDIRECT
        invariant inodes == s1.inodes && Slots(sb, s1, St(), n, j)
        invariant old(logged) <= logged && Covers(s1, St(), n, logged)
      {
        ghost var s, log := St(), logged;
        IndirectBlock(sb, s1, n, j);
        SlotsBasics(sb, s1, St(), n, j);
        if Get(a, j) != 0 {
          SlotInUse(sb, s1, St(), n, j);
          SlotsNext(sb, s1, St(), n, j);
          Bfree(Get(a, j));
          FreedCovers(sb, s, St(), n, Get(a, j), logged);
          CoversTrans(s1, s, St(), n, log, logged);
        } else {
          SlotsSkip(sb, s1, St(), n, j);
        }
        j := j + 1;
      }
      SlotsBasics(sb, s1, St(), n, NINDIRECT);
      PtrInUse(sb, s1, St(), n);
      DropPtr(sb, s1, St(), n);
      ghost var s, log := St(), logged;
      Bfree(b);
      inodes := inodes[n := inodes[n].(addrs := inodes[n].addrs[NDIRECT := 0])];
      FreedCovers(sb, s, St(), n, b, logged);
      CoversTrans(s1, s, St(), n, log, logged);
    }

    /** `readi` of `len` bytes; the copy out fails where the chunk has a byte whose
        position is in `bad`. */
    method Readi(n: nat, off: nat, len: nat, bad: set<nat>) returns (tot: int, dst: seq<nat>)
      requires Valid() && n in inodes && off < UINT && len < UINT
      modifies `disk, `inodes, `logged
      ensures St() == old(St()) && logged == old(logged)
      ensures off > inodes[n].size || off + len >= UINT ==> tot == 0 && dst == []
      ensures off <= inodes[n].size && off + len < UINT ==>
        var m := if off + len > inodes[n].size then inodes[n].size - off else len;
        if exists i :: i in bad && i < m then tot == -1
        else tot == m && dst == Content(St(), n)[off..off + m]
    {
      hide Owns, Filled, Peek, Content;
      if off > inodes[n].size || (off + len) % UINT < off { return 0, []; }
      assert inodes[n].size <= MAXBYTES by { FilledBound(St(), n); }
      var left := if off + len > inodes[n].size then inodes[n].size - off else len;
      tot, dst := ReadBlocks(n, off, left, bad);
    }

    /** The loop of `readi`. */
    method ReadBlocks(n: nat, off: nat, left: nat, bad: set<nat>) returns (tot: int, dst: seq<nat>)
      requires Valid() && n in inodes && off + left <= inodes[n].size <= MAXBYTES
      modifies `disk, `inodes, `logged
      ensures St() == old(St()) && logged == old(logged)
      ensures if exists i :: i in bad && i < left then tot == -1
        else tot == left && dst == Content(St(), n)[off..off + left]
    {
      hide Owns, Filled, Peek, Bmapped, Bit, At, Content;
      tot, dst := 0, [];
      var o := off;
      while tot < left
        invariant 0 <= tot <= left && o == off + tot
        invariant St() == old(St()) && logged == old(logged)
        invariant dst == Content(St(), n)[off..o]
        invariant forall i :: i in bad ==> i >= tot
      {
        FilledAt(sb, St(), n, o);
        var addr := Bmap(n, o / BSIZE);
        BmappedAt(sb, old(St()), St(), n, o / BSIZE, addr);
        var m := if left - tot < BSIZE - o % BSIZE then left - tot else BSIZE - o % BSIZE;
        if exists i :: i in bad && tot <= i < tot + m {
          tot := -1;
          break;
        }
        ReadChunk(St(), n, o, m, addr);
        dst := dst + disk[addr][o % BSIZE..o % BSIZE + m];
        tot, o := tot + m, o + m;
      }
    }

    /** `writei` of `src`; the copy in fails where the chunk has a byte whose position
        is in `bad`. */
    method Writei(n: nat, src: seq<nat>, off: nat, bad: set<nat>) returns (tot: int)
      requires Valid() && n in inodes && off < UINT && |src| < UINT
      modifies `disk, `inodes, `logged
      ensures Valid() && inodes.Keys == old(inodes).Keys
      ensures (tot == -1) == (off > old(inodes)[n].size || off + |src| > MAXBYTES)
      ensures tot == -1 ==> St() == old(St()) && logged == old(logged)
      ensures tot != -1 ==>
        && 0 <= tot <= |src|
        && Content(St(), n) == Overlay(Content(old(St()), n), off, src[..tot])
        && forall m <- old(inodes) :: m != n ==> Content(St(), m) == Content(old(St()), m)
      ensures forall i <- bad :: tot <= i
      ensures 0 <= tot < |src| ==> Full(sb, St()) || exists i :: i in bad && tot <= i < |src| && i < tot + BSIZE
      ensures old(logged) <= logged && Grew(sb, old(St()), St(), n)
      ensures OnlyAt(old(St()), St(), n, off / BSIZE, off / BSIZE + Touched(off, |src|))
      ensures Complete(sb, Trans(old(St()), St(), logged))
      ensures old(logged) == {} && |src| <= 3 * BSIZE ==> |logged| <= MAXOPBLOCKS
    {
      hide Owns, Filled, Peek, Wrote, Account, Full, Overlay, Content, Extended, Grew, Complete, OnlyAt, Touched;
      ExtendedNone(sb, St(), n, logged);
      OnlyAtNone(St(), n, off / BSIZE);
      OnlyAtWider(St(), St(), n, off / BSIZE, off / BSIZE, off / BSIZE + Touched(off, |src|));
      UnchangedComplete(sb, St(), n, logged);
      if off > inodes[n].size || (off + |src|) % UINT < off { return -1; }
      if off + |src| > MAXBYTES { return -1; }
      ghost var s0 := St();
      tot := WriteBlocks(n, src, off, bad);
      ghost var s := St();
      WriteContent(s0, s, n, off, src[..tot]);
      RaisedOwns(sb, s, n, off + tot);
      ExtendedRaise(sb, s, n, off + tot, logged);
      OnlyAtSame(s0, s, Raised(s, n, off + tot), n, off / BSIZE, off / BSIZE + Touched(off, |src|));
      ExtendedTrans(sb, s0, s, Raised(s, n, off + tot), n, logged, logged);
      ExtendedComplete(sb, s0, Raised(s, n, off + tot), n, logged);
      assert Raised(s, n, off + tot) == if off + tot > inodes[n].size then Sized(s, n, off + tot) else s;
      if off + tot > inodes[n].size {
        inodes := inodes[n := inodes[n].(size := off + tot)];
      }
      if old(logged) == {} && |src| <= 3 * BSIZE {
        AccountFew(sb, s, n, logged, Iblock(sb, n), off, |src|);
      }
      LogWrite(Iblock(sb, n));
    }

    /** The loop of `writei`. */
    method WriteBlocks(n: nat, src: seq<nat>, off: nat, bad: set<nat>) returns (tot: nat)
      requires Valid() && n in inodes && off <= inodes[n].size && off + |src| <= MAXBYTES
      modifies `disk, `inodes, `logged
      ensures tot <= |src| && n in inodes && Owns(sb, St()) && Wrote(old(St()), St(), n, off, src[..tot])
      ensures tot < |src| ==> Full(sb, St()) || exists i :: i in bad && tot <= i < |src| && i < tot + BSIZE
      ensures forall i <- bad :: tot <= i
      ensures old(logged) <= logged && Extended(sb, old(St()), St(), n, logged)
      ensures OnlyAt(old(St()), St(), n, off / BSIZE, off / BSIZE + Touched(off, |src|))
      ensures old(logged) == {} ==> Account(sb, St(), n, logged, off, |src|)
    {
      hide Owns, Filled, Peek, Bmapped, Bit, At, Partly, Account, Charge, Touched, Full, PtrOf, Extended;
      ghost var s0 := St();
      Started(sb, s0, n, off, src, logged);
      tot := 0;
      var o := off;
      ghost var hi := off / BSIZE;
      while tot < |src|
        invariant 0 <= tot <= |src| && o == off + tot && hi == off / BSIZE + Touched(off, tot)
        invariant tot < |src| ==> tot == 0 || o % BSIZE == 0
        invariant n in inodes && old(logged) <= logged && Partly(sb, s0, St(), n, off, src, tot, hi, logged)
        invariant tot == 0 ==> St() == s0
        invariant forall i <- bad :: tot <= i
        invariant old(logged) == {} ==> Account(sb, St(), n, logged, off, tot)
      {
        ghost var s, log := St(), logged;
        PartlyOwns(sb, s0, s, n, off, src, tot, hi, logged);
        var addr := Bmap(n, o / BSIZE);
        BmappedAt(sb, s, St(), n, o / BSIZE, addr);
        NextTouched(off, tot);
        AfterBmap(sb, s0, s, St(), n, off, src, tot, addr, log, logged);
        hi := hi + 1;
        var m := if |src| - tot < BSIZE - o % BSIZE then |src| - tot else BSIZE - o % BSIZE;
        TouchedNext(off, tot, |src|, m);
        if addr == 0 {
          if old(logged) == {} { AccountMiss(sb, s, St(), n, o / BSIZE, log, logged, off, tot, |src|); }
          break;
        }
        if old(logged) == {} {
          if tot == 0 && off % BSIZE != 0 { FirstThere(sb, s0, n, off); }
          AccountNext(sb, s, St(), n, o / BSIZE, addr, log, logged, off, tot, m, |src|);
        }
        if exists i :: i in bad && tot <= i < tot + m { break; }
        AfterCopy(sb, s0, St(), n, off, src, tot, m, hi, addr, logged);
        s := St();
        disk := disk[addr := Splice(disk[addr], o % BSIZE, src[tot..tot + m])];
        LogWrite(addr);
        if old(logged) == {} { AccountSame(sb, s, St(), n, logged, off, tot + m); }
        tot, o := tot + m, o + m;
      }
      PartlyDone(sb, s0, St(), n, off, src, tot, hi, logged);
    }

    /** What was written is what is read. */
    method WriteThenRead(n: nat, src: seq<nat>, off: nat, bad: set<nat>) returns (tot: int, dst: seq<nat>)
      requires Valid() && n in inodes && off < UINT && |src| < UINT
      modifies `disk, `inodes, `logged
      ensures Valid()
      ensures tot != -1 ==> 0 <= tot <= |src| && dst == src[..tot]
    {
      hide Owns, Filled, Content, Full;
      tot := Writei(n, src, off, bad);
      dst := [];
      if tot >= 0 {
        FilledBound(St(), n);
        var got;
        got, dst := Readi(n, off, tot, {});
      }
    }

    /** The inode branch of `filewrite`, from offset `off` of the open file: chunks of a
        size that keeps each transaction within the log. */
    method Filewrite(n: nat, off: nat, src: seq<nat>, bad: set<nat>) returns (ret: int, foff: nat)
      requires Valid() && n in inodes && off < UINT && |src| < UINT
      modifies this
      ensures Valid() && inodes.Keys == old(inodes).Keys
      ensures off <= foff <= off + |src|
      ensures ret == if foff == off + |src| then |src| else -1
      ensures off > old(inodes)[n].size ==> foff == off && Content(St(), n) == Content(old(St()), n)
      ensures off <= old(inodes)[n].size ==>
        Content(St(), n) == Overlay(Content(old(St()), n), off, src[..foff - off])
      ensures forall m <- old(inodes) :: m != n ==> Content(St(), m) == Content(old(St()), m)
      ensures |done| >= |old(done)| && done[..|old(done)|] == old(done)
      ensures |done| - |old(done)| == if ret == -1 then (foff - off) / CHUNK + 1 else (|src| + CHUNK - 1) / CHUNK
      ensures Chain(old(St()), St(), done[|old(done)|..])
      ensures forall t <- done[|old(done)|..] :: Complete(sb, t) && |t.logged| <= MAXOPBLOCKS
      ensures Stages(old(St()), done[|old(done)|..], n, off, src, foff - off)
    {
      hide Owns, Peek, Content, Overlay, Writing, Filled, Complete, Chain, Chunks, Stages, Going;
      var max := ((MAXOPBLOCKS - 1 - 1 - 2) / 2) * BSIZE;
      ghost var s0 := St();
      ghost var ts: seq<Trans> := [];
      foff := off;
      GoingNone(sb, s0, n, off, src);
      var i := 0;
      while i < |src|
        invariant 0 <= i <= |src| && foff == off + i && done == old(done) + ts
        invariant Chunks(i, |src|, |ts|) && Going(sb, s0, St(), n, off, src, i, ts)
      {
        var n1 := if |src| - i > max then max else |src| - i;
        ghost var s := St();
        GoingBasics(sb, s0, s, n, off, src, i, ts);
        var r := WriteChunk(n, src[i..i + n1], foff, set k | k in bad && k >= i :: k - i);
        GoingNext(sb, s0, s, St(), n, off, src, i, n1, r, ts, logged);
        ChunksNext(i, |src|, |ts|, n1, r);
        ts := ts + [Trans(s, St(), logged)];
        if r > 0 { foff := foff + r; }
        if r != n1 { break; }
        i := i + r;
      }
      GoingDone(sb, s0, St(), n, off, src, foff - off, ts);
      ChunksDone(i, |src|, |ts|);
      assert done[|old(done)|..] == ts && done[..|old(done)|] == old(done);
      ret := if i == |src| then |src| else -1;
    }

    /** One transaction of `filewrite`. */
    method WriteChunk(n: nat, src: seq<nat>, off: nat, bad: set<nat>) returns (r: int)
      requires Valid() && n in inodes && off < UINT && |src| <= CHUNK
      modifies this
      ensures Valid() && inodes.Keys == old(inodes).Keys
      ensures r == -1 ==> St() == old(St())
      ensures r == -1 || 0 <= r <= |src|
      ensures off > old(inodes)[n].size ==> r == -1
      ensures r != -1 ==>
        && Content(St(), n) == Overlay(Content(old(St()), n), off, src[..r])
        && forall m <- old(inodes) :: m != n ==> Content(St(), m) == Content(old(St()), m)
      ensures done == old(done) + [Trans(old(St()), St(), logged)]
      ensures Complete(sb, Trans(old(St()), St(), logged)) && |logged| <= MAXOPBLOCKS
    {
      hide Owns, Peek, Content, Overlay, Filled, Complete, Grew, Full;
      BeginOp();
      r := Writei(n, src, off, bad);
      EndOp();
    }
  }

  /** The bytes that `filewrite` hands to one transaction. */
  const CHUNK: nat := 3 * BSIZE

  /** After `i` of `len` bytes `k` transactions are over: all but the last were full. */
  predicate Chunks(i: nat, len: nat, k: nat) {
    k == (i + CHUNK - 1) / CHUNK && (i % CHUNK == 0 || i == len)
  }

  lemma ChunksNext(i: nat, len: nat, k: nat, n1: nat, r: int)
    requires Chunks(i, len, k) && i < len && n1 == (if len - i > CHUNK then CHUNK else len - i) && r <= n1
    ensures r == n1 ==> Chunks(i + r, len, k + 1)
    ensures r != n1 ==> k == (i + if r < 0 then 0 else r) / CHUNK
  {
    assert i == CHUNK * (i / CHUNK) && k == i / CHUNK;
  }

  lemma ChunksDone(i: nat, len: nat, k: nat)
    ensures i == len && Chunks(i, len, k) ==> k == (len + CHUNK - 1) / CHUNK
  {
  }

  function Min(a: nat, b: nat): nat { if a < b then a else b }

  /** After transaction `k` the file has the first `k + 1` chunks of `src`, or the `len`
      bytes that were written in all. */
  ghost predicate Stages(s0: State, ts: seq<Trans>, n: nat, off: nat, src: seq<nat>, len: nat)
    requires n in s0.inodes && Filled(s0) && len <= |src|
  {
    forall k :: 0 <= k < |ts| ==> Writing(s0, ts[k].after, n, off, src, Min((k + 1) * CHUNK, len))
  }

  /** The loop of `filewrite` after `i` bytes and the transactions `ts`. */
  ghost predicate Going(sb: Super, s0: State, s: State, n: nat, off: nat, src: seq<nat>, i: nat, ts: seq<Trans>)
    requires n in s0.inodes && Filled(s0) && i <= |src|
  {
    && Owns(sb, s) && Writing(s0, s, n, off, src, i) && Chain(s0, s, ts) && Stages(s0, ts, n, off, src, i)
    && forall t <- ts :: Complete(sb, t) && |t.logged| <= MAXOPBLOCKS
  }

  lemma GoingNone(sb: Super, s: State, n: nat, off: nat, src: seq<nat>)
    requires n in s.inodes && Filled(s) && Owns(sb, s)
    ensures Going(sb, s, s, n, off, src, 0, []) && Chunks(0, |src|, 0)
  {
    hide Owns, Filled, Writing;
    WritingNone(s, n, off, src);
  }

  lemma GoingBasics(sb: Super, s0: State, s: State, n: nat, off: nat, src: seq<nat>, i: nat, ts: seq<Trans>)
    requires n in s0.inodes && Filled(s0) && i <= |src| && Going(sb, s0, s, n, off, src, i, ts) && off < UINT
    ensures Owns(sb, s) && n in s.inodes && Filled(s) && off + i < UINT
  {
    hide Owns, Filled, Writing;
    WritingBasics(s0, s, n, off, src, i);
  }

  lemma {:induction false} GoingNext(sb: Super, s0: State, s: State, s': State, n: nat, off: nat, src: seq<nat>,
                                     i: nat, n1: nat, r: int, ts: seq<Trans>, logged: set<nat>)
    requires n in s0.inodes && Filled(s0) && i + n1 <= |src| && Going(sb, s0, s, n, off, src, i, ts)
    requires n in s.inodes && Filled(s) && Owns(sb, s') && Filled(s') && s'.inodes.Keys == s.inodes.Keys
    requires r == -1 || 0 <= r <= n1 <= CHUNK
    requires r == -1 ==> s' == s
    requires off + i > s.inodes[n].size ==> r == -1
    requires r != -1 ==>
      && Content(s', n) == Overlay(Content(s, n), off + i, src[i..i + n1][..r])
      && forall m <- s.inodes :: m != n ==> Content(s', m) == Content(s, m)
    requires Complete(sb, Trans(s, s', logged)) && |logged| <= MAXOPBLOCKS
    requires Chunks(i, |src|, |ts|) && i < |src|
    ensures Going(sb, s0, s', n, off, src, if r == -1 then i else i + r, ts + [Trans(s, s', logged)])
  {
    hide Owns, Peek, Content, Overlay, Writing, Filled, Complete, Chain;
    var j := if r == -1 then i else i + r;
    if r != -1 { WritingNext(s0, s, s', n, off, src, i, n1, r); }
    ChainNext(s0, s, ts, Trans(s, s', logged));
    StagesNext(s0, ts, n, off, src, i, j, Trans(s, s', logged));
    hide Stages;
  }

  lemma {:induction false} StagesNext(
    s0: State, ts: seq<Trans>, n: nat, off: nat, src: seq<nat>, i: nat, j: nat, t: Trans)
    requires n in s0.inodes && Filled(s0) && i <= j <= |src| && j <= i + CHUNK
    requires Stages(s0, ts, n, off, src, i) && Chunks(i, |src|, |ts|) && i < |src|
    requires Writing(s0, t.after, n, off, src, j)
    ensures Stages(s0, ts + [t], n, off, src, j)
  {
    hide Writing, Filled;
    assert i == CHUNK * |ts| by { ChunksWhole(i, |src|, |ts|); }
    forall k | 0 <= k < |ts + [t]|
      ensures Writing(s0, (ts + [t])[k].after, n, off, src, Min((k + 1) * CHUNK, j))
    {
      if k < |ts| {
        assert Min((k + 1) * CHUNK, j) == Min((k + 1) * CHUNK, i);
      }
    }
  }

  lemma ChunksWhole(i: nat, len: nat, k: nat)
    requires Chunks(i, len, k) && i < len
    ensures i == CHUNK * k
  {
  }

  lemma GoingDone(sb: Super, s0: State, s: State, n: nat, off: nat, src: seq<nat>, i: nat, ts: seq<Trans>)
    requires n in s0.inodes && Filled(s0) && i <= |src| && Going(sb, s0, s, n, off, src, i, ts)
    ensures Owns(sb, s) && Chain(s0, s, ts) && Stages(s0, ts, n, off, src, i)
    ensures forall t <- ts :: Complete(sb, t) && |t.logged| <= MAXOPBLOCKS
    ensures s.inodes.Keys == s0.inodes.Keys && Filled(s)
    ensures off > s0.inodes[n].size ==> i == 0 && Content(s, n) == Content(s0, n)
    ensures off <= s0.inodes[n].size ==> Content(s, n) == Overlay(Content(s0, n), off, src[..i])
    ensures forall m <- s0.inodes :: m != n ==> Content(s, m) == Content(s0, m)
  {
    hide Owns, Filled, Writing, Stages, Content;
    WritingDone(s0, s, n, off, src, i);
  }

  lemma UnchangedComplete(sb: Super, s: State, n: nat, logged: set<nat>)
    ensures Grew(sb, s, s, n) && Complete(sb, Trans(s, s, logged))
  {
    hide At, Bit;
  }

  lemma CoversNone(s: State, n: nat, logged: set<nat>)
    ensures Covers(s, s, n, logged)
  {
  }

  /** `bfree` changes the bitmap block that it logs. */
  lemma FreedCovers(sb: Super, s: State, s': State, n: nat, b: nat, logged: set<nat>)
    requires Bblock(sb, b) < |s.disk| && b % BPB / 8 < |s.disk[Bblock(sb, b)]|
    requires s'.disk == Switched(sb, s.disk, b, false) && Bblock(sb, b) in logged
    requires n in s.inodes && n in s'.inodes && s'.inodes == s.inodes[n := s'.inodes[n]]
    ensures Covers(s, s', n, logged)
  {
    hide Or, AndNot;
  }

  lemma EmptiedComplete(sb: Super, s: State, s': State, n: nat, logged: set<nat>)
    requires Covers(s, s', n, logged) && n in s.inodes && n in s'.inodes
    ensures Complete(sb, Trans(s, Sized(s', n, 0), logged + {Iblock(sb, n)}))
  {
  }

  /** Once the inode is logged as well, the transaction is complete. */
  lemma ExtendedComplete(sb: Super, s: State, s': State, n: nat, logged: set<nat>)
    requires Extended(sb, s, s', n, logged)
    ensures Grew(sb, s, s', n) && Complete(sb, Trans(s, s', logged + {Iblock(sb, n)}))
  {
    hide At, Bit, Grew;
  }

  /** From `s0` to `s` the first `i` bytes of `src` were written to file `n`. */
  ghost predicate Writing(s0: State, s: State, n: nat, off: nat, src: seq<nat>, i: nat)
    requires n in s0.inodes && Filled(s0) && i <= |src|
  {
    && s.inodes.Keys == s0.inodes.Keys && Filled(s)
    && (if off <= s0.inodes[n].size
        then off + i <= s.inodes[n].size && Content(s, n) == Overlay(Content(s0, n), off, src[..i])
        else i == 0 && s.inodes[n].size == s0.inodes[n].size && Content(s, n) == Content(s0, n))
    && forall m <- s0.inodes :: m != n ==> Content(s, m) == Content(s0, m)
  }

  lemma WritingNone(s: State, n: nat, off: nat, src: seq<nat>)
    requires n in s.inodes && Filled(s)
    ensures Writing(s, s, n, off, src, 0)
  {
    if off <= s.inodes[n].size { OverlayNone(Content(s, n), off); }
    assert src[..0] == [];
    hide Peek, Content, Overlay;
  }

  lemma WritingBasics(s0: State, s: State, n: nat, off: nat, src: seq<nat>, i: nat)
    requires n in s0.inodes && Filled(s0) && i <= |src| && Writing(s0, s, n, off, src, i) && off < UINT
    ensures n in s.inodes && Filled(s) && off + i < UINT
  {
  }

  lemma WritingDone(s0: State, s: State, n: nat, off: nat, src: seq<nat>, i: nat)
    requires n in s0.inodes && Filled(s0) && i <= |src| && Writing(s0, s, n, off, src, i)
    ensures s.inodes.Keys == s0.inodes.Keys && Filled(s)
    ensures off > s0.inodes[n].size ==> i == 0 && Content(s, n) == Content(s0, n)
    ensures off <= s0.inodes[n].size ==> Content(s, n) == Overlay(Content(s0, n), off, src[..i])
    ensures forall m <- s0.inodes :: m != n ==> Content(s, m) == Content(s0, m)
  {
  }

  lemma WritingNext(s0: State, s: State, s': State, n: nat, off: nat, src: seq<nat>, i: nat, n1: nat, r: nat)
    requires n in s0.inodes && Filled(s0) && r <= n1 && i + n1 <= |src| && Writing(s0, s, n, off, src, i)
    requires s'.inodes.Keys == s.inodes.Keys && Filled(s') && off + i <= s.inodes[n].size
    requires Content(s', n) == Overlay(Content(s, n), off + i, src[i..i + n1][..r])
    requires forall m <- s.inodes :: m != n ==> Content(s', m) == Content(s, m)
    ensures Writing(s0, s', n, off, src, i + r)
  {
    hide Peek, Overlay, Filled, Content;
    FilledBound(s0, n);
    FilledBound(s, n);
    FilledBound(s', n);
    OverlayNext(Content(s0, n), Content(s, n), Content(s', n), off, src, i, n1, r);
  }

  lemma OverlayNext(c: seq<int>, d: seq<int>, e: seq<int>, off: nat, src: seq<nat>, i: nat, n1: nat, r: nat)
    requires off <= |c| && r <= n1 && i + n1 <= |src| && off + i <= |d|
    requires d == Overlay(c, off, src[..i]) && e == Overlay(d, off + i, src[i..i + n1][..r])
    ensures e == Overlay(c, off, src[..i + r]) && off + i + r <= |e|
  {
    assert src[i..i + n1][..r] == src[i..i + r];
    assert src[..i] + src[i..i + r] == src[..i + r];
    OverlayTwice(c, off, src[..i], src[i..i + r]);
  }

  /** The loop of `writei` after `tot` bytes: those were stored and nothing else, what
      changed was logged, and only blocks of the file below `hi` were mapped. */
  ghost predicate Partly(sb: Super, s0: State, s: State, n: nat, off: nat, src: seq<nat>, tot: nat, hi: nat,
                         logged: set<nat>)
    requires tot <= |src|
  {
    && Owns(sb, s) && Wrote(s0, s, n, off, src[..tot]) && Extended(sb, s0, s, n, logged)
    && OnlyAt(s0, s, n, off / BSIZE, hi)
  }

  lemma Started(sb: Super, s: State, n: nat, off: nat, src: seq<nat>, logged: set<nat>)
    requires n in s.inodes && Owns(sb, s)
    ensures Touched(off, 0) == 0 && Partly(sb, s, s, n, off, src, 0, off / BSIZE, logged)
    ensures Account(sb, s, n, {}, off, 0)
  {
    assert Charged(sb, s, n, {}, {}, {}, false);
    assert src[..0] == [];
    ExtendedNone(sb, s, n, logged);
    OnlyAtNone(s, n, off / BSIZE);
    hide Owns, Extended, OnlyAt, Peek;
  }

  lemma PartlyOwns(sb: Super, s0: State, s: State, n: nat, off: nat, src: seq<nat>, tot: nat, hi: nat, logged: set<nat>)
    requires tot <= |src| && Partly(sb, s0, s, n, off, src, tot, hi, logged)
    ensures Owns(sb, s)
  {
  }

  lemma PartlyDone(sb: Super, s0: State, s: State, n: nat, off: nat, src: seq<nat>, tot: nat, hi: nat, logged: set<nat>)
    requires tot <= |src| && Partly(sb, s0, s, n, off, src, tot, hi, logged)
    requires hi <= off / BSIZE + Touched(off, |src|)
    ensures Owns(sb, s) && Wrote(s0, s, n, off, src[..tot]) && Extended(sb, s0, s, n, logged)
    ensures OnlyAt(s0, s, n, off / BSIZE, off / BSIZE + Touched(off, |src|))
  {
    hide Owns, Wrote, Extended, OnlyAt;
    OnlyAtWider(s0, s, n, off / BSIZE, hi, off / BSIZE + Touched(off, |src|));
  }

  /** A write that starts inside a block starts in one that is there. */
  lemma FirstThere(sb: Super, s: State, n: nat, off: nat)
    requires Filled(s) && n in s.inodes && off <= s.inodes[n].size && off % BSIZE != 0 && off / BSIZE < MAXFILE
    ensures At(s, PlaceOf(n, off / BSIZE)) != 0
  {
    var k := off - off % BSIZE;
    FilledAt(sb, s, n, k);
    assert k / BSIZE == off / BSIZE;
  }

  lemma AfterBmap(sb: Super, s0: State, s: State, s1: State, n: nat, off: nat, src: seq<nat>, tot: nat, a: nat,
                  log: set<nat>, logged: set<nat>)
    requires n in s.inodes && n in s0.inodes && tot <= |src| && (off + tot) / BSIZE < MAXFILE && log <= logged
    requires Partly(sb, s0, s, n, off, src, tot, (off + tot) / BSIZE, log)
    requires Bmapped(sb, s, s1, n, (off + tot) / BSIZE, a) && Extended(sb, s, s1, n, logged)
    ensures Partly(sb, s0, s1, n, off, src, tot, (off + tot) / BSIZE + 1, logged)
    ensures a == 0 ==> Full(sb, s1)
  {
    hide Wrote, Owns, Full, DataKept, Extended, OnlyAt;
    OnlyAtBmap(sb, s0, s, s1, n, off / BSIZE, (off + tot) / BSIZE, a);
    KeptWrote(s, s1, n, off + tot);
    WroteTrans(s0, s, s1, n, off, src[..tot], []);
    assert src[..tot] + [] == src[..tot];
    ExtendedTrans(sb, s0, s, s1, n, log, logged);
  }

  lemma AfterCopy(sb: Super, s0: State, s: State, n: nat, off: nat, src: seq<nat>, tot: nat, m: nat, hi: nat, a: nat,
                  log: set<nat>)
    requires n in s0.inodes && n in s.inodes && off + tot < MAXBYTES && tot + m <= |src|
    requires (off + tot) % BSIZE + m <= BSIZE && Partly(sb, s0, s, n, off, src, tot, hi, log)
    requires a == At(s, PlaceOf(n, (off + tot) / BSIZE)) && a != 0
    ensures a < |s.disk| && |s.disk[a]| == BSIZE
    ensures var s' := s.(disk := s.disk[a := Splice(s.disk[a], (off + tot) % BSIZE, src[tot..tot + m])]);
      Partly(sb, s0, s', n, off, src, tot + m, hi, log + {a})
  {
    hide Owns, Wrote, At, Extended, OnlyAt, SameRefs;
    CopyIn(sb, s, n, off + tot, src[tot..tot + m]);
    OwnsBasics(sb, s);
    var block := Splice(s.disk[a], (off + tot) % BSIZE, src[tot..tot + m]);
    var s' := s.(disk := s.disk[a := block]);
    WroteTrans(s0, s, s', n, off, src[..tot], src[tot..tot + m]);
    assert src[..tot] + src[tot..tot + m] == src[..tot + m];
    ExtendedStore(sb, s, n, PlaceOf(n, (off + tot) / BSIZE), block, log + {a});
    ExtendedTrans(sb, s0, s, s', n, log, log + {a});
    OnlyAtSame(s0, s, s', n, off / BSIZE, hi);
  }

  lemma RaisedOwns(sb: Super, s: State, n: nat, size: nat)
    requires n in s.inodes && Owns(sb, s)
    ensures Owns(sb, Raised(s, n, size)) && (Full(sb, s) ==> Full(sb, Raised(s, n, size)))
  {
    RaisedRefs(s, n, size);
    hide At, Bit;
    Kept(sb, s, Raised(s, n, size));
  }

  lemma FilledBound(s: State, n: nat)
    requires Filled(s) && n in s.inodes
    ensures s.inodes[n].size <= MAXBYTES
  {
  }

  /** Blocks below the size of a file are allocated. */
  lemma FilledAt(sb: Super, s: State, n: nat, k: nat)
    requires Filled(s) && n in s.inodes && k < s.inodes[n].size
    ensures k / BSIZE < MAXFILE && At(s, PlaceOf(n, k / BSIZE)) != 0
  {
    assert Peek(s, n, k) != -1;
  }

  lemma ReadChunk(s: State, n: nat, o: nat, m: nat, addr: nat)
    requires Filled(s) && n in s.inodes && o + m <= s.inodes[n].size && o % BSIZE + m <= BSIZE && o / BSIZE < MAXFILE
    requires addr == At(s, PlaceOf(n, o / BSIZE)) && m > 0
    ensures s.inodes[n].size <= MAXBYTES
    ensures addr < |s.disk| && |s.disk[addr]| == BSIZE
    ensures s.disk[addr][o % BSIZE..o % BSIZE + m] == Content(s, n)[o..o + m]
  {
    assert Peek(s, n, o) != -1;
    forall k: nat | o <= k < o + m ensures Peek(s, n, k) == s.disk[addr][o % BSIZE + (k - o)] {
      SameBlock(o, k, m);
    }
  }

  lemma DirectsBasics(sb: Super, s0: State, s: State, n: nat, i: nat)
    requires n in s0.inodes && i <= NDIRECT && Directs(sb, s0, s, n, i)
    ensures Owns(sb, s) && Sound(sb, s) && n in s.inodes
  {
  }

  lemma InUseAt(sb: Super, s: State, p: Place)
    requires Owns(sb, s) && IsPlace(s, p) && At(s, p) != 0
    ensures InUse(sb, s, At(s, p))
  {
  }

  lemma TruncOwns(sb: Super, s0: State, s: State, n: nat)
    requires n in s0.inodes && Truncated(sb, s0, s, n)
    ensures Owns(sb, s)
  {
  }

  lemma PtrIs(sb: Super, s: State, n: nat)
    requires Owns(sb, s) && n in s.inodes
    ensures |s.inodes[n].addrs| == NDIRECT + 1 && PtrOf(s, n) == s.inodes[n].addrs[NDIRECT] < |s.disk|
  {
    PtrsAreData(sb, s);
  }

  lemma SlotsBasics(sb: Super, s0: State, s: State, n: nat, j: nat)
    requires n in s0.inodes && j <= NINDIRECT && Slots(sb, s0, s, n, j)
    ensures Sound(sb, s) && s.inodes == s0.inodes
  {
  }

  lemma BmappedOwns(sb: Super, s: State, s': State, n: nat, bn: nat, a: nat)
    requires n in s.inodes && bn < MAXFILE && Bmapped(sb, s, s', n, bn, a)
    ensures Owns(sb, s')
  {
  }

  lemma BmappedAt(sb: Super, s: State, s': State, n: nat, bn: nat, a: nat)
    requires n in s.inodes && bn < MAXFILE && Bmapped(sb, s, s', n, bn, a)
    ensures n in s'.inodes && At(s', PlaceOf(n, bn)) == a && (PtrOf(s, n) != 0 ==> PtrOf(s', n) == PtrOf(s, n))
  {
  }

  lemma AllocatedInodes(sb: Super, s: State, b: nat)
    requires Bblock(sb, b) < |s.disk| && b % BPB / 8 < |s.disk[Bblock(sb, b)]| && b < |s.disk|
    ensures Allocated(sb, s, b).inodes == s.inodes && |Allocated(sb, s, b).disk| == |s.disk|
  {
  }

  lemma IndirectBlock(sb: Super, s: State, n: nat, j: nat)
    requires Owns(sb, s) && n in s.inodes && j < NINDIRECT && PtrOf(s, n) != 0
    ensures PtrOf(s, n) < |s.disk| && |s.disk[PtrOf(s, n)]| == BSIZE
    ensures At(s, Slot(n, j)) == Get(s.disk[PtrOf(s, n)], j)
  {
    PtrsAreData(sb, s);
  }

  lemma OwnsBasics(sb: Super, s: State)
    requires Owns(sb, s)
    ensures Sound(sb, s) && Bit(sb, s.disk, 0)
  {
  }

  /** Bit `bi` of the bitmap block for block `b` is the bit of block `b + bi`. */
  lemma BitIn(sb: Super, disk: seq<Block>, b: nat, bi: nat)
    requires b % BPB == 0 && bi < BPB && Laid(sb) && Whole(sb, disk) && b + bi < sb.size
    ensures Bblock(sb, b + bi) == Bblock(sb, b) < sb.size && (b + bi) % BPB == bi && bi / 8 < |disk[Bblock(sb, b)]|
    ensures Bit(sb, disk, b + bi) == Has(disk[Bblock(sb, b)][bi / 8], bi % 8)
  {
    BitPlace(sb, b + bi);
  }
}
