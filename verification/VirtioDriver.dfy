/** The driver and the device as one object: every method is a section that runs under
    `vdisk_lock`, or a step of the device (kernel/virtio_disk.c). */
module VirtioDriver {
  import opened Counting
  import opened VirtioDisk

  /** What each buffer and each sector holds. */
  datatype Bytes = Bytes(data: map<nat, nat>, image: map<nat, nat>)

  /** A command carried out for buffer `b`. */
  function Moved(s: Bytes, op: Op, b: nat): Bytes {
    if op.write then s.(image := s.image[op.sector := Get(s.data, b)])
    else s.(data := s.data[b := Get(s.image, op.sector)])
  }

  ghost predicate ThreeFree(free: seq<bool>) {
    exists i, j, k :: 0 <= i < j < k < |free| && free[i] && free[j] && free[k]
  }

  /** The lowest free descriptor from `from` on. */
  ghost predicate Lowest(free: seq<bool>, from: nat, i: nat) {
    from <= i < |free| && free[i] && forall j :: from <= j < i ==> !free[j]
  }

  /** The lowest free descriptor once `a` is taken is the next one. */
  lemma LowestNext(free: seq<bool>, from: nat, a: nat, b: nat)
    requires Lowest(free, from, a) && Lowest(free[a := false], from, b)
    ensures a < b && Lowest(free, a + 1, b)
  {
    forall j | from <= j < b ensures j != a ==> !free[j] {
      assert !free[a := false][j];
    }
  }

  /** Which request owns a descriptor; the requests in flight by first descriptor; what
      the rings hold; and how many entries were ever taken from the available ring and
      ever seen in the used ring. */
  datatype Book = Book(owner: seq<nat>, reqs: map<nat, Req>,
                       offered: seq<nat>, finished: seq<nat>, seen: nat, done: nat)

  class Disk {
    const num: nat
    var free: seq<bool>
    var desc: seq<Desc>
    var ops: seq<Op>
    var info: seq<Info>
    var availRing: seq<nat>
    var availIdx: nat
    var usedRing: seq<nat>
    /** `disk.used->idx`, which the device moves on, and `disk.used_idx`, which follows. */
    var deviceIdx: nat
    var usedIdx: nat
    /** The buffers whose `disk` flag is up. */
    var busy: set<nat>
    /** The device: how far it has read the available ring, and the requests it works
        on. */
    var lastAvail: nat
    var working: set<nat>
    /** What the buffers and the disk hold. */
    var bytes: Bytes

    /** The processes asleep in `virtio_disk_rw`: of each buffer, the first descriptor. */
    var waiting: map<nat, nat>

    ghost var book: Book

    ghost predicate Valid()
      reads this
    {
      && Size(num) && Partition(num, free, desc, ops, book.owner, book.reqs)
      && Tracked(num, book.reqs, info, busy, waiting)
      && Queued(num, book.reqs, book.offered, working, book.finished)
      && Ring(num, availRing, availIdx, lastAvail, book.seen, book.offered)
      && Ring(num, usedRing, deviceIdx, usedIdx, book.done, book.finished)
    }

    constructor (num: nat)
      requires Size(num)
      ensures Valid() && this.num == num && waiting == map[] && busy == {}
      ensures book.reqs == map[] && book.offered == [] && book.finished == []
    {
      this.num := num;
      free, desc, ops := seq(num, i => true), seq(num, i => CLEAR), seq(num, i => Op(false, 0));
      info, availRing, usedRing := seq(num, i => Info(NoBuf, 0)), seq(num, i => 0), seq(num, i => 0);
      availIdx, deviceIdx, usedIdx, lastAvail := 0, 0, 0, 0;
      busy, working, bytes, waiting := {}, {}, Bytes(map[], map[]), map[];
      book := Book(seq(num, i => num), map[], [], [], 0, 0);
    }

    /** `alloc_desc`. */
    method AllocDesc() returns (i: int)
      requires |free| == num
      modifies `free
      ensures i == -1 ==> free == old(free) && forall j :: 0 <= j < num ==> !free[j]
      ensures i != -1 ==> i >= 0 && Lowest(old(free), 0, i) && free == old(free)[i := false]
    {
      i := 0;
      while i < num
        invariant 0 <= i <= num && free == old(free)
        invariant forall j :: 0 <= j < i ==> !free[j]
      {
        if free[i] {
          free := free[i := false];
          return;
        }
        i := i + 1;
      }
      i := -1;
    }

    /** `free_desc`, which panics when there is no such descriptor or it is free. */
    method FreeDesc(i: nat)
      requires |free| == |desc| == num && i < num && !free[i]
      modifies `free, `desc
      ensures free == old(free)[i := true] && desc == old(desc)[i := CLEAR]
    {
      desc := desc[i := CLEAR];
      free := free[i := true];
    }

    /** `alloc3_desc`: the three lowest free descriptors, or nothing taken. */
    method Alloc3Desc() returns (ok: bool, i0: nat, i1: nat, i2: nat)
      requires Spare(num, free, desc, book.owner)
      modifies `free, `desc
      ensures desc == old(desc)
      ensures ok == ThreeFree(old(free))
      ensures !ok ==> free == old(free)
      ensures ok ==> i0 < i1 < i2 < num && Lowest(old(free), 0, i0)
      ensures ok ==> Lowest(old(free), i0 + 1, i1) && Lowest(old(free), i1 + 1, i2)
      ensures ok ==> free == old(free)[i0 := false][i1 := false][i2 := false]
    {
      ok, i0, i1, i2 := false, 0, 0, 0;
      var a := AllocDesc();
      if a < 0 { return; }
      var b := AllocDesc();
      if b < 0 {
        FreeDesc(a);
        assert desc == old(desc) && free == old(free);
        return;
      }
      var c := AllocDesc();
      if c < 0 {
        FreeDesc(a);
        FreeDesc(b);
        assert desc == old(desc) && free == old(free);
        return;
      }
      LowestNext(old(free), 0, a, b);
      LowestNext(old(free)[a := false], 0, b, c);
      assert Lowest(old(free), b + 1, c) by {
        forall j | b + 1 <= j < c ensures !old(free)[j] { assert !old(free)[a := false][j]; }
      }
      ok, i0, i1, i2 := true, a, b, c;
    }

    /** `virtio_disk_rw` until it sleeps for the device; without three free descriptors
        it sleeps at once. A buffer is locked while it is with the driver. */
    method Submit(b: nat, write: bool, blockno: nat) returns (ok: bool, h: nat)
      requires Valid() && b !in waiting
      modifies `free, `desc, `ops, `info, `availRing, `availIdx, `busy, `waiting, `book
      ensures Valid() && ok == ThreeFree(old(free))
      ensures !ok ==> free == old(free) && book == old(book) && busy == old(busy) && waiting == old(waiting)
      ensures ok ==>
        && h !in old(book).reqs && h in book.reqs
        && book.reqs[h].b == b && book.reqs[h].op == Op(write, blockno * 2) && book.reqs[h].stage == Offered
        && book.reqs == old(book).reqs[h := book.reqs[h]]
        && waiting == old(waiting)[b := h] && busy == old(busy) + {b}
        && book.finished == old(book).finished && book.offered == old(book).offered + [h]
    {
      hide Place, Partition, Tracked, Queued, Ring, Written, Claimed, Spare, Triple, ThreeFree, Lowest, Size;
      var sector := blockno * 2;
      ghost var g := book;
      PartitionBasics(num, free, desc, ops, g.owner, g.reqs);
      var i0, i1, i2;
      ok, i0, i1, i2 := Alloc3Desc();
      h := i0;
      if !ok { return; }
      ghost var r := Req(b, Op(write, sector), i1, i2, Offered);
      SpareTriple(num, old(free), desc, g.owner, i0, r);
      Enlist(num, old(free), desc, ops, g.owner, g.reqs, i0, r);
      QueuedOffer(num, g.reqs, g.offered, working, g.finished, i0, r);
      TrackedOffer(num, g.reqs, info, busy, waiting, i0, r);
      RingPush(num, availRing, availIdx, lastAvail, g.seen, g.offered, i0);
      Format(i0, i1, i2, b, write, sector);
      busy := busy + {b};
      availRing := availRing[Place(num, availIdx) := i0];
      availIdx := (availIdx + 1) % WRAP;
      book := g.(owner := Claimed(num, g.owner, i0, r),
                 reqs := g.reqs[i0 := r], offered := g.offered + [i0]);
      waiting := waiting[b := i0];
    }

    /** The part of `virtio_disk_rw` that writes the three descriptors. */
    method Format(i0: nat, i1: nat, i2: nat, b: nat, write: bool, sector: nat)
      requires |desc| == |ops| == |info| == num && i0 < i1 < i2 < num
      modifies `ops, `desc, `info
      ensures ops == old(ops)[i0 := Op(write, sector)]
      ensures desc == Written(num, old(desc), i0, Req(b, Op(write, sector), i1, i2, Offered))
      ensures info == old(info)[i0 := Info(Some(b), 0xff)]
    {
      ops := ops[i0 := Op(write, sector)];
      desc := desc[i0 := Desc(Header(i0), Flags(true, false), i1)];
      desc := desc[i1 := Desc(Data(b), Flags(true, !write), i2)];
      info := info[i0 := info[i0].(status := 0xff)];
      desc := desc[i2 := Desc(Status(i0), Flags(false, true), 0)];
      info := info[i0 := info[i0].(b := Some(b))];
    }

    /** The device takes the next request from the available ring, if there is one. */
    method DeviceTakes() returns (ok: bool)
      requires Valid()
      modifies `lastAvail, `working, `book
      ensures Valid() && ok == (old(book).offered != [])
      ensures !ok ==> book == old(book)
      ensures ok ==>
        && old(book).offered[0] in old(book).reqs
        && book.reqs == Staged(old(book).reqs, old(book).offered[0], Taken)
        && book.offered == old(book).offered[1..] && book.finished == old(book).finished
    {
      hide Place, Partition, Tracked, Queued, Ring;
      ghost var g := book;
      RingEmpty(num, availRing, availIdx, lastAvail, g.seen, g.offered);
      ok := lastAvail != availIdx;
      if !ok { return; }
      RingPop(num, availRing, availIdx, lastAvail, g.seen, g.offered);
      QueuedTake(num, g.reqs, g.offered, working, g.finished);
      TrackedTake(num, g.reqs, info, busy, waiting, g.offered[0]);
      Advance(num, free, desc, ops, g.owner, g.reqs, g.offered[0], Taken);
      working := working + {availRing[Place(num, lastAvail)]};
      lastAvail := (lastAvail + 1) % WRAP;
      book := g.(reqs := Staged(g.reqs, g.offered[0], Taken), offered := g.offered[1..], seen := g.seen + 1);
    }

    /** What the device finds at the head of a chain: the command, the buffer, and whose
        status byte to write. */
    method Follow(h: nat) returns (op: Op, b: nat, at: nat)
      requires Partition(num, free, desc, ops, book.owner, book.reqs) && h in book.reqs
      ensures op == book.reqs[h].op && b == book.reqs[h].b && at == h
    {
      hide Partition;
      ReadChain(num, free, desc, ops, book.owner, book.reqs, h);
      op := ops[desc[h].addr.i];
      b := desc[desc[h].next].addr.b;
      at := desc[desc[desc[h].next].next].addr.i;
    }

    /** The device completes any request it works on, following the chain: the buffer
        and the block are those of the process that submitted it. It may fail, with a
        status other than 0, and then may or may not have `moved` the data. */
    method DeviceCompletes(h: nat, status: nat, moved: bool)
      requires Valid() && h in working && (status == 0 ==> moved)
      modifies `info, `bytes, `usedRing, `deviceIdx, `working, `book
      ensures Valid() && h in old(book).reqs
      ensures bytes == if moved then Moved(old(bytes), old(book).reqs[h].op, old(book).reqs[h].b) else old(bytes)
      ensures book.reqs == Staged(old(book).reqs, h, Finished(status))
      ensures book.offered == old(book).offered && book.finished == old(book).finished + [h]
    {
      hide Place, Partition, Tracked, Queued, Ring, Moved, Staged, Size;
      ghost var g := book;
      Completion(num, free, desc, ops, info, usedRing, deviceIdx, usedIdx, busy, working, waiting, g, h, status);
      var op, b, at := Follow(h);
      bytes := if moved then Moved(bytes, op, b) else bytes;
      info := info[at := info[at].(status := status)];
      usedRing := usedRing[Place(num, deviceIdx) := h];
      deviceIdx := (deviceIdx + 1) % WRAP;
      working := working - {h};
      book := g.(reqs := Staged(g.reqs, h, Finished(status)), finished := g.finished + [h]);
    }

    /** One round of the loop of `virtio_disk_intr`, which panics, here fails, on a status
        other than 0. */
    method Report() returns (ok: bool)
      requires Valid() && usedIdx != deviceIdx
      modifies `busy, `usedIdx, `book
      ensures Valid()
      ensures old(book).finished != [] && old(book).finished[0] in old(book).reqs
      ensures ok <==> old(book).reqs[old(book).finished[0]].stage == Finished(0)
      ensures !ok ==> busy == old(busy) && book == old(book)
      ensures ok ==>
        var h := old(book).finished[0];
        && old(book).reqs[h].b in old(busy) && busy == old(busy) - {old(book).reqs[h].b}
        && book.reqs == Staged(old(book).reqs, h, Reported)
        && book.offered == old(book).offered && book.finished == old(book).finished[1..]
    {
      hide Place, Partition, Tracked, Queued, Ring;
      ghost var g := book;
      RingEmpty(num, usedRing, deviceIdx, usedIdx, g.done, g.finished);
      RingPop(num, usedRing, deviceIdx, usedIdx, g.done, g.finished);
      QueuedReport(num, g.reqs, g.offered, working, g.finished);
      TrackedReport(num, g.reqs, info, busy, waiting, g.finished[0]);
      Advance(num, free, desc, ops, g.owner, g.reqs, g.finished[0], Reported);
      var id := usedRing[Place(num, usedIdx)];
      if info[id].status != 0 { return false; }
      busy := busy - {info[id].b.b};
      usedIdx := (usedIdx + 1) % WRAP;
      book := g.(reqs := Staged(g.reqs, g.finished[0], Reported), finished := g.finished[1..], done := g.done + 1);
      return true;
    }

    /** `virtio_disk_intr` when the device stands still: the requests in the used ring are
        reported in order, up to the first that failed, and no other. */
    method Intr() returns (ok: bool, ghost k: nat)
      requires Valid()
      modifies `busy, `usedIdx, `book
      ensures Valid() && k <= |old(book).finished| && Reporting(old(book), book, k)
      ensures forall i :: 0 <= i < k ==> Good(old(book), i)
      ensures ok <==> k == |old(book).finished|
      ensures !ok ==> !Good(old(book), k)
      ensures forall b <- waiting :: b in busy <==> b in old(busy) && waiting[b] !in old(book).finished[..k]
    {
      hide Partition, Tracked, Ring, Queued, Reporting;
      ReportingNone(book);
      k, ok := 0, true;
      while usedIdx != deviceIdx
        invariant Valid() && k + |book.finished| == |old(book).finished| && ok
        invariant Reporting(old(book), book, k) && forall i :: 0 <= i < k ==> Good(old(book), i)
        decreases |book.finished|
      {
        ghost var g := book;
        ok := Report();
        ReportingGood(num, old(book), g, k, working);
        if !ok { break; }
        ReportingNext(old(book), g, book, k);
        k := k + 1;
      }
      RingEmpty(num, usedRing, deviceIdx, usedIdx, book.done, book.finished);
      ReportingDone(num, old(book), book, k, waiting, info, old(busy), busy, working);
    }

    /** `free_chain`. */
    method FreeChain(h: nat)
      requires Partition(num, free, desc, ops, book.owner, book.reqs) && h in book.reqs
      modifies `free, `desc
      ensures |old(free)| == |old(desc)| == num && Chained(num, old(desc), ops, h, book.reqs[h])
      ensures free == old(free)[h := true][book.reqs[h].i1 := true][book.reqs[h].i2 := true]
      ensures desc == old(desc)[h := CLEAR][book.reqs[h].i1 := CLEAR][book.reqs[h].i2 := CLEAR]
    {
      hide Partition;
      Discharge(num, free, desc, ops, book.owner, book.reqs, h);
      PartitionBasics(num, free, desc, ops, book.owner, book.reqs);
      ghost var r, k := book.reqs[h], 0;
      var i := h;
      while true
        invariant 0 <= k <= 2
        invariant i == if k == 0 then h else if k == 1 then r.i1 else r.i2
        invariant free == if k == 0 then old(free) else if k == 1 then old(free)[h := true]
                          else old(free)[h := true][r.i1 := true]
        invariant desc == if k == 0 then old(desc) else if k == 1 then old(desc)[h := CLEAR]
                          else old(desc)[h := CLEAR][r.i1 := CLEAR]
        decreases 2 - k
      {
        var flag := desc[i].flags.next;
        var nxt := desc[i].next;
        FreeDesc(i);
        if flag {
          i := nxt;
          k := k + 1;
        } else {
          break;
        }
      }
    }

    /** A process fills a buffer that is not with the driver. */
    method Fill(b: nat, x: nat)
      requires Valid() && b !in waiting
      modifies `bytes
      ensures Valid() && bytes == old(bytes).(data := old(bytes).data[b := x])
    {
      bytes := bytes.(data := bytes.data[b := x]);
    }

    /** The end of `virtio_disk_rw`, once the flag of its buffer is down. */
    method Finish(b: nat, h: nat)
      requires Valid() && b in waiting && waiting[b] == h && b !in busy
      modifies `free, `desc, `info, `waiting, `book
      ensures Valid() && h in old(book).reqs && old(book).reqs[h].b == b
      ensures book.reqs == old(book).reqs - {h} && waiting == old(waiting) - {b}
      ensures book.offered == old(book).offered && book.finished == old(book).finished
      ensures forall i :: 0 <= i < num ==> free[i] == (old(free)[i] || InChain(i, h, old(book).reqs[h]))
    {
      hide Place, Partition, Tracked, Queued, Ring;
      ghost var g := book;
      FlagDown(num, g.reqs, info, busy, waiting, b);
      Discharge(num, free, desc, ops, g.owner, g.reqs, h);
      QueuedDrop(num, g.reqs, g.offered, working, g.finished, h);
      TrackedDrop(num, g.reqs, info, busy, waiting, h);
      info := info[h := info[h].(b := NoBuf)];
      FreeChain(h);
      book := g.(owner := g.owner[h := num][g.reqs[h].i1 := num][g.reqs[h].i2 := num],
                 reqs := g.reqs - {h});
      waiting := waiting - {b};
    }
  }

  /** The first `k` requests finished in `g0` have been reported. */
  ghost predicate Reporting(g0: Book, g: Book, k: nat) {
    && k <= |g0.finished| && g.finished == g0.finished[k..] && g.offered == g0.offered
    && g.reqs.Keys == g0.reqs.Keys
    && forall h <- g0.reqs ::
         g.reqs[h] == (if h in g0.finished[..k] then g0.reqs[h].(stage := Reported) else g0.reqs[h])
  }

  lemma ReportingNext(g0: Book, g: Book, g': Book, k: nat)
    requires Reporting(g0, g, k) && g.finished != [] && g.finished[0] in g.reqs
    requires g'.reqs == Staged(g.reqs, g.finished[0], Reported)
    requires g'.offered == g.offered && g'.finished == g.finished[1..]
    ensures Reporting(g0, g', k + 1)
  {
    assert g.finished[0] == g0.finished[k];
    assert g0.finished[..k + 1] == g0.finished[..k] + [g0.finished[k]];
  }

  lemma ReportingNone(g: Book)
    ensures Reporting(g, g, 0)
  {
  }

  /** Entry `i` of the used ring was completed without an error. */
  ghost predicate Good(g: Book, i: nat)
    requires i < |g.finished|
  {
    g.finished[i] in g.reqs && g.reqs[g.finished[i]].stage == Finished(0)
  }

  /** The next request to report is as it was when the handler started. */
  lemma ReportingGood(num: nat, g0: Book, g: Book, k: nat, working: set<nat>)
    requires Reporting(g0, g, k) && Queued(num, g.reqs, g.offered, working, g.finished) && g.finished != []
    ensures k < |g0.finished| && g.finished[0] in g.reqs
    ensures Good(g0, k) <==> g.reqs[g.finished[0]].stage == Finished(0)
  {
    assert g.finished[0] == g0.finished[k] && g.finished[0] in g.finished;
  }

  lemma ReportingDone(num: nat, g0: Book, g: Book, k: nat, heads: map<nat, nat>, info: seq<Info>,
                      busy0: set<nat>, busy: set<nat>, working: set<nat>)
    requires Reporting(g0, g, k)
    requires Tracked(num, g0.reqs, info, busy0, heads) && Tracked(num, g.reqs, info, busy, heads)
    requires Queued(num, g0.reqs, g0.offered, working, g0.finished)
    ensures forall b <- heads :: b in busy <==> b in busy0 && heads[b] !in g0.finished[..k]
  {
    hide Distinct;
    assert forall h <- g0.finished[..k] :: h in g0.finished;
  }

  /** What the completion of a request keeps. */
  lemma Completion(num: nat, free: seq<bool>, desc: seq<Desc>, ops: seq<Op>, info: seq<Info>, usedRing: seq<nat>,
                   deviceIdx: nat, usedIdx: nat, busy: set<nat>, working: set<nat>, heads: map<nat, nat>,
                   g: Book, h: nat, status: nat)
    requires Partition(num, free, desc, ops, g.owner, g.reqs) && Tracked(num, g.reqs, info, busy, heads)
    requires Queued(num, g.reqs, g.offered, working, g.finished)
    requires Ring(num, usedRing, deviceIdx, usedIdx, g.done, g.finished) && h in working
    ensures h in g.reqs && h < num == |info| == |usedRing|
    ensures var reqs := Staged(g.reqs, h, Finished(status));
      && Partition(num, free, desc, ops, g.owner, reqs)
      && Tracked(num, reqs, info[h := info[h].(status := status)], busy, heads)
      && Queued(num, reqs, g.offered, working - {h}, g.finished + [h])
    ensures Ring(num, usedRing[Place(num, deviceIdx) := h], (deviceIdx + 1) % WRAP, usedIdx, g.done, g.finished + [h])
  {
    hide Partition, Tracked, Queued, Ring, Staged;
    Working(num, g.reqs, g.offered, working, g.finished, info, busy, heads, h);
    QueuedFinish(num, g.reqs, g.offered, working, g.finished, h, status);
    TrackedFinish(num, g.reqs, info, busy, heads, h, status);
    Advance(num, free, desc, ops, g.owner, g.reqs, h, Finished(status));
    RingPush(num, usedRing, deviceIdx, usedIdx, g.done, g.finished, h);
  }

  lemma Working(num: nat, reqs: map<nat, Req>, offered: seq<nat>, working: set<nat>, finished: seq<nat>,
                info: seq<Info>, busy: set<nat>, heads: map<nat, nat>, h: nat)
    requires Queued(num, reqs, offered, working, finished) && Tracked(num, reqs, info, busy, heads) && h in working
    ensures h in reqs && reqs[h].stage == Taken && h < num
  {
  }

  /** What the device reads from the head of a chain. */
  lemma ReadChain(
    num: nat, free: seq<bool>, desc: seq<Desc>, ops: seq<Op>, owner: seq<nat>, reqs: map<nat, Req>, h: nat)
    requires Partition(num, free, desc, ops, owner, reqs) && h in reqs
    ensures Chained(num, desc, ops, h, reqs[h])
  {
  }

  lemma FlagDown(num: nat, reqs: map<nat, Req>, info: seq<Info>, busy: set<nat>, heads: map<nat, nat>, b: nat)
    requires Tracked(num, reqs, info, busy, heads) && b in heads && b !in busy
    ensures heads[b] in reqs && reqs[heads[b]].b == b && reqs[heads[b]].stage == Reported
  {
  }

  lemma PartitionBasics(num: nat, free: seq<bool>, desc: seq<Desc>, ops: seq<Op>, owner: seq<nat>, reqs: map<nat, Req>)
    requires Partition(num, free, desc, ops, owner, reqs)
    ensures |free| == |desc| == |ops| == |owner| == num && Spare(num, free, desc, owner)
  {
  }

  lemma SpareTriple(num: nat, free: seq<bool>, desc: seq<Desc>, owner: seq<nat>, h: nat, r: Req)
    requires Spare(num, free, desc, owner) && h < r.i1 < r.i2 < num
    requires Lowest(free, 0, h) && Lowest(free, h + 1, r.i1) && Lowest(free, r.i1 + 1, r.i2)
    ensures |owner| == num && Triple(num, owner, h, r)
  {
  }
}
