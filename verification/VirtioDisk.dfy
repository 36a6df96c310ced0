/** The virtio block driver of kernel/virtio_disk.c, with the device that shares its
    rings (sections 2.6 and 5.2 of the VIRTIO 1.1 specification). The sections of
    `virtio_disk_rw` and `virtio_disk_intr` between sleeps run under one lock; the
    device moves between any two of them. */
module VirtioDisk {
  import opened Counting

  /** The range of a ring index of sixteen bits. */
  const WRAP: nat := 0x1_0000

  /** The sizes that a ring may have; the driver's NUM is 8. */
  predicate Size(num: nat) {
    0 < num < WRAP && WRAP % num == 0
  }

  /** VRING_DESC_F_NEXT and VRING_DESC_F_WRITE. */
  datatype Flags = Flags(next: bool, write: bool)

  /** What a descriptor points at: a command header, the data of a buffer, or the
      status byte of a request. */
  datatype Addr = Nowhere | Header(i: nat) | Data(b: nat) | Status(i: nat)

  datatype Desc = Desc(addr: Addr, flags: Flags, next: nat)

  /** A command: whether to write, and the sector. */
  datatype Op = Op(write: bool, sector: nat)

  datatype Buf = NoBuf | Some(b: nat)

  datatype Info = Info(b: Buf, status: nat)

  /** Where a request is: in the available ring, with the device, in the used ring with
      the status that the device gave it, or reported to its buffer. */
  datatype Stage = Offered | Taken | Finished(status: nat) | Reported

  /** A request: its buffer and block, and the second and third descriptor. */
  datatype Req = Req(b: nat, op: Op, i1: nat, i2: nat, stage: Stage)

  const CLEAR: Desc := Desc(Nowhere, Flags(false, false), 0)

  // ----- Rings -----

  /** Where an index points in a ring. */
  function Place(num: nat, idx: nat): (k: nat)
    requires num > 0
    ensures k < num
  {
    idx % num
  }

  /** The entries of `ring` from position `from` on are those of `q`. */
  ghost predicate Holds(num: nat, ring: seq<nat>, from: nat, q: seq<nat>) {
    num > 0 && |ring| == num && |q| <= num && forall k :: 0 <= k < |q| ==> ring[(from + k) % num] == q[k]
  }

  ghost predicate Distinct(num: nat, q: seq<nat>) {
    NoRepeat(q) && forall k :: 0 <= k < |q| ==> q[k] < num
  }

  /** Distinct heads fit in a ring, and so does one more. */
  lemma Fits(num: nat, q: seq<nat>, h: nat)
    requires Distinct(num, q) && h < num && h !in q
    ensures |q| < num
  {
    hide Below;
    Pigeons(q + [h], Below(num));
  }

  /** An entry put behind the others in a ring. */
  lemma Pushed(num: nat, ring: seq<nat>, from: nat, q: seq<nat>, h: nat)
    requires Holds(num, ring, from, q) && |q| < num
    ensures Holds(num, ring[(from + |q|) % num := h], from, q + [h])
  {
    var r, p := ring[(from + |q|) % num := h], q + [h];
    forall k | 0 <= k < |p| ensures r[(from + k) % num] == p[k] {
      if k < |q| { Apart(num, from, k, |q|); }
    }
  }

  lemma Apart(num: nat, from: nat, k: nat, l: nat)
    requires k < l < k + num
    ensures (from + k) % num != (from + l) % num
  {
    if (from + k) % num == (from + l) % num {
      var i, j := (from + k) / num, (from + l) / num;
      assert num * (j - i) == l - k;
      NoMultiple(num, j - i, l - k);
    }
  }

  lemma NoMultiple(num: nat, t: int, d: nat)
    requires num * t == d < num
    ensures d == 0
  {
  }

  lemma Popped(num: nat, ring: seq<nat>, from: nat, q: seq<nat>)
    requires Holds(num, ring, from, q) && q != []
    ensures Holds(num, ring, from + 1, q[1..]) && ring[from % num] == q[0]
  {
    assert ring[(from + 0) % num] == q[0];
    forall k | 0 <= k < |q| - 1 ensures ring[(from + 1 + k) % num] == q[1..][k] {
      assert from + 1 + k == from + (k + 1);
    }
  }

  /** Sixteen bits of a position say where in the ring it is if and only if the ring size
      divides their range. */
  lemma WrapExact(num: nat)
    requires num > 0
    ensures (forall from: nat :: from % WRAP % num == from % num) <==> WRAP % num == 0
  {
    if WRAP % num == 0 {
      forall from: nat ensures from % WRAP % num == from % num { WrapDivides(num, from); }
    } else {
      assert WRAP % WRAP % num == 0;
    }
  }

  lemma WrapDivides(num: nat, from: nat)
    requires num > 0 && WRAP % num == 0
    ensures from % WRAP % num == from % num
  {
    var q, r, k := from / WRAP, from % WRAP, WRAP / num;
    assert from == num * (k * q) + r by {
      assert WRAP == num * k;
      assert WRAP * q == num * (k * q);
    }
    SameRest(num, k * q, r);
  }

  lemma SameRest(num: nat, a: nat, r: nat)
    requires num > 0
    ensures (num * a + r) % num == r % num
  {
    var x := num * a + r;
    assert num * (x / num - a - r / num) == r % num - x % num;
    Within(num, x / num - a - r / num, r % num, x % num);
  }

  lemma Within(num: nat, t: int, x: nat, y: nat)
    requires num * t == x - y && x < num && y < num
    ensures x == y
  {
    assert t >= 1 ==> num * t >= num;
    assert t <= -1 ==> num * t + num <= 0;
  }

  /** Indices of sixteen bits tell apart positions that are fewer than that many apart. */
  lemma Wrapped(num: nat, from: nat, n: nat)
    requires Size(num) && n < WRAP
    ensures from % WRAP % num == from % num
    ensures (from % WRAP == (from + n) % WRAP) == (n == 0)
    ensures (from % WRAP + n) % WRAP == (from + n) % WRAP
  {
    WrapDivides(num, from);
  }

  /** The ring holds `q`, put in by a writer at index `head` and taken out by a reader
      at index `tail`, both of sixteen bits; `from` entries were taken out so far. */
  ghost predicate Ring(num: nat, ring: seq<nat>, head: nat, tail: nat, from: nat, q: seq<nat>) {
    Size(num) && Holds(num, ring, from, q) && head == (from + |q|) % WRAP && tail == from % WRAP
  }

  lemma RingPush(num: nat, ring: seq<nat>, head: nat, tail: nat, from: nat, q: seq<nat>, h: nat)
    requires Ring(num, ring, head, tail, from, q) && |q| < num
    ensures num > 0 && |ring| == num && Ring(num, ring[Place(num, head) := h], (head + 1) % WRAP, tail, from, q + [h])
  {
    Pushed(num, ring, from, q, h);
    Wrapped(num, from + |q|, 1);
  }

  /** Equal indices mean an empty ring, whatever wrapped around. */
  lemma RingEmpty(num: nat, ring: seq<nat>, head: nat, tail: nat, from: nat, q: seq<nat>)
    requires Ring(num, ring, head, tail, from, q)
    ensures head == tail <==> q == []
  {
    Wrapped(num, from, |q|);
  }

  lemma RingPop(num: nat, ring: seq<nat>, head: nat, tail: nat, from: nat, q: seq<nat>)
    requires Ring(num, ring, head, tail, from, q) && q != []
    ensures num > 0 && |ring| == num && ring[Place(num, tail)] == q[0]
    ensures Ring(num, ring, head, (tail + 1) % WRAP, from + 1, q[1..])
  {
    Popped(num, ring, from, q);
    Wrapped(num, from, 1);
  }

  // ----- What the driver keeps -----

  /** The descriptors of the chain that starts at `h`. */
  ghost predicate InChain(i: nat, h: nat, r: Req) {
    i == h || i == r.i1 || i == r.i2
  }

  /** The chain of request `r`, as the device reads it: its command, its buffer, its
      status byte. */
  ghost predicate Chained(num: nat, desc: seq<Desc>, ops: seq<Op>, h: nat, r: Req) {
    && |desc| == |ops| == num && h < num && r.i1 < num && r.i2 < num
    && h != r.i1 && h != r.i2 && r.i1 != r.i2
    && desc[h] == Desc(Header(h), Flags(true, false), r.i1)
    && desc[r.i1] == Desc(Data(r.b), Flags(true, !r.op.write), r.i2)
    && desc[r.i2] == Desc(Status(h), Flags(false, true), 0)
    && ops[h] == r.op
  }

  /** `owner` says which request a descriptor belongs to, num for none. */
  ghost predicate Owners(num: nat, owner: seq<nat>, reqs: map<nat, Req>) {
    && |owner| == num
    && (forall i :: 0 <= i < num && owner[i] != num ==> owner[i] in reqs && InChain(i, owner[i], reqs[owner[i]]))
    && (forall h <- reqs :: Owns(num, owner, h, reqs[h]))
  }

  ghost predicate Owns(num: nat, owner: seq<nat>, h: nat, r: Req)
    requires |owner| == num
  {
    && h < num && r.i1 < num && r.i2 < num && h != r.i1 && h != r.i2 && r.i1 != r.i2
    && owner[h] == h && owner[r.i1] == h && owner[r.i2] == h
  }

  /** The descriptors without an owner are the free ones, and clear. */
  ghost predicate Spare(num: nat, free: seq<bool>, desc: seq<Desc>, owner: seq<nat>) {
    && |free| == |desc| == |owner| == num
    && forall i :: 0 <= i < num ==> free[i] == (owner[i] == num) && (free[i] ==> desc[i] == CLEAR)
  }

  ghost predicate Chains(num: nat, desc: seq<Desc>, ops: seq<Op>, reqs: map<nat, Req>) {
    forall h <- reqs :: Chained(num, desc, ops, h, reqs[h])
  }

  /** The free descriptors and the chains of the requests partition the table. */
  ghost predicate Partition(
    num: nat, free: seq<bool>, desc: seq<Desc>, ops: seq<Op>, owner: seq<nat>, reqs: map<nat, Req>) {
    |ops| == num && Owners(num, owner, reqs) && Spare(num, free, desc, owner) && Chains(num, desc, ops, reqs)
  }

  /** Every request is offered, with the device, finished, or reported. */
  ghost predicate Queued(num: nat, reqs: map<nat, Req>, offered: seq<nat>, working: set<nat>, finished: seq<nat>) {
    && Distinct(num, offered) && Distinct(num, finished)
    && (forall h: nat :: h in working <==> h in reqs && reqs[h].stage == Taken)
    && (forall h: nat :: h in offered <==> h in reqs && reqs[h].stage == Offered)
    && (forall h: nat :: h in finished <==> h in reqs && reqs[h].stage.Finished?)
  }

  /** A buffer has at most one request, `heads` says which; its `disk` flag is up until
      the request is reported; `info` leads from a request to its buffer. */
  ghost predicate Tracked(num: nat, reqs: map<nat, Req>, info: seq<Info>, busy: set<nat>, heads: map<nat, nat>) {
    && |info| == num
    && (forall h <- reqs :: h < num && info[h].b == Some(reqs[h].b) && reqs[h].b in heads && heads[reqs[h].b] == h)
    && (forall h <- reqs :: reqs[h].stage.Finished? ==> info[h].status == reqs[h].stage.status)
    && (forall b <- heads :: heads[b] in reqs && reqs[heads[b]].b == b)
    && (forall b <- heads :: b in busy <==> reqs[heads[b]].stage != Reported)
    && busy <= heads.Keys
  }

  // ----- Descriptors -----

  /** Three descriptors, none in a chain. */
  ghost predicate Triple(num: nat, owner: seq<nat>, h: nat, r: Req)
    requires |owner| == num
  {
    && h < num && r.i1 < num && r.i2 < num && h != r.i1 && h != r.i2 && r.i1 != r.i2
    && owner[h] == num && owner[r.i1] == num && owner[r.i2] == num
  }

  /** The descriptor table with the chain of `r` written. */
  function Written(num: nat, desc: seq<Desc>, h: nat, r: Req): seq<Desc>
    requires |desc| == num && h < num && r.i1 < num && r.i2 < num
  {
    desc[h := Desc(Header(h), Flags(true, false), r.i1)]
        [r.i1 := Desc(Data(r.b), Flags(true, !r.op.write), r.i2)]
        [r.i2 := Desc(Status(h), Flags(false, true), 0)]
  }

  ghost function Claimed(num: nat, owner: seq<nat>, h: nat, r: Req): seq<nat>
    requires |owner| == num && h < num && r.i1 < num && r.i2 < num
  {
    owner[h := h][r.i1 := h][r.i2 := h]
  }

  /** The chain of a new request, of three free descriptors. */
  lemma Enlist(
    num: nat, free: seq<bool>, desc: seq<Desc>, ops: seq<Op>, owner: seq<nat>, reqs: map<nat, Req>, h: nat, r: Req)
    requires Partition(num, free, desc, ops, owner, reqs) && Triple(num, owner, h, r)
    ensures h !in reqs
    ensures Partition(num, free[h := false][r.i1 := false][r.i2 := false], Written(num, desc, h, r), ops[h := r.op],
              Claimed(num, owner, h, r), reqs[h := r])
  {
    EnlistOwners(num, owner, reqs, h, r);
    EnlistChains(num, desc, ops, owner, reqs, h, r);
    hide Owners, Chains;
  }

  lemma EnlistOwners(num: nat, owner: seq<nat>, reqs: map<nat, Req>, h: nat, r: Req)
    requires Owners(num, owner, reqs) && Triple(num, owner, h, r)
    ensures h !in reqs && Owners(num, owner[h := h][r.i1 := h][r.i2 := h], reqs[h := r])
  {
    forall h' | h' in reqs ensures h' != h && Owns(num, owner[h := h][r.i1 := h][r.i2 := h], h', reqs[h']) {
      assert Owns(num, owner, h', reqs[h']);
    }
  }

  lemma EnlistChains(num: nat, desc: seq<Desc>, ops: seq<Op>, owner: seq<nat>, reqs: map<nat, Req>, h: nat, r: Req)
    requires Owners(num, owner, reqs) && Triple(num, owner, h, r) && Chains(num, desc, ops, reqs)
    requires |desc| == |ops| == num
    ensures Chains(num, Written(num, desc, h, r), ops[h := r.op], reqs[h := r])
  {
    forall h' | h' in reqs && h' != h ensures Chained(num, Written(num, desc, h, r), ops[h := r.op], h', reqs[h']) {
      assert Owns(num, owner, h', reqs[h']) && Chained(num, desc, ops, h', reqs[h']);
    }
  }

  /** The chain of a request given back. */
  lemma Discharge(
    num: nat, free: seq<bool>, desc: seq<Desc>, ops: seq<Op>, owner: seq<nat>, reqs: map<nat, Req>, h: nat)
    requires Partition(num, free, desc, ops, owner, reqs) && h in reqs
    ensures var r := reqs[h];
      && Chained(num, desc, ops, h, r) && |free| == num && |owner| == num && !free[h] && !free[r.i1] && !free[r.i2]
      && Partition(num, free[h := true][r.i1 := true][r.i2 := true],
           desc[h := CLEAR][r.i1 := CLEAR][r.i2 := CLEAR], ops,
           owner[h := num][r.i1 := num][r.i2 := num], reqs - {h})
  {
    assert Owns(num, owner, h, reqs[h]) && Chained(num, desc, ops, h, reqs[h]);
    DischargeOwners(num, owner, reqs, h);
    DischargeChains(num, desc, ops, owner, reqs, h);
    hide Owners, Chains;
  }

  lemma DischargeOwners(num: nat, owner: seq<nat>, reqs: map<nat, Req>, h: nat)
    requires Owners(num, owner, reqs) && h in reqs && Owns(num, owner, h, reqs[h])
    ensures Owners(num, owner[h := num][reqs[h].i1 := num][reqs[h].i2 := num], reqs - {h})
  {
    var o := owner[h := num][reqs[h].i1 := num][reqs[h].i2 := num];
    forall h' | h' in reqs && h' != h ensures Owns(num, o, h', reqs[h']) {
      assert Owns(num, owner, h', reqs[h']);
    }
  }

  lemma DischargeChains(num: nat, desc: seq<Desc>, ops: seq<Op>, owner: seq<nat>, reqs: map<nat, Req>, h: nat)
    requires Owners(num, owner, reqs) && h in reqs && Owns(num, owner, h, reqs[h]) && Chains(num, desc, ops, reqs)
    requires |desc| == |ops| == num
    ensures Chains(num, desc[h := CLEAR][reqs[h].i1 := CLEAR][reqs[h].i2 := CLEAR], ops, reqs - {h})
  {
    var d := desc[h := CLEAR][reqs[h].i1 := CLEAR][reqs[h].i2 := CLEAR];
    forall h' | h' in reqs && h' != h ensures Chained(num, d, ops, h', reqs[h']) {
      assert Owns(num, owner, h', reqs[h']) && Chained(num, desc, ops, h', reqs[h']);
    }
  }

  // ----- Requests moving on -----

  /** The requests with `h` at another stage. */
  ghost function Staged(reqs: map<nat, Req>, h: nat, stage: Stage): map<nat, Req>
    requires h in reqs
  {
    reqs[h := reqs[h].(stage := stage)]
  }

  /** A request moving on keeps its chain. */
  lemma Advance(
    num: nat, free: seq<bool>, desc: seq<Desc>, ops: seq<Op>, owner: seq<nat>, reqs: map<nat, Req>, h: nat,
    stage: Stage)
    requires Partition(num, free, desc, ops, owner, reqs) && h in reqs
    ensures Partition(num, free, desc, ops, owner, Staged(reqs, h, stage))
  {
  }

  lemma QueuedOffer(
    num: nat, reqs: map<nat, Req>, offered: seq<nat>, working: set<nat>, finished: seq<nat>, h: nat, r: Req)
    requires Queued(num, reqs, offered, working, finished) && h !in reqs && h < num && r.stage == Offered
    ensures |offered| < num && Queued(num, reqs[h := r], offered + [h], working, finished)
  {
    Fits(num, offered, h);
  }

  lemma QueuedTake(num: nat, reqs: map<nat, Req>, offered: seq<nat>, working: set<nat>, finished: seq<nat>)
    requires Queued(num, reqs, offered, working, finished) && offered != []
    ensures offered[0] in reqs && reqs[offered[0]].stage == Offered
    ensures Queued(num, Staged(reqs, offered[0], Taken), offered[1..], working + {offered[0]}, finished)
  {
    assert offered[0] in offered;
    forall h: nat ensures h in offered[1..] <==> h in offered && h != offered[0] {
    }
  }

  lemma QueuedFinish(
    num: nat, reqs: map<nat, Req>, offered: seq<nat>, working: set<nat>, finished: seq<nat>, h: nat, status: nat)
    requires Queued(num, reqs, offered, working, finished) && h in working && h < num
    ensures h in reqs && |finished| < num
    ensures Queued(num, Staged(reqs, h, Finished(status)), offered, working - {h}, finished + [h])
  {
    Fits(num, finished, h);
  }

  lemma QueuedReport(num: nat, reqs: map<nat, Req>, offered: seq<nat>, working: set<nat>, finished: seq<nat>)
    requires Queued(num, reqs, offered, working, finished) && finished != []
    ensures finished[0] in reqs && reqs[finished[0]].stage.Finished?
    ensures Queued(num, Staged(reqs, finished[0], Reported), offered, working, finished[1..])
  {
    assert finished[0] in finished;
    forall h: nat ensures h in finished[1..] <==> h in finished && h != finished[0] {
    }
  }

  lemma QueuedDrop(num: nat, reqs: map<nat, Req>, offered: seq<nat>, working: set<nat>, finished: seq<nat>, h: nat)
    requires Queued(num, reqs, offered, working, finished) && h in reqs && reqs[h].stage == Reported
    ensures Queued(num, reqs - {h}, offered, working, finished)
  {
  }

  lemma TrackedOffer(
    num: nat, reqs: map<nat, Req>, info: seq<Info>, busy: set<nat>, heads: map<nat, nat>, h: nat, r: Req)
    requires Tracked(num, reqs, info, busy, heads) && h !in reqs && h < num && r.stage == Offered && r.b !in heads
    ensures |info| == num
    ensures Tracked(num, reqs[h := r], info[h := Info(Some(r.b), 0xff)], busy + {r.b}, heads[r.b := h])
  {
  }

  lemma TrackedTake(num: nat, reqs: map<nat, Req>, info: seq<Info>, busy: set<nat>, heads: map<nat, nat>, h: nat)
    requires Tracked(num, reqs, info, busy, heads) && h in reqs && reqs[h].stage == Offered
    ensures Tracked(num, Staged(reqs, h, Taken), info, busy, heads)
  {
  }

  lemma TrackedFinish(
    num: nat, reqs: map<nat, Req>, info: seq<Info>, busy: set<nat>, heads: map<nat, nat>, h: nat, status: nat)
    requires Tracked(num, reqs, info, busy, heads) && h in reqs && reqs[h].stage == Taken
    ensures |info| == num && h < num
    ensures Tracked(num, Staged(reqs, h, Finished(status)), info[h := info[h].(status := status)], busy, heads)
  {
  }

  /** The buffer of a finished request still waits; reporting lets it go. */
  lemma TrackedReport(num: nat, reqs: map<nat, Req>, info: seq<Info>, busy: set<nat>, heads: map<nat, nat>, h: nat)
    requires Tracked(num, reqs, info, busy, heads) && h in reqs && reqs[h].stage.Finished?
    ensures |info| == num && h < num && info[h] == Info(Some(reqs[h].b), reqs[h].stage.status) && reqs[h].b in busy
    ensures Tracked(num, Staged(reqs, h, Reported), info, busy - {reqs[h].b}, heads)
  {
  }

  lemma TrackedDrop(num: nat, reqs: map<nat, Req>, info: seq<Info>, busy: set<nat>, heads: map<nat, nat>, h: nat)
    requires Tracked(num, reqs, info, busy, heads) && h in reqs && reqs[h].stage == Reported
    ensures |info| == num && h < num
    ensures Tracked(num, reqs - {h}, info[h := info[h].(b := NoBuf)], busy, heads - {reqs[h].b})
  {
  }
}
