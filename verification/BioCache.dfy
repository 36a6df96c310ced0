/** The buffer cache of kernel/bio.c. A method is what runs under `bcache.lock`, or what
    the holder of a buffer's sleep lock does with the buffer. */
module BioCache {
  import opened BioList
  import opened Counting

  /** A block of a device. */
  datatype Id = Id(dev: nat, blockno: nat)

  datatype Buf = Buf(id: Id, refcnt: nat, valid: bool, data: nat)

  // ----- What the cache keeps -----

  /** What `binit` leaves in every buffer. */
  const BLANK: Id := Id(0, 0)

  /** Neither referenced nor filled. */
  predicate Idle(x: Buf) {
    x.refcnt == 0 && !x.valid
  }

  /** A block is in one buffer at most. Only block 0 of device 0, which `binit` leaves
      in every buffer, is named by more, and then all but the first in list order are
      idle. */
  ghost predicate Single(bufs: seq<Buf>, order: seq<nat>) {
    forall i, j ::
      (0 <= i < j < |order| && order[i] < |bufs| && order[j] < |bufs| && bufs[order[i]].id == bufs[order[j]].id) ==>
        bufs[order[j]].id == BLANK && Idle(bufs[order[j]])
  }

  /** Buffer `b` has the contents of `id`. */
  ghost predicate Has(bufs: seq<Buf>, b: int, id: Id) {
    0 <= b < |bufs| && bufs[b].id == id && bufs[b].valid
  }

  /** `latest` is what a reader gets: what a valid buffer has, and what the disk has of
      the blocks that are in no valid buffer. */
  ghost predicate Coherent(bufs: seq<Buf>, disk: map<Id, nat>, latest: map<Id, nat>) {
    && (forall b :: 0 <= b < |bufs| && bufs[b].valid ==> bufs[b].data == Get(latest, bufs[b].id))
    && (forall id: Id :: Get(disk, id) != Get(latest, id) ==> exists b :: Has(bufs, b, id))
  }

  /** A buffer is referenced by those who got it and have not released it, and by pins;
      a locked buffer is held. */
  ghost predicate Counted(bufs: seq<Buf>, holders: seq<nat>, pins: seq<nat>, locked: set<nat>) {
    && |bufs| == |holders| == |pins|
    && (forall b :: 0 <= b < |bufs| ==> bufs[b].refcnt == holders[b] + pins[b])
    && (forall b <- locked :: b < |bufs| && holders[b] > 0 && bufs[b].valid)
  }

  /** The buffer that `bget` recycles: unreferenced, and nearest to the tail. */
  ghost predicate Victim(bufs: seq<Buf>, order: seq<nat>, i: nat) {
    && i < |order| && order[i] < |bufs| && bufs[order[i]].refcnt == 0
    && forall k :: i < k < |order| ==> order[k] < |bufs| && bufs[order[k]].refcnt > 0
  }

  // ----- Steps -----

  /** Of two buffers of one block, one is idle. */
  lemma OneActive(bufs: seq<Buf>, order: seq<nat>, b: nat, c: nat)
    requires Permutation(order, |bufs|) && Single(bufs, order) && b < |bufs| && c < |bufs| && b != c
    requires bufs[b].id == bufs[c].id
    ensures Idle(bufs[b]) || Idle(bufs[c])
  {
    Covers(order, |bufs|, b);
    Covers(order, |bufs|, c);
  }

  /** A buffer changed in its reference count only. */
  lemma Recount(bufs: seq<Buf>, disk: map<Id, nat>, latest: map<Id, nat>, b: nat, refcnt: nat)
    requires Coherent(bufs, disk, latest) && b < |bufs|
    ensures Coherent(bufs[b := bufs[b].(refcnt := refcnt)], disk, latest)
  {
    var s := bufs[b := bufs[b].(refcnt := refcnt)];
    forall id: Id | Get(disk, id) != Get(latest, id) ensures exists c :: Has(s, c, id) {
      var c :| Has(bufs, c, id);
      assert Has(s, c, id);
    }
  }

  /** A buffer that is first of its block in list order, or not idle, changes, and keeps
      its block. */
  lemma Busier(bufs: seq<Buf>, order: seq<nat>, b: nat, x: Buf)
    requires Permutation(order, |bufs|) && Single(bufs, order) && b < |bufs| && x.id == bufs[b].id
    requires !Idle(bufs[b]) || exists i :: First(bufs, order, i) && order[i] == b
    ensures Single(bufs[b := x], order)
  {
  }

  /** Buffer `order[i]` is the first of its block. */
  ghost predicate First(bufs: seq<Buf>, order: seq<nat>, i: int) {
    && 0 <= i < |order| && order[i] < |bufs|
    && forall k :: 0 <= k < i ==> order[k] < |bufs| && bufs[order[k]].id != bufs[order[i]].id
  }

  /** A busy buffer moves to the front. */
  lemma MovedSingle(bufs: seq<Buf>, order: seq<nat>, i: nat)
    requires Permutation(order, |bufs|) && Single(bufs, order) && i < |order| && !Idle(bufs[order[i]])
    ensures Single(bufs, [order[i]] + Without(order, i))
  {
    var o := [order[i]] + Without(order, i);
    assert forall k :: 0 < k < |o| ==> o[k] == order[if k <= i then k - 1 else k];
    forall j, k | 0 <= j < k < |o| && o[j] < |bufs| && o[k] < |bufs| && bufs[o[j]].id == bufs[o[k]].id
      ensures bufs[o[k]].id == BLANK && Idle(bufs[o[k]])
    {
      var k' := if k <= i then k - 1 else k;
      if j > 0 {
        var j' := if j <= i then j - 1 else j;
        assert o[j] == order[j'] && o[k] == order[k'] && j' < k';
      } else {
        assert o[k] == order[k'] && o[0] == order[i];
        assert k' != i;
      }
    }
  }

  /** What a recycled buffer takes away: the contents of its old block that were not on
      the disk. */
  function Evicted(x: Buf, disk: map<Id, nat>, latest: map<Id, nat>): map<Id, nat> {
    if x.valid then latest[x.id := Get(disk, x.id)] else latest
  }

  /** An unreferenced buffer takes on a block that no buffer has. */
  lemma Recycle(bufs: seq<Buf>, order: seq<nat>, disk: map<Id, nat>, latest: map<Id, nat>, b: nat, id: Id)
    requires Permutation(order, |bufs|) && Single(bufs, order) && Coherent(bufs, disk, latest)
    requires b < |bufs| && bufs[b].refcnt == 0 && forall c :: 0 <= c < |bufs| ==> bufs[c].id != id
    ensures var s := bufs[b := Buf(id, 1, false, bufs[b].data)];
      Single(s, order) && Coherent(s, disk, Evicted(bufs[b], disk, latest))
  {
    var s, l := bufs[b := Buf(id, 1, false, bufs[b].data)], Evicted(bufs[b], disk, latest);
    forall c | 0 <= c < |s| && s[c].valid
      ensures s[c].data == Get(l, s[c].id)
    {
      assert c != b;
      if bufs[b].valid && bufs[c].id == bufs[b].id { OneActive(bufs, order, b, c); }
    }
    forall i: Id | Get(disk, i) != Get(l, i) ensures exists c :: Has(s, c, i) {
      var c :| Has(bufs, c, i);
      assert Has(s, c, i);
    }
  }

  /** What is in an invalid buffer that is held is on the disk. */
  lemma OnDisk(bufs: seq<Buf>, order: seq<nat>, disk: map<Id, nat>, latest: map<Id, nat>, b: nat)
    requires Permutation(order, |bufs|) && Single(bufs, order) && Coherent(bufs, disk, latest)
    requires b < |bufs| && bufs[b].refcnt > 0 && !bufs[b].valid
    ensures Get(disk, bufs[b].id) == Get(latest, bufs[b].id)
  {
    if Get(disk, bufs[b].id) != Get(latest, bufs[b].id) {
      var c :| Has(bufs, c, bufs[b].id);
      OneActive(bufs, order, b, c);
    }
  }

  /** An invalid buffer is filled from the disk, which has the latest contents. */
  lemma Fill(bufs: seq<Buf>, order: seq<nat>, disk: map<Id, nat>, latest: map<Id, nat>, b: nat)
    requires Permutation(order, |bufs|) && Single(bufs, order) && Coherent(bufs, disk, latest)
    requires b < |bufs| && bufs[b].refcnt > 0 && !bufs[b].valid
    ensures Get(disk, bufs[b].id) == Get(latest, bufs[b].id)
    ensures var s := bufs[b := bufs[b].(valid := true, data := Get(disk, bufs[b].id))];
      Single(s, order) && Coherent(s, disk, latest)
  {
    OnDisk(bufs, order, disk, latest, b);
    var s := bufs[b := bufs[b].(valid := true, data := Get(disk, bufs[b].id))];
    forall i: Id | Get(disk, i) != Get(latest, i) ensures exists c :: Has(s, c, i) {
      var c :| Has(bufs, c, i);
      assert Has(s, c, i);
    }
  }

  /** The holder stores new contents. */
  lemma Change(bufs: seq<Buf>, order: seq<nat>, disk: map<Id, nat>, latest: map<Id, nat>, b: nat, data: nat)
    requires Permutation(order, |bufs|) && Single(bufs, order) && Coherent(bufs, disk, latest)
    requires b < |bufs| && bufs[b].valid
    ensures var s := bufs[b := bufs[b].(data := data)];
      Single(s, order) && Coherent(s, disk, latest[bufs[b].id := data])
  {
    var s, l := bufs[b := bufs[b].(data := data)], latest[bufs[b].id := data];
    forall c | 0 <= c < |s| && s[c].valid
      ensures s[c].data == Get(l, s[c].id)
    {
      if c != b && bufs[c].id == bufs[b].id { OneActive(bufs, order, b, c); }
    }
    forall i: Id | Get(disk, i) != Get(l, i) ensures exists c :: Has(s, c, i) {
      if i == bufs[b].id {
        assert Has(s, b, i);
      } else {
        var c :| Has(bufs, c, i);
        assert Has(s, c, i);
      }
    }
  }

  /** The holder writes the contents to the disk. */
  lemma Flush(bufs: seq<Buf>, disk: map<Id, nat>, latest: map<Id, nat>, b: nat)
    requires Coherent(bufs, disk, latest) && b < |bufs| && bufs[b].valid
    ensures Coherent(bufs, disk[bufs[b].id := bufs[b].data], latest)
  {
    var d := disk[bufs[b].id := bufs[b].data];
    forall i: Id | Get(d, i) != Get(latest, i) ensures exists c :: Has(bufs, c, i) {
      assert i != bufs[b].id;
    }
  }

  /** The circle without buffer `b`. */
  lemma TakenOut(next: seq<nat>, prev: seq<nat>, order: seq<nat>, n: nat, b: nat) returns (i: nat)
    requires Permutation(order, n) && Circle(next, prev, order, n) && b < n
    ensures |next| == |prev| == n + 1 && next[b] <= n && prev[b] <= n
    ensures i < n == |order| && order[i] == b && b !in Without(order, i)
    ensures Permutation([b] + Without(order, i), n)
    ensures Circle(next[prev[b] := next[b]], prev[next[b] := prev[b]], Without(order, i), n)
  {
    Covers(order, n, b);
    i :| 0 <= i < n && order[i] == b;
    Unlink(next, prev, order, n, i);
    Neighbours(next, prev, order, n, i);
    hide Circle;
  }

  class Bcache {
    const n: nat
    var bufs: seq<Buf>
    var next: seq<nat>
    var prev: seq<nat>
    var locked: set<nat>
    var disk: map<Id, nat>
    /** Of each buffer, the processes between `bget` and `brelse`, and the pins. */
    var holders: seq<nat>
    var pins: seq<nat>

    ghost var order: seq<nat>
    ghost var latest: map<Id, nat>

    ghost predicate Valid()
      reads this
    {
      && |bufs| == n && Permutation(order, n) && Circle(next, prev, order, n)
      && Single(bufs, order) && Coherent(bufs, disk, latest) && Counted(bufs, holders, pins, locked)
    }

    /** `binit`. */
    constructor (n: nat, disk: map<Id, nat>)
      ensures Valid() && this.n == n && this.disk == disk && latest == disk && locked == {}
      ensures forall b :: 0 <= b < n ==> bufs[b] == Buf(Id(0, 0), 0, false, 0) && order[b] == n - 1 - b
    {
      this.n := n;
      bufs := seq(n, i => Buf(Id(0, 0), 0, false, 0));
      next, prev := seq(n + 1, i => n), seq(n + 1, i => n);
      locked, this.disk := {}, disk;
      order, holders, pins, latest := [], seq(n, i => 0), seq(n, i => 0), disk;
      new;
      var b := 0;
      while b < n
        invariant 0 <= b <= n && |order| == b && Circle(next, prev, order, n)
        invariant forall i :: 0 <= i < b ==> order[i] == b - 1 - i
        modifies `next, `prev, `order
      {
        LinkFront(next, prev, order, n, b);
        next := next[b := next[n]];
        prev := prev[b := n];
        prev := prev[next[n] := b];
        next := next[n := b];
        order := [b] + order;
        b := b + 1;
      }
    }

    /** The first loop of `bget`: the buffer that has the block, `n` when none does. */
    method Lookup(id: Id) returns (b: nat)
      requires Valid()
      ensures b <= n && (b < n ==> bufs[b].id == id && exists i :: First(bufs, order, i) && order[i] == b)
      ensures b == n ==> forall c :: 0 <= c < n ==> bufs[c].id != id
    {
      hide Circle, Coherent, Single, Counted;
      Ends(next, prev, order, n);
      ghost var i := 0;
      b := next[n];
      while b != n && bufs[b].id != id
        invariant 0 <= i <= n && b == if i < n then order[i] else n
        invariant forall k :: 0 <= k < i ==> bufs[order[k]].id != id
        decreases n - i
      {
        Neighbours(next, prev, order, n, i);
        b, i := next[b], i + 1;
      }
      if b == n {
        forall c | 0 <= c < n ensures bufs[c].id != id { Covers(order, n, c); }
      } else {
        assert First(bufs, order, i);
      }
    }

    /** The second loop of `bget`: the unreferenced buffer nearest to the tail, `n` when
        there is none. */
    method FindVictim() returns (b: nat)
      requires Valid()
      ensures b <= n && (b < n ==> exists i: nat :: Victim(bufs, order, i) && order[i] == b)
      ensures b == n ==> forall c :: 0 <= c < n ==> bufs[c].refcnt > 0
    {
      hide Circle, Coherent, Single, Counted;
      Ends(next, prev, order, n);
      ghost var j := n;
      b := prev[n];
      while b != n && bufs[b].refcnt != 0
        invariant 0 <= j <= n && b == if j > 0 then order[j - 1] else n
        invariant forall k :: j <= k < n ==> bufs[order[k]].refcnt > 0
        decreases j
      {
        Neighbours(next, prev, order, n, j - 1);
        b, j := prev[b], j - 1;
      }
      if b == n {
        forall c | 0 <= c < n ensures bufs[c].refcnt > 0 { Covers(order, n, c); }
      } else {
        assert Victim(bufs, order, j - 1);
      }
    }

    /** `bget` up to the sleep lock; it panics, here fails, when every buffer is
        referenced and none has the block. A buffer that is recycled takes with it the
        contents of its old block that were never written. */
    method Bget(id: Id) returns (ok: bool, b: nat)
      requires Valid()
      modifies `bufs, `holders, `latest
      ensures Valid()
      ensures ok ==> b < n && bufs[b].id == id && holders == old(holders)[b := old(holders)[b] + 1]
      ensures ok && old(bufs)[b].id == id ==>
        && bufs == old(bufs)[b := old(bufs)[b].(refcnt := old(bufs)[b].refcnt + 1)] && latest == old(latest)
        && exists i :: First(old(bufs), order, i) && order[i] == b
      ensures ok && old(bufs)[b].id != id ==>
        && (forall c :: 0 <= c < n ==> old(bufs)[c].id != id)
        && (exists i: nat :: Victim(old(bufs), order, i) && order[i] == b)
        && bufs == old(bufs)[b := Buf(id, 1, false, old(bufs)[b].data)]
        && latest == Evicted(old(bufs)[b], disk, old(latest))
      ensures !ok ==> bufs == old(bufs) && holders == old(holders) && latest == old(latest)
      ensures !ok ==> forall c :: 0 <= c < n ==> bufs[c].id != id && bufs[c].refcnt > 0
    {
      hide Circle, Coherent, Single, Counted, Permutation, First;
      b := Lookup(id);
      if b < n {
        Reference(bufs, holders, pins, locked, b);
        Recount(bufs, disk, latest, b, bufs[b].refcnt + 1);
        Busier(bufs, order, b, bufs[b].(refcnt := bufs[b].refcnt + 1));
        bufs := bufs[b := bufs[b].(refcnt := bufs[b].refcnt + 1)];
        holders := holders[b := holders[b] + 1];
        return true, b;
      }
      b := FindVictim();
      ok := b < n;
      if ok {
        Adopt(bufs, holders, pins, locked, b, id);
        Recycle(bufs, order, disk, latest, b, id);
        latest := Evicted(bufs[b], disk, latest);
        bufs := bufs[b := Buf(id, 1, false, bufs[b].data)];
        holders := holders[b := holders[b] + 1];
      }
    }

    /** The sleep lock of a buffer and the rest of `bread`: the buffer has the latest
        contents of its block. */
    method LockAndFill(b: nat)
      requires Valid() && b < n && holders[b] > 0 && b !in locked
      modifies `bufs, `locked
      ensures Valid() && locked == old(locked) + {b}
      ensures bufs == old(bufs)[b := old(bufs)[b].(valid := true, data := Get(latest, old(bufs)[b].id))]
    {
      hide Circle, Permutation, Single;
      if !bufs[b].valid {
        Fill(bufs, order, disk, latest, b);
        bufs := bufs[b := bufs[b].(valid := true, data := Get(disk, bufs[b].id))];
      }
      locked := locked + {b};
    }

    /** The holder of a buffer stores into it. */
    method Store(b: nat, data: nat)
      requires Valid() && b in locked
      modifies `bufs, `latest
      ensures Valid() && bufs == old(bufs)[b := old(bufs)[b].(data := data)]
      ensures latest == old(latest)[bufs[b].id := data]
    {
      hide Circle, Permutation;
      Change(bufs, order, disk, latest, b, data);
      hide Single, Coherent;
      latest := latest[bufs[b].id := data];
      bufs := bufs[b := bufs[b].(data := data)];
    }

    /** `bwrite`, which panics unless the caller holds the lock. */
    method Bwrite(b: nat)
      requires Valid() && b in locked
      modifies `disk
      ensures Valid() && disk == old(disk)[bufs[b].id := bufs[b].data]
      ensures bufs[b].data == Get(latest, bufs[b].id)
    {
      hide Circle, Permutation;
      Flush(bufs, disk, latest, b);
      assert bufs[b].data == Get(latest, bufs[b].id);
      hide Single, Coherent;
      disk := disk[bufs[b].id := bufs[b].data];
    }

    /** `brelse`, which panics unless the caller holds the lock. What is in the buffer
        stays there, written or not, until the buffer is recycled. */
    method Brelse(b: nat)
      requires Valid() && b in locked
      modifies `bufs, `next, `prev, `locked, `order, `holders
      ensures Valid() && locked == old(locked) - {b}
      ensures bufs == old(bufs)[b := old(bufs)[b].(refcnt := old(bufs)[b].refcnt - 1)]
      ensures holders == old(holders)[b := old(holders)[b] - 1]
      ensures bufs[b].refcnt > 0 ==> order == old(order)
      ensures bufs[b].refcnt == 0 ==>
        exists i: nat :: i < n && old(order)[i] == b && order == [b] + Without(old(order), i)
    {
      hide Circle, Coherent, Single;
      Unreference(bufs, holders, pins, locked, b);
      Recount(bufs, disk, latest, b, bufs[b].refcnt - 1);
      Busier(bufs, order, b, bufs[b].(refcnt := bufs[b].refcnt - 1));
      hide Counted;
      locked := locked - {b};
      bufs := bufs[b := bufs[b].(refcnt := bufs[b].refcnt - 1)];
      holders := holders[b := holders[b] - 1];
      if bufs[b].refcnt == 0 {
        ghost var o := order;
        ToFront(b);
        ghost var i: nat :| i < n && o[i] == b && order == [b] + Without(o, i);
        MovedSingle(bufs, o, i);
      }
    }

    /** The list surgery of `brelse`. */
    method ToFront(b: nat)
      requires Permutation(order, n) && Circle(next, prev, order, n) && b < n
      modifies `next, `prev, `order
      ensures Permutation(order, n) && Circle(next, prev, order, n)
      ensures exists i: nat :: i < n && old(order)[i] == b && order == [b] + Without(old(order), i)
    {
      hide Circle, Permutation, Without;
      ghost var i := TakenOut(next, prev, order, n, b);
      ghost var o := Without(order, i);
      var nb, pb := next[b], prev[b];
      prev := prev[next[b] := pb];
      next := next[pb := nb];
      LinkFront(next, prev, o, n, b);
      next := next[b := next[n]];
      prev := prev[b := n];
      prev := prev[next[n] := b];
      next := next[n := b];
      order := [b] + o;
    }

    /** `bpin`. The cache stays sound for every buffer but one that nobody ever got. */
    method Bpin(b: nat)
      requires Valid() && b < n
      modifies `bufs, `pins
      ensures bufs == old(bufs)[b := old(bufs)[b].(refcnt := old(bufs)[b].refcnt + 1)]
      ensures |old(pins)| == n && pins == old(pins)[b := old(pins)[b] + 1]
      ensures !Idle(old(bufs)[b]) ==> Valid()
    {
      hide Circle, Permutation, Single, Coherent;
      if !Idle(bufs[b]) {
        Recount(bufs, disk, latest, b, bufs[b].refcnt + 1);
        Busier(bufs, order, b, bufs[b].(refcnt := bufs[b].refcnt + 1));
      }
      bufs := bufs[b := bufs[b].(refcnt := bufs[b].refcnt + 1)];
      pins := pins[b := pins[b] + 1];
    }

    /** `bunpin`, whose count of 32 bits wraps at 0. The cache stays sound for every buffer
        that has a pin. */
    method Bunpin(b: nat)
      requires Valid() && b < n
      modifies `bufs, `pins
      ensures |old(pins)| == n
      ensures var count := if old(bufs)[b].refcnt == 0 then 0xffff_ffff else old(bufs)[b].refcnt - 1;
        bufs == old(bufs)[b := old(bufs)[b].(refcnt := count)]
      ensures pins == if old(pins)[b] == 0 then old(pins) else old(pins)[b := old(pins)[b] - 1]
      ensures old(pins)[b] > 0 ==> Valid()
    {
      hide Circle, Permutation, Single, Coherent;
      var count := if bufs[b].refcnt == 0 then 0xffff_ffff else bufs[b].refcnt - 1;
      if pins[b] > 0 {
        Recount(bufs, disk, latest, b, count);
        Busier(bufs, order, b, bufs[b].(refcnt := count));
        pins := pins[b := pins[b] - 1];
      }
      bufs := bufs[b := bufs[b].(refcnt := count)];
    }
  }

  lemma Reference(bufs: seq<Buf>, holders: seq<nat>, pins: seq<nat>, locked: set<nat>, b: nat)
    requires Counted(bufs, holders, pins, locked) && b < |bufs|
    ensures |holders| == |bufs|
    ensures Counted(bufs[b := bufs[b].(refcnt := bufs[b].refcnt + 1)], holders[b := holders[b] + 1], pins, locked)
  {
  }

  lemma Adopt(bufs: seq<Buf>, holders: seq<nat>, pins: seq<nat>, locked: set<nat>, b: nat, id: Id)
    requires Counted(bufs, holders, pins, locked) && b < |bufs| && bufs[b].refcnt == 0
    ensures |holders| == |bufs|
    ensures Counted(bufs[b := Buf(id, 1, false, bufs[b].data)], holders[b := holders[b] + 1], pins, locked)
  {
  }

  lemma Unreference(bufs: seq<Buf>, holders: seq<nat>, pins: seq<nat>, locked: set<nat>, b: nat)
    requires Counted(bufs, holders, pins, locked) && b in locked
    ensures |holders| == |bufs| && b < |bufs| && holders[b] > 0 && bufs[b].refcnt > 0 && bufs[b].valid
    ensures Counted(bufs[b := bufs[b].(refcnt := bufs[b].refcnt - 1)], holders[b := holders[b] - 1], pins, locked - {b})
  {
  }
}
