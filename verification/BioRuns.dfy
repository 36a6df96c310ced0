/** Every run of the buffer cache (kernel/bio.c): to clients that write before they let
    go of a buffer it is the disk. */
module BioRuns {
  import opened BioList
  import opened Counting
  import opened BioCache

  /** What clients do: get a buffer for a block, lock and read it, store into it, write it
      to the disk, release it, pin it or unpin it. */
  datatype Event =
    | Want(id: Id) | Lock(b: nat) | Put(b: nat, data: nat) | Write(b: nat)
    | Release(b: nat) | Pin(b: nat) | Unpin(b: nat)

  /** A buffer for the block, the contents read, a call that is done, and one that does
      not happen: no buffer is left, or the caller may not do it now. */
  datatype Answer = Got(b: nat) | Read(data: nat) | Done | Refused

  /** A buffer in use: its block, the clients that got it, the pins, and whether one of
      the clients has it locked. */
  datatype Ref = Ref(id: Id, holders: nat, pins: nat, locked: bool)

  /** What the cache stands for: what a reader of each block gets, what is on the disk,
      and the buffers in use. */
  datatype View = View(latest: map<Id, nat>, disk: map<Id, nat>, refs: map<nat, Ref>)

  ghost function RefOf(bufs: seq<Buf>, holders: seq<nat>, pins: seq<nat>, locked: set<nat>, b: nat): Ref
    requires b < |bufs| == |holders| == |pins|
  {
    Ref(bufs[b].id, holders[b], pins[b], b in locked)
  }

  ghost function Refs(bufs: seq<Buf>, holders: seq<nat>, pins: seq<nat>, locked: set<nat>): map<nat, Ref>
    requires |bufs| == |holders| == |pins|
  {
    map b: nat | b < |bufs| && bufs[b].refcnt > 0 :: RefOf(bufs, holders, pins, locked, b)
  }

  ghost function ViewOf(c: Bcache): View
    requires c.Valid()
    reads c
  {
    View(c.latest, c.disk, Refs(c.bufs, c.holders, c.pins, c.locked))
  }

  /** One reference less. */
  function Dropped(refs: map<nat, Ref>, b: nat, r: Ref): map<nat, Ref> {
    if r.holders + r.pins == 0 then refs - {b} else refs[b := r]
  }

  ghost predicate Referenced(v: View, id: Id) {
    exists b :: b in v.refs && v.refs[b].id == id
  }

  /** Contents of a block that are not on the disk, in a buffer that nobody uses, can go
      when a buffer is recycled; nothing else can. */
  ghost predicate MayForget(v: View, v': View) {
    || v'.latest == v.latest
    || exists id :: !Referenced(v, id) && v'.latest == v.latest[id := Get(v.disk, id)]
  }

  /** What a call answers in a cache of `n` buffers, and what it leaves. */
  ghost predicate Next(n: nat, v: View, e: Event, r: Answer, v': View) {
    match e
    case Want(id) =>
      v'.disk == v.disk &&
      if Referenced(v, id) then
        r.Got? && r.b in v.refs && v.refs[r.b].id == id && v'.latest == v.latest
        && v'.refs == v.refs[r.b := v.refs[r.b].(holders := v.refs[r.b].holders + 1)]
      else if forall b: nat :: b < n ==> b in v.refs then r == Refused && v' == v
      else
        r.Got? && r.b < n && r.b !in v.refs && v'.refs == v.refs[r.b := Ref(id, 1, 0, false)]
        && MayForget(v, v') && Get(v'.latest, id) == Get(v.latest, id)
    case Lock(b) =>
      if b in v.refs && v.refs[b].holders > 0 && !v.refs[b].locked
      then r == Read(Get(v.latest, v.refs[b].id)) && v' == v.(refs := v.refs[b := v.refs[b].(locked := true)])
      else r == Refused && v' == v
    case Put(b, data) =>
      if b in v.refs && v.refs[b].locked
      then r == Done && v' == v.(latest := v.latest[v.refs[b].id := data])
      else r == Refused && v' == v
    case Write(b) =>
      if b in v.refs && v.refs[b].locked
      then r == Done && v' == v.(disk := v.disk[v.refs[b].id := Get(v.latest, v.refs[b].id)])
      else r == Refused && v' == v
    case Release(b) =>
      if b in v.refs && v.refs[b].locked && v.refs[b].holders > 0
      then
        var x := v.refs[b];
        r == Done && v' == v.(refs := Dropped(v.refs, b, x.(holders := x.holders - 1, locked := false)))
      else r == Refused && v' == v
    case Pin(b) =>
      if b in v.refs
      then r == Done && v' == v.(refs := v.refs[b := v.refs[b].(pins := v.refs[b].pins + 1)])
      else r == Refused && v' == v
    case Unpin(b) =>
      if b in v.refs && v.refs[b].pins > 0
      then
        var x := v.refs[b];
        r == Done && v' == v.(refs := Dropped(v.refs, b, x.(pins := x.pins - 1)))
      else r == Refused && v' == v
  }

  /** Call `i` of a run. */
  ghost predicate Follows(n: nat, events: seq<Event>, answers: seq<Answer>, views: seq<View>, i: nat)
    requires i < |events| == |answers| && |views| == |events| + 1
  {
    Next(n, views[i], events[i], answers[i], views[i + 1])
  }

  ghost predicate IsRun(n: nat, events: seq<Event>, answers: seq<Answer>, views: seq<View>) {
    && |answers| == |events| && |views| == |events| + 1
    && forall i {:trigger Follows(n, events, answers, views, i)} :: 0 <= i < |events| ==>
         Follows(n, events, answers, views, i)
  }

  // ----- What the steps of the cache do to the view -----

  /** Only buffer `b` has changed. */
  lemma RefsChange(bufs: seq<Buf>, holders: seq<nat>, pins: seq<nat>, locked: set<nat>, b: nat,
                   bufs': seq<Buf>, holders': seq<nat>, pins': seq<nat>, locked': set<nat>)
    requires |bufs| == |holders| == |pins| == |bufs'| == |holders'| == |pins'| && b < |bufs|
    requires bufs' == bufs[b := bufs'[b]] && holders' == holders[b := holders'[b]] && pins' == pins[b := pins'[b]]
    requires locked' - {b} == locked - {b}
    ensures var was := Refs(bufs, holders, pins, locked);
      Refs(bufs', holders', pins', locked')
      == if bufs'[b].refcnt > 0 then was[b := RefOf(bufs', holders', pins', locked', b)] else was - {b}
  {
    var was, now := Refs(bufs, holders, pins, locked), Refs(bufs', holders', pins', locked');
    forall c: nat | c < |bufs| && c != b
      ensures c in now <==> c in was
      ensures c in now ==> now[c] == was[c]
    {
      assert c in locked' <==> c in locked - {b} + locked' * {b};
    }
  }

  lemma RefsAt(bufs: seq<Buf>, holders: seq<nat>, pins: seq<nat>, locked: set<nat>, b: nat)
    requires Counted(bufs, holders, pins, locked) && b < |bufs|
    ensures var refs := Refs(bufs, holders, pins, locked);
      && (b in refs <==> bufs[b].refcnt > 0) && (b in refs ==> refs[b] == RefOf(bufs, holders, pins, locked, b))
      && bufs[b].refcnt == holders[b] + pins[b] && (b in locked ==> holders[b] > 0)
  {
  }

  /** A client may lock, or have locked, only a buffer in use. */
  lemma LockedInUse(bufs: seq<Buf>, holders: seq<nat>, pins: seq<nat>, locked: set<nat>, b: nat)
    requires Counted(bufs, holders, pins, locked)
    ensures var refs := Refs(bufs, holders, pins, locked);
      && (b in locked <==> b in refs && refs[b].locked)
      && (b in refs ==> b < |bufs|) && (b in refs && refs[b].locked ==> refs[b].holders > 0)
  {
  }

  ghost predicate IdOf(bufs: seq<Buf>, b: int, id: Id) {
    0 <= b < |bufs| && bufs[b].refcnt > 0 && bufs[b].id == id
  }

  lemma ReferencedExact(v: View, bufs: seq<Buf>, holders: seq<nat>, pins: seq<nat>, locked: set<nat>, id: Id)
    requires Counted(bufs, holders, pins, locked) && v.refs == Refs(bufs, holders, pins, locked)
    ensures Referenced(v, id) <==> exists b :: IdOf(bufs, b, id)
  {
    if b :| IdOf(bufs, b, id) {
      assert b in v.refs && v.refs[b].id == id;
    }
    if Referenced(v, id) {
      var b :| b in v.refs && v.refs[b].id == id;
      assert IdOf(bufs, b, id);
    }
  }

  /** The first buffer of a block is the one in use, if any is. */
  lemma FirstInUse(bufs: seq<Buf>, order: seq<nat>, id: Id, b: nat)
    requires Permutation(order, |bufs|) && Single(bufs, order) && b < |bufs| && bufs[b].id == id
    requires exists i :: First(bufs, order, i) && order[i] == b
    ensures (exists c :: IdOf(bufs, c, id)) <==> bufs[b].refcnt > 0
  {
    if bufs[b].refcnt > 0 {
      assert IdOf(bufs, b, id);
    }
    if c :| IdOf(bufs, c, id) {
      Covers(order, |bufs|, c);
    }
  }

  /** The block of a buffer that holds contents is in no other buffer in use. */
  lemma EvictedUnused(bufs: seq<Buf>, order: seq<nat>, b: nat)
    requires Permutation(order, |bufs|) && Single(bufs, order) && b < |bufs| && bufs[b].valid && bufs[b].refcnt == 0
    ensures !exists c :: IdOf(bufs, c, bufs[b].id)
  {
    if c :| IdOf(bufs, c, bufs[b].id) {
      OneActive(bufs, order, b, c);
    }
  }

  // ----- Runs -----

  method WantStep(c: Bcache, id: Id) returns (r: Answer)
    requires c.Valid()
    modifies c
    ensures c.Valid() && Next(c.n, old(ViewOf(c)), Want(id), r, ViewOf(c))
  {
    hide Coherent, Circle, Counted, Single, Permutation, Refs, Referenced, First, Victim, RefOf;
    ghost var v, bufs, holders := ViewOf(c), c.bufs, c.holders;
    CountedSizes(bufs, holders, c.pins, c.locked);
    ReferencedExact(v, bufs, holders, c.pins, c.locked, id);
    var ok, b := c.Bget(id);
    if !ok {
      forall d: nat | d < c.n ensures d in v.refs { RefsAt(bufs, holders, c.pins, c.locked, d); }
      return Refused;
    }
    RefsAt(bufs, holders, c.pins, c.locked, b);
    CountedSizes(c.bufs, c.holders, c.pins, c.locked);
    RefsChange(bufs, holders, c.pins, c.locked, b, c.bufs, c.holders, c.pins, c.locked);
    RefIs(bufs, holders, c.pins, c.locked, b);
    RefIs(c.bufs, c.holders, c.pins, c.locked, b);
    if bufs[b].id == id {
      FirstInUse(bufs, c.order, id, b);
    } else if bufs[b].valid {
      VictimFree(bufs, c.order, b);
      EvictedUnused(bufs, c.order, b);
      ReferencedExact(v, bufs, holders, c.pins, c.locked, bufs[b].id);
    } else {
      VictimFree(bufs, c.order, b);
    }
    return Got(b);
  }

  method Step(c: Bcache, e: Event) returns (r: Answer)
    requires c.Valid()
    modifies c
    ensures c.Valid() && Next(c.n, old(ViewOf(c)), e, r, ViewOf(c))
  {
    hide Next, ViewOf;
    if e.Want? {
      r := WantStep(c, e.id);
      return;
    }
    r := OtherStep(c, e);
  }

  method OtherStep(c: Bcache, e: Event) returns (r: Answer)
    requires c.Valid() && !e.Want?
    modifies c
    ensures c.Valid() && Next(c.n, old(ViewOf(c)), e, r, ViewOf(c))
  {
    hide Coherent, Circle, Counted, Single, Permutation, Refs, Referenced, RefOf;
    ghost var v, bufs, holders, pins, locked := ViewOf(c), c.bufs, c.holders, c.pins, c.locked;
    CountedSizes(bufs, holders, pins, locked);
    var b := e.b;
    LockedInUse(bufs, holders, pins, locked, b);
    if b < c.n {
      RefsAt(bufs, holders, pins, locked, b);
      RefIs(bufs, holders, pins, locked, b);
      assert b in v.refs ==> v.refs[b := v.refs[b]] == v.refs;
    }
    r := Done;
    match e {
      case Lock(_) =>
        if b >= c.n || c.holders[b] == 0 || b in c.locked { return Refused; }
        c.LockAndFill(b);
        r := Read(c.bufs[b].data);
      case Put(_, data) =>
        if b !in c.locked { return Refused; }
        c.Store(b, data);
      case Write(_) =>
        if b !in c.locked { return Refused; }
        c.Bwrite(b);
      case Release(_) =>
        if b !in c.locked { return Refused; }
        c.Brelse(b);
      case Pin(_) =>
        if b >= c.n || c.bufs[b].refcnt == 0 { return Refused; }
        c.Bpin(b);
      case Unpin(_) =>
        if b >= c.n || c.pins[b] == 0 { return Refused; }
        c.Bunpin(b);
    }
    CountedSizes(c.bufs, c.holders, c.pins, c.locked);
    RefIs(c.bufs, c.holders, c.pins, c.locked, b);
    RefsChange(bufs, holders, pins, locked, b, c.bufs, c.holders, c.pins, c.locked);
  }

  /** Whatever clients do in whatever order, each call answers from the view as the calls
      before it left it, and the cache represents the view at the end. */
  method Run(c: Bcache, events: seq<Event>) returns (answers: seq<Answer>, ghost views: seq<View>)
    requires c.Valid()
    modifies c
    ensures c.Valid() && IsRun(c.n, events, answers, views)
    ensures views[0] == old(ViewOf(c)) && views[|events|] == ViewOf(c)
  {
    hide Coherent, Circle, Counted, Single, Permutation, Refs, Next;
    answers, views := [], [ViewOf(c)];
    var i := 0;
    while i < |events|
      invariant 0 <= i <= |events| && c.Valid() && IsRun(c.n, events[..i], answers, views)
      invariant views[0] == old(ViewOf(c)) && views[i] == ViewOf(c)
    {
      var r := Step(c, events[i]);
      RunMore(c.n, events[..i], answers, views, events[i], r, ViewOf(c));
      assert events[..i] + [events[i]] == events[..i + 1];
      answers, views := answers + [r], views + [ViewOf(c)];
      i := i + 1;
    }
    assert events[..i] == events;
  }

  lemma RunMore(n: nat, events: seq<Event>, answers: seq<Answer>, views: seq<View>, e: Event, r: Answer, v: View)
    requires IsRun(n, events, answers, views) && Next(n, views[|events|], e, r, v)
    ensures IsRun(n, events + [e], answers + [r], views + [v])
  {
    hide Next;
    forall i | 0 <= i < |events + [e]|
      ensures Follows(n, events + [e], answers + [r], views + [v], i)
    {
      if i < |events| { assert Follows(n, events, answers, views, i); }
    }
  }

  // ----- What clients that keep the rules see -----

  /** Contents that are not on the disk are in a buffer in use. */
  ghost predicate Clean(v: View) {
    forall id: Id :: Get(v.latest, id) != Get(v.disk, id) ==> Referenced(v, id)
  }

  /** The rule of the interface: whoever gives up the last reference to a buffer has
      written what it holds. */
  ghost predicate Written(v: View, e: Event) {
    (e.Release? || e.Unpin?) && e.b in v.refs && v.refs[e.b].holders + v.refs[e.b].pins == 1 ==>
      Get(v.latest, v.refs[e.b].id) == Get(v.disk, v.refs[e.b].id)
  }

  /** What was last stored in block `id` by the first `i` calls. */
  ghost function LastPut(events: seq<Event>, views: seq<View>, i: nat, id: Id): nat
    requires i <= |events| < |views|
  {
    if i == 0 then Get(views[0].latest, id)
    else
      var e, v := events[i - 1], views[i - 1];
      if e.Put? && e.b in v.refs && v.refs[e.b].locked && v.refs[e.b].id == id then e.data
      else LastPut(events, views, i - 1, id)
  }

  lemma {:induction false} StepClean(n: nat, v: View, e: Event, r: Answer, v': View, id: Id)
    requires Clean(v) && Written(v, e) && Next(n, v, e, r, v')
    ensures Get(v'.latest, id) != Get(v'.disk, id) ==> Referenced(v', id)
    ensures Get(v'.latest, id)
            == if e.Put? && e.b in v.refs && v.refs[e.b].locked && v.refs[e.b].id == id then e.data
               else Get(v.latest, id)
  {
    if Referenced(v, id) {
      var b :| b in v.refs && v.refs[b].id == id;
      if b in v'.refs {
        assert v'.refs[b].id == id;
      }
    }
    if e.Put? && e.b in v.refs && v.refs[e.b].id == id {
      assert e.b in v'.refs ==> v'.refs[e.b].id == id;
    }
  }

  /** Transparency: when everyone writes a buffer before giving up the last reference to
      it, each read of a run gives what was last stored in the block, across all
      recycling of buffers. */
  lemma {:induction false} Transparent(
    n: nat, events: seq<Event>, answers: seq<Answer>, views: seq<View>, i: nat, id: Id)
    requires IsRun(n, events, answers, views) && Clean(views[0]) && i <= |events|
    requires forall k :: 0 <= k < i ==> Written(views[k], events[k])
    ensures Clean(views[i]) && Get(views[i].latest, id) == LastPut(events, views, i, id)
    ensures i < |events| && events[i].Lock? && answers[i] != Refused ==>
              events[i].b in views[i].refs
              && (views[i].refs[events[i].b].id == id ==> answers[i] == Read(LastPut(events, views, i, id)))
  {
    if i > 0 {
      hide Next, Written;
      assert Written(views[i - 1], events[i - 1]);
      Transparent(n, events, answers, views, i - 1, id);
      assert Follows(n, events, answers, views, i - 1);
      forall x: Id ensures Get(views[i].latest, x) != Get(views[i].disk, x) ==> Referenced(views[i], x) {
        StepClean(n, views[i - 1], events[i - 1], answers[i - 1], views[i], x);
      }
      StepClean(n, views[i - 1], events[i - 1], answers[i - 1], views[i], id);
    }
    if i < |events| {
      LockReads(n, events, answers, views, i);
    }
  }

  lemma LockReads(n: nat, events: seq<Event>, answers: seq<Answer>, views: seq<View>, i: nat)
    requires IsRun(n, events, answers, views) && i < |events|
    ensures events[i].Lock? && answers[i] != Refused ==>
              events[i].b in views[i].refs && answers[i] == Read(Get(views[i].latest, views[i].refs[events[i].b].id))
  {
    assert Follows(n, events, answers, views, i);
  }

  /** `bread` in a cache of one buffer that has another block and that nobody uses. */
  method ReadAnew(c: Bcache, x: Id) returns (data: nat)
    requires c.Valid() && c.n == 1 && c.bufs[0].refcnt == 0 && c.bufs[0].id != x && c.locked == {}
    modifies c
    ensures c.Valid() && c.disk == old(c.disk) && c.locked == {0}
    ensures c.bufs[0].refcnt == 1 && c.bufs[0].id == x && data == Get(c.disk, x)
  {
    hide Coherent, Circle, Counted, Single, Permutation, First, Victim;
    CountedSizes(c.bufs, c.holders, c.pins, c.locked);
    NotCached(c.bufs, c.disk, c.latest, x);
    var ok, b := c.Bget(x);
    c.LockAndFill(0);
    data := c.bufs[0].data;
  }

  lemma NotCached(bufs: seq<Buf>, disk: map<Id, nat>, latest: map<Id, nat>, x: Id)
    requires Coherent(bufs, disk, latest) && forall b :: 0 <= b < |bufs| ==> bufs[b].id != x
    ensures Get(disk, x) == Get(latest, x)
  {
  }

  /** The rule is needed: in a cache of one buffer, what is stored in a block and not
      written is gone once another block has been read. */
  method ForgetsUnwritten(disk: map<Id, nat>, x: Id, y: Id, data: nat) returns (read: nat)
    requires x != y && x != BLANK
    ensures read == Get(disk, x)
  {
    hide Coherent, Circle, Counted, Single, Permutation;
    var c := new Bcache(1, disk);
    read := ReadAnew(c, x);
    c.Store(0, data);
    c.Brelse(0);
    read := ReadAnew(c, y);
    c.Brelse(0);
    read := ReadAnew(c, x);
  }

  lemma CountedSizes(bufs: seq<Buf>, holders: seq<nat>, pins: seq<nat>, locked: set<nat>)
    requires Counted(bufs, holders, pins, locked)
    ensures |bufs| == |holders| == |pins|
  {
  }

  lemma RefIs(bufs: seq<Buf>, holders: seq<nat>, pins: seq<nat>, locked: set<nat>, b: nat)
    requires Counted(bufs, holders, pins, locked) && b < |bufs|
    ensures RefOf(bufs, holders, pins, locked, b) == Ref(bufs[b].id, holders[b], pins[b], b in locked)
    ensures bufs[b].refcnt == holders[b] + pins[b] && (b in locked ==> holders[b] > 0)
  {
  }

  lemma VictimFree(bufs: seq<Buf>, order: seq<nat>, b: nat)
    requires exists i: nat :: Victim(bufs, order, i) && order[i] == b
    ensures b < |bufs| && bufs[b].refcnt == 0
  {
  }
}
