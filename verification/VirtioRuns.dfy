/** Every interleaving of the processes, the interrupt handler and the device
    (kernel/virtio_disk.c). */
module VirtioRuns {
  import opened Counting
  import opened VirtioDisk
  import opened VirtioDriver

  /** A process fills a buffer, calls `virtio_disk_rw`, or wakes up because its flag is
      down; one round of the interrupt handler; or a step of the device. */
  datatype Event =
    | Put(b: nat, data: nat)
    | Call(b: nat, write: bool, blockno: nat)
    | Wake(b: nat)
    | Interrupt
    | Take
    | Complete(h: nat, status: nat, moved: bool)

  /** What a step comes to, with the request it concerns: accepted, taken by the device,
      done there, reported to its buffer, freed. `Sleeps` is a call that waits for
      descriptors, `Panics` the handler at a failed request, `Idle` a step with nothing
      to do, `Refused` one that cannot happen now. */
  datatype Answer =
    | Stored | Accepted(h: nat) | Took(h: nat) | Done(h: nat) | Cleared(h: nat) | Freed(h: nat)
    | Sleeps | Panics | Idle | Refused

  /** A request in flight: its buffer, its command, and where it is. */
  datatype Job = Job(b: nat, op: Op, stage: Stage)

  /** What driver and device stand for: the requests in flight by first descriptor, the
      queues to and from the device, and what buffers and disk hold. */
  datatype View = View(jobs: map<nat, Job>, offered: seq<nat>, finished: seq<nat>, bytes: Bytes)

  ghost function Jobs(reqs: map<nat, Req>): map<nat, Job> {
    map h | h in reqs :: Job(reqs[h].b, reqs[h].op, reqs[h].stage)
  }

  ghost function ViewOf(d: Disk): View
    reads d
  {
    View(Jobs(d.book.reqs), d.book.offered, d.book.finished, d.bytes)
  }

  /** Buffer `b` has a request in flight. */
  ghost predicate InFlight(v: View, b: nat) {
    exists h :: h in v.jobs && v.jobs[h].b == b
  }

  ghost predicate Is(v: View, h: nat, b: nat, stage: Stage) {
    h in v.jobs && v.jobs[h].b == b && v.jobs[h].stage == stage
  }

  /** Request `h` is at another stage. */
  ghost function At(v: View, h: nat, stage: Stage): map<nat, Job>
    requires h in v.jobs
  {
    v.jobs[h := v.jobs[h].(stage := stage)]
  }

  /** What a step comes to with `num` descriptors, and what it leaves. */
  ghost predicate Next(num: nat, v: View, e: Event, r: Answer, v': View) {
    match e
    case Put(b, x) =>
      if InFlight(v, b) then r == Refused && v' == v
      else r == Stored && v' == v.(bytes := v.bytes.(data := v.bytes.data[b := x]))
    case Call(b, write, blockno) =>
      if InFlight(v, b) then r == Refused && v' == v
      else if 3 * |v.jobs| + 3 > num then r == Sleeps && v' == v
      else
        && r.Accepted? && r.h < num && r.h !in v.jobs
        && v' == v.(jobs := v.jobs[r.h := Job(b, Op(write, blockno * 2), Offered)], offered := v.offered + [r.h])
    case Wake(b) =>
      if r.Freed? then Is(v, r.h, b, Reported) && v' == v.(jobs := v.jobs - {r.h})
      else r == Refused && v' == v && forall h: nat :: !Is(v, h, b, Reported)
    case Interrupt =>
      if v.finished == [] then r == Idle && v' == v
      else
        var h := v.finished[0];
        h in v.jobs && v.jobs[h].stage.Finished? &&
        if v.jobs[h].stage.status != 0 then r == Panics && v' == v
        else r == Cleared(h) && v' == v.(jobs := At(v, h, Reported), finished := v.finished[1..])
    case Take =>
      if v.offered == [] then r == Idle && v' == v
      else
        var h := v.offered[0];
        && h in v.jobs && v.jobs[h].stage == Offered && r == Took(h)
        && v' == v.(jobs := At(v, h, Taken), offered := v.offered[1..])
    case Complete(h, status, moved) =>
      if h in v.jobs && v.jobs[h].stage == Taken && (status == 0 ==> moved) then
        && r == Done(h)
        && v' == View(At(v, h, Finished(status)), v.offered, v.finished + [h],
                      if moved then Moved(v.bytes, v.jobs[h].op, v.jobs[h].b) else v.bytes)
      else r == Refused && v' == v
  }

  /** Step `i` of a run. */
  ghost predicate Follows(num: nat, events: seq<Event>, answers: seq<Answer>, views: seq<View>, i: nat)
    requires i < |events| == |answers| && |views| == |events| + 1
  {
    Next(num, views[i], events[i], answers[i], views[i + 1])
  }

  ghost predicate IsRun(num: nat, events: seq<Event>, answers: seq<Answer>, views: seq<View>) {
    && |answers| == |events| && |views| == |events| + 1
    && forall i {:trigger Follows(num, events, answers, views, i)} :: 0 <= i < |events| ==>
         Follows(num, events, answers, views, i)
  }

  // ----- How many descriptors are free -----

  function Count(free: seq<bool>): nat {
    if free == [] then 0 else Count(free[1..]) + if free[0] then 1 else 0
  }

  lemma {:induction false} CountSet(free: seq<bool>, i: nat)
    requires i < |free| && !free[i]
    ensures Count(free[i := true]) == Count(free) + 1
  {
    var s := free[i := true];
    if i == 0 {
      assert s[1..] == free[1..];
    } else {
      assert s[1..] == free[1..][i - 1 := true];
      CountSet(free[1..], i - 1);
    }
  }

  lemma {:induction false} CountAll(free: seq<bool>)
    requires forall i :: 0 <= i < |free| ==> free[i]
    ensures Count(free) == |free|
  {
    if free != [] { CountAll(free[1..]); }
  }

  /** The first `true` from `from` on. */
  lemma {:induction false} CountFirst(free: seq<bool>, from: nat) returns (i: nat)
    requires from <= |free| && Count(free[from..]) > 0
    ensures from <= i < |free| && free[i] && Count(free[i + 1..]) == Count(free[from..]) - 1
    decreases |free| - from
  {
    assert free[from..][1..] == free[from + 1..];
    if free[from] {
      i := from;
    } else {
      i := CountFirst(free, from + 1);
    }
  }

  lemma {:induction false} CountTail(free: seq<bool>, from: nat, i: nat)
    requires from <= i < |free| && free[i]
    ensures Count(free[from..]) >= Count(free[i + 1..]) + 1
    decreases i - from
  {
    assert free[from..][1..] == free[from + 1..];
    if from < i { CountTail(free, from + 1, i); }
  }

  lemma {:induction false} CountThree(free: seq<bool>)
    ensures Count(free) >= 3 <==> ThreeFree(free)
  {
    hide Count;
    assert free[0..] == free;
    if Count(free) >= 3 {
      var i := CountFirst(free, 0);
      var j := CountFirst(free, i + 1);
      var k := CountFirst(free, j + 1);
    }
    if ThreeFree(free) {
      var i, j, k :| 0 <= i < j < k < |free| && free[i] && free[j] && free[k];
      CountTail(free, 0, i);
      CountTail(free, i + 1, j);
      CountTail(free, j + 1, k);
    }
  }

  /** Each request in flight takes three descriptors. */
  lemma {:induction false} FreeCount(
    num: nat, free: seq<bool>, desc: seq<Desc>, ops: seq<Op>, owner: seq<nat>, reqs: map<nat, Req>)
    requires Partition(num, free, desc, ops, owner, reqs)
    ensures Count(free) + 3 * |reqs| == num
    decreases |reqs|
  {
    hide Partition, Chained, Count;
    PartitionBasics(num, free, desc, ops, owner, reqs);
    if reqs == map[] {
      AllFree(num, free, desc, ops, owner, reqs);
      CountAll(free);
    } else {
      var h :| h in reqs;
      var r := reqs[h];
      Discharge(num, free, desc, ops, owner, reqs, h);
      ChainDistinct(num, desc, ops, h, r);
      Fewer(reqs, h);
      FreeCount(num, free[h := true][r.i1 := true][r.i2 := true], desc[h := CLEAR][r.i1 := CLEAR][r.i2 := CLEAR], ops,
                owner[h := num][r.i1 := num][r.i2 := num], reqs - {h});
      CountSet(free, h);
      CountSet(free[h := true], r.i1);
      CountSet(free[h := true][r.i1 := true], r.i2);
    }
  }

  lemma AllFree(num: nat, free: seq<bool>, desc: seq<Desc>, ops: seq<Op>, owner: seq<nat>, reqs: map<nat, Req>)
    requires Partition(num, free, desc, ops, owner, reqs) && reqs == map[]
    ensures |free| == num && forall i :: 0 <= i < num ==> free[i]
  {
  }

  lemma ChainDistinct(num: nat, desc: seq<Desc>, ops: seq<Op>, h: nat, r: Req)
    requires Chained(num, desc, ops, h, r)
    ensures |desc| == num && h < num && r.i1 < num && r.i2 < num && h != r.i1 && h != r.i2 && r.i1 != r.i2
  {
  }

  lemma Fewer(reqs: map<nat, Req>, h: nat)
    requires h in reqs
    ensures |reqs - {h}| == |reqs| - 1
  {
    assert (reqs - {h}).Keys == reqs.Keys - {h};
    assert reqs == (reqs - {h})[h := reqs[h]];
  }

  lemma JobsSize(reqs: map<nat, Req>)
    ensures |Jobs(reqs)| == |reqs|
  {
    assert Jobs(reqs).Keys == reqs.Keys;
  }

  // ----- What the steps do to the view -----

  lemma JobsStaged(reqs: map<nat, Req>, h: nat, stage: Stage)
    requires h in reqs
    ensures Jobs(Staged(reqs, h, stage)) == Jobs(reqs)[h := Job(reqs[h].b, reqs[h].op, stage)]
  {
  }

  lemma FlightTracked(
    num: nat, v: View, reqs: map<nat, Req>, info: seq<Info>, busy: set<nat>, heads: map<nat, nat>, b: nat)
    requires Tracked(num, reqs, info, busy, heads) && v.jobs == Jobs(reqs)
    ensures InFlight(v, b) <==> b in heads
    ensures b in heads ==> heads[b] in reqs && (b !in busy <==> reqs[heads[b]].stage == Reported)
    ensures forall h: nat :: Is(v, h, b, Reported) <==> b in heads && b !in busy && h == heads[b]
  {
    if b in heads {
      assert heads[b] in v.jobs && v.jobs[heads[b]].b == b;
    }
  }

  // ----- Runs -----

  method CallStep(d: Disk, b: nat, write: bool, blockno: nat) returns (r: Answer)
    requires d.Valid()
    modifies d
    ensures d.Valid() && Next(d.num, old(ViewOf(d)), Call(b, write, blockno), r, ViewOf(d))
  {
    hide Partition, Tracked, Queued, Ring, InFlight, ThreeFree, Count;
    ghost var v, reqs := ViewOf(d), d.book.reqs;
    FlightTracked(d.num, v, reqs, d.info, d.busy, d.waiting, b);
    FreeCount(d.num, d.free, d.desc, d.ops, d.book.owner, reqs);
    CountThree(d.free);
    JobsSize(reqs);
    if b in d.waiting { return Refused; }
    var ok, h := d.Submit(b, write, blockno);
    if !ok { return Sleeps; }
    SubmittedFits(d.num, d.book.reqs, d.info, d.busy, d.waiting, h);
    return Accepted(h);
  }

  lemma SubmittedFits(num: nat, reqs: map<nat, Req>, info: seq<Info>, busy: set<nat>, heads: map<nat, nat>, h: nat)
    requires Tracked(num, reqs, info, busy, heads) && h in reqs
    ensures h < num
  {
  }

  method WakeStep(d: Disk, b: nat) returns (r: Answer)
    requires d.Valid()
    modifies d
    ensures d.Valid() && Next(d.num, old(ViewOf(d)), Wake(b), r, ViewOf(d))
  {
    hide Partition, Tracked, Queued, Ring, InFlight, Is;
    ghost var v, reqs := ViewOf(d), d.book.reqs;
    FlightTracked(d.num, v, reqs, d.info, d.busy, d.waiting, b);
    if b !in d.waiting || b in d.busy { return Refused; }
    var h := d.waiting[b];
    d.Finish(b, h);
    assert Jobs(d.book.reqs) == v.jobs - {h};
    return Freed(h);
  }

  method InterruptStep(d: Disk) returns (r: Answer)
    requires d.Valid()
    modifies d
    ensures d.Valid() && Next(d.num, old(ViewOf(d)), Interrupt, r, ViewOf(d))
  {
    hide Partition, Tracked, Queued, Ring, Staged, Jobs;
    ghost var reqs := d.book.reqs;
    RingEmpty(d.num, d.usedRing, d.deviceIdx, d.usedIdx, d.book.done, d.book.finished);
    if d.usedIdx == d.deviceIdx { return Idle; }
    QueuedReport(d.num, reqs, d.book.offered, d.working, d.book.finished);
    RingPop(d.num, d.usedRing, d.deviceIdx, d.usedIdx, d.book.done, d.book.finished);
    var h := d.usedRing[Place(d.num, d.usedIdx)];
    JobsStaged(reqs, h, Reported);
    JobAt(reqs, h);
    var ok := d.Report();
    r := if ok then Cleared(h) else Panics;
  }

  lemma JobAt(reqs: map<nat, Req>, h: nat)
    ensures h in Jobs(reqs) <==> h in reqs
    ensures h in reqs ==> Jobs(reqs)[h] == Job(reqs[h].b, reqs[h].op, reqs[h].stage)
  {
  }

  method DeviceStep(d: Disk, e: Event) returns (r: Answer)
    requires d.Valid() && (e.Take? || e.Complete?)
    modifies d
    ensures d.Valid() && Next(d.num, old(ViewOf(d)), e, r, ViewOf(d))
  {
    hide Partition, Tracked, Queued, Ring, Staged, Jobs, Moved;
    ghost var g, reqs := d.book, d.book.reqs;
    if e.Take? {
      RingEmpty(d.num, d.availRing, d.availIdx, d.lastAvail, g.seen, g.offered);
      if d.availIdx == d.lastAvail { return Idle; }
      QueuedTake(d.num, reqs, g.offered, d.working, g.finished);
      RingPop(d.num, d.availRing, d.availIdx, d.lastAvail, g.seen, g.offered);
      var h := d.availRing[Place(d.num, d.lastAvail)];
      JobsStaged(reqs, h, Taken);
      JobAt(reqs, h);
      var ok := d.DeviceTakes();
      return Took(h);
    }
    var Complete(h, status, moved) := e;
    JobAt(reqs, h);
    WorkingIs(d.num, reqs, g.offered, d.working, g.finished, h);
    if h !in d.working || (status == 0 && !moved) { return Refused; }
    JobsStaged(reqs, h, Finished(status));
    d.DeviceCompletes(h, status, moved);
    return Done(h);
  }

  lemma WorkingIs(num: nat, reqs: map<nat, Req>, offered: seq<nat>, working: set<nat>, finished: seq<nat>, h: nat)
    requires Queued(num, reqs, offered, working, finished)
    ensures h in working <==> h in reqs && reqs[h].stage == Taken
  {
  }

  method Step(d: Disk, e: Event) returns (r: Answer)
    requires d.Valid()
    modifies d
    ensures d.Valid() && Next(d.num, old(ViewOf(d)), e, r, ViewOf(d))
  {
    hide Partition, Tracked, Queued, Ring, Next;
    match e {
      case Put(b, x) => r := PutStep(d, b, x);
      case Call(b, write, blockno) => r := CallStep(d, b, write, blockno);
      case Wake(b) => r := WakeStep(d, b);
      case Interrupt => r := InterruptStep(d);
      case Take => r := DeviceStep(d, e);
      case Complete(_, _, _) => r := DeviceStep(d, e);
    }
  }

  method PutStep(d: Disk, b: nat, x: nat) returns (r: Answer)
    requires d.Valid()
    modifies d
    ensures d.Valid() && Next(d.num, old(ViewOf(d)), Put(b, x), r, ViewOf(d))
  {
    hide Partition, Tracked, Queued, Ring, InFlight;
    FlightTracked(d.num, ViewOf(d), d.book.reqs, d.info, d.busy, d.waiting, b);
    if b in d.waiting { return Refused; }
    d.Fill(b, x);
    return Stored;
  }

  /** Any run, from any state of the driver: each step answers from the view as the steps
      before it left it, and driver and device represent the view at the end. */
  method Run(d: Disk, events: seq<Event>) returns (answers: seq<Answer>, ghost views: seq<View>)
    requires d.Valid()
    modifies d
    ensures d.Valid() && IsRun(d.num, events, answers, views)
    ensures views[0] == old(ViewOf(d)) && views[|events|] == ViewOf(d)
  {
    hide Partition, Tracked, Queued, Ring, Next, Jobs;
    answers, views := [], [ViewOf(d)];
    var i := 0;
    while i < |events|
      invariant 0 <= i <= |events| && d.Valid() && IsRun(d.num, events[..i], answers, views)
      invariant views[0] == old(ViewOf(d)) && views[i] == ViewOf(d)
    {
      var r := Step(d, events[i]);
      RunMore(d.num, events[..i], answers, views, events[i], r, ViewOf(d));
      assert events[..i] + [events[i]] == events[..i + 1];
      answers, views := answers + [r], views + [ViewOf(d)];
      i := i + 1;
    }
    assert events[..i] == events;
  }

  lemma RunMore(num: nat, events: seq<Event>, answers: seq<Answer>, views: seq<View>, e: Event, r: Answer, v: View)
    requires IsRun(num, events, answers, views) && Next(num, views[|events|], e, r, v)
    ensures IsRun(num, events + [e], answers + [r], views + [v])
  {
    hide Next;
    forall i | 0 <= i < |events + [e]|
      ensures Follows(num, events + [e], answers + [r], views + [v], i)
    {
      if i < |events| { assert Follows(num, events, answers, views, i); }
    }
  }

  // ----- What holds of every run -----

  /** How far request `h` is: 0 when it is not in flight, else 1 to 4. */
  ghost function Progress(v: View, h: nat): nat {
    if h !in v.jobs then 0
    else match v.jobs[h].stage
      case Offered => 1
      case Taken => 2
      case Finished(_) => 3
      case Reported => 4
  }

  /** The step that the answer stands for, for request `h`; 5 when it concerns another. */
  function Part(r: Answer, h: nat): nat {
    match r
    case Accepted(x) => if x == h then 0 else 5
    case Took(x) => if x == h then 1 else 5
    case Done(x) => if x == h then 2 else 5
    case Cleared(x) => if x == h then 3 else 5
    case Freed(x) => if x == h then 4 else 5
    case _ => 5
  }

  /** The five parts of a request follow each other, and nothing else moves it. */
  lemma {:induction false} InTurn(num: nat, v: View, e: Event, r: Answer, v': View, h: nat)
    requires Next(num, v, e, r, v')
    ensures if Part(r, h) == 5 then Progress(v', h) == Progress(v, h)
            else Progress(v, h) == Part(r, h) && Progress(v', h) == if Part(r, h) == 4 then 0 else Part(r, h) + 1
    ensures Part(r, h) == 5 && h in v.jobs ==> h in v'.jobs && v'.jobs[h] == v.jobs[h]
    ensures 1 <= Part(r, h) <= 3 ==> h in v'.jobs && v'.jobs[h].b == v.jobs[h].b && v'.jobs[h].op == v.jobs[h].op
  {
    hide InFlight, Moved;
    match e {
      case Put(_, _) =>
      case Call(_, _, _) =>
      case Wake(_) =>
      case Interrupt =>
      case Take =>
      case Complete(_, _, _) =>
    }
  }

  /** The last step that concerned a request in flight. */
  lemma {:induction false} LastMove(
    num: nat, events: seq<Event>, answers: seq<Answer>, views: seq<View>, h: nat, j: nat) returns (i: nat)
    requires IsRun(num, events, answers, views) && views[0].jobs == map[] && j <= |events|
    requires Progress(views[j], h) > 0
    ensures i < j && Part(answers[i], h) + 1 == Progress(views[j], h) && Progress(views[i], h) == Part(answers[i], h)
    ensures forall k :: i < k < j ==> Part(answers[k], h) == 5
    ensures h in views[i + 1].jobs && h in views[j].jobs && views[i + 1].jobs[h] == views[j].jobs[h]
    decreases j
  {
    hide Next;
    if j > 0 {
      assert Follows(num, events, answers, views, j - 1);
      InTurn(num, views[j - 1], events[j - 1], answers[j - 1], views[j], h);
      if Part(answers[j - 1], h) == 5 {
        i := LastMove(num, events, answers, views, h, j - 1);
      } else {
        i := j - 1;
      }
    }
  }

  /** What an answer tells about the step. */
  lemma {:induction false} PartMeans(num: nat, v: View, e: Event, r: Answer, v': View, h: nat)
    requires Next(num, v, e, r, v')
    ensures Part(r, h) == 0 ==> e.Call? && h in v'.jobs && v'.jobs[h] == Job(e.b, Op(e.write, e.blockno * 2), Offered)
    ensures Part(r, h) == 2 ==>
      && e.Complete? && e.h == h && h in v.jobs && h in v'.jobs && v'.jobs[h].stage == Finished(e.status)
      && (e.status == 0 ==> v'.bytes == Moved(v.bytes, v.jobs[h].op, v.jobs[h].b))
    ensures Part(r, h) == 3 ==> h in v.jobs && v.jobs[h].stage == Finished(0)
    ensures Part(r, h) == 4 ==> e.Wake? && h in v.jobs && v.jobs[h].b == e.b
  {
    hide InFlight, Moved;
  }

  /** A buffer has one request in flight at most. */
  ghost predicate Unique(v: View) {
    forall h, k :: h in v.jobs && k in v.jobs && v.jobs[h].b == v.jobs[k].b ==> h == k
  }

  /** A step keeps that, and of a buffer in flight it changes the data only by completing
      its own request. */
  lemma {:induction false} StepData(num: nat, v: View, e: Event, r: Answer, v': View, h: nat)
    requires Next(num, v, e, r, v') && Unique(v)
    ensures Unique(v')
    ensures h in v.jobs && r != Done(h) ==> Get(v'.bytes.data, v.jobs[h].b) == Get(v.bytes.data, v.jobs[h].b)
  {
    match e {
      case Put(b, _) => assert h in v.jobs && v.jobs[h].b == b ==> InFlight(v, b);
      case Call(b, _, _) => assert forall k :: k in v.jobs && v.jobs[k].b == b ==> InFlight(v, b);
      case Wake(_) =>
      case Interrupt =>
      case Take =>
      case Complete(_, _, _) =>
    }
  }

  lemma {:induction false} RunUnique(num: nat, events: seq<Event>, answers: seq<Answer>, views: seq<View>, i: nat)
    requires IsRun(num, events, answers, views) && views[0].jobs == map[] && i <= |events|
    ensures Unique(views[i])
  {
    hide Next;
    if i > 0 {
      RunUnique(num, events, answers, views, i - 1);
      assert Follows(num, events, answers, views, i - 1);
      StepData(num, views[i - 1], events[i - 1], answers[i - 1], views[i], 0);
    }
  }

  /** Between two steps that concern a request its buffer keeps its data. */
  lemma {:induction false} DataStays(
    num: nat, events: seq<Event>, answers: seq<Answer>, views: seq<View>, h: nat, b: nat, i: nat, j: nat)
    requires IsRun(num, events, answers, views) && views[0].jobs == map[] && i <= j <= |events|
    requires h in views[i].jobs && views[i].jobs[h].b == b
    requires forall k :: i <= k < j ==> 5 == Part(answers[k], h) || Part(answers[k], h) == 1 || Part(answers[k], h) == 3
    ensures h in views[j].jobs && views[j].jobs[h].b == b
    ensures Get(views[j].bytes.data, b) == Get(views[i].bytes.data, b)
    decreases j
  {
    hide Next, Unique;
    if i < j {
      DataStays(num, events, answers, views, h, b, i, j - 1);
      assert Follows(num, events, answers, views, j - 1);
      RunUnique(num, events, answers, views, j - 1);
      StepData(num, views[j - 1], events[j - 1], answers[j - 1], views[j], h);
      InTurn(num, views[j - 1], events[j - 1], answers[j - 1], views[j], h);
      var part := Part(answers[j - 1], h);
      assert part == 5 || part == 1 || part == 3;
    }
  }

  /** Steps of a request: accepted at `a`, taken at `t`, done at `c`, reported at `i` and
      freed at `j`, and nothing else in between. */
  ghost predicate InOrder(answers: seq<Answer>, h: nat, a: nat, t: nat, c: nat, i: nat, j: nat) {
    && a < t < c < i < j < |answers|
    && answers[a] == Accepted(h) && answers[t] == Took(h) && answers[c] == Done(h) && answers[i] == Cleared(h)
    && answers[j] == Freed(h)
    && forall k :: a < k < j && k != t && k != c && k != i ==> Part(answers[k], h) == 5
  }

  /** Every request is carried out exactly once: when a process comes back from
      `virtio_disk_rw`, its request was accepted, taken, completed without an error and
      reported, each once and in this order, and nothing else concerned the request in
      between. A write put on the disk what the buffer held at the call; a read left in
      the buffer, where the process finds it, what the disk held at the completion. */
  lemma {:induction false} CarriedOutOnce(
    num: nat, events: seq<Event>, answers: seq<Answer>, views: seq<View>, j: nat, h: nat)
    returns (a: nat, t: nat, c: nat, i: nat)
    requires IsRun(num, events, answers, views) && views[0].jobs == map[] && j < |events| && answers[j] == Freed(h)
    ensures InOrder(answers, h, a, t, c, i, j)
    ensures events[j].Wake? && events[a].Call? && events[a].b == events[j].b
    ensures var b, sector := events[a].b, events[a].blockno * 2;
      && views[c + 1].bytes == Moved(views[c].bytes, Op(events[a].write, sector), b)
      && (events[a].write ==> Get(views[c + 1].bytes.image, sector) == Get(views[a].bytes.data, b))
      && Get(views[j + 1].bytes.data, b)
         == if events[a].write then Get(views[a].bytes.data, b) else Get(views[c].bytes.image, sector)
  {
    a, t, c, i := Parts(num, events, answers, views, j, h);
    DataOf(num, events, answers, views, a, t, c, i, j, h);
  }

  lemma {:induction false} DataOf(num: nat, events: seq<Event>, answers: seq<Answer>, views: seq<View>,
                                  a: nat, t: nat, c: nat, i: nat, j: nat, h: nat)
    requires IsRun(num, events, answers, views) && views[0].jobs == map[]
    requires InOrder(answers, h, a, t, c, i, j)
    ensures events[a].Call? && h in views[a + 1].jobs
    ensures var b := views[a + 1].jobs[h].b;
      && b == events[a].b && Get(views[c].bytes.data, b) == Get(views[a].bytes.data, b)
      && Get(views[j + 1].bytes.data, b) == Get(views[c + 1].bytes.data, b)
  {
    hide Next, Moved, Progress, Unique;
    StepAt(num, events, answers, views, a, h);
    var b := views[a + 1].jobs[h].b;
    assert forall k :: a + 1 <= k < c ==> Part(answers[k], h) == if k == t then 1 else 5;
    DataStays(num, events, answers, views, h, b, a + 1, c);
    StepAt(num, events, answers, views, c, h);
    assert forall k :: c + 1 <= k < j ==> Part(answers[k], h) == if k == i then 3 else 5;
    DataStays(num, events, answers, views, h, b, c + 1, j);
    KeptBytes(num, events, answers, views, a);
    KeptBytes(num, events, answers, views, j);
  }

  /** Calls and wakeups move no data. */
  lemma KeptBytes(num: nat, events: seq<Event>, answers: seq<Answer>, views: seq<View>, i: nat)
    requires IsRun(num, events, answers, views) && i < |events|
    ensures answers[i].Accepted? || answers[i].Freed? ==> views[i + 1].bytes == views[i].bytes
  {
    assert Follows(num, events, answers, views, i);
    hide Moved, InFlight, Is;
  }

  lemma {:induction false} Parts(
    num: nat, events: seq<Event>, answers: seq<Answer>, views: seq<View>, j: nat, h: nat)
    returns (a: nat, t: nat, c: nat, i: nat)
    requires IsRun(num, events, answers, views) && views[0].jobs == map[] && j < |events| && answers[j] == Freed(h)
    ensures InOrder(answers, h, a, t, c, i, j)
    ensures events[j].Wake? && events[a].Call? && events[a].b == events[j].b
    ensures views[c + 1].bytes == Moved(views[c].bytes, Op(events[a].write, events[a].blockno * 2), events[a].b)
  {
    hide Next, Moved, Progress;
    StepAt(num, events, answers, views, j, h);
    i := LastMove(num, events, answers, views, h, j);
    StepAt(num, events, answers, views, i, h);
    c := LastMove(num, events, answers, views, h, i);
    StepAt(num, events, answers, views, c, h);
    t := LastMove(num, events, answers, views, h, c);
    StepAt(num, events, answers, views, t, h);
    a := LastMove(num, events, answers, views, h, t);
    StepAt(num, events, answers, views, a, h);
  }

  lemma {:induction false} StepAt(num: nat, events: seq<Event>, answers: seq<Answer>, views: seq<View>, i: nat, h: nat)
    requires IsRun(num, events, answers, views) && i < |events|
    ensures var v, v', r, e := views[i], views[i + 1], answers[i], events[i];
      && (Part(r, h) < 5 ==> Progress(v, h) == Part(r, h))
      && (Part(r, h) == 0 ==> e.Call? && h in v'.jobs && v'.jobs[h] == Job(e.b, Op(e.write, e.blockno * 2), Offered))
      && (1 <= Part(r, h) <= 3 ==>
            h in v.jobs && h in v'.jobs && v'.jobs[h].b == v.jobs[h].b && v'.jobs[h].op == v.jobs[h].op)
      && (Part(r, h) == 2 ==>
            && e.Complete? && e.h == h && v'.jobs[h].stage == Finished(e.status)
            && (e.status == 0 ==> v'.bytes == Moved(v.bytes, v.jobs[h].op, v.jobs[h].b)))
      && (Part(r, h) == 3 ==> v.jobs[h].stage == Finished(0))
      && (Part(r, h) == 4 ==> e.Wake? && h in v.jobs && v.jobs[h].b == e.b)
  {
    hide Next, Moved;
    assert Follows(num, events, answers, views, i);
    InTurn(num, views[i], events[i], answers[i], views[i + 1], h);
    PartMeans(num, views[i], events[i], answers[i], views[i + 1], h);
  }
}
