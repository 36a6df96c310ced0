/** Whole runs of the logging protocol: operations that begin, log blocks and end
    while others are active, group commits that proceed one disk write at a time,
    and crashes at any moment (kernel/log.c). */
module LogRuns {
  import opened Counting
  import opened LogDisk

  /** One `log_write`: operation `op` leaves `data` in the cached copy of `block`. */
  datatype Upd = Upd(op: nat, block: nat, data: Block)

  /** An operation between `begin_op` and `end_op`, with the blocks it has logged. */
  datatype Live = Live(id: nat, blocks: set<nat>)

  /** `Commit(base, k)`: `log.committing` is set and `k` disk writes of the commit
      that started from disk `base` are done; `Recover` likewise for boot. */
  datatype Phase = Ready | Commit(base: Disk, k: nat) | Recover(base: Disk, k: nat)

  /** `blocks` is `log.lh` and `data` the pinned buffers of those blocks; `groups`
      are the transactions whose header reached the disk, `open` the updates of
      the current one, `used` every operation that ever began. */
  datatype Sys = Sys(
    disk: Disk, phase: Phase, live: seq<Live>, blocks: seq<nat>, data: seq<Block>,
    used: set<nat>, groups: seq<seq<Upd>>, open: seq<Upd>)

  datatype Event =
    | Begin(id: nat)
    | LogWrite(j: nat, block: nat, contents: Block)
    | End(j: nat)
    | CommitWrite
    | CommitDone
    | Crash
    | RecoverWrite
    | RecoverDone

  /** What an event waits for. `begin_op` sleeps while committing or while the
      operation might not fit; `log_write` panics on a full log. */
  ghost predicate Enabled(c: Layout, maxop: nat, s: Sys, e: Event) {
    match e
    case Begin(id) =>
      s.phase.Ready? && id !in s.used && |s.blocks| + (|s.live| + 1) * maxop <= c.cap
    case LogWrite(j, b, x) =>
      && j < |s.live| && |s.blocks| < c.cap
      && b < |s.disk| && !InLog(c, b)
      && |s.live[j].blocks + {b}| <= maxop
    case End(j) => j < |s.live|
    case CommitWrite =>
      && s.phase.Commit? && |s.blocks| == |s.data|
      && WellFormed(c, s.phase.base) && Homes(c, |s.phase.base|, s.blocks)
      && s.phase.k < CommitLength(|s.blocks|)
    case CommitDone => s.phase.Commit? && s.phase.k == CommitLength(|s.blocks|)
    case Crash => true
    case RecoverWrite =>
      s.phase.Recover? && WellFormed(c, s.phase.base) && s.phase.k <= |Head(c, s.phase.base)|
    case RecoverDone =>
      s.phase.Recover? && WellFormed(c, s.phase.base) && s.phase.k == |Head(c, s.phase.base)| + 1
  }

  /** `log_write`: absorb into an existing entry, or append and pin. */
  function Logged(blocks: seq<nat>, data: seq<Block>, b: nat, x: Block): (r: (seq<nat>, seq<Block>))
    requires |blocks| == |data|
    ensures |r.0| == |r.1|
  {
    var i := IndexOf(blocks, b);
    if i < |blocks| then (blocks, data[i := x]) else (blocks + [b], data + [x])
  }

  ghost function Step(c: Layout, maxop: nat, s: Sys, e: Event): Sys
    requires Enabled(c, maxop, s, e)
  {
    match e
    case Begin(id) =>
      s.(live := s.live + [Live(id, {})], used := s.used + {id})
    case LogWrite(j, b, x) =>
      if |s.blocks| != |s.data| then s
      else
        var l := s.live[j];
        var (blocks, data) := Logged(s.blocks, s.data, b, x);
        s.(live := s.live[j := Live(l.id, l.blocks + {b})], blocks := blocks, data := data,
        open := s.open + [Upd(l.id, b, x)])
    case End(j) =>
      var live := s.live[..j] + s.live[j + 1..];
      s.(live := live, phase := if live == [] then Commit(s.disk, 0) else s.phase)
    case CommitWrite =>
      var Commit(base, k) := s.phase;
      var t := s.(disk := Committing(c, base, s.blocks, s.data, k + 1), phase := Commit(base, k + 1));
      if k == |s.blocks| then t.(groups := s.groups + [s.open], open := []) else t
    case CommitDone => s.(phase := Ready, blocks := [], data := [])
    case Crash => s.(phase := Recover(s.disk, 0), live := [], blocks := [], data := [], open := [])
    case RecoverWrite =>
      var Recover(base, k) := s.phase;
      s.(disk := Recovering(c, base, k + 1), phase := Recover(base, k + 1))
    case RecoverDone => s.(phase := Ready)
  }

  /** The updates applied in order. */
  function Effects(v: seq<Block>, us: seq<Upd>): (r: seq<Block>)
    ensures |r| == |v|
  {
    if us == [] then v
    else
      var p := Effects(v, us[..|us| - 1]);
      var u := us[|us| - 1];
      if u.block < |p| then p[u.block := u.data] else p
  }

  /** Whole groups applied in order. */
  function GroupEffects(v: seq<Block>, groups: seq<seq<Upd>>): (r: seq<Block>)
    ensures |r| == |v|
  {
    if groups == [] then v
    else Effects(GroupEffects(v, groups[..|groups| - 1]), groups[|groups| - 1])
  }

  /** Log space still promised to the operations under way. */
  function Reserve(maxop: nat, live: seq<Live>): int {
    if live == [] then 0
    else Reserve(maxop, live[..|live| - 1]) + maxop - |live[|live| - 1].blocks|
  }

  /** The operations with an update among `us`. */
  function Ids(us: seq<Upd>): set<nat> {
    if us == [] then {} else Ids(us[..|us| - 1]) + {us[|us| - 1].op}
  }

  function LiveIds(live: seq<Live>): set<nat> {
    set l <- live :: l.id
  }

  // ----- The invariant -----

  /** The disk, in each phase. */
  ghost predicate DiskInv(c: Layout, s: Sys) {
    && WellFormed(c, s.disk)
    && |s.blocks| == |s.data| && Homes(c, |s.disk|, s.blocks)
    && match s.phase
       case Ready => Head(c, s.disk) == []
       case Commit(base, k) =>
         && WellFormed(c, base) && Head(c, base) == [] && |base| == |s.disk|
         && k <= CommitLength(|s.blocks|)
         && s.disk == Committing(c, base, s.blocks, s.data, k)
       case Recover(base, k) =>
         && WellFormed(c, base) && |base| == |s.disk| && s.blocks == []
         && k <= |Head(c, base)| + 1
         && s.disk == Recovering(c, base, k)
  }

  /** The current group is in memory only: its header is not on disk yet. */
  predicate Pending(s: Sys) {
    s.phase.Ready? || (s.phase.Commit? && s.phase.k <= |s.blocks|)
  }

  /** What the disk and the pinned buffers mean. */
  ghost predicate ViewInv(c: Layout, init: seq<Block>, s: Sys)
    requires DiskInv(c, s)
  {
    && |init| == |s.disk|
    && View(c, s.disk) == GroupEffects(init, s.groups)
    && (if Pending(s)
        then Update(View(c, s.disk), s.blocks, s.data) == Effects(View(c, s.disk), s.open)
        else s.open == [])
    && (s.blocks == [] ==> s.open == [])
  }

  /** Which operations have updates where: an operation in a committed group is
      over, and has no update in another group or in the current one. */
  ghost predicate OpInv(s: Sys) {
    && (!s.phase.Ready? ==> s.live == [])
    && (s.live == [] && s.phase.Ready? ==> s.open == [] && s.blocks == [])
    && LiveIds(s.live) + Ids(s.open) <= s.used
    && (forall i :: 0 <= i < |s.groups| ==>
          Ids(s.groups[i]) <= s.used && Ids(s.groups[i]) !! LiveIds(s.live) + Ids(s.open))
    && (forall i, j :: 0 <= i < j < |s.groups| ==> Ids(s.groups[i]) !! Ids(s.groups[j]))
  }

  /** Log space. */
  ghost predicate SpaceInv(c: Layout, maxop: nat, s: Sys) {
    && |s.blocks| + Reserve(maxop, s.live) <= c.cap
    && (forall j :: 0 <= j < |s.live| ==>
          |s.live[j].blocks| <= maxop && forall b <- s.live[j].blocks :: b in s.blocks)
  }

  ghost predicate Inv(c: Layout, maxop: nat, init: seq<Block>, s: Sys) {
    DiskInv(c, s) && ViewInv(c, init, s) && OpInv(s) && SpaceInv(c, maxop, s)
  }

  // ----- Every step keeps it -----

  lemma LoggedHomes(c: Layout, size: nat, blocks: seq<nat>, data: seq<Block>, b: nat, x: Block)
    requires |blocks| == |data| && |blocks| < c.cap && Homes(c, size, blocks)
    requires b < size && !InLog(c, b)
    ensures Homes(c, size, Logged(blocks, data, b, x).0)
  {
  }

  /** Logging a block adds its contents to what the transaction will install. */
  lemma LoggedUpdate(v: seq<Block>, blocks: seq<nat>, data: seq<Block>, b: nat, x: Block)
    requires |blocks| == |data| && b < |v|
    requires forall i, j :: 0 <= i < j < |blocks| ==> blocks[i] != blocks[j]
    ensures var (blocks', data') := Logged(blocks, data, b, x);
            Update(v, blocks', data') == Update(v, blocks, data)[b := x]
  {
    hide IndexOf;
    var (blocks', data') := Logged(blocks, data, b, x);
    forall a: nat | a < |v|
      ensures Update(v, blocks', data')[a] == Update(v, blocks, data)[b := x][a]
    {
      var i := IndexOf(blocks, a);
      var i' := IndexOf(blocks', a);
      if i < |blocks| {
        IndexExact(blocks, i);
        assert blocks'[i] == a && i' == i;
      } else {
        assert forall j :: 0 <= j < |blocks| ==> blocks'[j] == blocks[j];
        assert b == a ==> blocks'[|blocks|] == a;
      }
    }
  }

  lemma {:induction false} DiskKept(c: Layout, maxop: nat, init: seq<Block>, s: Sys, e: Event)
    requires Inv(c, maxop, init, s) && Enabled(c, maxop, s, e)
    ensures DiskInv(c, Step(c, maxop, s, e))
  {
    hide Committing, Recovering, IndexOf, View, Update;
    match e {
      case LogWrite(j, b, x) =>
        LoggedHomes(c, |s.disk|, s.blocks, s.data, b, x);
      case CommitWrite =>
        CommitView(c, s.phase.base, s.blocks, s.data, s.phase.k + 1);
      case CommitDone =>
        CommitView(c, s.phase.base, s.blocks, s.data, s.phase.k);
      case RecoverWrite =>
        RecoverKeepsView(c, s.phase.base, s.phase.k + 1);
      case RecoverDone =>
        RecoverKeepsView(c, s.phase.base, s.phase.k);
      case End(j) =>
        StartOfCommit(c, s.disk, s.blocks, s.data);
      case Crash =>
        StartOfRecovery(c, s.disk);
      case _ =>
    }
  }

  lemma EffectsAppend(v: seq<Block>, us: seq<Upd>, u: Upd)
    requires u.block < |v|
    ensures Effects(v, us + [u]) == Effects(v, us)[u.block := u.data]
  {
    assert (us + [u])[..|us|] == us;
  }

  lemma GroupEffectsAppend(v: seq<Block>, groups: seq<seq<Upd>>, g: seq<Upd>)
    ensures GroupEffects(v, groups + [g]) == Effects(GroupEffects(v, groups), g)
  {
    assert (groups + [g])[..|groups|] == groups;
  }

  lemma UpdateNothing(v: seq<Block>)
    ensures Update(v, [], []) == v
  {
  }

  lemma {:induction false} ViewKept(c: Layout, maxop: nat, init: seq<Block>, s: Sys, e: Event)
    requires Inv(c, maxop, init, s) && Enabled(c, maxop, s, e)
    requires DiskInv(c, Step(c, maxop, s, e))
    ensures ViewInv(c, init, Step(c, maxop, s, e))
  {
    hide Committing, Recovering, IndexOf, View, Update, WellFormed, Head, Homes, SpaceInv;
    var t := Step(c, maxop, s, e);
    match e {
      case LogWrite(j, b, x) =>
        ViewLogWrite(c, maxop, init, s, j, b, x);
      case CommitWrite =>
        ViewCommitWrite(c, maxop, init, s);
      case CommitDone =>
        UpdateNothing(View(c, t.disk));
      case RecoverWrite =>
        RecoverKeepsView(c, s.phase.base, s.phase.k);
        RecoverKeepsView(c, s.phase.base, s.phase.k + 1);
      case RecoverDone =>
        UpdateNothing(View(c, t.disk));
      case _ =>
    }
  }

  lemma {:induction false} ViewLogWrite(
    c: Layout, maxop: nat, init: seq<Block>, s: Sys, j: nat, b: nat, x: Block)
    requires Inv(c, maxop, init, s) && Enabled(c, maxop, s, LogWrite(j, b, x))
    requires DiskInv(c, Step(c, maxop, s, LogWrite(j, b, x)))
    ensures ViewInv(c, init, Step(c, maxop, s, LogWrite(j, b, x)))
  {
    LogWriteReady(s, j);
    LoggedUpdate(View(c, s.disk), s.blocks, s.data, b, x);
    EffectsAppend(View(c, s.disk), s.open, Upd(s.live[j].id, b, x));
    assert Logged(s.blocks, s.data, b, x).0 != [];
    hide View, Update, Homes, OpInv, SpaceInv, Logged, Effects, GroupEffects, WellFormed;
  }

  lemma {:induction false} ViewCommitWrite(c: Layout, maxop: nat, init: seq<Block>, s: Sys)
    requires Inv(c, maxop, init, s) && Enabled(c, maxop, s, CommitWrite)
    requires DiskInv(c, Step(c, maxop, s, CommitWrite))
    ensures ViewInv(c, init, Step(c, maxop, s, CommitWrite))
  {
    hide Committing, View, Update, WellFormed, Head, Homes, OpInv, SpaceInv;
    var Commit(base, k) := s.phase;
    CommitView(c, base, s.blocks, s.data, k);
    CommitView(c, base, s.blocks, s.data, k + 1);
    if k == |s.blocks| {
      GroupEffectsAppend(init, s.groups, s.open);
    }
    hide Effects, GroupEffects;
  }

  lemma LogWriteReady(s: Sys, j: nat)
    requires OpInv(s) && j < |s.live|
    ensures s.phase.Ready?
  {
  }

  /** A group that closes contains every update of its operations, for good. */
  lemma {:induction false} OpKept(c: Layout, maxop: nat, init: seq<Block>, s: Sys, e: Event)
    requires Inv(c, maxop, init, s) && Enabled(c, maxop, s, e)
    ensures OpInv(Step(c, maxop, s, e))
  {
    match e {
      case Begin(id) => OpBegin(c, maxop, s, id);
      case LogWrite(j, b, x) => OpLogWrite(c, maxop, s, j, b, x);
      case End(j) => OpEnd(c, maxop, s, j);
      case CommitWrite => OpCommitWrite(c, maxop, s);
      case CommitDone =>
        assert s.open == [] && s.live == [];
      case RecoverDone =>
        assert s.open == [] && s.blocks == [];
      case _ =>
    }
  }

  lemma OpBegin(c: Layout, maxop: nat, s: Sys, id: nat)
    requires OpInv(s) && Enabled(c, maxop, s, Begin(id))
    ensures OpInv(Step(c, maxop, s, Begin(id)))
  {
    LiveIdsAppend(s.live, Live(id, {}));
    hide LiveIds, Ids;
  }

  lemma OpLogWrite(c: Layout, maxop: nat, s: Sys, j: nat, b: nat, x: Block)
    requires OpInv(s) && Enabled(c, maxop, s, LogWrite(j, b, x))
    ensures OpInv(Step(c, maxop, s, LogWrite(j, b, x)))
  {
    if |s.blocks| == |s.data| {
      LiveIdsUpdate(s.live, j, s.live[j].blocks + {b});
      IdsAppend(s.open, Upd(s.live[j].id, b, x));
      hide LiveIds, Ids;
    }
  }

  lemma OpEnd(c: Layout, maxop: nat, s: Sys, j: nat)
    requires OpInv(s) && Enabled(c, maxop, s, End(j))
    ensures OpInv(Step(c, maxop, s, End(j)))
  {
    LiveIdsRemove(s.live, j);
    hide LiveIds, Ids;
  }

  lemma OpCommitWrite(c: Layout, maxop: nat, s: Sys)
    requires OpInv(s) && Enabled(c, maxop, s, CommitWrite)
    ensures OpInv(Step(c, maxop, s, CommitWrite))
  {
    hide Committing, WellFormed;
    var t := Step(c, maxop, s, CommitWrite);
    assert LiveIds(t.live) == {};
    assert s.phase.k == |s.blocks| ==> Ids(t.open) == {};
    forall i | 0 <= i < |t.groups|
      ensures Ids(t.groups[i]) <= s.used
    {
      assert i == |s.groups| || t.groups[i] == s.groups[i];
    }
  }

  lemma IdsAppend(us: seq<Upd>, u: Upd)
    ensures Ids(us + [u]) == Ids(us) + {u.op}
  {
    assert (us + [u])[..|us|] == us;
  }

  lemma LiveIdsUpdate(live: seq<Live>, j: nat, blocks: set<nat>)
    requires j < |live|
    ensures LiveIds(live[j := Live(live[j].id, blocks)]) == LiveIds(live) && live[j].id in LiveIds(live)
  {
    var after := live[j := Live(live[j].id, blocks)];
    forall x
      ensures x in LiveIds(after) <==> x in LiveIds(live)
    {
      if x in LiveIds(after) {
        var i :| 0 <= i < |after| && after[i].id == x;
        assert live[i].id == x && live[i] in live;
      }
      if x in LiveIds(live) {
        var i :| 0 <= i < |live| && live[i].id == x;
        assert after[i].id == x && after[i] in after;
      }
    }
    assert live[j] in live;
  }

  lemma LiveIdsAppend(live: seq<Live>, l: Live)
    ensures LiveIds(live + [l]) == LiveIds(live) + {l.id}
  {
    assert forall m :: m in live + [l] <==> m in live || m == l;
    assert l in live + [l];
  }

  lemma LiveIdsRemove(live: seq<Live>, j: nat)
    requires j < |live|
    ensures LiveIds(live[..j] + live[j + 1..]) <= LiveIds(live)
  {
  }

  lemma {:induction false} ReserveBound(maxop: nat, live: seq<Live>)
    requires forall j :: 0 <= j < |live| ==> |live[j].blocks| <= maxop
    ensures 0 <= Reserve(maxop, live) <= |live| * maxop
  {
    if live != [] {
      ReserveBound(maxop, live[..|live| - 1]);
    }
  }

  lemma {:induction false} ReserveUpdate(maxop: nat, live: seq<Live>, j: nat, l: Live)
    requires j < |live|
    ensures Reserve(maxop, live[j := l]) == Reserve(maxop, live) + |live[j].blocks| - |l.blocks|
  {
    var n := |live| - 1;
    if j < n {
      assert live[j := l][..n] == live[..n][j := l];
      ReserveUpdate(maxop, live[..n], j, l);
    } else {
      assert live[j := l][..n] == live[..n];
    }
  }

  lemma {:induction false} ReserveRemove(maxop: nat, live: seq<Live>, j: nat)
    requires j < |live|
    ensures Reserve(maxop, live[..j] + live[j + 1..]) == Reserve(maxop, live) - maxop + |live[j].blocks|
  {
    var n := |live| - 1;
    var rest := live[..j] + live[j + 1..];
    if j < n {
      assert rest[..n - 1] == live[..n][..j] + live[..n][j + 1..];
      ReserveRemove(maxop, live[..n], j);
    } else {
      assert rest == live[..n];
    }
  }

  /** An operation within its bound that logs a new block finds a free slot. */
  lemma {:induction false} AppendFits(c: Layout, maxop: nat, s: Sys, j: nat, b: nat)
    requires SpaceInv(c, maxop, s) && j < |s.live|
    requires b !in s.blocks && |s.live[j].blocks + {b}| <= maxop
    ensures |s.blocks| < c.cap
  {
    var l := s.live[j];
    assert b !in l.blocks;
    assert |l.blocks + {b}| == |l.blocks| + 1;
    ReserveUpdate(maxop, s.live, j, Live(l.id, l.blocks + {b}));
    ReserveBound(maxop, s.live[j := Live(l.id, l.blocks + {b})]);
  }

  lemma {:induction false} SpaceKept(c: Layout, maxop: nat, init: seq<Block>, s: Sys, e: Event)
    requires Inv(c, maxop, init, s) && Enabled(c, maxop, s, e)
    ensures SpaceInv(c, maxop, Step(c, maxop, s, e))
  {
    hide WellFormed, View, Update, Committing, Recovering, Homes, IndexOf, Effects, GroupEffects;
    match e {
      case Begin(id) => SpaceBegin(c, maxop, s, id);
      case LogWrite(j, b, x) => SpaceLogWrite(c, maxop, s, j, b, x);
      case End(j) => SpaceEnd(c, maxop, s, j);
      case CommitDone => ReserveBound(maxop, s.live);
      case Crash => ReserveBound(maxop, s.live);
      case _ =>
    }
  }

  lemma {:induction false} SpaceBegin(c: Layout, maxop: nat, s: Sys, id: nat)
    requires SpaceInv(c, maxop, s) && Enabled(c, maxop, s, Begin(id))
    ensures SpaceInv(c, maxop, Step(c, maxop, s, Begin(id)))
  {
    hide Reserve;
    ReserveBegin(maxop, s.live, Live(id, {}));
    RoomForOneMore(c, maxop, s);
  }

  lemma ReserveBegin(maxop: nat, live: seq<Live>, l: Live)
    ensures Reserve(maxop, live + [l]) == Reserve(maxop, live) + maxop - |l.blocks|
  {
    assert (live + [l])[..|live|] == live;
  }

  lemma RoomForOneMore(c: Layout, maxop: nat, s: Sys)
    requires SpaceInv(c, maxop, s) && |s.blocks| + (|s.live| + 1) * maxop <= c.cap
    ensures |s.blocks| + Reserve(maxop, s.live) + maxop <= c.cap
  {
    hide Reserve;
    ReserveBound(maxop, s.live);
    OneMore(|s.live|, maxop);
  }

  lemma OneMore(a: nat, b: nat)
    ensures (a + 1) * b == a * b + b
  {
  }

  lemma {:induction false} SpaceEnd(c: Layout, maxop: nat, s: Sys, j: nat)
    requires SpaceInv(c, maxop, s) && Enabled(c, maxop, s, End(j))
    ensures SpaceInv(c, maxop, Step(c, maxop, s, End(j)))
  {
    var t := Step(c, maxop, s, End(j));
    ReserveRemove(maxop, s.live, j);
    hide Reserve;
    assert forall i :: 0 <= i < |t.live| ==> t.live[i] == s.live[if i < j then i else i + 1];
  }

  lemma {:induction false} SpaceLogWrite(c: Layout, maxop: nat, s: Sys, j: nat, b: nat, x: Block)
    requires SpaceInv(c, maxop, s) && |s.blocks| == |s.data|
    requires Enabled(c, maxop, s, LogWrite(j, b, x))
    ensures SpaceInv(c, maxop, Step(c, maxop, s, LogWrite(j, b, x)))
  {
    hide IndexOf;
    var t := Step(c, maxop, s, LogWrite(j, b, x));
    var l := s.live[j];
    ReserveUpdate(maxop, s.live, j, Live(l.id, l.blocks + {b}));
    SubsetSize(l.blocks, l.blocks + {b});
    if b in s.blocks {
      assert t.blocks == s.blocks;
    } else {
      assert t.blocks == s.blocks + [b];
      assert |l.blocks + {b}| == |l.blocks| + 1;
    }
  }

  lemma {:induction false} StepKeepsInv(c: Layout, maxop: nat, init: seq<Block>, s: Sys, e: Event)
    requires Inv(c, maxop, init, s) && Enabled(c, maxop, s, e)
    ensures Inv(c, maxop, init, Step(c, maxop, s, e))
  {
    DiskKept(c, maxop, init, s, e);
    ViewKept(c, maxop, init, s, e);
    OpKept(c, maxop, init, s, e);
    SpaceKept(c, maxop, init, s, e);
  }

  // ----- Whole runs -----

  /** Power-on with some well-formed disk: recovery is about to start. */
  function Boot(d: Disk): Sys {
    Sys(d, Recover(d, 0), [], [], [], {}, [], [])
  }

  /** `s` is reached from `s0` by the events `es`, each enabled when it happens. */
  ghost predicate Reaches(c: Layout, maxop: nat, s0: Sys, es: seq<Event>, s: Sys)
    decreases es
  {
    if es == [] then s == s0
    else Enabled(c, maxop, s0, es[0]) && Reaches(c, maxop, Step(c, maxop, s0, es[0]), es[1..], s)
  }

  lemma {:induction false} RunKeepsInv(c: Layout, maxop: nat, init: seq<Block>, s0: Sys, es: seq<Event>, s: Sys)
    requires Inv(c, maxop, init, s0) && Reaches(c, maxop, s0, es, s)
    ensures Inv(c, maxop, init, s)
    decreases es
  {
    if es != [] {
      StepKeepsInv(c, maxop, init, s0, es[0]);
      RunKeepsInv(c, maxop, init, Step(c, maxop, s0, es[0]), es[1..], s);
    }
  }

  lemma {:induction false} RunInv(c: Layout, maxop: nat, d: Disk, es: seq<Event>, s: Sys)
    requires WellFormed(c, d) && Reaches(c, maxop, Boot(d), es, s)
    ensures Inv(c, maxop, View(c, d), s)
  {
    StartOfRecovery(c, d);
    RunKeepsInv(c, maxop, View(c, d), Boot(d), es, s);
  }

  /** `committing` implies that no operation is outstanding, so neither panic that
      tests for the other can happen. */
  lemma {:induction false} NoPanicInEndOp(c: Layout, maxop: nat, d: Disk, es: seq<Event>, s: Sys)
    requires WellFormed(c, d) && Reaches(c, maxop, Boot(d), es, s)
    ensures s.phase.Commit? ==> s.live == []
  {
    RunInv(c, maxop, d, es, s);
  }

  /** Log space: when every operation keeps to `maxop` distinct blocks, a
      `log_write` that has to append always finds a free slot. */
  lemma {:induction false} AppendsAlwaysFit(
    c: Layout, maxop: nat, d: Disk, es: seq<Event>, s: Sys, j: nat, b: nat)
    requires WellFormed(c, d) && Reaches(c, maxop, Boot(d), es, s)
    requires j < |s.live| && b !in s.blocks && |s.live[j].blocks + {b}| <= maxop
    ensures |s.blocks| < c.cap
  {
    RunInv(c, maxop, d, es, s);
    AppendFits(c, maxop, s, j, b);
  }

  /** Exactly: an operation within its bound meets the panic for a full log if and only
      if it logs again a block that a full log holds already. */
  lemma {:induction false} LogWriteExact(
    c: Layout, maxop: nat, d: Disk, es: seq<Event>, s: Sys, j: nat, b: nat, x: Block)
    requires WellFormed(c, d) && Reaches(c, maxop, Boot(d), es, s)
    requires j < |s.live| && b < |s.disk| && !InLog(c, b) && |s.live[j].blocks + {b}| <= maxop
    ensures Enabled(c, maxop, s, LogWrite(j, b, x)) <==> !(b in s.blocks && |s.blocks| == c.cap)
  {
    hide Reaches, DiskInv, ViewInv, OpInv;
    RunInv(c, maxop, d, es, s);
    if b !in s.blocks { AppendFits(c, maxop, s, j, b); }
    assert |s.blocks| <= c.cap by { ReserveBound(maxop, s.live); }
  }

  /** What an operation reads of a block it or others have logged is the latest
      update, so the commit writes that. */
  lemma {:induction false} PinnedIsLatest(c: Layout, maxop: nat, d: Disk, es: seq<Event>, s: Sys, i: nat)
    requires WellFormed(c, d) && Reaches(c, maxop, Boot(d), es, s)
    requires s.phase.Ready? && i < |s.blocks|
    ensures |s.data| == |s.blocks| && |s.disk| == |d| && s.blocks[i] < |d|
    ensures s.data[i] == Effects(GroupEffects(View(c, d), s.groups), s.open)[s.blocks[i]]
  {
    RunInv(c, maxop, d, es, s);
    IndexExact(s.blocks, i);
    assert Update(View(c, s.disk), s.blocks, s.data)[s.blocks[i]] == s.data[i];
  }

  lemma ReachesMore(c: Layout, maxop: nat, s0: Sys, es: seq<Event>, s: Sys, e: Event)
    requires Reaches(c, maxop, s0, es, s) && Enabled(c, maxop, s, e)
    ensures Reaches(c, maxop, s0, es + [e], Step(c, maxop, s, e))
    decreases es
  {
    if es == [] {
      assert (es + [e])[1..] == [];
    } else {
      assert (es + [e])[1..] == es[1..] + [e];
      ReachesMore(c, maxop, Step(c, maxop, s0, es[0]), es[1..], s, e);
    }
  }
}
