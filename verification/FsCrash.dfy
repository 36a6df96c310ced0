/** A file write and a crash: the transactions of `filewrite` (kernel/file.c) run through
    the redo log (kernel/log.c), and what recovery finds of them. */
module FsCrash {
  import opened Counting
  import opened FsDisk
  import opened FsBlocks
  import opened FsContent
  import opened FsSteps
  import opened FsDevice
  import opened LogHistory
  import LogDisk
  import LogRuns

  // ----- The disk of a file system state -----

  /** How inodes are stored: what a block holds when the inodes are these. */
  type Encoding = (map<nat, Inode>, nat) -> Block

  /** A block depends on the inodes that are stored in it and on no others. */
  ghost predicate Stores(sb: Super, enc: Encoding) {
    forall m: map<nat, Inode>, m': map<nat, Inode>, b: nat {:trigger enc(m, b), enc(m', b)} ::
      m.Keys == m'.Keys && (forall n <- m :: Iblock(sb, n) == b ==> m[n] == m'[n]) ==> enc(m, b) == enc(m', b)
  }

  ghost predicate InodeBlock(sb: Super, s: State, b: nat) {
    exists n :: n in s.inodes && Iblock(sb, n) == b
  }

  /** The blocks of the disk once the inodes in memory are written back. */
  ghost function Image(sb: Super, enc: Encoding, s: State): (d: seq<Block>)
    ensures |d| == |s.disk|
  {
    seq(|s.disk|, b requires 0 <= b < |s.disk| => if InodeBlock(sb, s, b) then enc(s.inodes, b) else s.disk[b])
  }

  /** What a transaction does not log looks on disk as it did. */
  lemma {:induction false} ImageKept(sb: Super, enc: Encoding, t: Trans, b: nat)
    requires Stores(sb, enc) && Complete(sb, t) && b < |t.before.disk| && b !in t.logged
    ensures Image(sb, enc, t.after)[b] == Image(sb, enc, t.before)[b]
  {
    assert InodeBlock(sb, t.after, b) <==> InodeBlock(sb, t.before, b);
    if InodeBlock(sb, t.before, b) {
      assert enc(t.after.inodes, b) == enc(t.before.inodes, b);
    }
  }

  // ----- What a transaction logs -----

  predicate Mentions(us: seq<LogRuns.Upd>, b: nat) {
    exists i :: 0 <= i < |us| && us[i].block == b
  }

  /** The last contents logged of block `b`. */
  function LastOf(us: seq<LogRuns.Upd>, b: nat): Block {
    if us == [] then []
    else if us[|us| - 1].block == b then us[|us| - 1].data
    else LastOf(us[..|us| - 1], b)
  }

  lemma {:induction false} EffectsAt(v: seq<Block>, us: seq<LogRuns.Upd>, b: nat)
    requires b < |v|
    ensures LogRuns.Effects(v, us)[b] == if Mentions(us, b) then LastOf(us, b) else v[b]
  {
    if us != [] {
      var init, u := us[..|us| - 1], us[|us| - 1];
      EffectsAt(v, init, b);
      if Mentions(init, b) {
        var i :| 0 <= i < |init| && init[i].block == b;
        assert us[i].block == b;
      }
      if Mentions(us, b) && u.block != b {
        var i :| 0 <= i < |us| && us[i].block == b;
        assert init[i].block == b;
      }
      assert us[|us| - 1] == u;
    }
  }

  /** The updates `us` are those of transaction `t`: they are to the blocks it logs, and the
      last one of each leaves it as it is after the transaction. */
  ghost predicate CarriesOut(sb: Super, enc: Encoding, t: Trans, us: seq<LogRuns.Upd>) {
    forall b: nat ::
      && (Mentions(us, b) <==> b in t.logged)
      && (Mentions(us, b) && b < |t.after.disk| ==> LastOf(us, b) == Image(sb, enc, t.after)[b])
  }

  /** Their effect on the disk before the transaction is the disk after it. */
  lemma {:induction false} CarriedEffect(
    sb: Super, enc: Encoding, t: Trans, us: seq<LogRuns.Upd>, v: seq<Block>, b: nat)
    requires Stores(sb, enc) && Complete(sb, t) && CarriesOut(sb, enc, t, us)
    requires b < |v| == |t.before.disk| && v[b] == Image(sb, enc, t.before)[b]
    ensures LogRuns.Effects(v, us)[b] == Image(sb, enc, t.after)[b]
  {
    hide Mentions, LastOf, Image;
    EffectsAt(v, us, b);
    if b !in t.logged {
      ImageKept(sb, enc, t, b);
    }
  }

  // ----- The writer -----

  /** The state after `k` of the transactions. */
  function StateAt(s0: State, ts: seq<Trans>, k: nat): State
    requires k <= |ts|
  {
    if k == 0 then s0 else ts[k - 1].after
  }

  /** What one process does that carries out `ts` one after the other, operation `i` for
      transaction `i`, and is gone once the machine has gone `down`: it begins the next
      when the last has ended, logs blocks of its transaction only, and ends it when all
      is logged. Commits, crashes and recovery happen as they like. */
  ghost predicate Obeys(sb: Super, enc: Encoding, ts: seq<Trans>, s: LogRuns.Sys, e: LogRuns.Event, down: bool) {
    match e
    case Begin(id) => !down && s.live == [] && id == |s.used| < |ts|
    case LogWrite(_, b, _) => 1 <= |s.used| <= |ts| && b in ts[|s.used| - 1].logged
    case End(_) => 1 <= |s.used| <= |ts| && CarriesOut(sb, enc, ts[|s.used| - 1], s.open)
    case _ => true
  }

  ghost predicate Writer(c: LogDisk.Layout, maxop: nat, sb: Super, enc: Encoding, ts: seq<Trans>,
                         s: LogRuns.Sys, es: seq<LogRuns.Event>, down: bool)
    decreases es
  {
    es == [] ||
    (&& LogRuns.Enabled(c, maxop, s, es[0]) && Obeys(sb, enc, ts, s, es[0], down)
     && Writer(c, maxop, sb, enc, ts, LogRuns.Step(c, maxop, s, es[0]), es[1..], down || es[0].Crash?))
  }

  /** How far the writer is, when the disk holds its first `k` transactions: one more may
      be under way or being committed, and after a crash at most the last one is missing. */
  ghost predicate Counts(sb: Super, enc: Encoding, ts: seq<Trans>, s: LogRuns.Sys, down: bool, k: nat) {
    var u := |s.used|;
    && k <= u <= k + 1 && u <= |ts| && |s.live| <= 1
    && (down ==> s.live == [] && !s.phase.Commit?)
    && (!down && s.live != [] ==> u == k + 1 && forall b <- s.blocks :: b in ts[k].logged)
    && (!down && s.live == [] ==>
          if s.phase.Commit? && LogRuns.Pending(s) then u == k + 1 && CarriesOut(sb, enc, ts[k], s.open)
          else u == k)
  }

  /** The groups on disk have the effect of the first `k` transactions. */
  ghost predicate Shows(c: LogDisk.Layout, sb: Super, enc: Encoding, s0: State, ts: seq<Trans>,
                        init: seq<Block>, groups: seq<seq<LogRuns.Upd>>, k: nat)
  {
    && k <= |ts| && |init| == |StateAt(s0, ts, k).disk|
    && forall b: nat :: b < |init| && !LogDisk.InLog(c, b) ==>
         LogRuns.GroupEffects(init, groups)[b] == Image(sb, enc, StateAt(s0, ts, k))[b]
  }

  /** The transactions, one from where the other ended and all that they change logged. */
  ghost predicate Linked(sb: Super, s0: State, ts: seq<Trans>) {
    && (forall t <- ts :: Complete(sb, t))
    && (forall k :: 0 <= k < |ts| ==> ts[k].before == StateAt(s0, ts, k))
  }

  lemma ChainLinked(sb: Super, s0: State, s: State, ts: seq<Trans>)
    requires Chain(s0, s, ts) && forall t <- ts :: Complete(sb, t)
    ensures Linked(sb, s0, ts)
  {
    hide Complete;
  }

  /** How many transactions the disk holds after the event. */
  function Held(s: LogRuns.Sys, e: LogRuns.Event, k: nat): nat {
    if (e.CommitWrite? && s.phase.Commit? && s.phase.k == |s.blocks|) || (e.CommitDone? && s.blocks == []) then k + 1
    else k
  }

  lemma {:induction false} CountsKept(c: LogDisk.Layout, maxop: nat, init: seq<Block>, sb: Super, enc: Encoding,
                                      ts: seq<Trans>, s: LogRuns.Sys, e: LogRuns.Event, down: bool, k: nat)
    requires LogRuns.Inv(c, maxop, init, s) && LogRuns.Enabled(c, maxop, s, e)
    requires Counts(sb, enc, ts, s, down, k) && Obeys(sb, enc, ts, s, e, down)
    ensures Counts(sb, enc, ts, LogRuns.Step(c, maxop, s, e), down || e.Crash?, Held(s, e, k))
  {
    hide CarriesOut, LogRuns.ViewInv, LogRuns.SpaceInv, LogDisk.Committing, LogDisk.Recovering, LogDisk.WellFormed;
    hide LogDisk.Homes, LogDisk.Head, LogDisk.IndexOf, LogRuns.Ids, LogRuns.LiveIds;
    match e {
      case Begin(_) =>
      case LogWrite(_, _, _) =>
      case End(_) =>
      case CommitWrite =>
      case CommitDone =>
      case Crash =>
      case RecoverWrite =>
      case RecoverDone =>
    }
  }

  lemma {:induction false} ShowsNext(c: LogDisk.Layout, sb: Super, enc: Encoding, s0: State, ts: seq<Trans>,
                                     init: seq<Block>, groups: seq<seq<LogRuns.Upd>>, k: nat, us: seq<LogRuns.Upd>)
    requires Stores(sb, enc) && Linked(sb, s0, ts) && k < |ts| && Shows(c, sb, enc, s0, ts, init, groups, k)
    requires CarriesOut(sb, enc, ts[k], us)
    ensures Shows(c, sb, enc, s0, ts, init, groups + [us], k + 1)
    ensures us == [] ==> Shows(c, sb, enc, s0, ts, init, groups, k + 1)
  {
    hide CarriesOut, Stores, Image, LogDisk.InLog;
    assert Complete(sb, ts[k]);
    LogRuns.GroupEffectsAppend(init, groups, us);
    var v := LogRuns.GroupEffects(init, groups);
    forall b: nat | b < |init| && !LogDisk.InLog(c, b)
      ensures LogRuns.Effects(v, us)[b] == Image(sb, enc, ts[k].after)[b]
    {
      CarriedEffect(sb, enc, ts[k], us, v, b);
    }
  }

  lemma {:induction false} ShowsKept(c: LogDisk.Layout, maxop: nat, init: seq<Block>, sb: Super, enc: Encoding,
                                     s0: State, ts: seq<Trans>, s: LogRuns.Sys, e: LogRuns.Event, down: bool, k: nat)
    requires LogRuns.Inv(c, maxop, init, s) && LogRuns.Enabled(c, maxop, s, e)
    requires Counts(sb, enc, ts, s, down, k) && Stores(sb, enc) && Linked(sb, s0, ts)
    requires Shows(c, sb, enc, s0, ts, init, s.groups, k)
    ensures Shows(c, sb, enc, s0, ts, init, LogRuns.Step(c, maxop, s, e).groups, Held(s, e, k))
  {
    hide CarriesOut, Shows, Linked, Stores, LogRuns.SpaceInv, LogRuns.Ids, LogRuns.LiveIds, LogRuns.GroupEffects;
    hide LogRuns.Effects, LogDisk.Committing, LogDisk.Recovering, LogDisk.WellFormed, LogDisk.Homes, LogDisk.Head;
    hide LogDisk.IndexOf, LogDisk.View, LogDisk.Update;
    if Held(s, e, k) == k + 1 {
      assert s.live == [] && LogRuns.Pending(s);
      ShowsNext(c, sb, enc, s0, ts, init, s.groups, k, s.open);
    }
  }

  lemma {:induction false} WriterRun(c: LogDisk.Layout, maxop: nat, init: seq<Block>, sb: Super, enc: Encoding,
                                     s0: State, ts: seq<Trans>, s: LogRuns.Sys, es: seq<LogRuns.Event>, s': LogRuns.Sys,
                                     down: bool, k: nat)
    returns (k': nat)
    requires LogRuns.Inv(c, maxop, init, s) && LogRuns.Reaches(c, maxop, s, es, s')
    requires Writer(c, maxop, sb, enc, ts, s, es, down) && Counts(sb, enc, ts, s, down, k)
    requires Stores(sb, enc) && Linked(sb, s0, ts) && Shows(c, sb, enc, s0, ts, init, s.groups, k)
    ensures LogRuns.Inv(c, maxop, init, s') && Shows(c, sb, enc, s0, ts, init, s'.groups, k')
    ensures Counts(sb, enc, ts, s', down || LogRuns.Crash in es, k')
    decreases es
  {
    hide LogRuns.Inv, LogRuns.Enabled, LogRuns.Step, Obeys, Counts, Shows, Held, Linked, Stores;
    if es == [] {
      k' := k;
    } else {
      var e := es[0];
      LogRuns.StepKeepsInv(c, maxop, init, s, e);
      CountsKept(c, maxop, init, sb, enc, ts, s, e, down, k);
      ShowsKept(c, maxop, init, sb, enc, s0, ts, s, e, down, k);
      k' := WriterRun(c, maxop, init, sb, enc, s0, ts, LogRuns.Step(c, maxop, s, e), es[1..], s',
                      down || e.Crash?, Held(s, e, k));
      assert LogRuns.Crash in es <==> e.Crash? || LogRuns.Crash in es[1..] by {
        assert es == [e] + es[1..];
      }
    }
  }

  lemma {:induction false} Reached(c: LogDisk.Layout, maxop: nat, d: LogDisk.Disk, sb: Super, enc: Encoding, s0: State,
                                   ts: seq<Trans>, es: seq<LogRuns.Event>, s: LogRuns.Sys)
    returns (k: nat)
    requires LogDisk.WellFormed(c, d) && LogRuns.Reaches(c, maxop, LogRuns.Boot(d), es, s)
    requires Writer(c, maxop, sb, enc, ts, LogRuns.Boot(d), es, false)
    requires Stores(sb, enc) && Linked(sb, s0, ts) && OnDisk(c, sb, enc, s0, d)
    ensures LogRuns.Inv(c, maxop, LogDisk.View(c, d), s)
    ensures Shows(c, sb, enc, s0, ts, LogDisk.View(c, d), s.groups, k)
    ensures Counts(sb, enc, ts, s, LogRuns.Crash in es, k)
  {
    hide Writer, LogRuns.Reaches, Image;
    StartWhole(c, d, 0);
    assert LogRuns.Inv(c, maxop, LogDisk.View(c, d), LogRuns.Boot(d));
    assert Shows(c, sb, enc, s0, ts, LogDisk.View(c, d), [], 0);
    hide LogRuns.Inv, Shows, Linked, Stores;
    k := WriterRun(c, maxop, LogDisk.View(c, d), sb, enc, s0, ts, LogRuns.Boot(d), es, s, false, 0);
  }

  /** The disk, recovered, is that of state `s`. */
  ghost predicate OnDisk(c: LogDisk.Layout, sb: Super, enc: Encoding, s: State, d: LogDisk.Disk)
    requires LogDisk.WellFormed(c, d)
  {
    && |d| == |s.disk|
    && forall b: nat :: b < |d| && !LogDisk.InLog(c, b) ==> LogDisk.View(c, d)[b] == Image(sb, enc, s)[b]
  }

  /** Recovering `disk` gives the disk of state `s`. */
  ghost predicate RecoversTo(c: LogDisk.Layout, sb: Super, enc: Encoding, s: State, disk: LogDisk.Disk) {
    && LogDisk.WellFormed(c, disk) && |LogDisk.Recovered(c, disk)| == |s.disk|
    && forall b: nat :: b < |s.disk| && !LogDisk.InLog(c, b) ==>
         LogDisk.Recovered(c, disk)[b] == Image(sb, enc, s)[b]
  }

  /** What `Filewrite` says of its transactions: they lead from `s0` on, log all that they
      change, and write `len` bytes of `src` chunk by chunk. */
  ghost predicate FileWrite(sb: Super, s0: State, ts: seq<Trans>, n: nat, off: nat, src: seq<nat>, len: nat) {
    && (exists s1 :: Chain(s0, s1, ts)) && (forall t <- ts :: Complete(sb, t))
    && n in s0.inodes && Filled(s0) && len <= |src| && Stages(s0, ts, n, off, src, len)
  }

  /** From `s0` to `s` the first `k` chunks of the `len` bytes were written to file `n`, and
      nothing else. */
  ghost predicate HasChunks(s0: State, s: State, n: nat, off: nat, src: seq<nat>, len: nat, k: nat) {
    && n in s0.inodes && Filled(s0) && len <= |src|
    && Writing(s0, s, n, off, src, Min(k * CHUNK, len))
  }

  /** A file write and crashes: one process carries out the transactions of a `filewrite`
      of `src` at `off`, of which `len` bytes were written, through the log, and the machine
      commits, crashes and recovers at any moment. Recovering then gives the disk of the
      state after the first `k` transactions: the file holds the first `k` chunks of what
      was written, whole, and the other files are as they were. Of the transactions begun
      at most the last is missing, and none when nothing is under way and no crash came. */
  lemma {:induction false} WholeChunksSurvive(
    c: LogDisk.Layout, maxop: nat, d: LogDisk.Disk, sb: Super, enc: Encoding, s0: State, ts: seq<Trans>,
    n: nat, off: nat, src: seq<nat>, len: nat, es: seq<LogRuns.Event>, s: LogRuns.Sys)
    returns (k: nat)
    requires LogDisk.WellFormed(c, d) && LogRuns.Reaches(c, maxop, LogRuns.Boot(d), es, s)
    requires Writer(c, maxop, sb, enc, ts, LogRuns.Boot(d), es, false)
    requires Stores(sb, enc) && OnDisk(c, sb, enc, s0, d) && FileWrite(sb, s0, ts, n, off, src, len)
    ensures k <= |s.used| <= k + 1 && |s.used| <= |ts|
    ensures LogRuns.Crash !in es && s.phase.Ready? && s.live == [] ==> k == |s.used|
    ensures RecoversTo(c, sb, enc, StateAt(s0, ts, k), s.disk)
    ensures HasChunks(s0, StateAt(s0, ts, k), n, off, src, len, k)
  {
    hide Writing, Filled, Complete, Writer, Stores, Image, OnDisk, Linked, Shows, Stages, Counts, Chain;
    hide LogRuns.Reaches, LogRuns.Inv, LogDisk.View, LogDisk.WellFormed, LogDisk.Recovered;
    var s1 :| Chain(s0, s1, ts);
    ChainLinked(sb, s0, s1, ts);
    k := Reached(c, maxop, d, sb, enc, s0, ts, es, s);
    CountsTell(sb, enc, ts, s, LogRuns.Crash in es, k);
    RecoveredShows(c, maxop, d, sb, enc, s0, ts, es, s, k);
    StageAt(s0, ts, n, off, src, len, k);
  }

  lemma CountsTell(sb: Super, enc: Encoding, ts: seq<Trans>, s: LogRuns.Sys, down: bool, k: nat)
    requires Counts(sb, enc, ts, s, down, k)
    ensures k <= |s.used| <= k + 1 && |s.used| <= |ts|
    ensures !down && s.phase.Ready? && s.live == [] ==> k == |s.used|
  {
  }

  lemma StageAt(s0: State, ts: seq<Trans>, n: nat, off: nat, src: seq<nat>, len: nat, k: nat)
    requires n in s0.inodes && Filled(s0) && len <= |src| && Stages(s0, ts, n, off, src, len) && k <= |ts|
    ensures Writing(s0, StateAt(s0, ts, k), n, off, src, Min(k * CHUNK, len))
  {
    hide Filled, Writing;
    if k == 0 { WritingNone(s0, n, off, src); }
  }

  lemma {:induction false} RecoveredShows(
    c: LogDisk.Layout, maxop: nat, d: LogDisk.Disk, sb: Super, enc: Encoding, s0: State, ts: seq<Trans>,
    es: seq<LogRuns.Event>, s: LogRuns.Sys, k: nat)
    requires LogDisk.WellFormed(c, d) && LogRuns.Reaches(c, maxop, LogRuns.Boot(d), es, s)
    requires LogRuns.Inv(c, maxop, LogDisk.View(c, d), s)
    requires Shows(c, sb, enc, s0, ts, LogDisk.View(c, d), s.groups, k)
    ensures RecoversTo(c, sb, enc, StateAt(s0, ts, k), s.disk)
  {
    assert LogDisk.WellFormed(c, s.disk) && |s.disk| == |d| == |LogDisk.Recovered(c, s.disk)|;
    hide Image, LogRuns.Reaches, LogRuns.Inv, LogDisk.View, LogDisk.WellFormed, LogDisk.Recovered, LogRuns.GroupEffects;
    forall b: nat | b < |d| && !LogDisk.InLog(c, b)
      ensures LogDisk.Recovered(c, s.disk)[b] == Image(sb, enc, StateAt(s0, ts, k))[b]
    {
      RecoveredNow(c, maxop, d, es, s, b);
    }
  }

  /** The writer is never stopped by the log: with room for more than one operation, a
      block of its transaction can always be logged. */
  lemma {:induction false} WriterNotStopped(
    c: LogDisk.Layout, maxop: nat, d: LogDisk.Disk, sb: Super, enc: Encoding, s0: State, ts: seq<Trans>,
    es: seq<LogRuns.Event>, s: LogRuns.Sys, b: nat, x: Block)
    requires LogDisk.WellFormed(c, d) && LogRuns.Reaches(c, maxop, LogRuns.Boot(d), es, s)
    requires Writer(c, maxop, sb, enc, ts, LogRuns.Boot(d), es, false)
    requires Stores(sb, enc) && Linked(sb, s0, ts) && OnDisk(c, sb, enc, s0, d)
    requires maxop < c.cap && forall t <- ts :: |t.logged| <= maxop
    requires s.live != [] && 1 <= |s.used| <= |ts| && b in ts[|s.used| - 1].logged
    requires b < |d| && !LogDisk.InLog(c, b)
    ensures LogRuns.Enabled(c, maxop, s, LogRuns.LogWrite(0, b, x))
  {
    hide Writer, LogRuns.Reaches, Image, Shows, Linked, Stores, OnDisk, LogDisk.View, CarriesOut;
    var k := Reached(c, maxop, d, sb, enc, s0, ts, es, s);
    LiveNotDown(sb, enc, ts, s, LogRuns.Crash in es, k);
    FewBlocks(c, maxop, LogDisk.View(c, d), s, ts[k].logged, b);
  }

  lemma LiveNotDown(sb: Super, enc: Encoding, ts: seq<Trans>, s: LogRuns.Sys, down: bool, k: nat)
    requires Counts(sb, enc, ts, s, down, k) && s.live != []
    ensures k + 1 == |s.used| <= |ts| && forall b <- s.blocks :: b in ts[k].logged
  {
  }

  lemma {:induction false} FewBlocks(
    c: LogDisk.Layout, maxop: nat, init: seq<Block>, s: LogRuns.Sys, logged: set<nat>, b: nat)
    requires LogRuns.Inv(c, maxop, init, s) && s.live != [] && maxop < c.cap && |logged| <= maxop && b in logged
    requires forall x <- s.blocks :: x in logged
    ensures |s.disk| == |init| && |s.blocks| < c.cap && |s.live[0].blocks + {b}| <= maxop
  {
    hide LogRuns.GroupEffects, LogRuns.Effects, LogDisk.View, LogDisk.Update;
    assert NoRepeat(s.blocks);
    Pigeons(s.blocks, logged);
    assert forall x <- s.live[0].blocks :: x in s.blocks;
    SubsetSize(s.live[0].blocks + {b}, logged);
  }

  /** `filewrite`, with its transactions as the result above takes them. */
  method WriteFile(fs: Fs, n: nat, off: nat, src: seq<nat>, bad: set<nat>)
    returns (ret: int, foff: nat, ghost ts: seq<Trans>)
    requires fs.Valid() && n in fs.inodes && off < UINT && |src| < UINT
    modifies fs
    ensures fs.Valid() && off <= foff && fs.done == old(fs.done) + ts
    ensures FileWrite(fs.sb, old(fs.St()), ts, n, off, src, foff - off)
    ensures forall t <- ts :: |t.logged| <= MAXOPBLOCKS
  {
    hide Owns, Filled, Stages, Chain, Complete, Content, Overlay;
    ghost var before := fs.done;
    ret, foff := fs.Filewrite(n, off, src, bad);
    ts := fs.done[|before|..];
    assert fs.done == before + ts;
    assert Chain(old(fs.St()), fs.St(), ts);
  }
}
