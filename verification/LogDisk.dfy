/** The on-disk redo log: what a commit and a recovery write, block by block, and
    what the disk means after a crash between any two writes (kernel/log.c). */
module LogDisk {

  /** The contents of a block, in 32-bit words. */
  type Block = seq<nat>

  /** The disk, indexed by block number. */
  type Disk = seq<Block>

  /** Where the log lies: a header block at `start`, then `cap` log blocks. */
  datatype Layout = Layout(start: nat, cap: nat)

  predicate InLog(c: Layout, b: nat) {
    c.start <= b <= c.start + c.cap
  }

  /** `write_head` overwrites the count and the first entries, nothing else. */
  function PutHead(was: Block, blocks: seq<nat>): (r: Block)
    requires |blocks| < |was|
    ensures |r| == |was| && r[0] == |blocks| && r[1..1 + |blocks|] == blocks
  {
    [|blocks|] + blocks + was[1 + |blocks|..]
  }

  /** `read_head`. */
  function GetHead(b: Block): seq<nat>
    requires |b| > 0 && b[0] < |b|
  {
    b[1..1 + b[0]]
  }

  /** A list of home blocks that a header may name: distinct, on the disk, outside
      the log, and no longer than the log. */
  ghost predicate Homes(c: Layout, size: nat, blocks: seq<nat>) {
    && |blocks| <= c.cap
    && (forall i :: 0 <= i < |blocks| ==> blocks[i] < size && !InLog(c, blocks[i]))
    && (forall i, j :: 0 <= i < j < |blocks| ==> blocks[i] != blocks[j])
  }

  ghost predicate WellFormed(c: Layout, d: Disk) {
    && c.start + c.cap < |d|
    && |d[c.start]| > c.cap && d[c.start][0] < |d[c.start]|
    && Homes(c, |d|, GetHead(d[c.start]))
  }

  function Head(c: Layout, d: Disk): (blocks: seq<nat>)
    requires WellFormed(c, d)
    ensures |blocks| <= c.cap && Homes(c, |d|, blocks)
  {
    GetHead(d[c.start])
  }

  /** The position of `b` in a header, `|blocks|` when absent: the scan of
      `log_write`. */
  function IndexOf(blocks: seq<nat>, b: nat): (i: nat)
    ensures i <= |blocks|
    ensures i < |blocks| ==> blocks[i] == b
    ensures forall j :: 0 <= j < i ==> blocks[j] != b
  {
    if blocks == [] then 0
    else if blocks[0] == b then 0
    else 1 + IndexOf(blocks[1..], b)
  }

  /** What a home block holds once the log has been replayed; log blocks have no
      such contents. */
  function Seen(c: Layout, d: Disk, b: nat): Block
    requires WellFormed(c, d) && b < |d|
  {
    var i := IndexOf(Head(c, d), b);
    if InLog(c, b) then [] else if i < |Head(c, d)| then d[c.start + 1 + i] else d[b]
  }

  /** The file system that recovery would restore from `d`. */
  function View(c: Layout, d: Disk): (v: seq<Block>)
    requires WellFormed(c, d)
    ensures |v| == |d|
  {
    seq(|d|, b requires 0 <= b < |d| => Seen(c, d, b))
  }

  // ----- The disk between the writes of recovery and of commit -----

  /** `install_trans`, after `k` writes: log block `i` copied to its home. */
  function Installing(c: Layout, d: Disk, blocks: seq<nat>, k: nat): (r: Disk)
    requires c.start + |blocks| < |d| && k <= |blocks|
    ensures |r| == |d|
  {
    if k == 0 then d
    else
      var p := Installing(c, d, blocks, k - 1);
      if blocks[k - 1] < |p| then p[blocks[k - 1] := p[c.start + k]] else p
  }

  /** `recover_from_log`, after `k` writes: the installs, then the empty header. */
  function Recovering(c: Layout, d: Disk, k: nat): (r: Disk)
    requires WellFormed(c, d) && k <= |Head(c, d)| + 1
    ensures |r| == |d|
  {
    var n := |Head(c, d)|;
    if k <= n then Installing(c, d, Head(c, d), k)
    else Installing(c, d, Head(c, d), n)[c.start := PutHead(d[c.start], [])]
  }

  /** `write_log`, after `k` writes: the cached blocks go to the log, in header
      order. */
  function Logging(c: Layout, d: Disk, data: seq<Block>, k: nat): (r: Disk)
    requires c.start + |data| < |d| && k <= |data|
    ensures |r| == |d|
  {
    if k == 0 then d else Logging(c, d, data, k - 1)[c.start + k := data[k - 1]]
  }

  /** The disk right after the header of a transaction that logged `blocks`, with
      final contents `data`, has been written: the commit point. */
  function Committed(c: Layout, d: Disk, blocks: seq<nat>, data: seq<Block>): (r: Disk)
    requires WellFormed(c, d) && |blocks| == |data| <= c.cap
    ensures |r| == |d|
  {
    Logging(c, d, data, |data|)[c.start := PutHead(d[c.start], blocks)]
  }

  /** The number of disk writes of a commit. */
  function CommitLength(n: nat): nat {
    if n == 0 then 0 else 2 * n + 2
  }

  /** `commit`, after `k` writes. After the commit point it does what recovery of
      that disk does: install, then clear the header. */
  function Committing(c: Layout, d: Disk, blocks: seq<nat>, data: seq<Block>, k: nat): (r: Disk)
    requires WellFormed(c, d) && |blocks| == |data| && Homes(c, |d|, blocks) && k <= CommitLength(|blocks|)
    ensures |r| == |d|
  {
    if k <= |blocks| then Logging(c, d, data, k)
    else
      CommittedHead(c, d, blocks, data);
      Recovering(c, Committed(c, d, blocks, data), k - |blocks| - 1)
  }

  /** The home blocks with `blocks` replaced by `data`. */
  function Update(v: seq<Block>, blocks: seq<nat>, data: seq<Block>): (r: seq<Block>)
    requires |blocks| == |data|
    ensures |r| == |v|
  {
    seq(|v|, b requires 0 <= b < |v| =>
      var i := IndexOf(blocks, b);
      if i < |blocks| then data[i] else v[b])
  }

  // ----- The same, as the list of disks after each write -----

  function InstallTrace(c: Layout, d: Disk, blocks: seq<nat>, k: nat): (t: seq<Disk>)
    requires c.start + |blocks| < |d| && k <= |blocks|
    ensures |t| == k && forall i :: 0 <= i < k ==> t[i] == Installing(c, d, blocks, i + 1)
  {
    if k == 0 then [] else InstallTrace(c, d, blocks, k - 1) + [Installing(c, d, blocks, k)]
  }

  function LogTrace(c: Layout, d: Disk, data: seq<Block>, k: nat): (t: seq<Disk>)
    requires c.start + |data| < |d| && k <= |data|
    ensures |t| == k && forall i :: 0 <= i < k ==> t[i] == Logging(c, d, data, i + 1)
  {
    if k == 0 then [] else LogTrace(c, d, data, k - 1) + [Logging(c, d, data, k)]
  }

  function RecoverTrace(c: Layout, d: Disk): (t: seq<Disk>)
    requires WellFormed(c, d)
    ensures |t| == |Head(c, d)| + 1 && forall i :: 0 <= i < |t| ==> t[i] == Recovering(c, d, i + 1)
  {
    var n := |Head(c, d)|;
    InstallTrace(c, d, Head(c, d), n) + [Recovering(c, d, n + 1)]
  }

  function CommitTrace(c: Layout, d: Disk, blocks: seq<nat>, data: seq<Block>): (t: seq<Disk>)
    requires WellFormed(c, d) && |blocks| == |data| && Homes(c, |d|, blocks)
  {
    if blocks == [] then []
    else
      CommittedHead(c, d, blocks, data);
      var mid := Committed(c, d, blocks, data);
      LogTrace(c, d, data, |data|) + [mid] + RecoverTrace(c, mid)
  }

  /** The trace of a commit lists the disks that crash atomicity is about. */
  lemma {:induction false} CommitTraceExact(c: Layout, d: Disk, blocks: seq<nat>, data: seq<Block>)
    requires WellFormed(c, d) && |blocks| == |data| && Homes(c, |d|, blocks)
    ensures |CommitTrace(c, d, blocks, data)| == CommitLength(|blocks|)
    ensures forall i :: 0 <= i < CommitLength(|blocks|) ==>
              CommitTrace(c, d, blocks, data)[i] == Committing(c, d, blocks, data, i + 1)
  {
    if blocks != [] {
      CommittedHead(c, d, blocks, data);
      var mid := Committed(c, d, blocks, data);
      var t := CommitTrace(c, d, blocks, data);
      var n := |blocks|;
      hide Homes, Head, Installing, Logging, Committed;
      forall i | 0 <= i < CommitLength(n)
        ensures t[i] == Committing(c, d, blocks, data, i + 1)
      {
        if i == n {
          assert Recovering(c, mid, 0) == mid by {
            StartOfRecovery(c, mid);
          }
        } else if i > n {
          assert t[i] == RecoverTrace(c, mid)[i - n - 1];
        }
      }
    }
  }

  lemma StartOfCommit(c: Layout, d: Disk, blocks: seq<nat>, data: seq<Block>)
    requires WellFormed(c, d) && |blocks| == |data| && Homes(c, |d|, blocks)
    ensures Committing(c, d, blocks, data, 0) == d
  {
  }

  lemma StartOfRecovery(c: Layout, d: Disk)
    requires WellFormed(c, d)
    ensures Recovering(c, d, 0) == d
  {
  }

  // ----- Recovery -----

  lemma IndexExact(blocks: seq<nat>, i: nat)
    requires i < |blocks| && forall j, k :: 0 <= j < k < |blocks| ==> blocks[j] != blocks[k]
    ensures IndexOf(blocks, blocks[i]) == i
  {
  }

  lemma NotLogged(c: Layout, size: nat, blocks: seq<nat>, b: nat)
    requires Homes(c, size, blocks) && InLog(c, b)
    ensures IndexOf(blocks, b) == |blocks|
  {
  }

  /** The disk after the first `k` installs, block by block. */
  lemma {:induction false} InstallingAt(c: Layout, d: Disk, blocks: seq<nat>, k: nat, b: nat)
    requires c.start + c.cap < |d| && Homes(c, |d|, blocks) && k <= |blocks| && b < |d|
    ensures Installing(c, d, blocks, k)[b] ==
            var i := IndexOf(blocks, b);
            if i < k then d[c.start + 1 + i] else d[b]
  {
    hide IndexOf;
    if k > 0 {
      InstallingAt(c, d, blocks, k - 1, b);
      InstallingAt(c, d, blocks, k - 1, c.start + k);
      NotLogged(c, |d|, blocks, c.start + k);
      IndexExact(blocks, k - 1);
    }
  }

  /** Recovery leaves the log blocks alone, and the header until its last write. */
  lemma {:induction false} RecoveringLog(c: Layout, d: Disk, k: nat, b: nat)
    requires WellFormed(c, d) && k <= |Head(c, d)| + 1 && InLog(c, b)
    ensures Recovering(c, d, k)[b] ==
            if b == c.start && k > |Head(c, d)| then PutHead(d[c.start], []) else d[b]
  {
    hide IndexOf, PutHead;
    var n := |Head(c, d)|;
    NotLogged(c, |d|, Head(c, d), b);
    InstallingAt(c, d, Head(c, d), if k <= n then k else n, b);
  }

  lemma {:induction false} RecoveringHead(c: Layout, d: Disk, k: nat)
    requires WellFormed(c, d) && k <= |Head(c, d)| + 1
    ensures WellFormed(c, Recovering(c, d, k))
    ensures Head(c, Recovering(c, d, k)) == if k > |Head(c, d)| then [] else Head(c, d)
  {
    RecoveringLog(c, d, k, c.start);
  }

  lemma {:induction false} RecoveringSeen(c: Layout, d: Disk, k: nat, b: nat)
    requires WellFormed(c, d) && k <= |Head(c, d)| + 1 && b < |d|
    requires WellFormed(c, Recovering(c, d, k))
    ensures Seen(c, Recovering(c, d, k), b) == Seen(c, d, b)
  {
    hide IndexOf, Homes;
    var n := |Head(c, d)|;
    var i := IndexOf(Head(c, d), b);
    RecoveringHead(c, d, k);
    if !InLog(c, b) {
      InstallingAt(c, d, Head(c, d), if k <= n then k else n, b);
      if i < n {
        RecoveringLog(c, d, k, c.start + 1 + i);
      }
    }
  }

  /** Recovery may crash after any write: the file system it would restore is the
      same. When it completes the header is empty, so the home blocks are that
      file system. */
  lemma {:induction false} RecoverKeepsView(c: Layout, d: Disk, k: nat)
    requires WellFormed(c, d) && k <= |Head(c, d)| + 1
    ensures var r := Recovering(c, d, k);
            && WellFormed(c, r) && View(c, r) == View(c, d)
            && Head(c, r) == if k > |Head(c, d)| then [] else Head(c, d)
  {
    RecoveringHead(c, d, k);
    hide WellFormed, Seen, Recovering, Head;
    forall b: nat | b < |d|
      ensures Seen(c, Recovering(c, d, k), b) == Seen(c, d, b)
    {
      RecoveringSeen(c, d, k, b);
    }
  }

  // ----- Commit -----

  lemma {:induction false} LoggingAt(c: Layout, d: Disk, data: seq<Block>, k: nat, b: nat)
    requires c.start + |data| < |d| && k <= |data| && b < |d|
    ensures Logging(c, d, data, k)[b] ==
            if c.start < b <= c.start + k then data[b - c.start - 1] else d[b]
  {
    if k > 0 {
      LoggingAt(c, d, data, k - 1, b);
    }
  }

  lemma {:induction false} CommittedHead(c: Layout, d: Disk, blocks: seq<nat>, data: seq<Block>)
    requires WellFormed(c, d) && |blocks| == |data| && Homes(c, |d|, blocks)
    ensures WellFormed(c, Committed(c, d, blocks, data))
    ensures Head(c, Committed(c, d, blocks, data)) == blocks
  {
  }

  /** Until the header is written, a commit changes nothing that recovery sees. */
  lemma {:induction false} LoggingKeepsView(c: Layout, d: Disk, data: seq<Block>, k: nat)
    requires WellFormed(c, d) && Head(c, d) == [] && k <= |data| <= c.cap
    ensures var r := Logging(c, d, data, k);
            WellFormed(c, r) && Head(c, r) == [] && View(c, r) == View(c, d)
  {
    LoggingAt(c, d, data, k, c.start);
    forall b: nat | b < |d|
      ensures Seen(c, Logging(c, d, data, k), b) == Seen(c, d, b)
    {
      LoggingAt(c, d, data, k, b);
    }
  }

  /** The header write is the commit point: with it the disk means the old file
      system with every logged block replaced. */
  lemma {:induction false} CommittedView(c: Layout, d: Disk, blocks: seq<nat>, data: seq<Block>)
    requires WellFormed(c, d) && Head(c, d) == []
    requires |blocks| == |data| && Homes(c, |d|, blocks)
    ensures WellFormed(c, Committed(c, d, blocks, data))
    ensures View(c, Committed(c, d, blocks, data)) == Update(View(c, d), blocks, data)
  {
    CommittedHead(c, d, blocks, data);
    forall b: nat | b < |d|
      ensures Seen(c, Committed(c, d, blocks, data), b) == Update(View(c, d), blocks, data)[b]
    {
      CommittedSeen(c, d, blocks, data, b);
    }
  }

  lemma {:induction false} CommittedSeen(c: Layout, d: Disk, blocks: seq<nat>, data: seq<Block>, b: nat)
    requires WellFormed(c, d) && Head(c, d) == [] && b < |d|
    requires |blocks| == |data| && Homes(c, |d|, blocks)
    requires WellFormed(c, Committed(c, d, blocks, data))
    ensures Seen(c, Committed(c, d, blocks, data), b) == Update(View(c, d), blocks, data)[b]
  {
    CommittedHead(c, d, blocks, data);
    hide IndexOf, PutHead, GetHead;
    var i := IndexOf(blocks, b);
    if InLog(c, b) {
      NotLogged(c, |d|, blocks, b);
    } else {
      LoggingAt(c, d, data, |data|, b);
      if i < |blocks| {
        LoggingAt(c, d, data, |data|, c.start + 1 + i);
      }
    }
  }

  /** A crash after any write of a commit leaves the old file system before the
      header is written and the new one from then on. */
  lemma {:induction false} CommitView(c: Layout, d: Disk, blocks: seq<nat>, data: seq<Block>, k: nat)
    requires WellFormed(c, d) && Head(c, d) == []
    requires |blocks| == |data| && Homes(c, |d|, blocks) && k <= CommitLength(|blocks|)
    ensures var r := Committing(c, d, blocks, data, k);
            && WellFormed(c, r)
            && View(c, r) == (if k <= |blocks| then View(c, d) else Update(View(c, d), blocks, data))
            && (k == CommitLength(|blocks|) ==> Head(c, r) == [])
  {
    if k <= |blocks| {
      LoggingKeepsView(c, d, data, k);
    } else {
      CommittedView(c, d, blocks, data);
      CommittedHead(c, d, blocks, data);
      hide WellFormed, View, Update, Recovering, Committed, Head;
      RecoverKeepsView(c, Committed(c, d, blocks, data), k - |blocks| - 1);
    }
  }

  /** Recoveries that crash, each after some number of its writes. */
  ghost function Crashes(c: Layout, d: Disk, ks: seq<nat>): (r: Disk)
    requires WellFormed(c, d)
    ensures |r| == |d|
    decreases ks
  {
    if ks == [] then d
    else
      var k := if ks[0] <= |Head(c, d)| then ks[0] else |Head(c, d)| + 1;
      RecoverKeepsView(c, d, k);
      Crashes(c, Recovering(c, d, k), ks[1..])
  }

  lemma {:induction false} CrashesKeepView(c: Layout, d: Disk, ks: seq<nat>)
    requires WellFormed(c, d)
    ensures WellFormed(c, Crashes(c, d, ks)) && View(c, Crashes(c, d, ks)) == View(c, d)
    decreases ks
  {
    hide WellFormed, View, Recovering, Head;
    if ks != [] {
      var k := if ks[0] <= |Head(c, d)| then ks[0] else |Head(c, d)| + 1;
      RecoverKeepsView(c, d, k);
      CrashesKeepView(c, Recovering(c, d, k), ks[1..]);
    }
  }

  /** A complete recovery. */
  function Recovered(c: Layout, d: Disk): (r: Disk)
    requires WellFormed(c, d)
    ensures |r| == |d|
  {
    Recovering(c, d, |Head(c, d)| + 1)
  }

  /** With an empty header the home blocks are the file system. */
  lemma ViewOfHome(c: Layout, d: Disk, b: nat)
    requires WellFormed(c, d) && Head(c, d) == [] && b < |d| && !InLog(c, b)
    ensures View(c, d)[b] == d[b]
  {
  }

  /** Crash atomicity: after a crash at any write of a commit, any number of
      crashed recoveries and one complete one, the home blocks are either all old
      or have every logged block replaced, and the latter exactly when the header
      had been written. */
  lemma {:induction false} CrashAtomicity(
    c: Layout, d: Disk, blocks: seq<nat>, data: seq<Block>, k: nat, ks: seq<nat>, b: nat)
    requires WellFormed(c, d) && Head(c, d) == []
    requires |blocks| == |data| && Homes(c, |d|, blocks) && k <= CommitLength(|blocks|)
    requires b < |d| && !InLog(c, b)
    ensures var crashed := Committing(c, d, blocks, data, k);
            && WellFormed(c, crashed)
            && var last := Crashes(c, crashed, ks);
               && WellFormed(c, last)
               && var final := Recovered(c, last);
                  && WellFormed(c, final) && Head(c, final) == []
                  && var i := IndexOf(blocks, b);
                     final[b] == if k > |blocks| && i < |blocks| then data[i] else d[b]
  {
    var crashed := Committing(c, d, blocks, data, k);
    CommitView(c, d, blocks, data, k);
    CrashesKeepView(c, crashed, ks);
    var last := Crashes(c, crashed, ks);
    RecoverKeepsView(c, last, |Head(c, last)| + 1);
    hide WellFormed, View, Committing, Recovering, Head, Crashes, IndexOf;
    ViewOfHome(c, Recovered(c, last), b);
    ViewOfHome(c, d, b);
  }
}
