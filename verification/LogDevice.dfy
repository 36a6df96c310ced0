/** The log as it runs: the in-memory header, the pinned buffers and the disk,
    changed in place (kernel/log.c). */
module LogDevice {
  import opened LogDisk
  import LogRuns

  datatype Outcome = Panic | Ok

  predicate AllPinned(pinned: map<nat, Block>, blocks: seq<nat>) {
    forall i :: 0 <= i < |blocks| ==> blocks[i] in pinned
  }

  /** The buffers of some pinned blocks. */
  function Fetch(pinned: map<nat, Block>, blocks: seq<nat>): (data: seq<Block>)
    requires AllPinned(pinned, blocks)
    ensures |data| == |blocks| && forall i :: 0 <= i < |blocks| ==> data[i] == pinned[blocks[i]]
  {
    if blocks == [] then [] else Fetch(pinned, blocks[..|blocks| - 1]) + [pinned[blocks[|blocks| - 1]]]
  }

  lemma Regroup<T>(a: seq<T>, b: seq<T>, c: seq<T>, d: seq<T>)
    ensures a + b + c + d == a + (b + c + d)
  {
  }

  lemma FetchLogged(pinned: map<nat, Block>, blocks: seq<nat>, b: nat, x: Block)
    requires AllPinned(pinned, blocks)
    requires forall i, j :: 0 <= i < j < |blocks| ==> blocks[i] != blocks[j]
    ensures var (blocks', data') := LogRuns.Logged(blocks, Fetch(pinned, blocks), b, x);
            && AllPinned(pinned[b := x], blocks')
            && Fetch(pinned[b := x], blocks') == data'
  {
    hide IndexOf;
    var (blocks', data') := LogRuns.Logged(blocks, Fetch(pinned, blocks), b, x);
    forall i | 0 <= i < |blocks'|
      ensures blocks'[i] in pinned[b := x] && data'[i] == pinned[b := x][blocks'[i]]
    {
    }
  }

  /** What `log_write` leaves in the header and pinned. */
  lemma Recorded(c: Layout, size: nat, pinned: map<nat, Block>, blocks: seq<nat>, b: nat, x: Block)
    requires Homes(c, size, blocks) && AllPinned(pinned, blocks) && |blocks| < c.cap && b < size && !InLog(c, b)
    ensures var (blocks', data') := LogRuns.Logged(blocks, Fetch(pinned, blocks), b, x);
      && blocks' == (if IndexOf(blocks, b) < |blocks| then blocks else blocks + [b])
      && Homes(c, size, blocks') && AllPinned(pinned[b := x], blocks') && Fetch(pinned[b := x], blocks') == data'
  {
    FetchLogged(pinned, blocks, b, x);
    LogRuns.LoggedHomes(c, size, blocks, Fetch(pinned, blocks), b, x);
    hide IndexOf, Fetch, Homes, AllPinned;
  }

  class Log {
    const c: Layout          // log.start and LOGBLOCKS
    const maxop: nat         // MAXOPBLOCKS
    var disk: Disk
    var outstanding: int
    var committing: bool
    var n: nat               // log.lh.n
    var block: array<nat>    // log.lh.block
    var pinned: map<nat, Block>  // buffers that bpin keeps in the cache
    ghost var trace: seq<Disk>   // the disk after each bwrite

    constructor (c: Layout, maxop: nat, disk: Disk)
      requires WellFormed(c, disk)
      ensures Shape() && this.c == c && this.maxop == maxop && this.disk == disk && fresh(block)
      ensures outstanding == 0 && !committing && n == 0 && trace == []
    {
      this.c, this.maxop, this.disk := c, maxop, disk;
      outstanding, committing, n, pinned := 0, false, 0, map[];
      block := new nat[c.cap];
      trace := [];
    }

    ghost predicate Shape()
      reads this
    {
      && block.Length == c.cap && n <= c.cap
      && c.start + c.cap < |disk| && |disk[c.start]| > c.cap
    }

    ghost predicate Valid()
      reads this, block
    {
      && Shape()
      && Homes(c, |disk|, Blocks())
      && AllPinned(pinned, Blocks())
    }

    ghost function Blocks(): seq<nat>
      requires Shape()
      reads this, block
    {
      block[..n]
    }

    ghost function Data(): seq<Block>
      requires Valid()
      reads this, block
    {
      Fetch(pinned, Blocks())
    }

    /** One atomic disk write. */
    method Bwrite(b: nat, data: Block)
      requires b < |disk|
      modifies `disk, `trace
      ensures disk == old(disk)[b := data] && trace == old(trace) + [disk]
    {
      disk := disk[b := data];
      trace := trace + [disk];
    }

    method InstallTrans(recovering: bool)
      requires Shape() && Homes(c, |disk|, Blocks())
      modifies `disk, `trace, `pinned
      ensures Shape() && |disk| == |old(disk)|
      ensures disk == Installing(c, old(disk), old(Blocks()), n)
      ensures trace == old(trace) + InstallTrace(c, old(disk), old(Blocks()), n)
      ensures recovering ==> pinned == old(pinned)
    {
      ghost var blocks := Blocks();
      var tail := 0;
      while tail < n
        invariant tail <= n && |disk| == |old(disk)| && Shape() && Blocks() == blocks
        invariant disk == Installing(c, old(disk), blocks, tail)
        invariant trace == old(trace) + InstallTrace(c, old(disk), blocks, tail)
        invariant recovering ==> pinned == old(pinned)
      {
        var lbuf := disk[c.start + tail + 1];
        var home := block[tail];
        assert blocks[tail] == home && !InLog(c, home);
        Bwrite(home, lbuf);
        if !recovering {
          pinned := pinned - {home};
        }
        tail := tail + 1;
      }
    }

    /** Copies the in-memory header into the header block and writes it: with a
        nonzero count, the commit point. */
    method WriteHead()
      requires Shape()
      modifies `disk, `trace
      ensures Shape() && disk == old(disk)[c.start := PutHead(old(disk)[c.start], Blocks())]
      ensures trace == old(trace) + [disk]
    {
      var hb := disk[c.start];
      ghost var was := hb;
      hb := hb[0 := n];
      var i := 0;
      while i < n
        invariant i <= n && |hb| == |was| && hb[0] == n
        invariant forall j :: 0 <= j < i ==> hb[1 + j] == block[j]
        invariant forall j :: i < j < |hb| ==> hb[j] == was[j]
      {
        hb := hb[1 + i := block[i]];
        i := i + 1;
      }
      assert hb == PutHead(was, Blocks());
      Bwrite(c.start, hb);
    }

    method ReadHead()
      requires Shape() && WellFormed(c, disk)
      modifies `n, block
      ensures Shape() && Blocks() == Head(c, disk)
    {
      var lh := disk[c.start];
      n := lh[0];
      var i := 0;
      while i < n
        invariant i <= n == lh[0] <= c.cap
        invariant forall j :: 0 <= j < i ==> block[j] == lh[1 + j]
      {
        block[i] := lh[1 + i];
        i := i + 1;
      }
      assert Blocks() == GetHead(lh);
    }

    /** The common end of `commit` and `recover_from_log`: install, then erase the
        transaction. */
    method InstallAndClear(recovering: bool)
      requires Shape() && WellFormed(c, disk) && Blocks() == Head(c, disk)
      modifies `disk, `trace, `pinned, `n
      ensures Shape() && n == 0 && WellFormed(c, disk) && Head(c, disk) == []
      ensures disk == Recovered(c, old(disk)) && trace == old(trace) + RecoverTrace(c, old(disk))
    {
      ghost var d, h := disk, n;
      InstallTrans(recovering);
      InstallingAt(c, d, Head(c, d), h, c.start);
      NotLogged(c, |d|, Head(c, d), c.start);
      n := 0;
      WriteHead();
      RecoverKeepsView(c, d, h + 1);
      assert Blocks() == [];
      assert disk == Recovering(c, d, h + 1);
    }

    /** Boot: the disk goes through the states that crash atomicity is about and
        ends recovered. */
    method RecoverFromLog()
      requires Shape() && WellFormed(c, disk)
      modifies `disk, `trace, `pinned, `n, block
      ensures Shape() && n == 0 && WellFormed(c, disk) && Head(c, disk) == []
      ensures disk == Recovered(c, old(disk)) && trace == old(trace) + RecoverTrace(c, old(disk))
    {
      ReadHead();
      InstallAndClear(true);
    }

    method WriteLog()
      requires Valid()
      modifies `disk, `trace
      ensures Valid() && |disk| == |old(disk)| && Data() == old(Data())
      ensures disk == Logging(c, old(disk), Data(), n)
      ensures trace == old(trace) + LogTrace(c, old(disk), Data(), n)
    {
      ghost var data := Data();
      hide Fetch, Homes;
      var tail := 0;
      while tail < n
        invariant tail <= n && |disk| == |old(disk)| && Valid() && Data() == data
        invariant disk == Logging(c, old(disk), data, tail)
        invariant trace == old(trace) + LogTrace(c, old(disk), data, tail)
      {
        assert Blocks()[tail] in pinned;
        var from := pinned[block[tail]];
        assert from == data[tail];
        LoggingAt(c, old(disk), data, tail, c.start);
        LoggingAt(c, old(disk), data, tail + 1, c.start);
        Bwrite(c.start + tail + 1, from);
        tail := tail + 1;
      }
    }

    /** The first half of a commit, up to the commit point. */
    method WriteTransaction()
      requires Valid() && WellFormed(c, disk)
      modifies `disk, `trace
      ensures Shape() && |disk| == |old(disk)|
      ensures disk == Committed(c, old(disk), Blocks(), old(Data()))
      ensures trace == old(trace) + LogTrace(c, old(disk), old(Data()), n) + [disk]
    {
      ghost var d, data := disk, Data();
      WriteLog();
      LoggingAt(c, d, data, n, c.start);
      WriteHead();
    }

    /** Every state of the disk during the commit is one that crash atomicity is
        about. */
    method Commit()
      requires Valid() && WellFormed(c, disk) && Head(c, disk) == []
      modifies `disk, `trace, `pinned, `n
      ensures Valid() && n == 0 && WellFormed(c, disk) && Head(c, disk) == []
      ensures disk == Committing(c, old(disk), old(Blocks()), old(Data()), CommitLength(old(n)))
      ensures trace == old(trace) + CommitTrace(c, old(disk), old(Blocks()), old(Data()))
    {
      ghost var d, blocks, data, before := disk, Blocks(), Data(), trace;
      StartOfCommit(c, d, blocks, data);
      hide Installing, Logging, Committed, Recovering, WellFormed, Head, PutHead, Fetch, Homes;
      hide LogTrace, RecoverTrace;
      if n > 0 {
        WriteTransaction();
        CommittedHead(c, d, blocks, data);
        ghost var mid := disk;
        InstallAndClear(false);
        Regroup(before, LogTrace(c, d, data, |data|), [mid], RecoverTrace(c, mid));
      }
    }

    /** `log_write`: absorbs the block into its entry or appends it and pins it. */
    method LogWrite(b: nat, data: Block) returns (r: Outcome)
      requires Valid() && b < |disk| && !InLog(c, b)
      modifies `n, block, `pinned
      ensures Valid()
      ensures r == Panic <==> old(n) >= c.cap || outstanding < 1
      ensures r == Panic ==> Blocks() == old(Blocks()) && pinned == old(pinned)
      ensures r == Ok ==> (Blocks(), Data()) == LogRuns.Logged(old(Blocks()), old(Data()), b, data)
    {
      if n >= c.cap || outstanding < 1 {
        return Panic;
      }
      Record(b, data);
      return Ok;
    }

    method Record(b: nat, data: Block)
      requires Valid() && b < |disk| && !InLog(c, b) && n < c.cap
      modifies `n, block, `pinned
      ensures Valid() && (Blocks(), Data()) == LogRuns.Logged(old(Blocks()), old(Data()), b, data)
    {
      hide IndexOf, Fetch, Homes, AllPinned, LogRuns.Logged;
      ghost var blocks := Blocks();
      Recorded(c, |disk|, pinned, blocks, b, data);
      var i := Find(b);
      Enter(i, b);
      pinned := pinned[b := data];
      assert Blocks() == LogRuns.Logged(blocks, Fetch(old(pinned), blocks), b, data).0;
    }

    /** The scan of `log_write`. */
    method Find(b: nat) returns (i: nat)
      requires Shape()
      ensures i == IndexOf(Blocks(), b)
    {
      i := 0;
      while i < n && block[i] != b
        invariant i <= n && forall j :: 0 <= j < i ==> block[j] != b
      {
        i := i + 1;
      }
      assert forall j :: 0 <= j < n ==> Blocks()[j] == block[j];
    }

    method Enter(i: nat, b: nat)
      requires Shape() && n < c.cap && i == IndexOf(Blocks(), b)
      modifies `n, block
      ensures Shape() && Blocks() == if i < old(n) then old(Blocks()) else old(Blocks()) + [b]
    {
      block[i] := b;
      if i == n {
        n := n + 1;
      }
    }

    /** `begin_op`: one round of its loop, which admits the operation or sleeps. */
    method BeginOp() returns (admitted: bool)
      modifies `outstanding
      ensures admitted <==> !committing && n + (old(outstanding) + 1) * maxop <= c.cap
      ensures outstanding == old(outstanding) + if admitted then 1 else 0
    {
      if committing {
        return false;
      } else if n + (outstanding + 1) * maxop > c.cap {
        return false;
      }
      outstanding := outstanding + 1;
      return true;
    }

    /** `end_op`: the last operation out commits the group; the others leave the
        log as it is. */
    method EndOp() returns (r: Outcome)
      requires Valid() && WellFormed(c, disk) && Head(c, disk) == []
      modifies `outstanding, `committing, `disk, `trace, `pinned, `n
      ensures Valid() && WellFormed(c, disk) && Head(c, disk) == []
      ensures outstanding == old(outstanding) - 1 && committing == old(committing)
      ensures r == Panic <==> old(committing)
      ensures if r == Ok && outstanding == 0
              then n == 0 && trace == old(trace) + CommitTrace(c, old(disk), old(Blocks()), old(Data()))
              else n == old(n) && trace == old(trace) && disk == old(disk) && pinned == old(pinned)
    {
      outstanding := outstanding - 1;
      if committing {
        return Panic;
      }
      if outstanding == 0 {
        committing := true;
        Commit();
        committing := false;
      }
      return Ok;
    }
  }
}
