/** A full log: the run that shows what the bound on each operation does not cover
    (kernel/log.c, `log_write`). */
module LogFull {
  import opened Counting
  import opened LogDisk
  import opened LogRuns

  /** The home blocks that the run logs: the `cap` blocks behind the log. */
  function Home(c: Layout, i: nat): nat {
    c.start + c.cap + 1 + i
  }

  function Span(c: Layout, lo: nat, hi: nat): (r: set<nat>)
    requires lo <= hi
    ensures |r| == hi - lo
    ensures forall b :: b in r <==> Home(c, lo) <= b < Home(c, hi)
    decreases hi
  {
    if lo == hi then {} else Span(c, lo, hi - 1) + {Home(c, hi - 1)}
  }

  function Min(a: nat, b: nat): nat { if a < b then a else b }

  /** Operation `j` of the three logs `maxop` blocks, after the ones before it. */
  function Share(c: Layout, maxop: nat, j: nat, k: nat): set<nat> {
    var lo := j * maxop;
    Span(c, Min(lo, k), Min(lo + maxop, k))
  }

  /** Three operations are live and have logged the first `k` blocks. */
  ghost predicate Filling(c: Layout, maxop: nat, d: Disk, s: Sys, k: nat) {
    && s.phase.Ready? && |s.disk| == |d| && |s.blocks| == |s.data| == k
    && (forall i :: 0 <= i < k ==> s.blocks[i] == Home(c, i))
    && s.live == [Live(0, Share(c, maxop, 0, k)), Live(1, Share(c, maxop, 1, k)), Live(2, Share(c, maxop, 2, k))]
  }

  /** The code's proportions: a log of three times the bound of one operation. */
  ghost predicate Sized(c: Layout, maxop: nat, d: Disk) {
    && 1 <= maxop && c.cap == 3 * maxop
    && WellFormed(c, d) && Head(c, d) == [] && c.start + 2 * c.cap < |d|
  }

  lemma {:induction false} Booted(c: Layout, maxop: nat, d: Disk) returns (es: seq<Event>, s: Sys)
    requires Sized(c, maxop, d)
    ensures Reaches(c, maxop, Boot(d), es, s)
    ensures s.phase.Ready? && |s.disk| == |d| && s.live == [] && s.used == {} && s.blocks == [] && s.data == []
  {
    hide Reaches, Recovering, Recovered;
    var s0 := Boot(d);
    StartRun(c, maxop, s0);
    RecoverKeepsView(c, d, 1);
    ReachesMore(c, maxop, s0, [], s0, RecoverWrite);
    s, es := Step(c, maxop, s0, RecoverWrite), [] + [RecoverWrite];
    ReachesMore(c, maxop, s0, es, s, RecoverDone);
    s, es := Step(c, maxop, s, RecoverDone), es + [RecoverDone];
  }

  lemma {:induction false} Started(c: Layout, maxop: nat, d: Disk) returns (es: seq<Event>, s: Sys)
    requires Sized(c, maxop, d)
    ensures Reaches(c, maxop, Boot(d), es, s) && Filling(c, maxop, d, s, 0)
  {
    hide Reaches, WellFormed, Head, Boot;
    es, s := Booted(c, maxop, d);
    ReachesMore(c, maxop, Boot(d), es, s, Begin(0));
    s, es := Step(c, maxop, s, Begin(0)), es + [Begin(0)];
    ReachesMore(c, maxop, Boot(d), es, s, Begin(1));
    s, es := Step(c, maxop, s, Begin(1)), es + [Begin(1)];
    ReachesMore(c, maxop, Boot(d), es, s, Begin(2));
    s, es := Step(c, maxop, s, Begin(2)), es + [Begin(2)];
  }

  lemma StartRun(c: Layout, maxop: nat, s: Sys)
    ensures Reaches(c, maxop, s, [], s)
  {
  }

  lemma {:induction false} Filled(c: Layout, maxop: nat, d: Disk, x: Block, k: nat)
    returns (es: seq<Event>, s: Sys)
    requires Sized(c, maxop, d) && k <= c.cap
    ensures Reaches(c, maxop, Boot(d), es, s) && Filling(c, maxop, d, s, k)
    decreases k
  {
    hide Reaches, Sized, Filling;
    if k == 0 {
      es, s := Started(c, maxop, d);
    } else {
      es, s := Filled(c, maxop, d, x, k - 1);
      LogOne(c, maxop, d, s, x, k - 1);
      var e := LogWrite(Turn(maxop, k - 1), Home(c, k - 1), x);
      ReachesMore(c, maxop, Boot(d), es, s, e);
      es, s := es + [e], Step(c, maxop, s, e);
    }
  }

  /** The next block goes to the share of operation `Turn`, and to no other. */
  function Turn(maxop: nat, k: nat): nat {
    if k < maxop then 0 else if k < 2 * maxop then 1 else 2
  }

  lemma {:induction false} ShareNext(c: Layout, maxop: nat, i: nat, k: nat)
    requires i < 3 && k < 3 * maxop
    ensures Share(c, maxop, i, k + 1)
            == if i == Turn(maxop, k) then Share(c, maxop, i, k) + {Home(c, k)} else Share(c, maxop, i, k)
    ensures |Share(c, maxop, i, k + 1)| <= maxop
  {
    hide Span;
    assert i == 0 || i == 1 || i == 2;
    var lo := i * maxop;
    assert lo == if i == 0 then 0 else if i == 1 then maxop else 2 * maxop;
  }

  lemma {:induction false} LogOne(c: Layout, maxop: nat, d: Disk, s: Sys, x: Block, k: nat)
    requires Sized(c, maxop, d) && Filling(c, maxop, d, s, k) && k < c.cap
    ensures Enabled(c, maxop, s, LogWrite(Turn(maxop, k), Home(c, k), x))
    ensures Filling(c, maxop, d, Step(c, maxop, s, LogWrite(Turn(maxop, k), Home(c, k), x)), k + 1)
  {
    hide WellFormed, Head, IndexOf, Share;
    var b := Home(c, k);
    assert b !in s.blocks;
    assert IndexOf(s.blocks, b) == |s.blocks|;
    ShareNext(c, maxop, 0, k);
    ShareNext(c, maxop, 1, k);
    ShareNext(c, maxop, 2, k);
  }

  /** The bound is about appends only: the test for a full log comes before
      absorption. For every bound and a log of three times that size, a run exists in
      which three operations keep to their bound, the log is full, and one of them
      is stopped when it logs again a block it has logged already. */
  lemma {:induction false} FullLogStopsAbsorption(c: Layout, maxop: nat, d: Disk, x: Block)
    returns (es: seq<Event>, s: Sys, b: nat)
    requires Sized(c, maxop, d)
    ensures Reaches(c, maxop, Boot(d), es, s)
    ensures |s.live| == 3 && forall l <- s.live :: |l.blocks| == maxop
    ensures b in s.live[2].blocks && b in s.blocks && b < |s.disk| && !InLog(c, b)
    ensures !Enabled(c, maxop, s, LogWrite(2, b, x))
  {
    hide Reaches, Span, WellFormed;
    es, s := Filled(c, maxop, d, x, c.cap);
    b := Home(c, c.cap - 1);
    assert s.blocks[c.cap - 1] == b;
  }
}
