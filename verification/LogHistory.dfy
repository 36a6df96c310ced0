/** Operation atomicity and durability: the groups on disk against the history of
    everything that was ever logged (kernel/log.c). */
module LogHistory {
  import opened Counting
  import opened LogDisk
  import opened LogRuns

  /** Every `log_write` of the run `es` from `s`, in the order they happened. This is
      read off the events; what was committed or lost plays no part. */
  ghost function Journal(c: Layout, maxop: nat, s: Sys, es: seq<Event>): seq<Upd>
    decreases es
  {
    if es == [] || !Enabled(c, maxop, s, es[0]) then []
    else Entry(s, es[0]) + Journal(c, maxop, Step(c, maxop, s, es[0]), es[1..])
  }

  /** What one event adds to the journal. */
  ghost function Entry(s: Sys, e: Event): seq<Upd> {
    if e.LogWrite? && e.j < |s.live| then [Upd(s.live[e.j].id, e.block, e.contents)] else []
  }

  /** The updates of operation `id`, in order. */
  function Of(us: seq<Upd>, id: nat): seq<Upd> {
    if us == [] then []
    else
      var p := Of(us[..|us| - 1], id);
      if us[|us| - 1].op == id then p + [us[|us| - 1]] else p
  }

  /** The updates of all groups, one after the other. */
  function Flat(groups: seq<seq<Upd>>): seq<Upd> {
    if groups == [] then [] else Flat(groups[..|groups| - 1]) + groups[|groups| - 1]
  }

  lemma {:induction false} OfAppend(us: seq<Upd>, vs: seq<Upd>, id: nat)
    ensures Of(us + vs, id) == Of(us, id) + Of(vs, id)
  {
    if vs == [] {
      assert us + vs == us;
    } else {
      var n := |vs| - 1;
      assert (us + vs)[..|us + vs| - 1] == us + vs[..n];
      OfAppend(us, vs[..n], id);
    }
  }

  lemma {:induction false} OfSome(us: seq<Upd>, id: nat)
    ensures Of(us, id) != [] <==> id in Ids(us)
  {
    if us != [] {
      OfSome(us[..|us| - 1], id);
    }
  }

  lemma FlatAppend(groups: seq<seq<Upd>>, g: seq<Upd>)
    ensures Flat(groups + [g]) == Flat(groups) + g
  {
    assert (groups + [g])[..|groups|] == groups;
  }

  // ----- All or nothing -----

  /** Where the updates `h` that operation `id` has logged so far are: any group has all
      of them or none, and so has the current one, which has them while `id` is live. */
  ghost predicate Whole(s: Sys, h: seq<Upd>, id: nat) {
    && (forall i :: 0 <= i < |s.groups| ==> Of(s.groups[i], id) == [] || Of(s.groups[i], id) == h)
    && (Of(s.open, id) == [] || Of(s.open, id) == h)
    && (id in LiveIds(s.live) ==> Of(s.open, id) == h)
    && (id !in s.used ==> h == [])
  }

  lemma {:induction false} WholeKept(
    c: Layout, maxop: nat, init: seq<Block>, s: Sys, e: Event, h: seq<Upd>, id: nat)
    requires Inv(c, maxop, init, s) && Enabled(c, maxop, s, e) && Whole(s, h, id)
    ensures Whole(Step(c, maxop, s, e), h + Of(Entry(s, e), id), id)
  {
    hide DiskInv, ViewInv, SpaceInv, Committing, Recovering, WellFormed, Homes, Head, IndexOf;
    var t := Step(c, maxop, s, e);
    match e {
      case Begin(i) =>
        LiveIdsAppend(s.live, Live(i, {}));
        assert h + [] == h;
        OfSome(s.open, id);
      case LogWrite(j, b, x) => WholeLogWrite(c, maxop, init, s, j, b, x, h, id);
      case End(j) =>
        LiveIdsRemove(s.live, j);
        assert h + [] == h;
      case CommitWrite => WholeCommitWrite(c, maxop, s, h, id);
      case Crash =>
        assert LiveIds(t.live) == {} && h + [] == h;
      case _ =>
        assert h + [] == h;
    }
  }

  lemma {:induction false} WholeLogWrite(
    c: Layout, maxop: nat, init: seq<Block>, s: Sys, j: nat, b: nat, x: Block, h: seq<Upd>, id: nat)
    requires Inv(c, maxop, init, s) && Enabled(c, maxop, s, LogWrite(j, b, x)) && Whole(s, h, id)
    ensures Whole(Step(c, maxop, s, LogWrite(j, b, x)), h + Of(Entry(s, LogWrite(j, b, x)), id), id)
  {
    hide ViewInv, SpaceInv, WellFormed, Homes, Head, IndexOf;
    assert |s.blocks| == |s.data|;
    hide DiskInv;
    var u := Upd(s.live[j].id, b, x);
    LiveIdsUpdate(s.live, j, s.live[j].blocks + {b});
    OfAppend(s.open, [u], id);
    OfOne(u, id);
    if u.op == id {
      forall i | 0 <= i < |s.groups|
        ensures Of(s.groups[i], id) == []
      {
        OfSome(s.groups[i], id);
      }
    }
    hide LiveIds, Of, Logged, Ids;
  }

  lemma OfOne(u: Upd, id: nat)
    ensures Of([u], id) == if u.op == id then [u] else []
  {
    assert [u][..0] == [];
  }

  lemma {:induction false} WholeCommitWrite(c: Layout, maxop: nat, s: Sys, h: seq<Upd>, id: nat)
    requires OpInv(s) && Enabled(c, maxop, s, CommitWrite) && Whole(s, h, id)
    ensures Whole(Step(c, maxop, s, CommitWrite), h + [], id)
  {
    hide Committing, WellFormed, Homes;
    var t := Step(c, maxop, s, CommitWrite);
    assert h + [] == h;
    assert LiveIds(t.live) == {};
    forall i | 0 <= i < |t.groups|
      ensures Of(t.groups[i], id) == [] || Of(t.groups[i], id) == h
    {
      assert i == |s.groups| || t.groups[i] == s.groups[i];
    }
  }

  lemma {:induction false} RunKeepsWhole(
    c: Layout, maxop: nat, init: seq<Block>, s0: Sys, es: seq<Event>, s: Sys, h: seq<Upd>, id: nat)
    requires Inv(c, maxop, init, s0) && Reaches(c, maxop, s0, es, s) && Whole(s0, h, id)
    ensures Whole(s, h + Of(Journal(c, maxop, s0, es), id), id)
    decreases es
  {
    hide Inv, Enabled, Step, Whole, Of, Entry;
    if es == [] {
      assert Of([], id) == [] by { OfNone(id); }
      assert h + [] == h;
    } else {
      var t := Step(c, maxop, s0, es[0]);
      StepKeepsInv(c, maxop, init, s0, es[0]);
      WholeKept(c, maxop, init, s0, es[0], h, id);
      var h' := h + Of(Entry(s0, es[0]), id);
      RunKeepsWhole(c, maxop, init, t, es[1..], s, h', id);
      OfAppend(Entry(s0, es[0]), Journal(c, maxop, t, es[1..]), id);
      assert h' + Of(Journal(c, maxop, t, es[1..]), id) == h + Of(Journal(c, maxop, s0, es), id);
    }
  }

  lemma OfNone(id: nat)
    ensures Of([], id) == []
  {
  }

  /** Operation atomicity: whatever happened since boot, recovering now restores the
      effect of the groups on disk, in order and whole. Of every operation, either no
      group has any update, or the operation is over and exactly one group has updates
      of it: those are all it ever logged, in the order it logged them. */
  lemma {:induction false} OperationAtomicity(
    c: Layout, maxop: nat, d: Disk, es: seq<Event>, s: Sys, b: nat, id: nat)
    requires WellFormed(c, d) && Reaches(c, maxop, Boot(d), es, s)
    requires b < |d| && !InLog(c, b)
    ensures WellFormed(c, s.disk) && |s.disk| == |d|
    ensures Recovered(c, s.disk)[b] == GroupEffects(View(c, d), s.groups)[b]
    ensures || (forall i :: 0 <= i < |s.groups| ==> Of(s.groups[i], id) == [])
            || (exists i :: 0 <= i < |s.groups| && AllIn(s, Of(Journal(c, maxop, Boot(d), es), id), id, i))
  {
    hide Reaches, Journal, DiskInv, ViewInv, SpaceInv, Of;
    RunInv(c, maxop, d, es, s);
    RecoveredNow(c, maxop, d, es, s, b);
    StartWhole(c, d, id);
    var h := Of(Journal(c, maxop, Boot(d), es), id);
    RunKeepsWhole(c, maxop, View(c, d), Boot(d), es, s, [], id);
    assert [] + h == h;
    if i :| 0 <= i < |s.groups| && Of(s.groups[i], id) != [] {
      InOneGroup(s, h, id, i);
    }
  }

  /** Group `i` has the updates `h` of operation `id`, no other group and no live
      operation has any. */
  ghost predicate AllIn(s: Sys, h: seq<Upd>, id: nat, i: nat)
    requires i < |s.groups|
  {
    && h != [] && Of(s.groups[i], id) == h
    && (forall k :: 0 <= k < |s.groups| && k != i ==> Of(s.groups[k], id) == [])
    && Of(s.open, id) == [] && id !in LiveIds(s.live)
  }

  lemma {:induction false} InOneGroup(s: Sys, h: seq<Upd>, id: nat, i: nat)
    requires OpInv(s) && Whole(s, h, id) && i < |s.groups| && Of(s.groups[i], id) != []
    ensures AllIn(s, h, id, i)
  {
    hide Of, Ids, LiveIds;
    OfSome(s.groups[i], id);
    OfSome(s.open, id);
    forall k | 0 <= k < |s.groups| && k != i
      ensures Of(s.groups[k], id) == []
    {
      OfSome(s.groups[k], id);
      assert Ids(s.groups[if k < i then k else i]) !! Ids(s.groups[if k < i then i else k]);
    }
  }

  lemma {:induction false} StartWhole(c: Layout, d: Disk, id: nat)
    requires WellFormed(c, d)
    ensures Inv(c, 0, View(c, d), Boot(d)) && Whole(Boot(d), [], id)
    ensures forall maxop: nat :: Inv(c, maxop, View(c, d), Boot(d))
  {
    StartOfRecovery(c, d);
  }

  lemma {:induction false} RecoveredNow(c: Layout, maxop: nat, d: Disk, es: seq<Event>, s: Sys, b: nat)
    requires WellFormed(c, d) && Reaches(c, maxop, Boot(d), es, s)
    requires b < |d| && !InLog(c, b)
    ensures WellFormed(c, s.disk) && |s.disk| == |d|
    ensures Recovered(c, s.disk)[b] == GroupEffects(View(c, d), s.groups)[b]
  {
    RunInv(c, maxop, d, es, s);
    RecoverKeepsView(c, s.disk, |Head(c, s.disk)| + 1);
    ViewOfHome(c, Recovered(c, s.disk), b);
  }

  // ----- Durability -----

  /** Everything logged so far and not lost: the committed groups, then the current one. */
  function Kept(s: Sys): seq<Upd> {
    Flat(s.groups) + s.open
  }

  /** A step without a crash loses nothing and adds what it logs behind the rest; a
      crash loses the current group. No step takes a group back. */
  lemma {:induction false} StepDurable(c: Layout, maxop: nat, init: seq<Block>, s: Sys, e: Event)
    requires Inv(c, maxop, init, s) && Enabled(c, maxop, s, e)
    ensures var t := Step(c, maxop, s, e);
            && s.groups <= t.groups
            && Kept(t) == if e.Crash? then Flat(s.groups) else Kept(s) + Entry(s, e)
  {
    hide ViewInv, OpInv, SpaceInv, Committing, Recovering, WellFormed, Homes, Head, Flat;
    var t := Step(c, maxop, s, e);
    if e.CommitWrite? && s.phase.k == |s.blocks| {
      FlatAppend(s.groups, s.open);
    }
    assert Kept(s) + [] == Kept(s);
  }

  /** Durability: over any stretch of a run without a crash nothing is lost. The groups
      at its end begin with those at its start, and the groups and the current one hold,
      in order, what they held and then every update logged meanwhile. */
  lemma {:induction false} Durability(
    c: Layout, maxop: nat, init: seq<Block>, s0: Sys, es: seq<Event>, s: Sys)
    requires Inv(c, maxop, init, s0) && Reaches(c, maxop, s0, es, s)
    ensures s0.groups <= s.groups
    ensures Crash !in es ==> Kept(s) == Kept(s0) + Journal(c, maxop, s0, es)
    decreases es
  {
    hide Inv, Enabled, Step, Kept, Entry;
    if es == [] {
      assert Kept(s0) + [] == Kept(s0);
    } else {
      var t := Step(c, maxop, s0, es[0]);
      StepKeepsInv(c, maxop, init, s0, es[0]);
      StepDurable(c, maxop, init, s0, es[0]);
      Durability(c, maxop, init, t, es[1..], s);
      assert es[0] in es && forall e <- es[1..] :: e in es;
      assert Kept(s0) + Entry(s0, es[0]) + Journal(c, maxop, t, es[1..])
             == Kept(s0) + (Entry(s0, es[0]) + Journal(c, maxop, t, es[1..]));
    }
  }

  /** The state after the events `es`. */
  ghost function After(c: Layout, maxop: nat, s: Sys, es: seq<Event>): Sys
    decreases es
  {
    if es == [] || !Enabled(c, maxop, s, es[0]) then s
    else After(c, maxop, Step(c, maxop, s, es[0]), es[1..])
  }

  lemma {:induction false} AfterExact(c: Layout, maxop: nat, s0: Sys, es: seq<Event>, s: Sys, k: nat)
    requires Reaches(c, maxop, s0, es, s) && k <= |es|
    ensures s == After(c, maxop, s0, es) && Reaches(c, maxop, s0, es[..k], After(c, maxop, s0, es[..k]))
    decreases es
  {
    hide Enabled, Step;
    if es != [] {
      var t := Step(c, maxop, s0, es[0]);
      AfterExact(c, maxop, t, es[1..], s, if k == 0 then 0 else k - 1);
      if k > 0 {
        assert es[..k][1..] == es[1..][..k - 1];
      }
    }
  }

  /** Neither a group nor the current one has an update of `id`. */
  ghost predicate Missing(s: Sys, id: nat) {
    Of(s.open, id) == [] && forall i :: 0 <= i < |s.groups| ==> Of(s.groups[i], id) == []
  }

  /** A crash in state `s` loses operation `id`: its group's header is not on disk. */
  ghost predicate CutDown(s: Sys, e: Event, id: nat) {
    e.Crash? && Pending(s) && Of(s.open, id) != []
  }

  lemma {:induction false} StepLoses(
    c: Layout, maxop: nat, init: seq<Block>, s: Sys, e: Event, h: seq<Upd>, id: nat)
    requires Inv(c, maxop, init, s) && Enabled(c, maxop, s, e) && Whole(s, h, id)
    ensures h + Of(Entry(s, e), id) != [] && Missing(Step(c, maxop, s, e), id)
            <==> (h != [] && Missing(s, id)) || CutDown(s, e, id)
  {
    hide SpaceInv, Committing, Recovering, WellFormed, Homes, Head, IndexOf, View, Update, Effects, GroupEffects;
    hide Logged, Ids, LiveIds;
    var t := Step(c, maxop, s, e);
    OfNone(id);
    match e {
      case LogWrite(j, b, x) =>
        LiveIdsUpdate(s.live, j, {});
        OfOne(Upd(s.live[j].id, b, x), id);
        OfAppend(s.open, [Upd(s.live[j].id, b, x)], id);
        hide Of;
      case CommitWrite =>
        hide Of;
        assert s.phase.k == |s.blocks| ==> t.groups[|s.groups|] == s.open;
        assert forall i :: 0 <= i < |s.groups| ==> t.groups[i] == s.groups[i];
      case Crash =>
        hide Of;
        if Of(s.open, id) != [] { CrashLoses(s, h, id); }
      case _ =>
        hide Of;
    }
  }

  lemma {:induction false} CrashLoses(s: Sys, h: seq<Upd>, id: nat)
    requires OpInv(s) && Whole(s, h, id) && Of(s.open, id) != []
    ensures h != [] && forall i :: 0 <= i < |s.groups| ==> Of(s.groups[i], id) == []
  {
    OfSome(s.open, id);
    forall i | 0 <= i < |s.groups|
      ensures Of(s.groups[i], id) == []
    {
      OfSome(s.groups[i], id);
    }
  }

  lemma {:induction false} RunLoses(
    c: Layout, maxop: nat, init: seq<Block>, s0: Sys, es: seq<Event>, s: Sys, h: seq<Upd>, id: nat)
    requires Inv(c, maxop, init, s0) && Reaches(c, maxop, s0, es, s) && Whole(s0, h, id)
    ensures h + Of(Journal(c, maxop, s0, es), id) != [] && Missing(s, id)
            <==> || (h != [] && Missing(s0, id))
                 || exists k :: 0 <= k < |es| && CutDown(After(c, maxop, s0, es[..k]), es[k], id)
    decreases es
  {
    hide Inv, Enabled, Step, Whole, Of, Entry, Missing, CutDown;
    if es == [] {
      OfNone(id);
      assert h + [] == h;
    } else {
      var t := Step(c, maxop, s0, es[0]);
      StepKeepsInv(c, maxop, init, s0, es[0]);
      WholeKept(c, maxop, init, s0, es[0], h, id);
      StepLoses(c, maxop, init, s0, es[0], h, id);
      var h' := h + Of(Entry(s0, es[0]), id);
      RunLoses(c, maxop, init, t, es[1..], s, h', id);
      OfAppend(Entry(s0, es[0]), Journal(c, maxop, t, es[1..]), id);
      assert h' + Of(Journal(c, maxop, t, es[1..]), id) == h + Of(Journal(c, maxop, s0, es), id);
      LaterCuts(c, maxop, s0, es, id);
    }
  }

  lemma {:induction false} LaterCuts(c: Layout, maxop: nat, s0: Sys, es: seq<Event>, id: nat)
    requires es != [] && Enabled(c, maxop, s0, es[0])
    ensures (exists k :: 0 <= k < |es| && CutDown(After(c, maxop, s0, es[..k]), es[k], id))
            <==> || CutDown(s0, es[0], id)
                 || (var t := Step(c, maxop, s0, es[0]);
                     exists k :: 0 <= k < |es[1..]| && CutDown(After(c, maxop, t, es[1..][..k]), es[1..][k], id))
  {
    hide Enabled, Step, CutDown;
    var t := Step(c, maxop, s0, es[0]);
    assert After(c, maxop, s0, es[..0]) == s0;
    forall k | 0 < k < |es|
      ensures After(c, maxop, s0, es[..k]) == After(c, maxop, t, es[1..][..k - 1])
    {
      assert es[..k][1..] == es[1..][..k - 1];
    }
    forall k | 0 <= k < |es[1..]|
      ensures After(c, maxop, t, es[1..][..k]) == After(c, maxop, s0, es[..k + 1])
    {
    }
  }

  /** What is lost, exactly: of an operation that logged something nothing is left, in a
      group or in memory, if and only if some crash met it before the header of its
      group was written. */
  lemma {:induction false} LostExactly(c: Layout, maxop: nat, d: Disk, es: seq<Event>, s: Sys, id: nat)
    requires WellFormed(c, d) && Reaches(c, maxop, Boot(d), es, s)
    ensures s == After(c, maxop, Boot(d), es)
    ensures forall k :: 0 <= k <= |es| ==> Reaches(c, maxop, Boot(d), es[..k], After(c, maxop, Boot(d), es[..k]))
    ensures Of(Journal(c, maxop, Boot(d), es), id) != [] && Missing(s, id)
            <==> exists k :: 0 <= k < |es| && CutDown(After(c, maxop, Boot(d), es[..k]), es[k], id)
  {
    forall k | 0 <= k <= |es|
      ensures s == After(c, maxop, Boot(d), es)
      ensures Reaches(c, maxop, Boot(d), es[..k], After(c, maxop, Boot(d), es[..k]))
    {
      AfterExact(c, maxop, Boot(d), es, s, k);
    }
    assert es[..|es|] == es;
    hide Reaches, Journal, After, Inv, Whole, Of, Missing, CutDown;
    StartWhole(c, d, id);
    RunLoses(c, maxop, View(c, d), Boot(d), es, s, [], id);
    assert [] + Of(Journal(c, maxop, Boot(d), es), id) == Of(Journal(c, maxop, Boot(d), es), id);
  }

  /** When nothing is under way and no crash ever met the operation in memory, every
      update it logged is in one group on disk. */
  lemma {:induction false} QuietMeansCommitted(c: Layout, maxop: nat, d: Disk, es: seq<Event>, s: Sys, id: nat)
    requires WellFormed(c, d) && Reaches(c, maxop, Boot(d), es, s)
    requires s.phase.Ready? && s.live == [] && Of(Journal(c, maxop, Boot(d), es), id) != []
    ensures (exists i :: 0 <= i < |s.groups| && AllIn(s, Of(Journal(c, maxop, Boot(d), es), id), id, i))
            <==> !exists k :: 0 <= k < |es| && CutDown(After(c, maxop, Boot(d), es[..k]), es[k], id)
  {
    hide Reaches, Journal, After, CutDown, DiskInv, ViewInv, SpaceInv, WellFormed, View;
    LostExactly(c, maxop, d, es, s, id);
    RunInv(c, maxop, d, es, s);
    StartWhole(c, d, id);
    var h := Of(Journal(c, maxop, Boot(d), es), id);
    RunKeepsWhole(c, maxop, View(c, d), Boot(d), es, s, [], id);
    assert [] + h == h;
    OfNone(id);
    hide Of;
    if i :| 0 <= i < |s.groups| && Of(s.groups[i], id) != [] {
      InOneGroup(s, h, id, i);
    }
  }
}
