/** Every run of reads, writes and truncations (kernel/fs.c): the files are byte
    sequences, and blocks move between the files and the free ones. */
module FsRuns {
  import opened Counting
  import opened FsDisk
  import opened FsBlocks
  import opened FsContent
  import opened FsTrunc
  import opened FsSteps
  import opened FsDevice

  /** A call on inode `n`; `bad` are the positions that cannot be copied. */
  datatype Event =
    | Write(n: nat, off: nat, src: seq<nat>, bad: set<nat>)
    | Read(n: nat, off: nat, len: nat, bad: set<nat>)
    | Truncate(n: nat)

  /** What a call returns: a byte count, and for a read the bytes. */
  datatype Answer = Answer(tot: int, data: seq<nat>)

  /** What the disk stands for: the bytes of each file, the blocks of each file, and the
      free blocks. */
  datatype Store = Store(files: map<nat, seq<int>>, owned: map<nat, set<nat>>, spare: set<nat>)

  ghost function Owned(sb: Super, s: State, n: nat): set<nat> {
    set b: nat | 0 < b < sb.size && Refers(s, n, b)
  }

  ghost function Spare(sb: Super, s: State): set<nat> {
    set b: nat | 0 < b < sb.size && !Bit(sb, s.disk, b)
  }

  ghost function StoreOf(sb: Super, s: State): Store
    requires Filled(s)
  {
    Store(map n | n in s.inodes :: Content(s, n), map n | n in s.inodes :: Owned(sb, s, n), Spare(sb, s))
  }

  /** The arguments that the C types allow, on an inode that is there. */
  predicate Legal(ns: set<nat>, e: Event) {
    e.n in ns && match e
      case Write(_, off, src, _) => off < UINT && |src| < UINT
      case Read(_, off, len, _) => off < UINT && len < UINT
      case Truncate(_) => true
  }

  /** What a call on the store `a` answers, and the store that it leaves. A write stores
      a prefix of its bytes, all of them unless a copy fails in the next block or no
      block is free; the blocks it needs come from the free ones, at most those it touches
      and the indirect block. A read gives the bytes there are and changes nothing. A
      truncation empties the file and frees exactly its blocks. */
  ghost predicate Next(a: Store, e: Event, r: Answer, a': Store)
    requires e.n in a.files && e.n in a.owned
  {
    var f := a.files[e.n];
    match e
    case Write(n, off, src, bad) =>
      if off > |f| || off + |src| > MAXBYTES then r.tot == -1 && a' == a
      else
        && 0 <= r.tot <= |src| && (forall i <- bad :: r.tot <= i)
        && (r.tot < |src| ==> a'.spare == {} || exists i :: i in bad && r.tot <= i < |src| && i < r.tot + BSIZE)
        && a'.files == a.files[n := Overlay(f, off, src[..r.tot])]
        && a'.spare <= a.spare && a'.owned == a.owned[n := a.owned[n] + (a.spare - a'.spare)]
        && |a.spare - a'.spare| <= Touched(off, |src|) + 1
    case Read(n, off, len, bad) =>
      && a' == a
      && if off > |f| || off + len >= UINT then r == Answer(0, [])
         else
           var m := if off + len > |f| then |f| - off else len;
           if exists i :: i in bad && i < m then r.tot == -1
           else r.tot == m && r.data == f[off..off + m]
    case Truncate(n) =>
      && a'.files == a.files[n := []]
      && a'.spare == a.spare + a.owned[n] && a'.owned == a.owned[n := {}]
  }

  /** Call `i` of a run. */
  ghost predicate Follows(events: seq<Event>, answers: seq<Answer>, stores: seq<Store>, i: nat)
    requires i < |events| == |answers| && |stores| == |events| + 1
  {
    && events[i].n in stores[i].files && events[i].n in stores[i].owned
    && Next(stores[i], events[i], answers[i], stores[i + 1])
  }

  ghost predicate IsRun(events: seq<Event>, answers: seq<Answer>, stores: seq<Store>) {
    && |answers| == |events| && |stores| == |events| + 1
    && forall i {:trigger Follows(events, answers, stores, i)} ::
         0 <= i < |events| ==> Follows(events, answers, stores, i)
  }

  // ----- What the steps of the file system do to the store -----

  lemma FullMeansNone(sb: Super, s: State)
    requires Owns(sb, s)
    ensures Full(sb, s) <==> Spare(sb, s) == {}
  {
    hide Bit;
    assert Bit(sb, s.disk, 0);
    if Spare(sb, s) == {} {
      forall b: nat | b < sb.size
        ensures Bit(sb, s.disk, b)
      {
        assert b !in Spare(sb, s);
      }
    }
    if b :| b in Spare(sb, s) {
      assert !Bit(sb, s.disk, b);
    }
  }

  /** The blocks that a write takes. */
  lemma GrewTakes(sb: Super, s: State, s': State, n: nat)
    requires Owns(sb, s) && Owns(sb, s') && Grew(sb, s, s', n) && n in s.inodes
    ensures Spare(sb, s') <= Spare(sb, s)
    ensures Owned(sb, s', n) == Owned(sb, s, n) + (Spare(sb, s) - Spare(sb, s'))
    ensures forall m <- s.inodes :: m != n ==> Owned(sb, s', m) == Owned(sb, s, m)
  {
    hide At, Bit, Sound;
    forall b: nat | 0 < b < sb.size
      ensures Refers(s', n, b) <==> Refers(s, n, b) || (!Bit(sb, s.disk, b) && Bit(sb, s'.disk, b))
    {
      if Refers(s', n, b) {
        var p :| IsPlace(s', p) && p.n == n && At(s', p) == b;
        assert IsPlace(s, p) && InUse(sb, s', b);
        assert At(s, p) == b || !Bit(sb, s.disk, b);
      }
      if Refers(s, n, b) {
        var p :| IsPlace(s, p) && p.n == n && At(s, p) == b;
        assert At(s', p) == b && IsPlace(s', p);
      }
    }
    forall m, b: nat | m in s.inodes && m != n
      ensures Refers(s', m, b) <==> Refers(s, m, b)
    {
      if Refers(s', m, b) {
        var p :| IsPlace(s', p) && p.n == m && At(s', p) == b;
        assert IsPlace(s, p) && At(s, p) == b;
      }
      if Refers(s, m, b) {
        var p :| IsPlace(s, p) && p.n == m && At(s, p) == b;
        assert At(s', p) == b && IsPlace(s', p);
      }
    }
  }

  /** The blocks that the places of blocks `lo` to `hi` of a file refer to. */
  ghost function BlocksAt(s: State, n: nat, lo: nat, hi: nat): (r: set<nat>)
    requires n in s.inodes && lo <= hi
    ensures |r| <= hi - lo
    ensures forall k :: lo <= k < hi && k < MAXFILE ==> At(s, PlaceOf(n, k)) in r
    decreases hi
  {
    if lo == hi then {}
    else BlocksAt(s, n, lo, hi - 1) + if hi - 1 < MAXFILE then {At(s, PlaceOf(n, hi - 1))} else {}
  }

  /** A write takes no more than the blocks it touches and an indirect block. */
  lemma {:induction false} TakesFew(sb: Super, s: State, s': State, n: nat, lo: nat, hi: nat)
    requires Owns(sb, s) && Owns(sb, s') && Grew(sb, s, s', n) && OnlyAt(s, s', n, lo, hi)
    requires n in s.inodes && lo <= hi
    ensures |Spare(sb, s) - Spare(sb, s')| <= hi - lo + 1
  {
    var taken, r := Spare(sb, s) - Spare(sb, s'), BlocksAt(s', n, lo, hi);
    forall b | b in taken
      ensures b in r + {At(s', Ptr(n))}
    {
      TakenWhere(sb, s, s', n, lo, hi, b);
    }
    hide Spare, BlocksAt, At, Owns, Grew, OnlyAt;
    SubsetSize(taken, r + {At(s', Ptr(n))});
    UnionSize(r, {At(s', Ptr(n))});
  }

  lemma {:induction false} TakenWhere(sb: Super, s: State, s': State, n: nat, lo: nat, hi: nat, b: nat)
    requires Owns(sb, s) && Owns(sb, s') && Grew(sb, s, s', n) && OnlyAt(s, s', n, lo, hi)
    requires n in s.inodes && lo <= hi && b in Spare(sb, s) && b !in Spare(sb, s')
    ensures b in BlocksAt(s', n, lo, hi) || b == At(s', Ptr(n))
  {
    hide At, Bit, Sound, BlocksAt;
    var p :| IsPlace(s', p) && p.n == n && At(s', p) == b;
    assert IsPlace(s, p);
    if p != Ptr(n) {
      assert At(s, p) != 0 ==> InUse(sb, s, At(s, p));
      assert p == PlaceOf(n, NumberOf(p));
    }
  }

  /** The blocks that a truncation frees. */
  lemma TruncFrees(sb: Super, s: State, s': State, n: nat)
    requires Owns(sb, s) && n in s.inodes && Truncated(sb, s, s', n)
    ensures Spare(sb, s') == Spare(sb, s) + Owned(sb, s, n)
    ensures Owned(sb, s', n) == {}
    ensures forall m <- s.inodes :: m != n ==> Owned(sb, s', m) == Owned(sb, s, m)
  {
    hide At, Bit, Owns, SameData;
    forall p | IsPlace(s', p) && p.n == n
      ensures At(s', p) == 0
    {
      assert IsPlace(s, p);
    }
    forall m, b: nat | m in s.inodes && m != n
      ensures Refers(s', m, b) <==> Refers(s, m, b)
    {
      if Refers(s', m, b) {
        var p :| IsPlace(s', p) && p.n == m && At(s', p) == b;
        assert IsPlace(s, p) && At(s, p) == b;
      }
      if Refers(s, m, b) {
        var p :| IsPlace(s, p) && p.n == m && At(s, p) == b;
        assert At(s', p) == b && IsPlace(s', p);
      }
    }
  }

  /** One file has changed. */
  lemma StoreChanged(sb: Super, s: State, s': State, n: nat)
    requires Filled(s) && Filled(s') && n in s.inodes && s'.inodes.Keys == s.inodes.Keys
    requires forall m <- s.inodes :: m != n ==> Content(s', m) == Content(s, m) && Owned(sb, s', m) == Owned(sb, s, m)
    ensures var a := StoreOf(sb, s);
      StoreOf(sb, s') == Store(a.files[n := Content(s', n)], a.owned[n := Owned(sb, s', n)], Spare(sb, s'))
  {
    hide Content, Owned, Spare;
  }

  // ----- Runs -----

  /** Whatever is called in whatever order, each call answers from the store as the
      calls before it left it, and the disk represents the store at the end. */
  method Run(fs: Fs, events: seq<Event>) returns (answers: seq<Answer>, ghost stores: seq<Store>)
    requires fs.Valid() && forall e <- events :: Legal(fs.inodes.Keys, e)
    modifies fs
    ensures fs.Valid() && IsRun(events, answers, stores)
    ensures stores[0] == StoreOf(fs.sb, old(fs.St())) && stores[|events|] == StoreOf(fs.sb, fs.St())
    ensures Apart(stores[0])
  {
    hide Apart, Owns, Filled, StoreOf, Next, Legal;
    answers, stores := [], [StoreOf(fs.sb, fs.St())];
    ValidApart(fs.sb, fs.St());
    var i := 0;
    while i < |events|
      invariant 0 <= i <= |events| && fs.Valid() && fs.inodes.Keys == old(fs.inodes.Keys)
      invariant IsRun(events[..i], answers, stores)
      invariant stores[0] == StoreOf(fs.sb, old(fs.St())) && stores[i] == StoreOf(fs.sb, fs.St())
    {
      assert events[i] in events;
      var r := Step(fs, events[i]);
      RunMore(events[..i], answers, stores, events[i], r, StoreOf(fs.sb, fs.St()));
      assert events[..i] + [events[i]] == events[..i + 1];
      answers, stores := answers + [r], stores + [StoreOf(fs.sb, fs.St())];
      i := i + 1;
    }
    assert events[..i] == events;
  }

  lemma RunMore(events: seq<Event>, answers: seq<Answer>, stores: seq<Store>, e: Event, r: Answer, a: Store)
    requires IsRun(events, answers, stores)
    requires var b := stores[|events|]; e.n in b.files && e.n in b.owned && Next(b, e, r, a)
    ensures IsRun(events + [e], answers + [r], stores + [a])
  {
    hide Next;
    forall i | 0 <= i < |events + [e]|
      ensures Follows(events + [e], answers + [r], stores + [a], i)
    {
      if i < |events| { assert Follows(events, answers, stores, i); }
    }
  }

  method Step(fs: Fs, e: Event) returns (r: Answer)
    requires fs.Valid() && Legal(fs.inodes.Keys, e)
    modifies fs
    ensures fs.Valid() && fs.inodes.Keys == old(fs.inodes.Keys)
    ensures var a := StoreOf(fs.sb, old(fs.St()));
      e.n in a.files && e.n in a.owned && Next(a, e, r, StoreOf(fs.sb, fs.St()))
  {
    hide Owns, Filled, Overlay, Content, Owned, Spare, Grew, Complete, Truncated, Full, OnlyAt, Touched;
    ghost var s, sb := fs.St(), fs.sb;
    match e
    case Write(n, off, src, bad) =>
      var tot := fs.Writei(n, src, off, bad);
      r := Answer(tot, []);
      if tot != -1 {
        GrewTakes(sb, s, fs.St(), n);
        TakesFew(sb, s, fs.St(), n, off / BSIZE, off / BSIZE + Touched(off, |src|));
        StoreChanged(sb, s, fs.St(), n);
        FullMeansNone(sb, fs.St());
      }
    case Read(n, off, len, bad) =>
      var tot, dst := fs.Readi(n, off, len, bad);
      r := Answer(tot, dst);
    case Truncate(n) =>
      fs.Itrunc(n);
      r := Answer(0, []);
      TruncKeys(sb, s, fs.St(), n);
      TruncFrees(sb, s, fs.St(), n);
      StoreChanged(sb, s, fs.St(), n);
  }

  lemma TruncKeys(sb: Super, s: State, s': State, n: nat)
    requires n in s.inodes && Truncated(sb, s, s', n)
    ensures s'.inodes.Keys == s.inodes.Keys
  {
  }

  // ----- What holds of every run -----

  /** No block is in two files, or in a file and free. */
  ghost predicate Apart(a: Store) {
    && (forall n <- a.owned :: a.owned[n] !! a.spare)
    && (forall m, n :: m in a.owned && n in a.owned && m != n ==> a.owned[m] !! a.owned[n])
  }

  /** The block is free or in some file. */
  ghost predicate Pooled(a: Store, b: nat) {
    b in a.spare || exists n :: n in a.owned && b in a.owned[n]
  }

  lemma {:induction false} ValidApart(sb: Super, s: State)
    requires Owns(sb, s) && Filled(s)
    ensures Apart(StoreOf(sb, s))
  {
    hide At, Bit, Sound, Filled, Content;
    var a := StoreOf(sb, s);
    forall n, b | n in a.owned && b in a.owned[n]
      ensures b !in a.spare && forall m <- a.owned :: m != n ==> b !in a.owned[m]
    {
      var p :| IsPlace(s, p) && p.n == n && At(s, p) == b;
      assert InUse(sb, s, b);
    }
  }

  /** Conservation: from the start of a run to any moment of it the same blocks are free
      or in a file, each in one place only. None is lost and none is given twice. */
  lemma {:induction false} BlocksConserved(
    events: seq<Event>, answers: seq<Answer>, stores: seq<Store>, i: nat, b: nat)
    requires IsRun(events, answers, stores) && Apart(stores[0]) && i <= |events|
    ensures Apart(stores[i]) && (Pooled(stores[i], b) <==> Pooled(stores[0], b))
  {
    if i > 0 {
      BlocksConserved(events, answers, stores, i - 1, b);
      assert Follows(events, answers, stores, i - 1);
      StepConserves(stores[i - 1], events[i - 1], answers[i - 1], stores[i], b);
    }
  }

  lemma {:induction false} StepConserves(a: Store, e: Event, r: Answer, a': Store, b: nat)
    requires Apart(a) && e.n in a.files && e.n in a.owned && Next(a, e, r, a')
    ensures Apart(a') && (Pooled(a', b) <==> Pooled(a, b))
  {
    hide Overlay, Touched, Pooled;
    var n := e.n;
    assert a.owned[n] !! a.spare;
    hide Apart;
    if e.Truncate? {
      Shifted(a', a, n, b);
      ShiftedApart(a, a', n, {}, a.owned[n]);
    } else if a' != a {
      Shifted(a, a', n, b);
      ShiftedApart(a, a', n, a.owned[n] + (a.spare - a'.spare), {});
    }
  }

  /** Blocks that go from the free ones of `a` to file `n` are free in the one and in the
      file in the other. */
  lemma {:induction false} Shifted(a: Store, a': Store, n: nat, b: nat)
    requires n in a.owned && n in a'.owned && a'.owned == a.owned[n := a'.owned[n]]
    requires a.owned[n] + a.spare == a'.owned[n] + a'.spare
    ensures Pooled(a', b) <==> Pooled(a, b)
  {
    if Pooled(a, b) && b !in a.spare {
      var m :| m in a.owned && b in a.owned[m];
      assert m in a'.owned;
    }
    if Pooled(a', b) && b !in a'.spare {
      var m :| m in a'.owned && b in a'.owned[m];
      assert m in a.owned;
    }
    assert b in a.owned[n] ==> Pooled(a, b);
    assert b in a'.owned[n] ==> Pooled(a', b);
    assert b in a.owned[n] + a.spare <==> b in a'.owned[n] + a'.spare;
  }

  lemma {:induction false} ShiftedApart(a: Store, a': Store, n: nat, now: set<nat>, freed: set<nat>)
    requires Apart(a) && n in a.owned && a'.owned == a.owned[n := now]
    requires now <= a.owned[n] + a.spare && a'.spare == a.spare + freed - now && freed <= a.owned[n]
    requires freed !! now
    ensures Apart(a')
  {
  }

  /** A file that no write and no truncation touches stays as it is. */
  lemma {:induction false} FileStays(
    events: seq<Event>, answers: seq<Answer>, stores: seq<Store>, i: nat, j: nat, n: nat)
    requires IsRun(events, answers, stores) && i <= j <= |events| && n in stores[i].files
    requires forall k :: i <= k < j ==> events[k].n != n || events[k].Read?
    ensures n in stores[j].files && stores[j].files[n] == stores[i].files[n]
    decreases j
  {
    if i < j {
      FileStays(events, answers, stores, i, j - 1, n);
      assert Follows(events, answers, stores, j - 1);
      assert events[j - 1].n != n || events[j - 1].Read?;
      hide Overlay;
    }
  }

  /** A read returns what the last write left: in every run, when nothing but reads
      touches the file between a write and a read of a part of what it stored, the read
      gives those bytes. */
  lemma {:induction false} ReadsTheLastWrite(
    events: seq<Event>, answers: seq<Answer>, stores: seq<Store>, i: nat, j: nat)
    requires IsRun(events, answers, stores) && i < j < |events|
    requires events[i].Write? && answers[i].tot != -1 && events[j].Read? && events[j].n == events[i].n
    requires forall k :: i < k < j ==> events[k].n != events[i].n || events[k].Read?
    requires events[i].off <= events[j].off && events[j].off + events[j].len <= events[i].off + answers[i].tot
    requires events[j].off + events[j].len < UINT && forall p <- events[j].bad :: events[j].len <= p
    ensures answers[j].tot == events[j].len && 0 <= events[j].off - events[i].off + events[j].len <= |events[i].src|
    ensures answers[j].data == events[i].src[events[j].off - events[i].off..][..events[j].len]
  {
    assert Follows(events, answers, stores, i);
    FileStays(events, answers, stores, i + 1, j, events[i].n);
    assert Follows(events, answers, stores, j);
    var f := stores[i].files[events[i].n];
    OverlayPart(f, events[i].off, events[i].src, answers[i].tot, events[j].off, events[j].len);
    hide Overlay;
  }

  lemma OverlayPart(f: seq<int>, off: nat, src: seq<nat>, tot: nat, from: nat, len: nat)
    requires off <= |f| && tot <= |src| && off <= from && from + len <= off + tot
    ensures from + len <= |Overlay(f, off, src[..tot])|
    ensures Overlay(f, off, src[..tot])[from..from + len] == src[from - off..][..len]
  {
  }
}
