/** Freeing a page table: the frames that `freewalk` reaches through memory, and that
    they are the table pages (kernel/vm.c). */
module VmFree {
  import opened VmTables

  // ----- What freewalk reaches -----

  /** The frames reached from the table page in frame `f`, `level` levels above the
      pages of leaf entries. */
  ghost function Reach(mem: map<nat, Page>, f: nat, level: nat): set<nat>
    decreases level, ENTRIES + 1
  {
    {f} + ReachFrom(mem, f, level, 0)
  }

  /** The frames reached through its entries from `i` on. */
  ghost function ReachFrom(mem: map<nat, Page>, f: nat, level: nat, i: nat): set<nat>
    requires i <= ENTRIES
    decreases level, ENTRIES - i
  {
    if level == 0 || f !in mem || |mem[f]| != ENTRIES || i == ENTRIES then {}
    else (if IsValid(mem[f][i]) then Reach(mem, FrameOf(mem[f][i]), level - 1) else {})
         + ReachFrom(mem, f, level, i + 1)
  }

  /** No leaf entry is left, and no frame is reached twice. */
  ghost predicate Clean(mem: map<nat, Page>, f: nat, level: nat)
    decreases level, ENTRIES + 1
  {
    f in mem && |mem[f]| == ENTRIES && CleanFrom(mem, f, level, 0)
  }

  ghost predicate CleanFrom(mem: map<nat, Page>, f: nat, level: nat, i: nat)
    requires i <= ENTRIES
    decreases level, ENTRIES - i
  {
    f in mem && |mem[f]| == ENTRIES && (i < ENTRIES ==> CleanEntry(mem, f, level, i) && CleanFrom(mem, f, level, i + 1))
  }

  ghost predicate CleanEntry(mem: map<nat, Page>, f: nat, level: nat, i: nat)
    requires i < ENTRIES && f in mem && |mem[f]| == ENTRIES
    decreases level, 0
  {
    IsValid(mem[f][i]) ==>
      && level > 0 && !IsLeaf(mem[f][i])
      && var c := FrameOf(mem[f][i]);
         && Clean(mem, c, level - 1) && f !in Reach(mem, c, level - 1)
         && Reach(mem, c, level - 1) !! ReachFrom(mem, f, level, i + 1)
  }

  lemma {:induction false} ReachInMem(mem: map<nat, Page>, f: nat, level: nat, i: nat)
    requires i <= ENTRIES && CleanFrom(mem, f, level, i)
    ensures ReachFrom(mem, f, level, i) <= mem.Keys
    decreases level, ENTRIES - i
  {
    if i < ENTRIES && level > 0 {
      assert CleanEntry(mem, f, level, i);
      ReachInMem(mem, f, level, i + 1);
      if IsValid(mem[f][i]) {
        assert Clean(mem, FrameOf(mem[f][i]), level - 1);
        ReachInMem(mem, FrameOf(mem[f][i]), level - 1, 0);
      }
    }
  }

  /** What is reached depends on the pages reached. */
  lemma {:induction false} ReachFrame(mem: map<nat, Page>, mem': map<nat, Page>, f: nat, level: nat)
    requires Clean(mem, f, level)
    requires forall x :: x in Reach(mem, f, level) ==> x in mem && x in mem' && mem'[x] == mem[x]
    ensures Reach(mem', f, level) == Reach(mem, f, level) && Clean(mem', f, level)
    decreases level, ENTRIES + 1
  {
    assert f in Reach(mem, f, level);
    ReachFromFrame(mem, mem', f, level, 0);
  }

  lemma {:induction false} ReachFromFrame(mem: map<nat, Page>, mem': map<nat, Page>, f: nat, level: nat, i: nat)
    requires i <= ENTRIES && CleanFrom(mem, f, level, i)
    requires f in mem' && |mem'[f]| == ENTRIES && forall j :: i <= j < ENTRIES ==> mem'[f][j] == mem[f][j]
    requires forall x :: x in ReachFrom(mem, f, level, i) ==> x in mem && x in mem' && mem'[x] == mem[x]
    ensures ReachFrom(mem', f, level, i) == ReachFrom(mem, f, level, i) && CleanFrom(mem', f, level, i)
    decreases level, ENTRIES - i
  {
    if i < ENTRIES {
      assert CleanEntry(mem, f, level, i);
      if level > 0 {
        ReachFromFrame(mem, mem', f, level, i + 1);
        if IsValid(mem[f][i]) {
          ReachFrame(mem, mem', FrameOf(mem[f][i]), level - 1);
        }
      } else {
        ReachFromFrame(mem, mem', f, level, i + 1);
      }
      assert CleanEntry(mem', f, level, i);
    }
  }

  // ----- The table pages -----

  /** The table pages of `r` below entries `a` and up of its root. */
  ghost function MidsFrom(t: map<Key, nat>, r: nat, a: nat): set<nat> {
    set k | k in t && !k.Root? && k.r == r && k.i >= a :: t[k]
  }

  /** The table pages of `r` below entries `a` and up of the page of `Mid(r, i)`. */
  ghost function LowsFrom(t: map<Key, nat>, r: nat, i: nat, a: nat): set<nat> {
    set k | k in t && k.Low? && k.r == r && k.i == i && k.j >= a :: t[k]
  }

  lemma Compose(i: nat, j: nat, a: nat)
    requires i < 256 && j < 512 && a < 512
    ensures var v := (i * 512 + j) * 512 + a; v < MAXPAGE && I0(v) == a && I1(v) == j && I2(v) == i
  {
  }

  /** A page of leaf entries with no leaf entry left. */
  lemma {:induction false} LowClean(s: State, r: nat, i: nat, j: nat, a: nat)
    requires Tables(s) && Vacant(s, r, 0, MAXPAGE)
    requires a <= ENTRIES && Low(r, i, j) in s.t
    ensures CleanFrom(s.mem, s.t[Low(r, i, j)], 0, a)
    decreases ENTRIES - a
  {
    if a < ENTRIES {
      LowClean(s, r, i, j, a + 1);
      Compose(i, j, a);
      assert Pte(s, r, (i * 512 + j) * 512 + a) == 0;
    }
  }

  lemma {:induction false} MidClean(s: State, r: nat, i: nat, a: nat)
    requires Tables(s) && Vacant(s, r, 0, MAXPAGE)
    requires a <= ENTRIES && Mid(r, i) in s.t
    ensures CleanFrom(s.mem, s.t[Mid(r, i)], 1, a)
    ensures ReachFrom(s.mem, s.t[Mid(r, i)], 1, a) == LowsFrom(s.t, r, i, a)
    decreases ENTRIES - a
  {
    if a < ENTRIES {
      MidClean(s, r, i, a + 1);
      var k := Low(r, i, a);
      assert Hangs(s.t, k) && Points(s.mem, s.t, k);
      if k in s.t {
        EntryExact(s.t[k], 0);
        LowClean(s, r, i, a, 0);
        LowsStep(s.t, r, i, a);
      } else {
        LowsStep(s.t, r, i, a);
      }
    } else {
      assert LowsFrom(s.t, r, i, a) == {};
    }
  }

  lemma LowsStep(t: map<Key, nat>, r: nat, i: nat, a: nat)
    ensures LowsFrom(t, r, i, a)
         == (if Low(r, i, a) in t then {t[Low(r, i, a)]} else {}) + LowsFrom(t, r, i, a + 1)
  {
    forall x | x in LowsFrom(t, r, i, a)
      ensures x in (if Low(r, i, a) in t then {t[Low(r, i, a)]} else {}) + LowsFrom(t, r, i, a + 1)
    {
      var k :| k in t && k.Low? && k.r == r && k.i == i && k.j >= a && t[k] == x;
    }
  }

  lemma MidsStep(t: map<Key, nat>, r: nat, a: nat)
    requires forall k <- t :: !k.Root? ==> Hangs(t, k)
    ensures MidsFrom(t, r, a)
         == (if Mid(r, a) in t then {t[Mid(r, a)]} + LowsFrom(t, r, a, 0) else {}) + MidsFrom(t, r, a + 1)
  {
    forall x | x in MidsFrom(t, r, a)
      ensures x in (if Mid(r, a) in t then {t[Mid(r, a)]} + LowsFrom(t, r, a, 0) else {}) + MidsFrom(t, r, a + 1)
    {
      var k :| k in t && !k.Root? && k.r == r && k.i >= a && t[k] == x;
    }
  }

  lemma {:induction false} RootClean(s: State, r: nat, a: nat)
    requires Tables(s) && Vacant(s, r, 0, MAXPAGE)
    requires a <= ENTRIES && Root(r) in s.t
    ensures CleanFrom(s.mem, r, 2, a)
    ensures ReachFrom(s.mem, r, 2, a) == MidsFrom(s.t, r, a)
    decreases ENTRIES - a
  {
    if a < ENTRIES {
      RootClean(s, r, a + 1);
      var k := Mid(r, a);
      assert Hangs(s.t, k) && Points(s.mem, s.t, k);
      MidsStep(s.t, r, a);
      if k in s.t {
        EntryExact(s.t[k], 0);
        MidClean(s, r, a, 0);
        RootApart(s, r, a);
        hide Tables;
      }
    } else {
      assert MidsFrom(s.t, r, a) == {};
    }
  }

  lemma RootApart(s: State, r: nat, a: nat)
    requires Tables(s) && Root(r) in s.t && Mid(r, a) in s.t
    ensures r != s.t[Mid(r, a)] && r !in LowsFrom(s.t, r, a, 0)
    ensures {s.t[Mid(r, a)]} + LowsFrom(s.t, r, a, 0) !! MidsFrom(s.t, r, a + 1)
    ensures s.t[Mid(r, a)] in s.mem && |s.mem[s.t[Mid(r, a)]]| == ENTRIES
  {
  }

  /** With no page mapped, `freewalk` reaches the table pages of `r`, each once. */
  lemma ReachesTables(s: State, r: nat)
    requires Tables(s) && Vacant(s, r, 0, MAXPAGE) && Root(r) in s.t
    ensures Clean(s.mem, r, 2) && Reach(s.mem, r, 2) == FramesOf(s.t, r)
    ensures FramesOf(s.t, r) !! s.free && FramesOf(s.t, r) <= s.mem.Keys
  {
    RootClean(s, r, 0);
    assert s.t[Root(r)] == r;
    forall x | x in FramesOf(s.t, r) ensures x in {r} + MidsFrom(s.t, r, 0) {
      var k :| k in s.t && k.r == r && s.t[k] == x;
    }
    hide Pte;
  }

  // ----- Dropping a page table -----

  ghost function Without(t: map<Key, nat>, r: nat): map<Key, nat> {
    map k | k in t && k.r != r :: t[k]
  }

  /** Without the pages of `r` the other page tables are as they were. */
  lemma DropTables(s: State, s': State, r: nat)
    requires Tables(s)
    requires SameBut(s, s', FramesOf(s.t, r)) && s'.free == s.free + FramesOf(s.t, r) && s'.t == Without(s.t, r)
    requires forall f <- s'.mem :: |s'.mem[f]| == ENTRIES
    ensures Tables(s')
    ensures forall r': nat, v: nat {:trigger Pte(s', r', v)} ::
      v < MAXPAGE && r' != r ==> Pte(s', r', v) == Pte(s, r', v)
  {
    forall k | k in s'.t ensures s'.t[k] !in FramesOf(s.t, r) {
    }
    forall k | Hangs(s'.t, k) ensures Points(s'.mem, s'.t, k) {
      assert Points(s.mem, s.t, k);
    }
  }

  // ----- Creating one -----

  /** `s` after the frame `r`, zeroed, becomes the root of a page table. */
  ghost function Created(s: State, r: nat): State {
    State(s.mem[r := Zeroes()], s.free - {r}, s.t[Root(r) := r])
  }

  lemma CreateStep(s: State, r: nat)
    requires Tables(s) && r in s.free
    ensures Tables(Created(s, r)) && SameMap(s, Created(s, r))
    ensures Vacant(Created(s, r), r, 0, MAXPAGE)
    ensures FramesOf(Created(s, r).t, r) == {r}
  {
    var s' := Created(s, r);
    forall k | k in s.t ensures k.r != r && s.t[k] != r {
      NoneBelow(s, k, r);
    }
    assert s'.t[Root(r)] == r;
    CreateTables(s, r);
    hide Tables, Zeroes;
  }

  lemma CreateTables(s: State, r: nat)
    requires Tables(s) && r in s.free && forall k <- s.t :: k.r != r && s.t[k] != r
    ensures Tables(Created(s, r))
  {
    var s' := Created(s, r);
    forall k | Hangs(s'.t, k) ensures Points(s'.mem, s'.t, k) {
      if Parent(k) in s.t { assert Points(s.mem, s.t, k); }
    }
  }

  lemma NoneBelow(s: State, k: Key, r: nat)
    requires Tables(s) && r in s.free && k in s.t
    ensures k.r != r
  {
    assert Root(k.r) in s.t;
  }
}
