/** The buddy allocator as it runs: a packed byte array, four two-bit slots to a
    byte, changed in place (kernel/buddy_kalloc.c). */
module BuddyAllocator {
  import opened BuddyIndex
  import opened BuddyTree
  import opened BuddyRuns
  import opened BuddyBoot

  const PGSIZE: nat := 4096
  const KERNBASE: nat := 0x8000_0000

  // ----- Addresses -----

  lemma {:induction false} LevelShift(x: nat, k: nat)
    requires x >= 1
    ensures x * Pow2(k) >= 1 && Level(x * Pow2(k)) == Level(x) + k
  {
    if k > 0 {
      LevelShift(x, k - 1);
      var y := x * Pow2(k - 1);
      assert x * Pow2(k) == 2 * y;
      assert (2 * y) / 2 == y;
    }
  }

  /** A value below `Pow2(j)` is one of level below `j`. */
  lemma {:induction false} LevelBelow(x: nat, j: nat)
    requires x >= 1
    ensures x < Pow2(j) <==> Level(x) < j
  {
    LevelExact(x, Level(x));
    if Level(x) < j {
      PowMono(Level(x) + 1, j);
    } else {
      PowMono(j, Level(x));
    }
  }

  lemma PowValues()
    ensures Pow2(32) == 0x1_0000_0000 && Pow2(48) == 0x1_0000_0000_0000
    ensures Pow2(56) == 0x100_0000_0000_0000 && Pow2(60) == 0x1000_0000_0000_0000
    ensures Pow2(62) == 0x4000_0000_0000_0000 && Pow2(63) == 0x8000_0000_0000_0000
    ensures Pow2(64) == 0x1_0000_0000_0000_0000
  {
    Product(8, 0x100, 8, 0x100);
    Product(16, 0x1_0000, 16, 0x1_0000);
    Product(32, 0x1_0000_0000, 16, 0x1_0000);
    Product(48, 0x1_0000_0000_0000, 8, 0x100);
    Product(56, 0x100_0000_0000_0000, 4, 0x10);
  }

  lemma Product(a: nat, x: nat, b: nat, y: nat)
    requires Pow2(a) == x && Pow2(b) == y
    ensures Pow2(a + b) == x * y
  {
    PowAdd(a, b);
  }

  /** One step of `my_clz`: shift left by `k` when the top `k` bits are zero. No
      bit is lost, so the shift is a multiplication. */
  method Widen(n: nat, x: nat, limit: nat, k: nat, ghost j: nat) returns (n': nat, x': nat)
    requires x >= 1 && k + j == 64 && limit + 1 == Pow2(j)
    ensures x' >= 1 && Level(x') - n' == Level(x) - n
    ensures Level(x') == if Level(x) < j then Level(x) + k else Level(x)
  {
    LevelBelow(x, j);
    n', x' := n, x;
    if x <= limit {
      LevelShift(x, k);
      n', x' := n + k, x * Pow2(k);
    }
  }

  /** `my_clz`: the leading zeros of a 64-bit word, by halving, and with them the
      level of a node. */
  method Clz(word: nat) returns (n: nat)
    requires word < 0x1_0000_0000_0000_0000
    ensures word == 0 ==> n == 64
    ensures word != 0 ==> n == 63 - Level(word)
  {
    if word == 0 {
      return 64;
    }
    PowValues();
    LevelBelow(word, 64);
    var x := word;
    n, x := Widen(0, x, 0x0000_0000_FFFF_FFFF, 32, 32);
    n, x := Widen(n, x, 0x0000_FFFF_FFFF_FFFF, 16, 48);
    n, x := Widen(n, x, 0x00FF_FFFF_FFFF_FFFF, 8, 56);
    n, x := Widen(n, x, 0x0FFF_FFFF_FFFF_FFFF, 4, 60);
    n, x := Widen(n, x, 0x3FFF_FFFF_FFFF_FFFF, 2, 62);
    LevelBelow(x, 63);
    if x <= 0x7FFF_FFFF_FFFF_FFFF {
      n := n + 1;
    }
  }

  method GetLevel(v: nat) returns (level: nat)
    requires 1 <= v < 0x1_0000_0000_0000_0000
    ensures level == Level(v)
  {
    var n := Clz(v);
    level := 63 - n;
  }

  function MemSize(l: nat): int {
    Pow2(l) * PGSIZE
  }

  function BlockSize(l: nat, level: nat): int {
    MemSize(l) / Pow2(level)
  }

  /** `get_adr`, with `vindex ^ mask` written as a subtraction: the mask is the
      leading bit of `vindex`. */
  function GetAdr(l: nat, v: nat): int
    requires v >= 1
  {
    KERNBASE + (v - Pow2(Level(v))) * BlockSize(l, Level(v))
  }

  /** `get_vindex`. */
  function GetVindex(l: nat, adr: nat, level: nat): int
    requires KERNBASE <= adr && level <= l
  {
    BlockSizeExact(l, level);
    Pow2(level) + (adr - KERNBASE) / BlockSize(l, level)
  }

  lemma DivExact(a: nat, b: nat, r: nat)
    requires r < b
    ensures (a * b + r) / b == a
  {
    var q := (a * b + r) / b;
    assert q * b <= a * b + r < q * b + b;
    assert (q + 1) * b == q * b + b && (a + 1) * b == a * b + b;
    if q < a {
      MulMono(q + 1, a, b);
    } else if a + 1 <= q {
      MulMono(a + 1, q, b);
    }
  }

  lemma DivBounds(x: nat, d: nat)
    requires d > 0
    ensures (x / d) * d <= x < (x / d) * d + d
  {
  }

  lemma MulMono(a: nat, b: nat, c: nat)
    requires a <= b
    ensures a * c <= b * c
  {
  }

  lemma {:induction false} BlockSizeExact(l: nat, level: nat)
    requires level <= l
    ensures BlockSize(l, level) == Pow2(l - level) * PGSIZE >= PGSIZE
  {
    PowAdd(l - level, level);
    var big, small := Pow2(l - level), Pow2(level);
    assert (big * small) * PGSIZE == (big * PGSIZE) * small;
    DivExact(big * PGSIZE, small, 0);
  }

  /** Where a block starts and ends, counted in pages. */
  lemma {:induction false} LoValue(l: nat, v: nat)
    requires 1 <= v < 2 * Pow2(l)
    ensures Level(v) <= l
    ensures Lo(Pow2(l), v) == (v - Pow2(Level(v))) * Pow2(l - Level(v))
    ensures Hi(Pow2(l), v) == Lo(Pow2(l), v) + Pow2(l - Level(v))
    decreases Pow2(l) - v
  {
    hide Level;
    LevelBelow(v, l + 1);
    LevelBelow(v, l);
    if v < Pow2(l) {
      ChildLevels(v);
      LoValue(l, 2 * v);
      LoValue(l, 2 * v + 1);
      Doubling(v - Pow2(Level(v)), Pow2(l - Level(v) - 1));
    }
  }

  lemma ChildLevels(v: nat)
    requires v >= 1
    ensures Level(2 * v) == Level(2 * v + 1) == Level(v) + 1
  {
    assert (2 * v) / 2 == v && (2 * v + 1) / 2 == v;
  }

  lemma Doubling(a: int, k: int)
    ensures (2 * a) * k == a * (2 * k)
    ensures (2 * a + 1) * k == a * (2 * k) + k
  {
  }

  lemma {:induction false} NodeFits(l: nat, v: nat)
    requires l <= 51 && v < 2 * Pow2(l)
    ensures v < 0x1_0000_0000_0000_0000
  {
    PowValues();
    PowMono(l + 1, 63);
  }

  /** The block of node `v` is the address range of its pages. */
  lemma {:induction false} GetAdrExact(l: nat, v: nat)
    requires 1 <= v < 2 * Pow2(l)
    ensures Level(v) <= l
    ensures GetAdr(l, v) == KERNBASE + Lo(Pow2(l), v) * PGSIZE
    ensures GetAdr(l, v) + BlockSize(l, Level(v)) == KERNBASE + Hi(Pow2(l), v) * PGSIZE
  {
    hide Pow2, Level, BlockSize, Lo, Hi;
    LoValue(l, v);
    BlockSizeExact(l, Level(v));
    Assoc(v - Pow2(Level(v)), Pow2(l - Level(v)));
  }

  lemma Assoc(a: int, b: int)
    ensures a * (b * PGSIZE) == (a * b) * PGSIZE
    ensures (a * b + b) * PGSIZE == (a * b) * PGSIZE + b * PGSIZE
  {
  }

  /** `get_vindex` finds the node of the given level that holds an address. */
  lemma {:induction false} GetVindexExact(l: nat, adr: nat, level: nat)
    requires level <= l && KERNBASE <= adr < KERNBASE + MemSize(l)
    ensures var v := GetVindex(l, adr, level);
            && 1 <= v < 2 * Pow2(l) && Level(v) == level
            && Lo(Pow2(l), v) * PGSIZE <= adr - KERNBASE < Hi(Pow2(l), v) * PGSIZE
  {
    hide Pow2, Level, MemSize, BlockSize, Lo, Hi;
    var b := Pow2(l - level);
    var q := (adr - KERNBASE) / (b * PGSIZE);
    BlockSizeExact(l, level);
    Quotient(adr - KERNBASE, b, b * PGSIZE, q);
    QuotientBound(l, level, q);
    var v := Pow2(level) + q;
    LevelExact(v, level);
    PowMono(level, l);
    LoValue(l, v);
  }

  lemma Quotient(x: nat, b: nat, d: nat, q: nat)
    requires d > 0 && d == b * PGSIZE && q == x / d
    ensures q * d == (q * b) * PGSIZE <= x < (q * b + b) * PGSIZE
  {
    DivBounds(x, d);
    Assoc(q, b);
  }

  lemma {:induction false} QuotientBound(l: nat, level: nat, q: nat)
    requires level <= l && q * (Pow2(l - level) * PGSIZE) < MemSize(l)
    ensures q < Pow2(level)
  {
    hide Pow2;
    PowAdd(level, l - level);
    Assoc(Pow2(level), Pow2(l - level));
    if q >= Pow2(level) {
      MulMono(Pow2(level), q, Pow2(l - level) * PGSIZE);
    }
  }

  /** Over all addresses that the guard of `buddy_kfree` lets through: the node of
      `get_vindex` lies in the tree at the level asked for and its block holds the
      address, if and only if the address is not `PHYSTOP` itself. */
  lemma {:induction false} GuardExact(l: nat, adr: nat, level: nat)
    requires level <= l && KERNBASE <= adr <= KERNBASE + MemSize(l)
    ensures var v := GetVindex(l, adr, level);
            && v >= 1
            && ((&& v < 2 * Pow2(l) && Level(v) == level
                 && GetAdr(l, v) <= adr < GetAdr(l, v) + BlockSize(l, level))
                <==> adr != KERNBASE + MemSize(l))
  {
    hide Pow2, Level, MemSize, BlockSize, Lo, Hi, GetVindex, GetAdr;
    if adr == KERNBASE + MemSize(l) {
      TopAddress(l, level);
      PowMono(0, level);
    } else {
      GetVindexExact(l, adr, level);
      GetAdrExact(l, GetVindex(l, adr, level));
    }
  }

  /** The address `PHYSTOP`, which the guard admits: for a single page its node is the
      first one outside the tree; for every larger block it is a node one level further
      down, whose block starts at the first page of memory. */
  lemma {:induction false} TopAddress(l: nat, level: nat)
    requires level <= l
    ensures MemSize(l) >= 0
    ensures var v := GetVindex(l, KERNBASE + MemSize(l), level);
            && v == 2 * Pow2(level) && Level(v) == level + 1
            && (level == l ==> v == 2 * Pow2(l))
            && (level < l ==> v < 2 * Pow2(l) && GetAdr(l, v) == KERNBASE)
  {
    hide Pow2, Level, MemSize, BlockSize, GetVindex, GetAdr;
    BlockSizeExact(l, level);
    TopQuotient(l, level);
    DoublePow(level);
    LevelExact(2 * Pow2(level), level + 1);
    if level < l {
      PowMono(level + 1, l);
      FirstBlock(l, level + 1);
    }
  }

  lemma DoublePow(level: nat)
    ensures Pow2(level + 1) == 2 * Pow2(level) >= 2
  {
  }

  lemma {:induction false} TopQuotient(l: nat, level: nat)
    requires level <= l
    ensures MemSize(l) >= 0
    ensures GetVindex(l, KERNBASE + MemSize(l), level) == 2 * Pow2(level)
  {
    hide Pow2;
    PowAdd(level, l - level);
    BlockSizeExact(l, level);
    Assoc(Pow2(level), Pow2(l - level));
    DivExact(Pow2(level), BlockSize(l, level), 0);
  }

  lemma {:induction false} FirstBlock(l: nat, level: nat)
    requires level <= l && Level(Pow2(level)) == level
    ensures GetAdr(l, Pow2(level)) == KERNBASE
  {
    hide Pow2, Level, BlockSize;
    assert 0 * BlockSize(l, level) == 0;
  }

  /** What that means after boot: when the kernel fills the first block of half the
      order asked for, freeing `PHYSTOP` at that order finds the kernel's block FULL. */
  lemma {:induction false} TopFreesKernel(l: nat, k: nat, order: nat)
    requires 1 <= order <= l && Pow2(order - 1) <= k <= Pow2(l)
    ensures MemSize(l) >= 0
    ensures var v := GetVindex(l, KERNBASE + MemSize(l), l - order);
            1 <= v < 2 * Pow2(l) && BootTree(l, k, Pow2(l))[v] == Full
  {
    hide Pow2, Level, MemSize, BlockSize, GetVindex, GetAdr, Lo, Hi;
    TopAddress(l, l - order);
    var v := GetVindex(l, KERNBASE + MemSize(l), l - order);
    PowMono(0, l - order);
    LoValue(l, v);
    DoublePow(l - order);
    assert Lo(Pow2(l), v) == 0 * Pow2(order - 1);
  }

  /** `get_vindex` inverts `get_adr`. */
  lemma {:induction false} AddressRoundTrip(l: nat, v: nat)
    requires 1 <= v < 2 * Pow2(l)
    ensures Level(v) <= l && GetAdr(l, v) >= KERNBASE
    ensures GetVindex(l, GetAdr(l, v), Level(v)) == v
  {
    hide Pow2, Level, MemSize, BlockSize, Lo, Hi;
    GetAdrExact(l, v);
    HiBound(l, v);
    LevelExact(v, Level(v));
    BlockSizeExact(l, Level(v));
    DivExact(v - Pow2(Level(v)), BlockSize(l, Level(v)), 0);
  }

  /** Blocks that share no page are disjoint address ranges. */
  lemma {:induction false} DisjointAddresses(l: nat, v: nat, w: nat, adr: nat)
    requires 1 <= v < 2 * Pow2(l) && 1 <= w < 2 * Pow2(l)
    requires Disjoint(Pow2(l), v, w)
    requires GetAdr(l, v) <= adr < GetAdr(l, v) + BlockSize(l, Level(v))
    ensures !(GetAdr(l, w) <= adr < GetAdr(l, w) + BlockSize(l, Level(w)))
  {
    hide Pow2, Level, GetAdr, BlockSize, Lo, Hi;
    GetAdrExact(l, v);
    GetAdrExact(l, w);
    HiBound(l, v);
    var p := (adr - KERNBASE) / PGSIZE;
    assert Lo(Pow2(l), v) <= p < Hi(Pow2(l), v);
    PagesAreAnInterval(l, v, p);
    PagesAreAnInterval(l, w, p);
  }

  // ----- Packed slots -----

  function Decode(b: bv8): Slot {
    if b == 0 then Empty else if b == 1 then Split else if b == 2 then Reserved else Full
  }

  function Encode(x: Slot): bv8 {
    match x
    case Empty => 0
    case Split => 1
    case Reserved => 2
    case Full => 3
  }

  /** `(vindex % 4) << 1`. */
  function Shift(v: nat): (r: bv8)
    ensures r == 0 || r == 2 || r == 4 || r == 6
  {
    if v % 4 == 0 then 0 else if v % 4 == 1 then 2 else if v % 4 == 2 then 4 else 6
  }

  function ReadBits(byte: bv8, shift: bv8): bv8
    requires shift <= 6
  {
    (byte >> shift) & 3
  }

  function WriteBits(byte: bv8, shift: bv8, x: bv8): bv8
    requires shift <= 6
  {
    (byte & !(3 << shift)) | ((x & 3) << shift)
  }

  /** Writing one slot of a byte changes that slot and no other. */
  lemma WriteThenRead(byte: bv8, i: bv8, x: bv8, j: bv8)
    requires i == 0 || i == 2 || i == 4 || i == 6
    requires j == 0 || j == 2 || j == 4 || j == 6
    requires x <= 3
    ensures ReadBits(WriteBits(byte, i, x), j) == if i == j then x else ReadBits(byte, j)
  {
  }

  function SlotOf(bytes: seq<bv8>, v: nat): Slot
    requires v < 4 * |bytes|
  {
    Decode(ReadBits(bytes[v / 4], Shift(v)))
  }

  /** The packed array holds the slots `s`. */
  ghost predicate Packs(bytes: seq<bv8>, s: seq<Slot>) {
    && |s| == 4 * |bytes|
    && forall v {:trigger SlotOf(bytes, v)} :: 0 <= v < |s| ==> s[v] == SlotOf(bytes, v)
  }

  lemma PacksUpdate(bytes: seq<bv8>, s: seq<Slot>, v: nat, x: Slot)
    requires Packs(bytes, s) && v < |s|
    ensures Packs(bytes[v / 4 := WriteBits(bytes[v / 4], Shift(v), Encode(x))], s[v := x])
  {
    var after := bytes[v / 4 := WriteBits(bytes[v / 4], Shift(v), Encode(x))];
    forall u | 0 <= u < |s|
      ensures s[v := x][u] == SlotOf(after, u)
    {
      assert s[u] == SlotOf(bytes, u);
      if u / 4 == v / 4 {
        WriteThenRead(bytes[v / 4], Shift(v), Encode(x), Shift(u));
      }
    }
  }

  /** From `s` to `s'` node `v` was freed if its slot was FULL, and nothing changed otherwise. */
  ghost predicate FreedWhenFull(s: seq<Slot>, v: int, done: bool, s': seq<Slot>) {
    && 1 <= v < |s| && |s| % 2 == 0
    && (done <==> s[v] == Full)
    && s' == if done then FreeAt(s, v) else s
  }

  /** The four slots of one byte. */
  function FourSlots(byte: bv8): (r: seq<Slot>)
    ensures |r| == 4
  {
    [Decode(ReadBits(byte, 0)), Decode(ReadBits(byte, 2)), Decode(ReadBits(byte, 4)), Decode(ReadBits(byte, 6))]
  }

  lemma TwoOfFour(byte: bv8)
    ensures FourSlots(byte)[0] == Decode(ReadBits(byte, 0)) && FourSlots(byte)[1] == Decode(ReadBits(byte, 2))
  {
  }

  lemma FirstOfFour(byte: bv8, x: Slot)
    ensures FourSlots(WriteBits(byte, 0, Encode(x))) == FourSlots(byte)[0 := x]
  {
    WriteThenRead(byte, 0, Encode(x), 0);
    WriteThenRead(byte, 0, Encode(x), 2);
    WriteThenRead(byte, 0, Encode(x), 4);
    WriteThenRead(byte, 0, Encode(x), 6);
  }

  /** The upward pass from a node of the tree leaves alone what follows the tree. */
  lemma {:induction false} UpFreeWithin(s: seq<Slot>, t: seq<Slot>, v: nat)
    requires 1 <= v < |s| && |s| % 2 == 0 && |t| % 2 == 0
    ensures UpFree(s + t, v) == UpFree(s, v) + t
    decreases v
  {
    if v > 1 {
      var p := v / 2;
      assert (s + t)[p] == s[p] && (s + t)[Sibling(v)] == s[Sibling(v)];
      assert (s + t)[p := Split] == s[p := Split] + t;
      assert (s + t)[p := Empty] == s[p := Empty] + t;
      UpFreeWithin(s[p := Split], t, p);
      UpFreeWithin(s[p := Empty], t, p);
      UpFreeWithin(s, t, p);
    }
  }

  // ----- The allocator -----

  /** The nodes on the search stack lie at increasing levels above `bound`. */
  ghost predicate Stacked(stack: seq<nat>, bound: nat) {
    && (forall i :: 0 <= i < |stack| ==> stack[i] >= 1 && i <= Level(stack[i]) < bound)
    && (forall i, j :: 0 <= i < j < |stack| ==> Level(stack[i]) < Level(stack[j]))
  }

  /** What the search still finds by going right from the nodes on the stack. */
  ghost function Resume(s: seq<Slot>, l: nat, level: nat, stack: seq<nat>): nat
    requires |s| == 2 * Pow2(l) && level <= l && Stacked(stack, level)
  {
    if stack == [] then 0
    else
      var u := stack[|stack| - 1];
      assert (2 * u + 1) / 2 == u;
      FitsByLevel(l, 2 * u + 1, level - Level(u) - 1);
      var w := Search(s, 2 * u + 1, level - Level(u) - 1);
      if w != 0 then w else Resume(s, l, level, stack[..|stack| - 1])
  }

  /** How many nodes those subtrees have. */
  ghost function Remaining(level: nat, stack: seq<nat>): nat
    requires Stacked(stack, level)
  {
    if stack == [] then 0
    else Pow2(level - Level(stack[|stack| - 1])) + Remaining(level, stack[..|stack| - 1])
  }

  /** Where the search is: at node `v` of level `curr`, with a stack. */
  datatype Cursor = Cursor(v: nat, curr: nat, stack: seq<nat>)

  /** The loop invariant of the search: searching below `v`, then resuming from
      the stack, finds what searching from the root finds. */
  ghost predicate Searching(s: seq<Slot>, l: nat, level: nat, at: Cursor) {
    match at
    case Cursor(v, curr, stack) =>
      && |s| == 2 * Pow2(l) && curr <= level <= l && v >= 1 && Level(v) == curr
      && Stacked(stack, curr)
      && Fits(|s|, 1, level) && Fits(|s|, v, level - curr)
      && Search(s, 1, level) == var w := Search(s, v, level - curr);
                                if w != 0 then w else Resume(s, l, level, stack)
  }

  ghost function Budget(level: nat, curr: nat, stack: seq<nat>): nat
    requires curr <= level && Stacked(stack, level)
  {
    Pow2(level - curr + 1) + Remaining(level, stack)
  }

  lemma StackRoom(stack: seq<nat>, curr: nat)
    requires Stacked(stack, curr)
    ensures |stack| <= curr
  {
    if stack != [] {
      assert |stack| - 1 <= Level(stack[|stack| - 1]) < curr;
    }
  }

  lemma DeadEnd(s: seq<Slot>, v: nat, k: nat)
    requires 1 <= v && Fits(|s|, v, k)
    ensures s[v] == Full || (k == 0 && s[v] != Empty) ==> Search(s, v, k) == 0
  {
  }

  lemma StartSearch(s: seq<Slot>, l: nat, level: nat)
    requires |s| == 2 * Pow2(l) && level <= l
    ensures Searching(s, l, level, Cursor(1, 0, []))
  {
    FitsByLevel(l, 1, level);
  }

  /** Going down to the only child worth searching. */
  lemma Descend(s: seq<Slot>, l: nat, level: nat, v: nat, curr: nat, stack: seq<nat>, child: nat)
    requires Searching(s, l, level, Cursor(v, curr, stack)) && curr < level && child / 2 == v
    requires Search(s, v, level - curr) == Search(s, child, level - curr - 1)
    ensures Searching(s, l, level, Cursor(child, curr + 1, stack))
    ensures Budget(level, curr + 1, stack) < Budget(level, curr, stack)
  {
  }

  /** Remembering a node with two SPLIT children and going left. */
  lemma PushLeft(s: seq<Slot>, l: nat, level: nat, v: nat, curr: nat, stack: seq<nat>)
    requires Searching(s, l, level, Cursor(v, curr, stack)) && curr < level
    requires s[v] == Split && s[2 * v] == Split && s[2 * v + 1] == Split
    ensures Searching(s, l, level, Cursor(2 * v, curr + 1, stack + [v]))
    ensures Budget(level, curr + 1, stack + [v]) <= Budget(level, curr, stack)
  {
    StackRoom(stack, curr);
    assert (2 * v) / 2 == v;
    assert (stack + [v])[..|stack|] == stack;
  }

  /** Going back to the last node pushed and then right. */
  lemma PopRight(s: seq<Slot>, l: nat, level: nat, at: Cursor, stack: seq<nat>, u: nat)
    requires Searching(s, l, level, at) && at.stack == stack + [u]
    requires Search(s, at.v, level - at.curr) == 0
    ensures u >= 1 && Level(2 * u + 1) <= level && Stacked(stack, level)
    ensures Searching(s, l, level, Cursor(2 * u + 1, Level(2 * u + 1), stack))
    ensures Budget(level, Level(2 * u + 1), stack) < Budget(level, at.curr, at.stack)
  {
    assert u == at.stack[|stack|] && (2 * u + 1) / 2 == u;
    assert at.stack[..|stack|] == stack;
    assert forall i :: 0 <= i < |stack| ==> stack[i] == at.stack[i];
    FitsByLevel(l, 2 * u + 1, level - Level(u) - 1);
  }

  /** What the search returns is what the depth-first search returns. */
  lemma EndSearch(s: seq<Slot>, l: nat, level: nat, at: Cursor)
    requires Searching(s, l, level, at)
    ensures at.v < |s| == 2 * Pow2(l)
    ensures at.curr == level && s[at.v] == Empty ==> Search(s, 1, level) == at.v
    ensures Search(s, at.v, level - at.curr) == 0 && at.stack == [] ==>
              Search(s, 1, level) == 0 && (at.curr == level ==> s[at.v] != Empty)
  {
  }

  lemma RightOf(s: seq<Slot>, l: nat, level: nat, at: Cursor)
    requires Searching(s, l, level, at) && at.stack != [] && l <= 51
    ensures 2 * at.stack[|at.stack| - 1] + 1 < 0x1_0000_0000_0000_0000
  {
    var u := at.stack[|at.stack| - 1];
    assert Level(u) < l;
    LevelBelow(u, l);
    NodeFits(l, 2 * u + 1);
  }

  datatype Allocated = Panic | Address(adr: int)
  datatype Freed = Panicked | Refused | Done

  class Allocator {
    const l: nat       // BUDDY_TREE_LEVEL
    const end: nat     // first address after the kernel
    var tree: array<bv8>
    var behind: bv8    // the byte that follows the tree in memory
    ghost var slots: seq<Slot>  // what the tree holds

    ghost predicate Valid()
      reads this, tree
    {
      && 1 <= l <= 51
      && 2 * tree.Length == Pow2(l)
      && Packs(tree[..], slots)
      && KERNBASE <= end <= KERNBASE + MemSize(l)
    }

    constructor (l: nat, end: nat)
      requires 1 <= l <= 51 && KERNBASE <= end <= KERNBASE + MemSize(l)
      ensures Valid() && this.l == l && this.end == end && fresh(tree)
      ensures slots == seq(2 * Pow2(l), _ => Empty)
    {
      this.l, this.end := l, end;
      tree := new bv8[Pow2(l) / 2](_ => 0);
      slots := seq(2 * Pow2(l), _ => Empty);
    }

    method GetState(v: nat) returns (x: Slot)
      requires Valid() && v < 2 * Pow2(l)
      ensures x == slots[v]
    {
      assert SlotOf(tree[..], v) == slots[v];
      x := Decode(ReadBits(tree[v / 4], Shift(v)));
    }

    method SetState(v: nat, x: Slot)
      requires Valid() && v < 2 * Pow2(l)
      modifies tree, `slots
      ensures Valid() && slots == old(slots)[v := x]
    {
      PacksUpdate(tree[..], slots, v, x);
      tree[v / 4] := WriteBits(tree[v / 4], Shift(v), Encode(x));
      assert tree[..] == old(tree[..])[v / 4 := tree[v / 4]];
      slots := slots[v := x];
    }

    method UpdateUpstairsAlloc(vindex: nat)
      requires Valid() && 1 <= vindex < 2 * Pow2(l)
      modifies tree, `slots
      ensures Valid() && slots == UpAlloc(old(slots), vindex)
    {
      var v := vindex;
      while v != 1
        invariant Valid() && 1 <= v < 2 * Pow2(l)
        invariant UpAlloc(slots, v) == UpAlloc(old(slots), vindex)
      {
        var state := GetState(v);
        var brother := GetState(Sibling(v));
        v := v / 2;
        if brother == Full && state == Full {
          SetState(v, Full);
        } else {
          SetState(v, Split);
        }
      }
    }

    method UpdateUpstairsFree(vindex: nat)
      requires Valid() && 1 <= vindex < 2 * Pow2(l)
      modifies tree, `slots
      ensures Valid() && slots == UpFree(old(slots), vindex)
    {
      var v := vindex;
      while v != 1
        invariant Valid() && 1 <= v < 2 * Pow2(l)
        invariant UpFree(slots, v) == UpFree(old(slots), vindex)
      {
        var brother := GetState(Sibling(v));
        v := v / 2;
        var state := GetState(v);
        if state == Full {
          SetState(v, Split);
        } else if state == Split {
          if brother == Empty {
            SetState(v, Empty);
          } else {
            return;
          }
        }
      }
    }

    /** The child to search next, 0 when no child can help. `both` tells that the
        two children are SPLIT, so that `v` has to be remembered. */
    method NextChild(v: nat, state: Slot, ghost k: nat) returns (next: nat, both: bool)
      requires Valid() && 1 <= v && k > 0 && Fits(2 * Pow2(l), v, k)
      requires state == slots[v] && state != Full
      ensures both <==> state == Split && slots[2 * v] == Split && slots[2 * v + 1] == Split
      ensures next == 0 ==> Search(slots, v, k) == 0
      ensures both ==> next == 2 * v
      ensures next != 0 ==> next / 2 == v
      ensures next != 0 && !both ==> Search(slots, v, k) == Search(slots, next, k - 1)
    {
      both := false;
      if state == Empty {
        next := 2 * v;
      } else if state == Split {
        var ls := GetState(2 * v);
        var rs := GetState(2 * v + 1);
        if ls == Split && rs == Split {
          next, both := 2 * v, true;
        } else if ls == Empty {
          next := 2 * v;
        } else if rs == Empty {
          next := 2 * v + 1;
        } else if ls == Full && rs == Split {
          next := 2 * v + 1;
        } else if rs == Full && ls == Split {
          next := 2 * v;
        } else {
          next := 0;
        }
      } else {
        next := 0;
      }
    }

    /** The inner loop of `locate_free_block`: go down until a block is found or
        the branch is dead. The stack never overflows: the nodes on it lie at
        different levels above the current one. */
    method GoDown(level: nat, stack: array<nat>, v0: nat, curr0: nat, top0: nat)
      returns (v: nat, curr: nat, top: nat, found: bool)
      requires Valid() && stack.Length == l && top0 <= l && stack as object != tree
      requires Searching(slots, l, level, Cursor(v0, curr0, stack[..top0]))
      modifies stack
      ensures Valid() && top <= l
      ensures Searching(slots, l, level, Cursor(v, curr, stack[..top]))
      ensures Budget(level, curr, stack[..top]) <= old(Budget(level, curr0, stack[..top0]))
      ensures if found then curr == level && slots[v] == Empty else Search(slots, v, level - curr) == 0
    {
      hide Search, Fits, Level, Pow2, Resume, Remaining, Packs;
      v, curr, top, found := v0, curr0, top0, false;
      while curr <= level
        invariant Valid() && top <= l
        invariant Searching(slots, l, level, Cursor(v, curr, stack[..top]))
        invariant Budget(level, curr, stack[..top]) <= old(Budget(level, curr0, stack[..top0]))
        decreases level - curr
      {
        EndSearch(slots, l, level, Cursor(v, curr, stack[..top]));
        var state := GetState(v);
        DeadEnd(slots, v, level - curr);
        if state == Full {
          return;
        }
        if curr == level && state == Empty {
          found := true;
          return;
        } else if curr == level {
          return;
        }
        var next, both := NextChild(v, state, level - curr);
        if next == 0 {
          return;
        }
        if both {
          StackRoom(stack[..top], curr);
          PushLeft(slots, l, level, v, curr, stack[..top]);
          stack[top] := v;
          assert stack[..top + 1] == stack[..top] + [v];
          top := top + 1;
        } else {
          Descend(slots, l, level, v, curr, stack[..top], next);
        }
        v, curr := next, curr + 1;
      }
    }

    /** `locate_free_block`: the search with an explicit stack finds the node that
        the depth-first search finds. */
    method LocateFreeBlock(level: nat) returns (vindex: nat, r: nat)
      requires Valid() && level <= l
      ensures r == 0 || (r == level && 1 <= vindex < 2 * Pow2(l))
      ensures var hit := r != 0 && slots[vindex] == Empty;
              Pick(slots, l, level) == if hit then vindex else 0
    {
      hide Search, Fits, Level, MemSize;
      assert |slots| == 2 * Pow2(l);
      hide Packs;
      var stack := new nat[l];
      var v: nat, curr: nat, top: nat, found := 1, 0, 0, false;
      ghost var at := Cursor(1, 0, []);
      StartSearch(slots, l, level);
      while true
        invariant Valid() && top <= l
        invariant at == Cursor(v, curr, stack[..top]) && Searching(slots, l, level, at)
        decreases Budget(level, at.curr, at.stack)
      {
        v, curr, top, found := GoDown(level, stack, v, curr, top);
        at := Cursor(v, curr, stack[..top]);
        if found || top == 0 {
          EndSearch(slots, l, level, at);
          break;
        }
        RightOf(slots, l, level, at);
        top := top - 1;
        v := 2 * stack[top] + 1;
        PopRight(slots, l, level, at, stack[..top], stack[top]);
        at := Cursor(v, Level(v), stack[..top]);
        curr := GetLevel(v);
      }
      if curr == level {
        vindex, r := v, curr;
      } else {
        vindex, r := 1, 0;
      }
    }

    /** `buddy_kalloc`: takes the block that `Pick` names, or none. */
    method Kalloc(order: nat) returns (r: Allocated)
      requires Valid()
      modifies tree, `slots
      ensures Valid()
      ensures order > l <==> r == Panic
      ensures order > l ==> slots == old(slots)
      ensures order <= l ==>
                var w := Pick(old(slots), l, l - order);
                if w == 0 then r == Address(0) && slots == old(slots)
                else
                  && r == Address(GetAdr(l, w))
                  && slots == AllocAt(old(slots), w)
    {
      hide Pow2, Level, MemSize, BlockSize, Pick, UpAlloc;
      if order > l {
        return Panic;
      }
      var level := l - order;
      var v, localLevel := LocateFreeBlock(level);
      if localLevel == 0 {
        return Address(0);
      }
      var state := GetState(v);
      if state == Empty {
        NodeFits(l, v);
        var blockLevel := GetLevel(v);
        r := Address(KERNBASE + (v - Pow2(blockLevel)) * BlockSize(l, blockLevel));
        SetState(v, Full);
        UpdateUpstairsAlloc(v);
        return;
      }
      return Address(0);
    }

    /** `buddy_kfree`, on every address: frees the node that `get_vindex` gives for the
        order when its slot is FULL, and changes nothing otherwise. `GuardExact` and
        `TopAddress` say which node that is. For `PHYSTOP` at order 0 it is the first slot
        of the byte behind the tree, and the upward pass starts from there. */
    method Kfree(adr: nat, order: nat) returns (r: Freed)
      requires Valid()
      modifies tree, `slots, `behind
      ensures Valid()
      ensures r == Panicked <==> order > l || adr > KERNBASE + MemSize(l) || adr < end
      ensures r == Panicked ==> slots == old(slots) && behind == old(behind)
      ensures r != Panicked && (order > 0 || adr != KERNBASE + MemSize(l)) ==>
                && behind == old(behind)
                && FreedWhenFull(old(slots), GetVindex(l, adr, l - order), r == Done, slots)
      ensures r != Panicked && order == 0 && adr == KERNBASE + MemSize(l) ==>
                var s, s' := old(slots) + FourSlots(old(behind)), slots + FourSlots(behind);
                GetVindex(l, adr, l) == |old(slots)| && FreedWhenFull(s, |old(slots)|, r == Done, s')
    {
      hide Pow2, Level, MemSize, BlockSize, GetVindex, UpFree, GetAdr, FourSlots;
      if order > l || adr > KERNBASE + MemSize(l) || adr < end {
        return Panicked;
      }
      var level := l - order;
      GuardExact(l, adr, level);
      TopAddress(l, level);
      var v := GetVindex(l, adr, level);
      if v / 4 >= tree.Length {
        r := FreeBehind(v);
        return;
      }
      var state := GetState(v);
      if state != Full {
        return Refused;
      }
      SetState(v, Empty);
      UpdateUpstairsFree(v);
      return Done;
    }

    /** The same for the node that follows the tree: its slot and that of its sibling are
        in the byte behind the array, its parent is the first leaf. */
    method FreeBehind(v: nat) returns (r: Freed)
      requires Valid() && v == 2 * Pow2(l)
      modifies tree, `slots, `behind
      ensures Valid() && r != Panicked && |old(slots)| == v
      ensures FreedWhenFull(old(slots) + FourSlots(old(behind)), v, r == Done, slots + FourSlots(behind))
    {
      hide Pow2, Encode, WriteBits, ReadBits, Decode, FreedWhenFull, UpFree, UpOnce, FourSlots;
      assert |slots| == v && v % 4 == 0;
      hide Packs;
      ghost var t := FourSlots(behind);
      BehindFreed(slots, t, v);
      TwoOfFour(behind);
      if Decode(ReadBits(behind, 0)) != Full {
        return Refused;
      }
      FirstOfFour(behind, Empty);
      behind := WriteBits(behind, 0, Encode(Empty));
      TwoOfFour(behind);
      UpFromLeaf(v / 2, Decode(ReadBits(behind, 2)));
      return Done;
    }

    /** A round of `update_upstairs_free` that has come up to `p` from a node whose sibling
        is `brother`, and the rounds after it. */
    method UpFromLeaf(p: nat, brother: Slot)
      requires Valid() && 1 <= p < 2 * Pow2(l)
      modifies tree, `slots
      ensures Valid() && slots == UpOnce(old(slots), p, brother)
    {
      hide Pow2, Packs, UpFree, MemSize;
      var state := GetState(p);
      if state == Full {
        SetState(p, Split);
      } else if state == Split {
        if brother == Empty {
          SetState(p, Empty);
        } else {
          return;
        }
      }
      UpdateUpstairsFree(p);
    }

    method Fill()
      requires 2 * tree.Length == Pow2(l)
      modifies tree, `slots
      ensures slots == seq(2 * Pow2(l), _ => Full) && Packs(tree[..], slots)
    {
      for i := 0 to tree.Length
        invariant forall j :: 0 <= j < i ==> tree[j] == !0
      {
        tree[i] := !0;
      }
      slots := seq(2 * Pow2(l), _ => Full);
      forall v | 0 <= v < |slots|
        ensures slots[v] == SlotOf(tree[..], v)
      {
        AllOnes(Shift(v));
      }
    }

    /** `buddy_init`: whatever the kernel's size and the tree's depth, boot ends
        with the canonical tree for the kernel's pages. */
    method Init()
      requires Valid()
      modifies tree, `slots, `behind
      ensures Valid()
      ensures var k := KernelSize(end);
              slots == BootTree(l, k, Pow2(l)) && Canonical(slots, Pow2(l), KernelPages(l, k))
    {
      hide Pow2, MemSize, BootTree, Canonical, KernelPages, Packs, GetVindex, FreeAt;
      ghost var k := KernelSize(end);
      Fill();
      StartBoot(l, end);
      var p := (end + PGSIZE - 1) / PGSIZE * PGSIZE;
      ghost var m := k;
      while p + PGSIZE <= KERNBASE + MemSize(l)
        invariant Valid() && k <= m <= Pow2(l) && p == KERNBASE + m * PGSIZE
        invariant slots == BootTree(l, k, m)
        decreases Pow2(l) - m
      {
        LeafIndex(l, m);
        BootStep(l, k, m);
        var freed := Kfree(p, 0);
        p := p + PGSIZE;
        m := m + 1;
      }
      BootDone(l, m);
      BootEndsCanonical(l, k);
    }
  }

  /** The pages that the kernel fills, the last one perhaps in part. */
  function KernelSize(end: nat): int
    requires KERNBASE <= end
  {
    (end - KERNBASE + PGSIZE - 1) / PGSIZE
  }

  lemma StartBoot(l: nat, end: nat)
    requires KERNBASE <= end <= KERNBASE + MemSize(l)
    ensures 0 <= KernelSize(end) <= Pow2(l)
    ensures (end + PGSIZE - 1) / PGSIZE * PGSIZE == KERNBASE + KernelSize(end) * PGSIZE
    ensures seq(2 * Pow2(l), _ => Full) == BootTree(l, KernelSize(end), KernelSize(end))
  {
  }

  lemma BootDone(l: nat, m: nat)
    requires m <= Pow2(l) && KERNBASE + m * PGSIZE + PGSIZE > KERNBASE + MemSize(l)
    ensures m == Pow2(l)
  {
  }

  /** One round of the upward pass at `p`, with what the child off the path holds, and the
      rest of the pass. */
  ghost function UpOnce(s: seq<Slot>, p: nat, brother: Slot): seq<Slot>
    requires 1 <= p < |s| && |s| % 2 == 0
  {
    if s[p] == Full then UpFree(s[p := Split], p)
    else if s[p] == Split then if brother == Empty then UpFree(s[p := Empty], p) else s
    else UpFree(s, p)
  }

  /** Freeing the first of the slots `t` that follow the tree `s`. */
  lemma {:induction false} BehindFreed(s: seq<Slot>, t: seq<Slot>, v: nat)
    requires |s| == v >= 2 && v % 2 == 0 && |t| == 4
    ensures t[0] != Full ==> FreedWhenFull(s + t, v, false, s + t)
    ensures t[0] == Full ==> FreedWhenFull(s + t, v, true, UpOnce(s, v / 2, t[1]) + t[0 := Empty])
  {
    if t[0] == Full {
      var p, t' := v / 2, t[0 := Empty];
      assert (s + t)[v := Empty] == s + t';
      assert (s + t')[p] == s[p] && (s + t')[Sibling(v)] == t[1];
      assert (s + t')[p := Split] == s[p := Split] + t';
      assert (s + t')[p := Empty] == s[p := Empty] + t';
      UpFreeWithin(s[p := Split], t', p);
      UpFreeWithin(s[p := Empty], t', p);
      UpFreeWithin(s, t', p);
    }
  }

  lemma AllOnes(shift: bv8)
    requires shift == 0 || shift == 2 || shift == 4 || shift == 6
    ensures Decode(ReadBits(!0, shift)) == Full
  {
  }

  lemma {:induction false} LeafIndex(l: nat, m: nat)
    requires KERNBASE + m * PGSIZE + PGSIZE <= KERNBASE + MemSize(l)
    ensures m < Pow2(l)
    ensures GetVindex(l, KERNBASE + m * PGSIZE, l) == Pow2(l) + m
  {
    BlockSizeExact(l, l);
    assert (m * PGSIZE) / PGSIZE == m;
  }
}
