/** The bytes of a disk: the free bitmap and the block numbers of indirect blocks
    (kernel/fs.h, kernel/fs.c). */
module FsDisk {

  const BSIZE: nat := 1024
  const BPB: nat := 8192
  const NDIRECT: nat := 12
  const NINDIRECT: nat := 256
  const MAXFILE: nat := 268

  /** The bytes of a block. */
  type Block = seq<nat>

  /** What the superblock says: how many blocks, where the bitmap is, where the inodes
      are, and where the data blocks begin. */
  datatype Super = Super(size: nat, bmapstart: nat, inodestart: nat, datastart: nat)

  /** The bitmap covers the disk and lies below the data blocks, as do the inodes. */
  predicate Laid(sb: Super) {
    && 0 < sb.bmapstart && sb.inodestart < sb.datastart
    && sb.bmapstart + sb.size / BPB < sb.datastart < sb.size
  }

  /** The disk has whole blocks. */
  ghost predicate Whole(sb: Super, disk: seq<Block>) {
    |disk| == sb.size && forall b :: 0 <= b < |disk| ==> |disk[b]| == BSIZE
  }

  // ----- Bits of a byte -----

  /** `x & (1 << i)`. */
  predicate Has(x: nat, i: nat) {
    if i == 0 then x % 2 == 1 else Has(x / 2, i - 1)
  }

  /** `x | (1 << i)`. */
  function Or(x: nat, i: nat): nat {
    if i == 0 then x / 2 * 2 + 1 else Or(x / 2, i - 1) * 2 + x % 2
  }

  /** `x & ~(1 << i)`. */
  function AndNot(x: nat, i: nat): nat {
    if i == 0 then x / 2 * 2 else AndNot(x / 2, i - 1) * 2 + x % 2
  }

  lemma {:induction false} OrHas(x: nat, i: nat, j: nat)
    ensures Has(Or(x, i), j) == (i == j || Has(x, j))
  {
    if i > 0 && j > 0 { OrHas(x / 2, i - 1, j - 1); }
  }

  lemma {:induction false} AndNotHas(x: nat, i: nat, j: nat)
    ensures Has(AndNot(x, i), j) == (i != j && Has(x, j))
  {
    if i > 0 && j > 0 { AndNotHas(x / 2, i - 1, j - 1); }
  }

  // ----- The bitmap -----

  /** `BBLOCK`. */
  function Bblock(sb: Super, b: nat): nat {
    b / BPB + sb.bmapstart
  }

  lemma BitPlace(sb: Super, b: nat)
    requires Laid(sb) && b < sb.size
    ensures 0 < Bblock(sb, b) < sb.datastart && b % BPB / 8 < BSIZE
  {
  }

  /** Block `b` is marked in use. */
  predicate Bit(sb: Super, disk: seq<Block>, b: nat) {
    && Bblock(sb, b) < |disk| && b % BPB / 8 < |disk[Bblock(sb, b)]|
    && Has(disk[Bblock(sb, b)][b % BPB / 8], b % BPB % 8)
  }

  /** The disk with byte `i` of block `b` replaced. */
  function Poke(disk: seq<Block>, b: nat, i: nat, x: nat): (d: seq<Block>)
    requires b < |disk| && i < |disk[b]|
    ensures |d| == |disk| && forall c :: 0 <= c < |d| ==> |d[c]| == |disk[c]| && (c != b ==> d[c] == disk[c])
  {
    var block: Block := disk[b][i := x];
    disk[b := block]
  }

  /** Where the byte of the bitmap changes, one bit does. */
  lemma PokeBit(sb: Super, disk: seq<Block>, b: nat, on: bool)
    requires Laid(sb) && Whole(sb, disk) && b < sb.size
    ensures Bblock(sb, b) < |disk| && b % BPB / 8 < |disk[Bblock(sb, b)]|
    ensures var x := disk[Bblock(sb, b)][b % BPB / 8];
      var d := Poke(disk, Bblock(sb, b), b % BPB / 8, if on then Or(x, b % BPB % 8) else AndNot(x, b % BPB % 8));
      && Bit(sb, d, b) == on
      && forall c: nat {:trigger Bit(sb, d, c)} :: c < sb.size && c != b ==> Bit(sb, d, c) == Bit(sb, disk, c)
  {
    BitPlace(sb, b);
    var x := disk[Bblock(sb, b)][b % BPB / 8];
    var d := Poke(disk, Bblock(sb, b), b % BPB / 8, if on then Or(x, b % BPB % 8) else AndNot(x, b % BPB % 8));
    OrHas(x, b % BPB % 8, b % BPB % 8);
    AndNotHas(x, b % BPB % 8, b % BPB % 8);
    forall c: nat | c < sb.size && c != b ensures Bit(sb, d, c) == Bit(sb, disk, c) {
      BitPlace(sb, c);
      BitElsewhere(sb, b, c);
      OrHas(x, b % BPB % 8, c % BPB % 8);
      AndNotHas(x, b % BPB % 8, c % BPB % 8);
    }
  }

  /** Distinct blocks have their bits in distinct places. */
  lemma BitElsewhere(sb: Super, b: nat, c: nat)
    requires b != c
    ensures Bblock(sb, b) != Bblock(sb, c) || b % BPB / 8 != c % BPB / 8 || b % BPB % 8 != c % BPB % 8
  {
    assert b == BPB * (b / BPB) + (8 * (b % BPB / 8) + b % BPB % 8);
    assert c == BPB * (c / BPB) + (8 * (c % BPB / 8) + c % BPB % 8);
  }

  /** A bit depends on the bitmap only. */
  lemma BitKept(sb: Super, disk: seq<Block>, d: seq<Block>, b: nat)
    requires Laid(sb) && b < sb.size && |disk| == |d| == sb.size
    requires forall c :: 0 <= c < sb.datastart ==> d[c] == disk[c]
    ensures Bit(sb, d, b) == Bit(sb, disk, b)
  {
    BitPlace(sb, b);
  }

  // ----- Block numbers in an indirect block -----

  /** Four bytes, the lowest first. */
  function Word(w: nat, x: nat, y: nat, z: nat): nat {
    w + 256 * (x + 256 * (y + 256 * z))
  }

  lemma WordExact(n: nat)
    ensures Word(n % 256, n / 256 % 256, n / 256 / 256 % 256, n / 256 / 256 / 256) == n
  {
    var m := n / 256 / 256;
    assert m % 256 + 256 * (m / 256) == m;
    assert n / 256 % 256 + 256 * m == n / 256;
  }

  /** `a[j]`. */
  function Get(b: Block, j: nat): nat
    requires |b| == BSIZE && j < NINDIRECT
  {
    Word(b[4 * j], b[4 * j + 1], b[4 * j + 2], b[4 * j + 3])
  }

  /** `a[j] = n`. */
  function Put(b: Block, j: nat, n: nat): (c: Block)
    requires |b| == BSIZE && j < NINDIRECT
    ensures |c| == BSIZE
  {
    b[4 * j := n % 256][4 * j + 1 := n / 256 % 256][4 * j + 2 := n / 256 / 256 % 256][4 * j + 3 := n / 256 / 256 / 256]
  }

  lemma PutGet(b: Block, j: nat, n: nat, k: nat)
    requires |b| == BSIZE && j < NINDIRECT && k < NINDIRECT
    ensures Get(Put(b, j, n), k) == if j == k then n else Get(b, k)
  {
    WordExact(n);
    hide Word;
  }

  function Zero(): (b: Block)
    ensures |b| == BSIZE && forall i :: 0 <= i < BSIZE ==> b[i] == 0
  {
    seq(BSIZE, i => 0)
  }

  lemma GetZero(j: nat)
    requires j < NINDIRECT
    ensures Get(Zero(), j) == 0
  {
  }
}
