/** On-disk layout of the file system (fs.h): bitmap bits, inodes in inode blocks. */
module FsLayout {
  import opened Arith
  import opened Bytes

  const BPB := 4096        // bitmap bits per block
  const IPB := 8           // inodes per block
  const NDIRECT := 12
  const NINDIRECT := 128
  const MAXFILE := 140     // NDIRECT + NINDIRECT

  type Disk = seq<Block>

  datatype Superblock = Superblock(size: nat, ninodes: nat, inodestart: nat, bmapstart: nat, datastart: nat)
  {
    /** Inode blocks, then bitmap blocks, then data, none overlapping. */
    ghost predicate Valid() {
      && 0 < inodestart && inodestart + ninodes / IPB < bmapstart
      && bmapstart + size / BPB < datastart <= size < WORD
    }
    function Iblock(i: nat): nat { i / IPB + inodestart }
    function Bblock(b: nat): nat { b / BPB + bmapstart }
  }

  // ---- Bits of a byte ----

  /** `x & (1 << k)`. */
  predicate BitOf(x: nat, k: nat) {
    if k == 0 then x % 2 == 1 else BitOf(x / 2, k - 1)
  }

  /** `x | (1 << k)`. */
  function SetBit(x: nat, k: nat): nat {
    if k == 0 then x - x % 2 + 1 else 2 * SetBit(x / 2, k - 1) + x % 2
  }

  /** `x & ~(1 << k)`. */
  function ClearBit(x: nat, k: nat): nat {
    if k == 0 then x - x % 2 else 2 * ClearBit(x / 2, k - 1) + x % 2
  }

  lemma Halves(a: nat, r: nat)
    requires r < 2
    ensures (2 * a + r) / 2 == a && (2 * a + r) % 2 == r
  {
  }

  lemma {:induction false} BitOfSet(x: nat, k: nat, j: nat)
    ensures BitOf(SetBit(x, k), j) <==> j == k || BitOf(x, j)
    ensures BitOf(ClearBit(x, k), j) <==> j != k && BitOf(x, j)
  {
    if k > 0 {
      Halves(SetBit(x / 2, k - 1), x % 2);
      Halves(ClearBit(x / 2, k - 1), x % 2);
      if j > 0 {
        BitOfSet(x / 2, k - 1, j - 1);
      }
    } else {
      Halves(x / 2, 0);
      Halves(x / 2, 1);
    }
  }

  lemma {:induction false} SetBitBound(x: nat, k: nat, m: nat)
    requires x < Pow2(m) && k < m
    ensures SetBit(x, k) < Pow2(m) && ClearBit(x, k) < Pow2(m)
  {
    var p := Pow2(m - 1);
    assert Pow2(m) == 2 * p && x / 2 < p;
    if k > 0 {
      SetBitBound(x / 2, k - 1, m - 1);
    }
  }

  lemma {:induction false} OnesBelow(n: nat, b: nat)
    ensures Pow2(n) > 0 && (BitOf(Pow2(n) - 1, b) <==> b < n)
  {
    if n > 0 {
      OnesBelow(n - 1, if b > 0 then b - 1 else 0);
    } else if b > 0 {
      OnesBelow(0, b - 1);
    }
  }

  lemma ByteBound(x: nat, k: nat)
    requires x < 256 && k < 8
    ensures SetBit(x, k) < 256 && ClearBit(x, k) < 256
  {
    assert Pow2(4) == 16;
    assert Pow2(8) == 256;
    SetBitBound(x, k, 8);
  }

  // ---- Bits of a bitmap block ----

  predicate Bit(b: Block, i: nat)
    requires i < BPB
  {
    BitOf(b[i / 8], i % 8)
  }

  function Mark(b: Block, i: nat): Block
    requires i < BPB
  {
    ByteBound(b[i / 8], i % 8);
    b[i / 8 := SetBit(b[i / 8], i % 8)]
  }

  function Unmark(b: Block, i: nat): Block
    requires i < BPB
  {
    ByteBound(b[i / 8], i % 8);
    b[i / 8 := ClearBit(b[i / 8], i % 8)]
  }

  lemma BitOfMark(b: Block, i: nat, j: nat)
    requires i < BPB && j < BPB
    ensures Bit(Mark(b, i), j) <==> j == i || Bit(b, j)
    ensures Bit(Unmark(b, i), j) <==> j != i && Bit(b, j)
  {
    BitOfSet(b[i / 8], i % 8, j % 8);
  }

  // ---- The bitmap ----

  predicate Used(sb: Superblock, d: Disk, b: nat)
    requires sb.Bblock(b) < |d|
  {
    Bit(d[sb.Bblock(b)], b % BPB)
  }

  // ---- Inodes ----

  /** `struct dinode`; the 16-bit fields are kept as unsigned. */
  datatype DInode = DInode(kind: nat, major: nat, minor: nat, nlink: nat, size: nat, addrs: seq<nat>)
  {
    ghost predicate Fits() {
      && kind < 0x1_0000 && major < 0x1_0000 && minor < 0x1_0000 && nlink < 0x1_0000 && size < WORD
      && |addrs| == NDIRECT + 1 && forall k :: 0 <= k < |addrs| ==> addrs[k] < WORD
    }
  }

  function NoAddrs(): (a: seq<nat>)
    ensures |a| == NDIRECT + 1 && forall k :: 0 <= k < |a| ==> a[k] == 0
  {
    seq<nat>(NDIRECT + 1, _ => 0)
  }

  /** An inode just allocated, or (kind 0) a free one. */
  function Blank(kind: nat): DInode {
    DInode(kind, 0, 0, 0, 0, NoAddrs())
  }

  function InodeWords(x: DInode): (w: seq<nat>)
    requires x.Fits()
    ensures |w| == 16 && forall k :: 0 <= k < 16 ==> w[k] < WORD
  {
    [x.kind + 0x1_0000 * x.major, x.minor + 0x1_0000 * x.nlink, x.size] + x.addrs
  }

  function WordsAt(b: Block, base: nat, n: nat): (w: seq<nat>)
    requires base + n <= WORDS
    ensures |w| == n && forall k :: 0 <= k < n ==> w[k] == Word(b, base + k)
  {
    seq<nat>(n, k requires 0 <= k < n => Word(b, base + k))
  }

  /** The inode in slot `i` of an inode block. */
  function GetInode(b: Block, i: nat): (x: DInode)
    requires i < IPB
    ensures x.Fits()
  {
    var w := WordsAt(b, 16 * i, 16);
    DInode(w[0] % 0x1_0000, w[0] / 0x1_0000, w[1] % 0x1_0000, w[1] / 0x1_0000, w[2], w[3..])
  }

  function SetWords(b: Block, base: nat, w: seq<nat>, n: nat): Block
    requires n <= |w| && base + |w| <= WORDS && forall k :: 0 <= k < |w| ==> w[k] < WORD
  {
    if n == 0 then b else SetWord(SetWords(b, base, w, n - 1), base + n - 1, w[n - 1])
  }

  function PutInode(b: Block, i: nat, x: DInode): Block
    requires i < IPB && x.Fits()
  {
    SetWords(b, 16 * i, InodeWords(x), 16)
  }

  lemma {:induction false} WordOfSetWords(b: Block, base: nat, w: seq<nat>, n: nat, j: nat)
    requires n <= |w| && base + |w| <= WORDS && (forall k :: 0 <= k < |w| ==> w[k] < WORD) && j < WORDS
    ensures Word(SetWords(b, base, w, n), j) == if base <= j < base + n then w[j - base] else Word(b, j)
  {
    if n > 0 {
      WordOfSetWords(b, base, w, n - 1, j);
      WordOfSet(SetWords(b, base, w, n - 1), base + n - 1, w[n - 1], j);
    }
  }

  /** Writing an inode and reading it back; the other inodes of the block are untouched. */
  lemma InodeRoundTrip(b: Block, i: nat, x: DInode, j: nat)
    requires i < IPB && x.Fits() && j < IPB
    ensures GetInode(PutInode(b, i, x), j) == if j == i then x else GetInode(b, j)
  {
    hide SetWords, Word;
    var c, w := PutInode(b, i, x), InodeWords(x);
    forall k | 0 <= k < 16
      ensures WordsAt(c, 16 * j, 16)[k] == if j == i then w[k] else WordsAt(b, 16 * j, 16)[k]
    {
      WordOfSetWords(b, 16 * i, w, 16, 16 * j + k);
    }
    if j == i {
      assert WordsAt(c, 16 * j, 16) == w && w[3..] == x.addrs;
    } else {
      assert WordsAt(c, 16 * j, 16) == WordsAt(b, 16 * j, 16);
    }
  }

  /** A 16-bit little-endian number. */
  function Half(b: Block, at: nat): nat
    requires at + 1 < BSIZE
  {
    b[at] as int + 0x100 * (b[at + 1] as int)
  }

  /** `struct dinode` byte by byte: four 16-bit fields, the size, and thirteen addresses, 64 bytes in all. */
  lemma InodeBytes(b: Block, i: nat)
    requires i < IPB
    ensures var x, at := GetInode(b, i), 64 * i;
            && x.kind == Half(b, at) && x.major == Half(b, at + 2)
            && x.minor == Half(b, at + 4) && x.nlink == Half(b, at + 6)
            && x.size == Half(b, at + 8) + 0x1_0000 * Half(b, at + 10)
            && |x.addrs| == NDIRECT + 1
            && forall k :: 0 <= k <= NDIRECT ==>
                 x.addrs[k] == Half(b, at + 12 + 4 * k) + 0x1_0000 * Half(b, at + 14 + 4 * k)
  {
    WordHalves(b, 16 * i);
    WordHalves(b, 16 * i + 1);
    WordHalves(b, 16 * i + 2);
    forall k | 0 <= k <= NDIRECT
      ensures GetInode(b, i).addrs[k] == Half(b, 64 * i + 12 + 4 * k) + 0x1_0000 * Half(b, 64 * i + 14 + 4 * k)
    {
      WordHalves(b, 16 * i + 3 + k);
    }
  }

  lemma WordHalves(b: Block, j: nat)
    requires j < WORDS
    ensures Word(b, j) == Half(b, 4 * j) + 0x1_0000 * Half(b, 4 * j + 2)
    ensures Word(b, j) % 0x1_0000 == Half(b, 4 * j) && Word(b, j) / 0x1_0000 == Half(b, 4 * j + 2)
  {
    assert 0 <= Half(b, 4 * j) < 0x1_0000;
  }

  function InodeAt(sb: Superblock, d: Disk, i: nat): DInode
    requires sb.Iblock(i) < |d|
  {
    GetInode(d[sb.Iblock(i)], i % IPB)
  }
}
