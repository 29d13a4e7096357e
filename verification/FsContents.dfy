/** What reading and writing chunk by chunk means for the contents of files. */
module FsContents {
  import opened Bytes
  import opened FsLayout
  import opened FsOwnership
  import opened FsFile
  import opened FsInode

  /** `s` laid over `c` from position `off` on. */
  function Splice(c: seq<Byte>, off: nat, s: seq<Byte>): seq<Byte>
    requires off <= |c|
  {
    c[..off] + s + (if off + |s| < |c| then c[off + |s|..] else [])
  }

  /** The bytes of file `i` from `off` on have become `s`; all other bytes of all files are as before. */
  ghost predicate Wrote(d: Disk, tab: seq<DInode>, d': Disk, tab': seq<DInode>, i: nat, off: nat, s: seq<Byte>) {
    && TableOk(d, tab) && TableOk(d', tab') && |tab| == |tab'|
    && forall j, p :: 0 <= j < |tab| && 0 <= p < MAXBYTES ==>
         FileByte(d', tab', j, p) == if j == i && off <= p < off + |s| then s[p - off] else FileByte(d, tab, j, p)
  }

  lemma WroteThenSame(d: Disk, tab: seq<DInode>, d1: Disk, tab1: seq<DInode>, d2: Disk, tab2: seq<DInode>,
                      i: nat, off: nat, s: seq<Byte>)
    requires Wrote(d, tab, d1, tab1, i, off, s) && SameBytes(d1, tab1, d2, tab2)
    ensures Wrote(d, tab, d2, tab2, i, off, s)
  {
    hide TableOk, FileByte;
  }

  /** `data` is the block `b` with `s` laid over it from `o` on. */
  function Patched(b: Block, o: nat, s: seq<Byte>): Block
    requires o + |s| <= BSIZE
  {
    b[..o] + s + b[o + |s|..]
  }

  lemma OneBlock(off: nat, p: nat, m: nat)
    requires m <= BSIZE - off % BSIZE && off <= p < off + m
    ensures p / BSIZE == off / BSIZE && p % BSIZE == off % BSIZE + (p - off)
  {
  }

  /** The bytes a chunk reads. */
  lemma ChunkRead(d: Disk, x: DInode, off: nat, m: nat, a: nat)
    requires InodeOk(d, x) && m <= BSIZE - off % BSIZE && off + m <= MAXBYTES && off / BSIZE < MAXFILE
    requires 0 < a < |d| && a == SlotAddr(d, x.addrs, FileSlot(off / BSIZE))
    ensures forall p :: off <= p < off + m ==> ByteAt(d, x.addrs, p) == d[a][off % BSIZE + (p - off)]
  {
    hide SlotAddr;
  }

  /** One more chunk written. */
  lemma WroteChunk(sb: Superblock, d: Disk, tab: seq<DInode>, d1: Disk, tab1: seq<DInode>, owner: map<nat, Owner>,
                   i: nat, off: nat, s: seq<Byte>, chunk: seq<Byte>)
    requires Owned(sb, d1, tab1, owner) && Wrote(d, tab, d1, tab1, i, off, s) && i < |tab1|
    requires |chunk| <= BSIZE - (off + |s|) % BSIZE && (off + |s|) / BSIZE < MAXFILE
    requires Slot(d1, tab1, i, FileSlot((off + |s|) / BSIZE)) != 0
    ensures var a := Slot(d1, tab1, i, FileSlot((off + |s|) / BSIZE));
            && a < |d1| == sb.size
            && var d2 := d1[a := Patched(d1[a], (off + |s|) % BSIZE, chunk)];
               && Owned(sb, d2, tab1, owner) && SameSlots(d1, tab1, d2, tab1) && SameBetween(d1, d2, 0, sb.datastart)
               && Wrote(d, tab, d2, tab1, i, off, s + chunk)
  {
    var at := off + |s|;
    var bn, o := at / BSIZE, at % BSIZE;
    var a := Slot(d1, tab1, i, FileSlot(bn));
    SlotInData(sb, d1, tab1, owner, i, FileSlot(bn));
    var data := Patched(d1[a], o, chunk);
    DataWrite(sb, d1, tab1, owner, i, bn, data);
    var d2 := d1[a := data];
    hide Owned, TableOk, SameSlots;
    forall j, p | 0 <= j < |tab| && 0 <= p < MAXBYTES
      ensures FileByte(d2, tab1, j, p)
           == if j == i && off <= p < at + |chunk| then (s + chunk)[p - off] else FileByte(d, tab, j, p)
    {
      assert FileByte(d1, tab1, j, p) == if j == i && off <= p < at then s[p - off] else FileByte(d, tab, j, p);
      if j == i {
        PatchedByte(d1[a], o, chunk, at, p);
      }
    }
  }

  lemma PatchedByte(b: Block, o: nat, chunk: seq<Byte>, at: nat, p: nat)
    requires o == at % BSIZE && |chunk| <= BSIZE - o
    ensures at <= p < at + |chunk| ==> p / BSIZE == at / BSIZE
    ensures p / BSIZE == at / BSIZE ==>
              Patched(b, o, chunk)[p % BSIZE] == if at <= p < at + |chunk| then chunk[p - at] else b[p % BSIZE]
  {
  }

  // ---- Contents ----

  lemma ContentsOf(sb: Superblock, d: Disk, inum: nat, x: DInode, owner: map<nat, Owner>)
    requires FsOk(sb, d, inum, x, owner) && InodeOk(d, x) && x.size <= MAXBYTES
    ensures TableOk(d, Table(sb, d, inum, x)) && Table(sb, d, inum, x)[inum] == x
    ensures var c := Contents(d, Table(sb, d, inum, x), inum);
            |c| == x.size && forall p :: 0 <= p < x.size ==> c[p] == ByteAt(d, x.addrs, p)
  {
  }

  lemma ContentsSpliced(d: Disk, tab: seq<DInode>, d': Disk, tab': seq<DInode>, i: nat, off: nat, s: seq<Byte>)
    requires Wrote(d, tab, d', tab', i, off, s) && i < |tab| && tab[i].size <= MAXBYTES
    requires off <= tab[i].size && tab'[i].size <= MAXBYTES
    requires tab'[i].size == if off + |s| > tab[i].size then off + |s| else tab[i].size
    ensures Contents(d', tab', i) == Splice(Contents(d, tab, i), off, s)
  {
    hide ByteAt;
    var c, c' := Contents(d, tab, i), Contents(d', tab', i);
    forall p | 0 <= p < |c'| ensures c'[p] == Splice(c, off, s)[p] {
      assert FileByte(d', tab', i, p) == if i == i && off <= p < off + |s| then s[p - off] else FileByte(d, tab, i, p);
    }
  }

  lemma ContentsSame(d: Disk, tab: seq<DInode>, d': Disk, tab': seq<DInode>, j: nat)
    requires TableOk(d, tab) && TableOk(d', tab') && j < |tab| == |tab'|
    requires forall p :: 0 <= p < MAXBYTES ==> FileByte(d', tab', j, p) == FileByte(d, tab, j, p)
    requires tab'[j].size == tab[j].size <= MAXBYTES
    ensures Contents(d', tab', j) == Contents(d, tab, j)
  {
    hide ByteAt;
    forall p | 0 <= p < tab[j].size ensures Contents(d', tab', j)[p] == Contents(d, tab, j)[p] {
      assert FileByte(d', tab', j, p) == FileByte(d, tab, j, p);
    }
  }

  // ---- Holes ----

  /** Positions lo..hi of the file all have a block. */
  ghost predicate Mapped(d: Disk, x: DInode, lo: nat, hi: nat)
    requires InodeOk(d, x) && hi <= MAXBYTES
  {
    forall p :: lo <= p < hi ==> MappedAt(d, x.addrs, p)
  }

  predicate MappedAt(d: Disk, addrs: seq<nat>, p: nat)
    requires |addrs| == NDIRECT + 1 && addrs[NDIRECT] < |d| && p < MAXBYTES
  {
    SlotAddr(d, addrs, FileSlot(p / BSIZE)) != 0
  }

  /** No block of positions lo..hi has to be entered in the inode itself: the direct address, or the
      indirect block's, is there already. */
  ghost predicate Anchored(addrs: seq<nat>, lo: nat, hi: nat)
    requires |addrs| == NDIRECT + 1
  {
    forall p :: lo <= p < hi ==> AnchoredAt(addrs, p / BSIZE)
  }

  predicate AnchoredAt(addrs: seq<nat>, bn: nat)
    requires |addrs| == NDIRECT + 1
  {
    addrs[if bn < NDIRECT then bn else NDIRECT] != 0
  }

  lemma MappedKept(d: Disk, x: DInode, d': Disk, x': DInode, lo: nat, hi: nat)
    requires KeepsSlots(d, x, d', x') && hi <= MAXBYTES && Mapped(d, x, lo, hi)
    ensures Mapped(d', x', lo, hi)
  {
    hide SlotAddr;
    forall p | lo <= p < hi ensures MappedAt(d', x'.addrs, p) {
      assert MappedAt(d, x.addrs, p);
      var k := FileSlot(p / BSIZE);
      assert SlotAddr(d', x'.addrs, k) == SlotAddr(d, x.addrs, k);
    }
  }

  lemma MappedMore(d: Disk, x: DInode, lo: nat, mid: nat, m: nat)
    requires InodeOk(d, x) && lo <= mid && m <= BSIZE - mid % BSIZE && mid + m <= MAXBYTES && mid < MAXBYTES
    requires Mapped(d, x, lo, mid) && MappedAt(d, x.addrs, mid)
    ensures Mapped(d, x, lo, mid + m)
  {
    hide SlotAddr;
  }

  /** The inode's addresses are still the old ones exactly when nothing had to be entered in them. */
  lemma AnchoredMore(d: Disk, x: DInode, d1: Disk, x1: DInode, d2: Disk, x2: DInode, lo: nat, mid: nat, m: nat)
    requires KeepsSlots(d, x, d1, x1) && KeepsSlots(d1, x1, d2, x2) && lo <= mid && 0 < m <= BSIZE - mid % BSIZE
    requires x1.addrs == x.addrs <==> Anchored(x.addrs, lo, mid)
    requires x2.addrs == x1.addrs <==> AnchoredAt(x1.addrs, mid / BSIZE)
    ensures x2.addrs == x.addrs <==> Anchored(x.addrs, lo, mid + m)
  {
    if x1.addrs == x.addrs {
      assert Anchored(x.addrs, lo, mid + m) <==> AnchoredAt(x.addrs, mid / BSIZE) by {
        assert Anchored(x.addrs, lo, mid + m) ==> AnchoredAt(x.addrs, mid / BSIZE);
        forall p | mid <= p < mid + m ensures p / BSIZE == mid / BSIZE {
          OneBlock(mid, p, m);
        }
      }
    } else {
      assert !Anchored(x.addrs, lo, mid + m);
      var k :| 0 <= k <= NDIRECT && x1.addrs[k] != x.addrs[k];
      assert SlotAddr(d, x.addrs, k) == x.addrs[k] && SlotAddr(d1, x1.addrs, k) == x1.addrs[k];
      assert SlotAddr(d2, x2.addrs, k) == x2.addrs[k];
    }
  }

  lemma KeepsTrans(d: Disk, x: DInode, d1: Disk, x1: DInode, d2: Disk, x2: DInode)
    requires KeepsSlots(d, x, d1, x1) && KeepsSlots(d1, x1, d2, x2)
    ensures KeepsSlots(d, x, d2, x2)
  {
    hide SlotAddr;
  }

  /** Slots that were filled for block `bn`: its own, and the indirect block's if it lies behind that. */
  ghost predicate NewFor(d: Disk, x: DInode, d': Disk, x': DInode, bn: nat) {
    && InodeOk(d, x) && InodeOk(d', x')
    && forall k :: 0 <= k < SLOTS && SlotAddr(d, x.addrs, k) == 0 && SlotAddr(d', x'.addrs, k) != 0 ==>
         k == FileSlot(bn) || (k == NDIRECT && bn >= NDIRECT)
  }

  lemma NewTwice(d: Disk, x: DInode, d1: Disk, x1: DInode, d2: Disk, x2: DInode, bn: nat)
    requires NewFor(d, x, d1, x1, bn) && NewFor(d1, x1, d2, x2, bn)
    ensures NewFor(d, x, d2, x2, bn)
  {
    hide SlotAddr;
  }

  /** Slots were filled only for blocks that begin below position `hi`. */
  ghost predicate NewBelow(d: Disk, x: DInode, d': Disk, x': DInode, hi: nat) {
    && InodeOk(d, x) && InodeOk(d', x')
    && (forall p :: 0 <= p < MAXBYTES && MappedAt(d', x'.addrs, p) ==>
        MappedAt(d, x.addrs, p) || p / BSIZE * BSIZE < hi)
    && (x'.addrs[NDIRECT] != 0 ==> x.addrs[NDIRECT] != 0 || NDIRECT * BSIZE < hi)
  }

  lemma NewBelowMore(d: Disk, x: DInode, d1: Disk, x1: DInode, d2: Disk, x2: DInode, at: nat, m: nat)
    requires NewBelow(d, x, d1, x1, at) && NewFor(d1, x1, d2, x2, at / BSIZE) && 0 < m
    ensures NewBelow(d, x, d2, x2, at + m)
  {
    forall p | 0 <= p < MAXBYTES && MappedAt(d2, x2.addrs, p)
      ensures MappedAt(d, x.addrs, p) || p / BSIZE * BSIZE < at + m
    {
      var k := FileSlot(p / BSIZE);
      if SlotAddr(d1, x1.addrs, k) != 0 {
        assert MappedAt(d1, x1.addrs, p);
      }
    }
    assert SlotAddr(d2, x2.addrs, NDIRECT) == x2.addrs[NDIRECT] && SlotAddr(d1, x1.addrs, NDIRECT) == x1.addrs[NDIRECT];
  }

  /** Exactly the blocks that begin below the size are there, and the indirect block exactly when one lies behind it. */
  ghost predicate Tight(d: Disk, x: DInode) {
    && InodeOk(d, x) && x.size <= MAXBYTES
    && (forall p :: 0 <= p < MAXBYTES ==> (MappedAt(d, x.addrs, p) <==> p / BSIZE * BSIZE < x.size))
    && (x.addrs[NDIRECT] != 0 <==> NDIRECT * BSIZE < x.size)
  }

  /** The blocks of a file of that size without holes, the indirect block among them. */
  function BlocksFor(size: nat): nat {
    Upto(size) + if Upto(size) > NDIRECT then 1 else 0
  }

  /** The slots in use are the first ones. */
  lemma TightSlotAt(d: Disk, x: DInode, k: nat)
    requires Tight(d, x) && k < SLOTS
    ensures SlotAddr(d, x.addrs, k) != 0 <==> k < BlocksFor(x.size)
  {
    if k != NDIRECT {
      var bn := if k < NDIRECT then k else k - 1;
      assert FileSlot(bn) == k && bn * BSIZE / BSIZE == bn;
      assert MappedAt(d, x.addrs, bn * BSIZE) <==> bn * BSIZE < x.size;
    }
  }

  lemma {:induction false} HolesTight(d: Disk, x: DInode, first: nat, last: nat)
    requires Tight(d, x) && first <= Upto(x.size) && last <= MAXFILE
    ensures Holes(d, x, first, last) == if last <= Upto(x.size) then 0 else last - Upto(x.size)
    decreases last
  {
    if first < last {
      HolesTight(d, x, first, last - 1);
      TightSlotAt(d, x, FileSlot(last - 1));
    }
  }

  /** What a file without holes needs is what its growth needs. */
  lemma NeedTight(d: Disk, x: DInode, lo: nat, hi: nat)
    requires Tight(d, x) && lo <= x.size && lo <= hi <= MAXBYTES
    ensures Need(d, x, lo, hi) == BlocksFor(if hi > x.size then hi else x.size) - BlocksFor(x.size)
  {
    if lo < hi {
      HolesTight(d, x, lo / BSIZE, Upto(hi));
      TightSlotAt(d, x, NDIRECT);
    }
  }

  lemma TightIsMapped(d: Disk, x: DInode)
    requires Tight(d, x)
    ensures Mapped(d, x, 0, x.size)
  {
    hide MappedAt;
  }

  lemma TightKept(d: Disk, x: DInode, d': Disk, x': DInode, hi: nat)
    requires Tight(d, x) && NewBelow(d, x, d', x', hi) && x'.size <= MAXBYTES && Mapped(d', x', 0, x'.size)
    requires x'.size == if hi > x.size then hi else x.size
    ensures Tight(d', x')
  {
    hide SlotAddr;
    forall p | 0 <= p < MAXBYTES ensures MappedAt(d', x'.addrs, p) <==> p / BSIZE * BSIZE < x'.size {
      var q := p / BSIZE * BSIZE;
      assert q / BSIZE == p / BSIZE;
      assert q < x'.size ==> MappedAt(d', x'.addrs, q);
    }
    if NDIRECT * BSIZE < x'.size {
      assert MappedAt(d', x'.addrs, NDIRECT * BSIZE);
      BehindIndirect(d', x'.addrs, NDIRECT * BSIZE);
    }
  }

  lemma BehindIndirect(d: Disk, addrs: seq<nat>, p: nat)
    requires |addrs| == NDIRECT + 1 && addrs[NDIRECT] < |d| && NDIRECT * BSIZE <= p < MAXBYTES && MappedAt(d, addrs, p)
    ensures addrs[NDIRECT] != 0
  {
  }

  // ---- How many blocks a write needs ----

  /** Blocks that bmap has to allocate for block `bn`. */
  ghost function Lacks(d: Disk, x: DInode, bn: nat): nat
    requires InodeOk(d, x) && bn < MAXFILE
  {
    (if SlotAddr(d, x.addrs, FileSlot(bn)) == 0 then 1 else 0)
    + if bn >= NDIRECT && x.addrs[NDIRECT] == 0 then 1 else 0
  }

  /** Blocks first..last-1 of the file that are not there. */
  ghost function Holes(d: Disk, x: DInode, first: nat, last: nat): nat
    requires InodeOk(d, x) && last <= MAXFILE
    decreases last
  {
    if last <= first then 0
    else Holes(d, x, first, last - 1) + if SlotAddr(d, x.addrs, FileSlot(last - 1)) == 0 then 1 else 0
  }

  /** What has to be allocated so that blocks first..last-1 are all there. */
  ghost function Missing(d: Disk, x: DInode, first: nat, last: nat): nat
    requires InodeOk(d, x) && last <= MAXFILE
  {
    Holes(d, x, first, last) + if first < last && NDIRECT < last && x.addrs[NDIRECT] == 0 then 1 else 0
  }

  /** Blocks that begin below position `p`. */
  function Upto(p: nat): nat {
    (p + BSIZE - 1) / BSIZE
  }

  /** What has to be allocated for positions lo..hi-1. */
  ghost function Need(d: Disk, x: DInode, lo: nat, hi: nat): nat
    requires InodeOk(d, x) && hi <= MAXBYTES
  {
    if hi <= lo then 0 else Missing(d, x, lo / BSIZE, Upto(hi))
  }

  /** What bmap does for block `bn`. */
  ghost predicate FillsBlock(sb: Superblock, d: Disk, x: DInode, d': Disk, x': DInode, bn: nat) {
    && sb.Valid() && |d| == sb.size && |d'| == sb.size && bn < MAXFILE
    && KeepsSlots(d, x, d', x') && NewFor(d, x, d', x', bn) && SlotAddr(d', x'.addrs, FileSlot(bn)) != 0
    && (x'.addrs == x.addrs <==> AnchoredAt(x.addrs, bn))
    && Room(sb, d') + Lacks(d, x, bn) == Room(sb, d)
  }

  /** What calling bmap for the blocks of positions lo..hi-1 does. */
  ghost predicate FillsRange(sb: Superblock, d: Disk, x: DInode, d': Disk, x': DInode, lo: nat, hi: nat) {
    && sb.Valid() && |d| == sb.size && |d'| == sb.size && lo <= hi <= MAXBYTES
    && KeepsSlots(d, x, d', x') && Mapped(d', x', lo, hi) && NewBelow(d, x, d', x', hi)
    && (x'.addrs == x.addrs <==> Anchored(x.addrs, lo, hi))
    && Room(sb, d') + Need(d, x, lo, hi) == Room(sb, d)
    && (lo == hi ==> KeepsSlots(d', x', d, x))
  }

  lemma FillsNothing(sb: Superblock, d: Disk, x: DInode, lo: nat)
    requires sb.Valid() && |d| == sb.size && InodeOk(d, x) && lo <= MAXBYTES
    ensures FillsRange(sb, d, x, d, x, lo, lo)
  {
  }

  /** One more block. */
  lemma FillsMore(sb: Superblock, d: Disk, x: DInode, d1: Disk, x1: DInode, d2: Disk, x2: DInode, lo: nat, at: nat,
                  m: nat)
    requires FillsRange(sb, d, x, d1, x1, lo, at) && at < MAXBYTES && FillsBlock(sb, d1, x1, d2, x2, at / BSIZE)
    requires (at == lo || at % BSIZE == 0) && 0 < m <= BSIZE - at % BSIZE && at + m <= MAXBYTES
    ensures FillsRange(sb, d, x, d2, x2, lo, at + m)
  {
    NeedMore(sb, d, x, d1, x1, lo, at, m);
    hide SlotAddr, MappedAt, Anchored, AnchoredAt, Need, Lacks, Room, Mapped, KeepsSlots, NewBelow, NewFor;
    KeepsTrans(d, x, d1, x1, d2, x2);
    MappedKept(d1, x1, d2, x2, lo, at);
    MappedMore(d2, x2, lo, at, m);
    NewBelowMore(d, x, d1, x1, d2, x2, at, m);
    AnchoredMore(d, x, d1, x1, d2, x2, lo, at, m);
  }

  lemma NeedMore(sb: Superblock, d: Disk, x: DInode, d1: Disk, x1: DInode, lo: nat, at: nat, m: nat)
    requires FillsRange(sb, d, x, d1, x1, lo, at) && at < MAXBYTES
    requires (at == lo || at % BSIZE == 0) && 0 < m <= BSIZE - at % BSIZE && at + m <= MAXBYTES
    ensures Need(d, x, lo, at + m) == Need(d, x, lo, at) + Lacks(d1, x1, at / BSIZE)
  {
    var first, bn := lo / BSIZE, at / BSIZE;
    assert Upto(at + m) == bn + 1;
    if at == lo {
      SameLacks(d, x, d1, x1, bn);
      assert Holes(d, x, first, first) == 0;
    } else {
      assert Upto(at) == bn;
      hide FillsRange, Holes;
      MissingMore(d, x, d1, x1, lo, at);
    }
  }

  lemma SameLacks(d: Disk, x: DInode, d1: Disk, x1: DInode, bn: nat)
    requires KeepsSlots(d, x, d1, x1) && KeepsSlots(d1, x1, d, x) && bn < MAXFILE
    ensures Lacks(d1, x1, bn) == Lacks(d, x, bn)
  {
    assert SlotAddr(d1, x1.addrs, NDIRECT) == x1.addrs[NDIRECT] && SlotAddr(d, x.addrs, NDIRECT) == x.addrs[NDIRECT];
  }

  /** The block at which the disk runs out of room shows that there was not enough to begin with. */
  lemma FallsShort(sb: Superblock, d: Disk, x: DInode, d1: Disk, x1: DInode, lo: nat, at: nat, hi: nat)
    requires FillsRange(sb, d, x, d1, x1, lo, at) && at < hi <= MAXBYTES && (at == lo || at % BSIZE == 0)
    requires Room(sb, d1) < Lacks(d1, x1, at / BSIZE)
    ensures Room(sb, d) < Need(d, x, lo, hi)
  {
    NeedMore(sb, d, x, d1, x1, lo, at, 1);
    hide FillsRange, Holes, Lacks;
    MissingGrows(d, x, lo / BSIZE, Upto(at + 1), Upto(hi));
  }

  lemma Enough(sb: Superblock, d: Disk, x: DInode, d1: Disk, x1: DInode, lo: nat, hi: nat)
    requires FillsRange(sb, d, x, d1, x1, lo, hi)
    ensures Room(sb, d) >= Need(d, x, lo, hi)
  {
  }

  /** With blocks first..bn-1 in place, what block `bn` still lacks. */
  lemma MissingMore(d: Disk, x: DInode, d1: Disk, x1: DInode, off: nat, at: nat)
    requires KeepsSlots(d, x, d1, x1) && NewBelow(d, x, d1, x1, at) && off < at < MAXBYTES && at % BSIZE == 0
    requires Mapped(d1, x1, off, at)
    ensures var first, bn := off / BSIZE, at / BSIZE;
            Missing(d, x, first, bn + 1) == Missing(d, x, first, bn) + Lacks(d1, x1, bn)
  {
    var first, bn := off / BSIZE, at / BSIZE;
    var k := FileSlot(bn);
    assert SlotAddr(d1, x1.addrs, k) == 0 <==> SlotAddr(d, x.addrs, k) == 0 by {
      assert MappedAt(d1, x1.addrs, at) <==> SlotAddr(d1, x1.addrs, k) != 0;
      assert MappedAt(d, x.addrs, at) <==> SlotAddr(d, x.addrs, k) != 0;
    }
    assert SlotAddr(d1, x1.addrs, NDIRECT) == x1.addrs[NDIRECT] && SlotAddr(d, x.addrs, NDIRECT) == x.addrs[NDIRECT];
    assert MappedAt(d1, x1.addrs, at - 1);
    if at - 1 >= NDIRECT * BSIZE {
      BehindIndirect(d1, x1.addrs, at - 1);
    }
  }

  lemma {:induction false} MissingGrows(d: Disk, x: DInode, first: nat, mid: nat, last: nat)
    requires InodeOk(d, x) && mid <= last <= MAXFILE
    ensures Missing(d, x, first, mid) <= Missing(d, x, first, last)
    decreases last
  {
    if mid < last {
      MissingGrows(d, x, first, mid, last - 1);
    }
  }

  /** Every inode has exactly the blocks its size asks for. */
  ghost predicate AllTight(d: Disk, tab: seq<DInode>) {
    forall i :: 0 <= i < |tab| ==> Tight(d, tab[i])
  }

  lemma TightSlots(d: Disk, x: DInode, d': Disk, x': DInode)
    requires Tight(d, x) && InodeOk(d', x') && x'.size == x.size
    requires forall k: nat :: k < SLOTS ==> SlotAddr(d', x'.addrs, k) == SlotAddr(d, x.addrs, k)
    ensures Tight(d', x')
  {
    forall p | 0 <= p < MAXBYTES ensures MappedAt(d', x'.addrs, p) <==> MappedAt(d, x.addrs, p) {
      var k := FileSlot(p / BSIZE);
      assert SlotAddr(d', x'.addrs, k) == SlotAddr(d, x.addrs, k);
    }
    assert SlotAddr(d', x'.addrs, NDIRECT) == SlotAddr(d, x.addrs, NDIRECT);
  }

  /** A step that gives and takes blocks of inode `i` only. */
  lemma AllTightKept(sb: Superblock, d: Disk, tab: seq<DInode>, owner: map<nat, Owner>,
                     d': Disk, tab': seq<DInode>, owner': map<nat, Owner>, i: nat)
    requires Owned(sb, d, tab, owner) && Owned(sb, d', tab', owner') && Elsewhere(owner', i) == Elsewhere(owner, i)
    requires i < |tab| && tab' == tab[i := tab'[i]]
    ensures AllTight(d, tab) && Tight(d', tab'[i]) ==> AllTight(d', tab')
  {
    if AllTight(d, tab) && Tight(d', tab'[i]) {
      forall j | 0 <= j < |tab| ensures Tight(d', tab'[j]) {
        if j != i {
          assert InodeOk(d', tab'[j]);
          forall k: nat | k < SLOTS ensures SlotAddr(d', tab[j].addrs, k) == SlotAddr(d, tab[j].addrs, k) {
            OtherSlots(sb, d, tab, owner, d', tab', owner', i, j, k);
          }
          hide SlotAddr, Owned, Tight;
          TightSlots(d, tab[j], d', tab[j]);
        }
      }
    }
  }

  /** A step that gives and takes no blocks, and changes no size. */
  lemma AllTightSame(sb: Superblock, d: Disk, tab: seq<DInode>, owner: map<nat, Owner>, d': Disk, tab': seq<DInode>)
    requires Owned(sb, d, tab, owner) && Owned(sb, d', tab', owner) && AllTight(d, tab)
    requires forall i :: 0 <= i < |tab| ==> tab'[i].size == tab[i].size
    ensures AllTight(d', tab')
  {
    forall i | 0 <= i < |tab| ensures Tight(d', tab'[i]) {
      assert InodeOk(d', tab'[i]);
      forall k: nat | k < SLOTS ensures SlotAddr(d', tab'[i].addrs, k) == SlotAddr(d, tab[i].addrs, k) {
        OtherSlots(sb, d, tab, owner, d', tab', owner, |tab|, i, k);
      }
      hide SlotAddr, Owned, Tight;
      TightSlots(d, tab[i], d', tab'[i]);
    }
  }

  lemma EmptyIsTight(d: Disk, x: DInode)
    requires InodeOk(d, x) && x.size == 0 && x.addrs == NoAddrs()
    ensures Tight(d, x)
  {
  }

  /** Reading back what was written. */
  lemma SpliceBack(c: seq<Byte>, off: nat, s: seq<Byte>)
    requires off <= |c|
    ensures var c' := Splice(c, off, s);
            && |c'| == (if off + |s| > |c| then off + |s| else |c|)
            && c'[off..off + |s|] == s && c'[..off] == c[..off]
            && forall p :: off + |s| <= p < |c| ==> c'[p] == c[p]
  {
  }
}
