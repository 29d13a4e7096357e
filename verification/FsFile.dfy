/** The bytes of the files on a disk, and what each kind of disk update does to them.

    A file is the sequence of bytes its slots lead to; a slot that holds no block stands for a block of
    zeroes.  Blocks are only ever attached zeroed, so attaching one leaves every file as it was. */
module FsFile {
  import opened Bytes
  import opened FsLayout
  import opened FsOwnership

  const MAXBYTES := MAXFILE * BSIZE

  function ZeroBlock(): (b: Block)
    ensures forall k :: 0 <= k < BSIZE ==> b[k] == 0
  {
    seq<Byte>(BSIZE, k => 0)
  }

  function BlockByte(d: Disk, a: nat, o: nat): Byte
    requires o < BSIZE
  {
    if 0 < a < |d| then d[a][o] else 0
  }

  function ByteAt(d: Disk, addrs: seq<nat>, p: nat): Byte
    requires |addrs| == NDIRECT + 1 && addrs[NDIRECT] < |d| && p < MAXBYTES
  {
    BlockByte(d, SlotAddr(d, addrs, FileSlot(p / BSIZE)), p % BSIZE)
  }

  ghost function FileByte(d: Disk, tab: seq<DInode>, i: nat, p: nat): Byte
    requires TableOk(d, tab) && i < |tab| && p < MAXBYTES
  {
    ByteAt(d, tab[i].addrs, p)
  }

  ghost predicate SizesOk(tab: seq<DInode>) {
    forall i :: 0 <= i < |tab| ==> tab[i].size <= MAXBYTES
  }

  ghost function Contents(d: Disk, tab: seq<DInode>, i: nat): seq<Byte>
    requires TableOk(d, tab) && i < |tab| && tab[i].size <= MAXBYTES
  {
    var x := tab[i];
    seq(x.size, p requires 0 <= p < x.size && |x.addrs| == NDIRECT + 1 && x.addrs[NDIRECT] < |d| =>
      ByteAt(d, x.addrs, p))
  }

  ghost predicate SameBytes(d: Disk, tab: seq<DInode>, d': Disk, tab': seq<DInode>) {
    && TableOk(d, tab) && TableOk(d', tab') && |tab| == |tab'|
    && forall i, p :: 0 <= i < |tab| && 0 <= p < MAXBYTES ==> FileByte(d', tab', i, p) == FileByte(d, tab, i, p)
  }

  lemma SameBytesTrans(d: Disk, tab: seq<DInode>, d1: Disk, tab1: seq<DInode>, d2: Disk, tab2: seq<DInode>)
    requires SameBytes(d, tab, d1, tab1) && SameBytes(d1, tab1, d2, tab2)
    ensures SameBytes(d, tab, d2, tab2)
  {
    hide TableOk, FileByte;
  }

  // ---- Frames ----

  ghost predicate SameIndirect(d: Disk, d': Disk, owner: map<nat, Owner>) {
    |d'| == |d| && forall c :: c in owner && owner[c].slot == NDIRECT && c < |d| ==> d'[c] == d[c]
  }

  ghost predicate SameData(d: Disk, d': Disk, owner: map<nat, Owner>) {
    |d'| == |d| && forall c :: c in owner && owner[c].slot != NDIRECT && c < |d| ==> d'[c] == d[c]
  }

  ghost predicate SameBetween(d: Disk, d': Disk, lo: nat, hi: nat) {
    |d'| == |d| && forall c :: lo <= c < hi && c < |d| ==> d'[c] == d[c]
  }

  /** Slots of an inode depend only on its addresses and its indirect block. */
  lemma SlotFrame(sb: Superblock, d: Disk, tab: seq<DInode>, owner: map<nat, Owner>, d': Disk, j: nat, m: nat)
    requires Owned(sb, d, tab, owner) && SameIndirect(d, d', owner) && j < |tab| && m < SLOTS
    ensures SlotAddr(d', tab[j].addrs, m) == Slot(d, tab, j, m)
  {
    assert SlotAt(d, tab, owner, j, NDIRECT);
  }

  lemma SlotsSame(sb: Superblock, d: Disk, tab: seq<DInode>, owner: map<nat, Owner>, d': Disk)
    requires Owned(sb, d, tab, owner) && SameIndirect(d, d', owner)
    ensures SameSlots(d, tab, d', tab)
  {
    assert TableOk(d', tab);
    forall j, m | 0 <= j < |tab| && 0 <= m < SLOTS ensures Slot(d', tab, j, m) == Slot(d, tab, j, m) {
      SlotFrame(sb, d, tab, owner, d', j, m);
    }
  }

  /** Files do not change when slots keep their blocks or are given zeroed ones. */
  ghost predicate SlotKept(d: Disk, tab: seq<DInode>, d': Disk, tab': seq<DInode>, i: nat, k: nat)
    requires TableOk(d, tab) && TableOk(d', tab') && |tab| == |tab'| && i < |tab| && k < SLOTS
  {
    || Slot(d', tab', i, k) == Slot(d, tab, i, k)
    || (Slot(d, tab, i, k) == 0 && Slot(d', tab', i, k) < |d'| && d'[Slot(d', tab', i, k)] == ZeroBlock())
  }

  lemma BytesKept(sb: Superblock, d: Disk, tab: seq<DInode>, owner: map<nat, Owner>, d': Disk, tab': seq<DInode>)
    requires Owned(sb, d, tab, owner) && SameData(d, d', owner) && TableOk(d', tab') && |tab| == |tab'|
    requires forall i, k :: 0 <= i < |tab| && 0 <= k < SLOTS ==> SlotKept(d, tab, d', tab', i, k)
    ensures SameBytes(d, tab, d', tab')
  {
    hide TableOk;
    forall i, p | 0 <= i < |tab| && 0 <= p < MAXBYTES
      ensures FileByte(d', tab', i, p) == FileByte(d, tab, i, p)
    {
      var k := FileSlot(p / BSIZE);
      assert SlotKept(d, tab, d', tab', i, k);
      if Slot(d, tab, i, k) != 0 {
        SlotInData(sb, d, tab, owner, i, k);
      }
    }
  }

  /** Writing one block of file `i` changes just that block's bytes of that file. */
  lemma DataWrite(sb: Superblock, d: Disk, tab: seq<DInode>, owner: map<nat, Owner>, i: nat, bn: nat, data: Block)
    requires Owned(sb, d, tab, owner) && i < |tab| && bn < MAXFILE && Slot(d, tab, i, FileSlot(bn)) != 0
    ensures Slot(d, tab, i, FileSlot(bn)) < |d|
    ensures var d' := d[Slot(d, tab, i, FileSlot(bn)) := data];
            && SameSlots(d, tab, d', tab) && Owned(sb, d', tab, owner)
            && SameBetween(d, d', 0, sb.datastart)
            && forall j, p :: 0 <= j < |tab| && 0 <= p < MAXBYTES ==>
                 FileByte(d', tab, j, p) == if j == i && p / BSIZE == bn then data[p % BSIZE]
                   else FileByte(d, tab, j, p)
  {
    hide TableOk, BitsOk;
    SlotInData(sb, d, tab, owner, i, FileSlot(bn));
    var a := Slot(d, tab, i, FileSlot(bn));
    var d' := d[a := data];
    SlotsSame(sb, d, tab, owner, d');
    BitsFrame(sb, d, d', owner);
    SameSlotsKeep(sb, d, tab, owner, d', tab);
    hide Owned;
    forall j, p | 0 <= j < |tab| && 0 <= p < MAXBYTES
      ensures FileByte(d', tab, j, p) == if j == i && p / BSIZE == bn then data[p % BSIZE] else FileByte(d, tab, j, p)
    {
      var m := FileSlot(p / BSIZE);
      assert Slot(d', tab, j, m) == Slot(d, tab, j, m);
      if Slot(d, tab, j, m) == a {
        Exclusive(sb, d, tab, owner, i, FileSlot(bn), j, m);
      }
    }
  }

  // ---- The bitmap ----

  lemma BitsFrame(sb: Superblock, d: Disk, d': Disk, owner: map<nat, Owner>)
    requires BitsOk(sb, d, owner) && SameBetween(d, d', sb.bmapstart, sb.datastart)
    ensures BitsOk(sb, d', owner)
  {
    forall b: nat | b < sb.size ensures BitAt(sb, d', owner, b) {
      BblockInside(sb, b);
      assert BitAt(sb, d, owner, b);
    }
  }

  function MarkOn(sb: Superblock, d: Disk, a: nat): Disk
    requires sb.Bblock(a) < |d|
  {
    d[sb.Bblock(a) := Mark(d[sb.Bblock(a)], a % BPB)]
  }

  function UnmarkOn(sb: Superblock, d: Disk, a: nat): Disk
    requires sb.Bblock(a) < |d|
  {
    d[sb.Bblock(a) := Unmark(d[sb.Bblock(a)], a % BPB)]
  }

  /** Marking and unmarking change one bit of the bitmap. */
  lemma MarkUsed(sb: Superblock, d: Disk, a: nat, b: nat)
    requires sb.Bblock(a) < |d| && sb.Bblock(b) < |d|
    ensures Used(sb, MarkOn(sb, d, a), b) <==> b == a || Used(sb, d, b)
    ensures Used(sb, UnmarkOn(sb, d, a), b) <==> b != a && Used(sb, d, b)
  {
    hide Mark, Unmark, Bit;
    if sb.Bblock(a) == sb.Bblock(b) {
      BitOfMark(d[sb.Bblock(a)], a % BPB, b % BPB);
      assert a == a / BPB * BPB + a % BPB && b == b / BPB * BPB + b % BPB;
    }
  }

  /** What balloc does to the disk. */
  function Allocated(sb: Superblock, d: Disk, a: nat): Disk
    requires sb.Bblock(a) < |d| && a < |d|
  {
    MarkOn(sb, d, a)[a := ZeroBlock()]
  }

  lemma AllocBits(sb: Superblock, d: Disk, owner: map<nat, Owner>, a: nat, o: Owner)
    requires BitsOk(sb, d, owner) && a < sb.size && IsFree(sb, d, a)
    ensures sb.datastart <= a && a !in owner && sb.Bblock(a) < sb.datastart
    ensures BitsOk(sb, Allocated(sb, d, a), owner[a := o])
    ensures SameBetween(d, Allocated(sb, d, a), 0, sb.bmapstart)
    ensures forall c :: sb.datastart <= c < sb.size && c != a ==> Allocated(sb, d, a)[c] == d[c]
    ensures Allocated(sb, d, a)[a] == ZeroBlock()
  {
    hide Used, Mark;
    BblockInside(sb, a);
    assert BitAt(sb, d, owner, a);
    var m, owner' := MarkOn(sb, d, a), owner[a := o];
    forall b: nat | b < sb.size ensures BitAt(sb, m, owner', b) {
      BblockInside(sb, b);
      assert BitAt(sb, d, owner, b);
      MarkUsed(sb, d, a, b);
    }
    BitsFrame(sb, m, Allocated(sb, d, a), owner');
  }

  lemma FreeBits(sb: Superblock, d: Disk, owner: map<nat, Owner>, a: nat, owner': map<nat, Owner>)
    requires BitsOk(sb, d, owner) && sb.datastart <= a < sb.size
    requires forall c :: c in owner' <==> c in owner && c != a
    ensures sb.bmapstart <= sb.Bblock(a) < sb.datastart
    ensures BitsOk(sb, UnmarkOn(sb, d, a), owner')
    ensures Used(sb, d, a) <==> a in owner
  {
    hide Used, Unmark;
    BblockInside(sb, a);
    assert BitAt(sb, d, owner, a);
    var u := UnmarkOn(sb, d, a);
    forall b: nat | b < sb.size ensures BitAt(sb, u, owner', b) {
      BblockInside(sb, b);
      assert BitAt(sb, d, owner, b);
      MarkUsed(sb, d, a, b);
    }
  }
}
