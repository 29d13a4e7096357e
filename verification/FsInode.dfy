/** The disk together with one locked inode, whose in-memory copy may be ahead of the disk's. */
module FsInode {
  import opened Bytes
  import opened FsLayout
  import opened FsOwnership
  import opened FsFile

  /** The inode table as the file system sees it: inode `inum` from memory, the others from disk. */
  ghost function Table(sb: Superblock, d: Disk, inum: nat, x: DInode): (tab: seq<DInode>)
    requires sb.Valid() && |d| == sb.size
    ensures |tab| == sb.ninodes
    ensures forall i :: 0 <= i < sb.ninodes ==> tab[i] == if i == inum then x else OnDisk(sb, d, i)
  {
    seq(sb.ninodes, i requires 0 <= i => if i == inum then x else OnDisk(sb, d, i))
  }

  ghost function OnDisk(sb: Superblock, d: Disk, i: nat): DInode {
    if sb.Iblock(i) < |d| then InodeAt(sb, d, i) else DInode(0, 0, 0, 0, 0, [])
  }

  ghost predicate FsOk(sb: Superblock, d: Disk, inum: nat, x: DInode, owner: map<nat, Owner>) {
    && sb.Valid() && |d| == sb.size && inum < sb.ninodes
    && Owned(sb, d, Table(sb, d, inum, x), owner) && SizesOk(Table(sb, d, inum, x))
  }

  lemma OkInode(sb: Superblock, d: Disk, inum: nat, x: DInode, owner: map<nat, Owner>)
    requires FsOk(sb, d, inum, x, owner)
    ensures InodeOk(d, x) && x.size <= MAXBYTES && BitsOk(sb, d, owner)
  {
    var tab := Table(sb, d, inum, x);
    assert tab[inum] == x && InodeOk(d, tab[inum]);
  }

  lemma OkSlot(sb: Superblock, d: Disk, inum: nat, x: DInode, owner: map<nat, Owner>, k: nat)
    requires FsOk(sb, d, inum, x, owner) && InodeOk(d, x) && k < SLOTS && SlotAddr(d, x.addrs, k) != 0
    ensures sb.Valid() && sb.datastart <= SlotAddr(d, x.addrs, k) < sb.size == |d|
  {
    SlotInData(sb, d, Table(sb, d, inum, x), owner, inum, k);
  }

  /** The number of free blocks. */
  ghost function Room(sb: Superblock, d: Disk): nat
    requires sb.Valid() && |d| == sb.size
  {
    |Free(sb, d)|
  }

  lemma RoomIs(sb: Superblock, d: Disk, inum: nat, x: DInode, owner: map<nat, Owner>)
    requires FsOk(sb, d, inum, x, owner)
    ensures Room(sb, d) == sb.size - sb.datastart - |owner|
  {
    Conservation(sb, d, Table(sb, d, inum, x), owner);
  }

  lemma TableSame(sb: Superblock, d: Disk, d': Disk, inum: nat, x: DInode, x': DInode)
    requires sb.Valid() && |d| == sb.size && inum < sb.ninodes && SameBetween(d, d', 0, sb.bmapstart)
    ensures Table(sb, d', inum, x') == Table(sb, d, inum, x)[inum := x']
  {
  }

  lemma WordOfZero(e: nat)
    requires e < WORDS
    ensures Word(ZeroBlock(), e) == 0
  {
  }

  /** Files and table as `inum`'s holder sees them before and after a step. */
  ghost predicate SameFiles(sb: Superblock, d: Disk, x: DInode, d': Disk, x': DInode, inum: nat) {
    && sb.Valid() && |d| == sb.size && |d'| == sb.size
    && SameBytes(d, Table(sb, d, inum, x), d', Table(sb, d', inum, x'))
    && SameBetween(d, d', 0, sb.bmapstart)
  }

  /** Blocks stay in their slots. */
  ghost predicate KeepsSlots(d: Disk, x: DInode, d': Disk, x': DInode) {
    && InodeOk(d, x) && InodeOk(d', x')
    && forall k :: 0 <= k < SLOTS && SlotAddr(d, x.addrs, k) != 0 ==>
         SlotAddr(d', x'.addrs, k) == SlotAddr(d, x.addrs, k)
  }

  /** Only slot `k` may have changed. */
  ghost predicate SlotsBut(d: Disk, x: DInode, d': Disk, x': DInode, k: nat) {
    && InodeOk(d, x) && InodeOk(d', x')
    && forall m :: 0 <= m < SLOTS && m != k ==> SlotAddr(d', x'.addrs, m) == SlotAddr(d, x.addrs, m)
  }

  lemma SlotsKeptIfGained(d: Disk, tab: seq<DInode>, d': Disk, tab': seq<DInode>, i: nat, k: nat, a: nat)
    requires GainsSlot(d, tab, d', tab', i, k, a) && i < |tab| && k < SLOTS && Slot(d, tab, i, k) == 0
    ensures KeepsSlots(d, tab[i], d', tab'[i]) && SlotsBut(d, tab[i], d', tab'[i], k)
  {
    assert InodeOk(d, tab[i]) && InodeOk(d', tab'[i]);
    forall m | 0 <= m < SLOTS && m != k ensures SlotAddr(d', tab'[i].addrs, m) == SlotAddr(d, tab[i].addrs, m) {
      assert Slot(d', tab', i, m) == if i == i && m == k then a else Slot(d, tab, i, m);
    }
  }

  // ---- bmap ----

  /** Storing a fresh block in `addrs[k]`: a direct block, or (k == NDIRECT) the indirect block. */
  lemma AttachAddr(sb: Superblock, d: Disk, inum: nat, x: DInode, owner: map<nat, Owner>, k: nat, a: nat)
    requires FsOk(sb, d, inum, x, owner) && a < sb.size && IsFree(sb, d, a)
    requires k <= NDIRECT && |x.addrs| == NDIRECT + 1 && x.addrs[k] == 0
    ensures sb.Bblock(a) < |d|
    ensures var d', x' := Allocated(sb, d, a), x.(addrs := x.addrs[k := a]);
            && FsOk(sb, d', inum, x', owner[a := Owner(inum, k)])
            && SameFiles(sb, d, x, d', x', inum) && KeepsSlots(d, x, d', x') && SlotsBut(d, x, d', x', k)
    ensures Allocated(sb, d, a)[a] == ZeroBlock() && a != 0 && a !in owner
  {
    AllocBits(sb, d, owner, a, Owner(inum, k));
    var d', x', owner' := Allocated(sb, d, a), x.(addrs := x.addrs[k := a]), owner[a := Owner(inum, k)];
    hide Allocated, BitsOk;
    var tab := Table(sb, d, inum, x);
    TableSame(sb, d, d', inum, x, x');
    var tab' := tab[inum := x'];
    OwnedInData(sb, d, tab, owner);
    assert InodeOk(d, tab[inum]) && InodeOk(d', x');
    assert TableOk(d', tab');
    hide TableOk;
    forall j, m | 0 <= j < |tab| && 0 <= m < SLOTS
      ensures Slot(d', tab', j, m) == if j == inum && m == k then a else Slot(d, tab, j, m)
    {
      if m > NDIRECT && j == inum && k == NDIRECT {
        WordOfZero(m - NDIRECT - 1);
      } else {
        SlotFrame(sb, d, tab, owner, d', j, m);
      }
    }
    GainKeeps(sb, d, tab, owner, d', tab', inum, k, a);
    KeptIfGained(sb, d, tab, owner, d', tab', inum, k, a);
    SlotsKeptIfGained(d, tab, d', tab', inum, k, a);
  }

  lemma OwnedInData(sb: Superblock, d: Disk, tab: seq<DInode>, owner: map<nat, Owner>)
    requires Owned(sb, d, tab, owner)
    ensures forall c :: c in owner ==> sb.datastart <= c < sb.size
  {
  }

  lemma KeptIfGained(sb: Superblock, d: Disk, tab: seq<DInode>, owner: map<nat, Owner>, d': Disk, tab': seq<DInode>,
                     i: nat, k: nat, a: nat)
    requires Owned(sb, d, tab, owner) && GainsSlot(d, tab, d', tab', i, k, a) && SameData(d, d', owner)
    requires i < |tab| && k < SLOTS && Slot(d, tab, i, k) == 0 && a < |d'| && d'[a] == ZeroBlock()
    ensures SameBytes(d, tab, d', tab')
  {
    forall j, m | 0 <= j < |tab| && 0 <= m < SLOTS ensures SlotKept(d, tab, d', tab', j, m) {
      assert Slot(d', tab', j, m) == if j == i && m == k then a else Slot(d, tab, j, m);
    }
    BytesKept(sb, d, tab, owner, d', tab');
  }

  /** Storing a fresh block in entry `e` of the indirect block. */
  lemma AttachEntry(sb: Superblock, d: Disk, inum: nat, x: DInode, owner: map<nat, Owner>, e: nat, a: nat)
    requires FsOk(sb, d, inum, x, owner) && a < sb.size && IsFree(sb, d, a)
    requires e < NINDIRECT && |x.addrs| == NDIRECT + 1 && 0 < x.addrs[NDIRECT] < |d|
    requires Word(d[x.addrs[NDIRECT]], e) == 0
    ensures sb.Bblock(a) < |d| && Allocated(sb, d, a)[x.addrs[NDIRECT]] == d[x.addrs[NDIRECT]]
    ensures a < WORD && a != 0 && a !in owner
    ensures var ind := x.addrs[NDIRECT];
            var d' := Allocated(sb, d, a)[ind := SetWord(d[ind], e, a)];
            && FsOk(sb, d', inum, x, owner[a := Owner(inum, NDIRECT + 1 + e)])
            && SameFiles(sb, d, x, d', x, inum) && Word(d'[ind], e) == a
            && KeepsSlots(d, x, d', x) && SlotsBut(d, x, d', x, NDIRECT + 1 + e)
  {
    hide Word, SetWord;
    var k, ind := NDIRECT + 1 + e, x.addrs[NDIRECT];
    var tab := Table(sb, d, inum, x);
    SlotInData(sb, d, tab, owner, inum, NDIRECT);
    AllocBits(sb, d, owner, a, Owner(inum, k));
    var d1, owner' := Allocated(sb, d, a), owner[a := Owner(inum, k)];
    var d' := d1[ind := SetWord(d[ind], e, a)];
    BitsFrame(sb, d1, d', owner');
    hide Allocated, BitsOk;
    TableSame(sb, d, d', inum, x, x);
    assert Table(sb, d', inum, x) == tab;
    OwnedInData(sb, d, tab, owner);
    EntrySlots(sb, d, tab, owner, inum, e, a, d');
    hide TableOk;
    GainKeeps(sb, d, tab, owner, d', tab, inum, k, a);
    KeptIfGained(sb, d, tab, owner, d', tab, inum, k, a);
    SlotsKeptIfGained(d, tab, d', tab, inum, k, a);
  }

  lemma EntrySlots(sb: Superblock, d: Disk, tab: seq<DInode>, owner: map<nat, Owner>, i: nat, e: nat, a: nat, d': Disk)
    requires Owned(sb, d, tab, owner) && i < |tab| && e < NINDIRECT && a < WORD && |d'| == |d|
    requires 0 < tab[i].addrs[NDIRECT] < |d| && d'[tab[i].addrs[NDIRECT]] == SetWord(d[tab[i].addrs[NDIRECT]], e, a)
    requires forall c :: c in owner && c != tab[i].addrs[NDIRECT] && c < |d| ==> d'[c] == d[c]
    ensures GainsSlot(d, tab, d', tab, i, NDIRECT + 1 + e, a)
    ensures Word(d'[tab[i].addrs[NDIRECT]], e) == a
  {
    hide Word, SetWord, BitsOk;
    var ind, k := tab[i].addrs[NDIRECT], NDIRECT + 1 + e;
    WordOfSet(d[ind], e, a, e);
    assert TableOk(d', tab);
    hide TableOk;
    assert SlotAt(d, tab, owner, i, NDIRECT);
    forall j, m | 0 <= j < |tab| && 0 <= m < SLOTS
      ensures Slot(d', tab, j, m) == if j == i && m == k then a else Slot(d, tab, j, m)
    {
      assert SlotAt(d, tab, owner, j, NDIRECT);
      if m > NDIRECT && j == i {
        WordOfSet(d[ind], e, a, m - NDIRECT - 1);
      }
    }
  }

  // ---- iupdate, and a new size ----

  ghost function Stored(sb: Superblock, d: Disk, inum: nat, x: DInode): Disk
    requires sb.Iblock(inum) < |d| && x.Fits()
  {
    d[sb.Iblock(inum) := PutInode(d[sb.Iblock(inum)], inum % IPB, x)]
  }

  /** Writing the inode back: the table and the files are as before, and the disk's inode is now current. */
  lemma StoreInode(sb: Superblock, d: Disk, inum: nat, x: DInode, owner: map<nat, Owner>)
    requires FsOk(sb, d, inum, x, owner)
    ensures x.Fits() && sb.Iblock(inum) < sb.bmapstart
    ensures var d' := Stored(sb, d, inum, x);
            && FsOk(sb, d', inum, x, owner) && OnDisk(sb, d', inum) == x
            && Table(sb, d', inum, x) == Table(sb, d, inum, x)
            && SameBytes(d, Table(sb, d, inum, x), d', Table(sb, d, inum, x))
  {
    IblockInside(sb, inum);
    var tab := Table(sb, d, inum, x);
    assert InodeOk(d, tab[inum]);
    var d' := Stored(sb, d, inum, x);
    hide PutInode, GetInode;
    forall i: nat | i < sb.ninodes
      ensures OnDisk(sb, d', i) == if i == inum then x else OnDisk(sb, d, i)
    {
      IblockInside(sb, i);
      InodeRoundTrip(d[sb.Iblock(inum)], inum % IPB, x, i % IPB);
      assert i == i / IPB * IPB + i % IPB && inum == inum / IPB * IPB + inum % IPB;
    }
    assert Table(sb, d', inum, x) == tab;
    hide Table, OnDisk, Stored;
    DataUntouched(sb, d, tab, owner, d');
  }

  /** No change to the bitmap nor to the data blocks. */
  lemma DataUntouched(sb: Superblock, d: Disk, tab: seq<DInode>, owner: map<nat, Owner>, d': Disk)
    requires Owned(sb, d, tab, owner) && SameBetween(d, d', sb.bmapstart, sb.size)
    ensures Owned(sb, d', tab, owner) && SameBytes(d, tab, d', tab)
  {
    OwnedInData(sb, d, tab, owner);
    SlotsSame(sb, d, tab, owner, d');
    BitsFrame(sb, d, d', owner);
    SameSlotsKeep(sb, d, tab, owner, d', tab);
    hide TableOk, BitsOk;
    forall j, m | 0 <= j < |tab| && 0 <= m < SLOTS ensures SlotKept(d, tab, d', tab, j, m) {
      assert Slot(d', tab, j, m) == Slot(d, tab, j, m);
    }
    BytesKept(sb, d, tab, owner, d', tab);
  }

  /** Changing anything in the inode but its addresses. */
  lemma Restat(sb: Superblock, d: Disk, inum: nat, x: DInode, owner: map<nat, Owner>, x': DInode)
    requires FsOk(sb, d, inum, x, owner) && x'.addrs == x.addrs && x'.Fits() && x'.size <= MAXBYTES
    ensures FsOk(sb, d, inum, x', owner)
    ensures SameBytes(d, Table(sb, d, inum, x), d, Table(sb, d, inum, x'))
  {
    var tab := Table(sb, d, inum, x);
    TableSame(sb, d, d, inum, x, x');
    var tab' := tab[inum := x'];
    assert InodeOk(d, tab[inum]) && InodeOk(d, x');
    assert TableOk(d, tab');
    hide TableOk, BitsOk, Table;
    forall j, m | 0 <= j < |tab| && 0 <= m < SLOTS ensures Slot(d, tab', j, m) == Slot(d, tab, j, m) {
    }
    SameSlotsKeep(sb, d, tab, owner, d, tab');
    forall j, p | 0 <= j < |tab| && 0 <= p < MAXBYTES ensures FileByte(d, tab', j, p) == FileByte(d, tab, j, p) {
    }
  }

  // ---- No inode held ----

  /** The inodes as the disk has them. */
  ghost function Inodes(sb: Superblock, d: Disk): (tab: seq<DInode>)
    requires sb.Valid() && |d| == sb.size
    ensures |tab| == sb.ninodes && forall i :: 0 <= i < sb.ninodes ==> tab[i] == OnDisk(sb, d, i)
  {
    seq(sb.ninodes, i requires 0 <= i => OnDisk(sb, d, i))
  }

  ghost predicate RestOk(sb: Superblock, d: Disk, owner: map<nat, Owner>) {
    sb.Valid() && |d| == sb.size && Owned(sb, d, Inodes(sb, d), owner) && SizesOk(Inodes(sb, d))
  }

  lemma WrittenBack(sb: Superblock, d: Disk, inum: nat, x: DInode, owner: map<nat, Owner>)
    requires FsOk(sb, d, inum, x, owner) && OnDisk(sb, d, inum) == x
    ensures RestOk(sb, d, owner) && Table(sb, d, inum, x) == Inodes(sb, d)
  {
    hide OnDisk;
    assert Table(sb, d, inum, x) == Inodes(sb, d);
  }

  lemma LoadInode(sb: Superblock, d: Disk, owner: map<nat, Owner>, j: nat)
    requires RestOk(sb, d, owner) && j < sb.ninodes
    ensures FsOk(sb, d, j, OnDisk(sb, d, j), owner) && Table(sb, d, j, OnDisk(sb, d, j)) == Inodes(sb, d)
  {
    hide OnDisk;
    assert Table(sb, d, j, OnDisk(sb, d, j)) == Inodes(sb, d);
  }

  /** A free inode without blocks becomes a new one. */
  lemma NewInode(sb: Superblock, d: Disk, owner: map<nat, Owner>, j: nat, kind: nat)
    requires RestOk(sb, d, owner) && j < sb.ninodes && OnDisk(sb, d, j).addrs == NoAddrs() && kind < 0x1_0000
    ensures Blank(kind).Fits() && sb.Iblock(j) < sb.bmapstart
    ensures var d' := Stored(sb, d, j, Blank(kind));
            && RestOk(sb, d', owner) && Inodes(sb, d') == Inodes(sb, d)[j := Blank(kind)]
            && SameBytes(d, Inodes(sb, d), d', Inodes(sb, d'))
  {
    var x, x' := OnDisk(sb, d, j), Blank(kind);
    LoadInode(sb, d, owner, j);
    Restat(sb, d, j, x, owner, x');
    TableSame(sb, d, d, j, x, x');
    StoreInode(sb, d, j, x', owner);
    hide FsOk, RestOk, OnDisk, Table;
    WrittenBack(sb, Stored(sb, d, j, x'), j, x', owner);
    var tab1 := Table(sb, d, j, x');
    SameBytesTrans(d, Inodes(sb, d), d, tab1, Stored(sb, d, j, x'), tab1);
  }

  // ---- itrunc ----

  ghost predicate OthersSame(sb: Superblock, d: Disk, x: DInode, d': Disk, x': DInode, inum: nat) {
    && sb.Valid() && |d| == sb.size && |d'| == sb.size && SameBetween(d, d', 0, sb.bmapstart)
    && OtherBytes(d, Table(sb, d, inum, x), d', Table(sb, d', inum, x'), inum)
  }

  ghost predicate OtherBytes(d: Disk, tab: seq<DInode>, d': Disk, tab': seq<DInode>, i: nat) {
    && TableOk(d, tab) && TableOk(d', tab') && |tab| == |tab'|
    && forall j, p :: 0 <= j < |tab| && j != i && 0 <= p < MAXBYTES ==>
       FileByte(d', tab', j, p) == FileByte(d, tab, j, p)
  }

  /** Emptying one more slot (i, k) removes just its block from the owned ones. */
  lemma WithoutStep(sb: Superblock, d: Disk, tab: seq<DInode>, owner: map<nat, Owner>, i: nat, k: nat,
                    lo: nat, hi: nat, lo': nat, hi': nat)
    requires Owned(sb, d, tab, owner) && i < |tab| && k < SLOTS
    requires (lo' == lo <= hi == k && hi' == k + 1) || (lo' == k && lo == k + 1 <= hi == hi')
    ensures var a, w, w' := Slot(d, tab, i, k), Without(owner, i, lo, hi), Without(owner, i, lo', hi');
            && (a != 0 ==> a in w && sb.datastart <= a < sb.size)
            && (a == 0 ==> w' == w)
            && forall c :: c in w' <==> c in w && c != a
  {
    hide TableOk, BitsOk;
    var a, w, w' := Slot(d, tab, i, k), Without(owner, i, lo, hi), Without(owner, i, lo', hi');
    if a != 0 {
      SlotInData(sb, d, tab, owner, i, k);
    }
    forall c ensures c in w' <==> c in w && c != a {
      assert c in owner ==> OwnerAt(sb, d, tab, owner, c);
    }
  }

  /** While slots are being emptied: the next one's block is still marked, and unmarking it frees just that block. */
  lemma FreeOne(sb: Superblock, d0: Disk, inum: nat, x: DInode, owner: map<nat, Owner>, k: nat,
                lo: nat, hi: nat, lo': nat, hi': nat, d: Disk)
    requires FsOk(sb, d0, inum, x, owner) && InodeOk(d0, x) && k < SLOTS
    requires (lo' == lo <= hi == k && hi' == k + 1) || (lo' == k && lo == k + 1 <= hi == hi')
    requires BitsOk(sb, d, Without(owner, inum, lo, hi))
    ensures var a := SlotAddr(d0, x.addrs, k);
            if a == 0 then BitsOk(sb, d, Without(owner, inum, lo', hi'))
            else
              && sb.Bblock(a) < |d| && Used(sb, d, a)
              && BitsOk(sb, UnmarkOn(sb, d, a), Without(owner, inum, lo', hi'))
              && BesidesBitmap(sb, d, UnmarkOn(sb, d, a))
  {
    var tab, a := Table(sb, d0, inum, x), SlotAddr(d0, x.addrs, k);
    WithoutStep(sb, d0, tab, owner, inum, k, lo, hi, lo', hi');
    hide Without, Used, Unmark, BitsOk, Owned;
    if a != 0 {
      FreeBits(sb, d, Without(owner, inum, lo, hi), a, Without(owner, inum, lo', hi'));
    }
  }

  lemma WithoutNone(owner: map<nat, Owner>, i: nat, k: nat)
    ensures Without(owner, i, k, k) == owner
  {
  }

  ghost predicate BesidesBitmap(sb: Superblock, d: Disk, d': Disk) {
    SameBetween(d, d', 0, sb.bmapstart) && SameBetween(d, d', sb.datastart, sb.size)
  }

  lemma OthersRefl(sb: Superblock, d: Disk, inum: nat, x: DInode, owner: map<nat, Owner>)
    requires FsOk(sb, d, inum, x, owner)
    ensures OthersSame(sb, d, x, d, x, inum)
  {
    hide Table, TableOk;
  }

  lemma OthersTrans(sb: Superblock, d: Disk, x: DInode, d1: Disk, x1: DInode, d2: Disk, x2: DInode, inum: nat)
    requires OthersSame(sb, d, x, d1, x1, inum) && OthersSame(sb, d1, x1, d2, x2, inum)
    ensures OthersSame(sb, d, x, d2, x2, inum)
  {
    hide TableOk;
    hide Table;
  }

  /** Nothing to free in an empty slot. */
  lemma WithoutEmpty(sb: Superblock, d: Disk, inum: nat, x: DInode, owner: map<nat, Owner>, k: nat, hi: nat)
    requires FsOk(sb, d, inum, x, owner) && InodeOk(d, x)
    requires (k < NDIRECT && hi == k + 1) || (k == NDIRECT && hi == SLOTS)
    requires x.addrs[k] == 0
    ensures Without(owner, inum, k, hi) == owner
  {
    var tab := Table(sb, d, inum, x);
    assert tab[inum] == x;
    hide Table, Owned, Without;
    EmptyOwnsNothing(sb, d, tab, owner, inum, k, hi);
    WithoutNothing(owner, inum, k, hi);
  }

  lemma EmptyOwnsNothing(sb: Superblock, d: Disk, tab: seq<DInode>, owner: map<nat, Owner>, i: nat, k: nat, hi: nat)
    requires Owned(sb, d, tab, owner) && i < |tab| && InodeOk(d, tab[i])
    requires (k < NDIRECT && hi == k + 1) || (k == NDIRECT && hi == SLOTS)
    requires tab[i].addrs[k] == 0
    ensures forall c :: c in owner ==> !(owner[c].inum == i && k <= owner[c].slot < hi)
  {
    hide TableOk, BitsOk, Word;
    forall c | c in owner ensures !(owner[c].inum == i && k <= owner[c].slot < hi) {
      assert OwnerAt(sb, d, tab, owner, c);
    }
  }

  lemma WithoutNothing(owner: map<nat, Owner>, i: nat, lo: nat, hi: nat)
    requires forall c :: c in owner ==> !(owner[c].inum == i && lo <= owner[c].slot < hi)
    ensures Without(owner, i, lo, hi) == owner
  {
  }

  lemma WithoutTwice(owner: map<nat, Owner>, i: nat, lo: nat, mid: nat, hi: nat)
    requires lo <= mid <= hi
    ensures Without(Without(owner, i, lo, mid), i, mid, hi) == Without(owner, i, lo, hi)
  {
  }

  /** Clearing addrs[k], its bitmap bits being cleared already, empties slots k and on of the indirect block. */
  lemma DropAddr(sb: Superblock, d: Disk, inum: nat, x: DInode, owner: map<nat, Owner>, k: nat, hi: nat, d': Disk)
    requires FsOk(sb, d, inum, x, owner) && |x.addrs| == NDIRECT + 1
    requires (k < NDIRECT && hi == k + 1) || (k == NDIRECT && hi == SLOTS)
    requires BesidesBitmap(sb, d, d') && BitsOk(sb, d', Without(owner, inum, k, hi))
    ensures var x' := x.(addrs := x.addrs[k := 0]);
            FsOk(sb, d', inum, x', Without(owner, inum, k, hi)) && OthersSame(sb, d, x, d', x', inum)
  {
    var tab, x' := Table(sb, d, inum, x), x.(addrs := x.addrs[k := 0]);
    TableSame(sb, d, d', inum, x, x');
    var tab' := tab[inum := x'];
    assert InodeOk(d, tab[inum]) && InodeOk(d', x');
    assert TableOk(d', tab');
    hide TableOk, BitsOk, Table;
    OwnedInData(sb, d, tab, owner);
    forall j, m | 0 <= j < |tab| && 0 <= m < SLOTS
      ensures Slot(d', tab', j, m) == if j == inum && k <= m < hi then 0 else Slot(d, tab, j, m)
    {
      SlotFrame(sb, d, tab, owner, d', j, m);
    }
    LoseKeeps(sb, d, tab, owner, d', tab', inum, k, hi);
    LoseOthers(sb, d, tab, owner, d', tab', inum, k, hi);
  }

  lemma LoseOthers(sb: Superblock, d: Disk, tab: seq<DInode>, owner: map<nat, Owner>, d': Disk, tab': seq<DInode>,
                   i: nat, lo: nat, hi: nat)
    requires Owned(sb, d, tab, owner) && LosesSlots(d, tab, d', tab', i, lo, hi) && SameData(d, d', owner)
    ensures OtherBytes(d, tab, d', tab', i)
  {
    hide TableOk, BitsOk;
    forall j, p | 0 <= j < |tab| && j != i && 0 <= p < MAXBYTES
      ensures FileByte(d', tab', j, p) == FileByte(d, tab, j, p)
    {
      var m := FileSlot(p / BSIZE);
      assert Slot(d', tab', j, m) == if j == i && lo <= m < hi then 0 else Slot(d, tab, j, m);
      if Slot(d, tab, j, m) != 0 {
        SlotInData(sb, d, tab, owner, j, m);
      }
    }
  }
}
