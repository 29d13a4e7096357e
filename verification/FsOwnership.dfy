/** Which inode slot owns which block.

    An inode has 141 slots: 12 direct addresses, the indirect block (slot 12), and the 128 entries of
    the indirect block.  `tab` is the inode table with the in-memory copy of the locked inode in place
    of its disk copy; `owner` says for every allocated data block which slot holds it. */
module FsOwnership {
  import opened Bytes
  import opened FsLayout
  import opened Sets

  const SLOTS := 141

  datatype Owner = Owner(inum: nat, slot: nat)

  /** The block number in a slot; 0 is none. */
  function SlotAddr(d: Disk, addrs: seq<nat>, k: nat): nat
    requires |addrs| == NDIRECT + 1 && k < SLOTS && addrs[NDIRECT] < |d|
  {
    if k <= NDIRECT then addrs[k]
    else if addrs[NDIRECT] == 0 then 0
    else Word(d[addrs[NDIRECT]], k - NDIRECT - 1)
  }

  /** The slot of the `bn`th block of a file. */
  function FileSlot(bn: nat): nat {
    if bn < NDIRECT then bn else bn + 1
  }

  ghost predicate InodeOk(d: Disk, x: DInode) {
    x.Fits() && x.addrs[NDIRECT] < |d|
  }

  ghost predicate TableOk(d: Disk, tab: seq<DInode>) {
    forall i :: 0 <= i < |tab| ==> InodeOk(d, tab[i])
  }

  ghost function Slot(d: Disk, tab: seq<DInode>, i: nat, k: nat): nat
    requires TableOk(d, tab) && i < |tab| && k < SLOTS
  {
    SlotAddr(d, tab[i].addrs, k)
  }

  ghost predicate SlotAt(d: Disk, tab: seq<DInode>, owner: map<nat, Owner>, i: nat, k: nat)
    requires TableOk(d, tab) && i < |tab| && k < SLOTS
  {
    var a := Slot(d, tab, i, k);
    a != 0 ==> a in owner && owner[a] == Owner(i, k)
  }

  ghost predicate OwnerAt(sb: Superblock, d: Disk, tab: seq<DInode>, owner: map<nat, Owner>, a: nat)
    requires TableOk(d, tab)
  {
    a in owner ==>
      && sb.datastart <= a < sb.size
      && owner[a].inum < |tab| && owner[a].slot < SLOTS
      && Slot(d, tab, owner[a].inum, owner[a].slot) == a
  }

  ghost predicate BitAt(sb: Superblock, d: Disk, owner: map<nat, Owner>, b: nat)
    requires sb.Bblock(b) < |d|
  {
    Used(sb, d, b) <==> b < sb.datastart || b in owner
  }

  /** Every block in a slot is owned by that slot alone; owned blocks are data blocks; and exactly the
      owned blocks and the metadata are marked in the bitmap. */
  ghost predicate Owned(sb: Superblock, d: Disk, tab: seq<DInode>, owner: map<nat, Owner>) {
    && sb.Valid() && |d| == sb.size && |tab| == sb.ninodes && TableOk(d, tab)
    && (forall i, k :: 0 <= i < |tab| && 0 <= k < SLOTS ==> SlotAt(d, tab, owner, i, k))
    && (forall a :: a in owner ==> OwnerAt(sb, d, tab, owner, a))
    && BitsOk(sb, d, owner)
  }

  ghost predicate BitsOk(sb: Superblock, d: Disk, owner: map<nat, Owner>) {
    sb.Valid() && |d| == sb.size && forall b :: 0 <= b < sb.size ==> BitAt(sb, d, owner, b)
  }

  lemma BblockInside(sb: Superblock, b: nat)
    requires sb.Valid() && b < sb.size
    ensures sb.bmapstart <= sb.Bblock(b) < sb.datastart
  {
    assert b / BPB <= sb.size / BPB;
  }

  lemma IblockInside(sb: Superblock, i: nat)
    requires sb.Valid() && i < sb.ninodes
    ensures sb.inodestart <= sb.Iblock(i) < sb.bmapstart
  {
    assert i / IPB <= sb.ninodes / IPB;
  }

  /** Different slots hold different blocks. */
  lemma Exclusive(sb: Superblock, d: Disk, tab: seq<DInode>, owner: map<nat, Owner>, i: nat, k: nat, j: nat, m: nat)
    requires Owned(sb, d, tab, owner) && i < |tab| && k < SLOTS && j < |tab| && m < SLOTS
    requires Slot(d, tab, i, k) != 0 && Slot(d, tab, i, k) == Slot(d, tab, j, m)
    ensures i == j && k == m
  {
    assert SlotAt(d, tab, owner, i, k) && SlotAt(d, tab, owner, j, m);
  }

  lemma SlotInData(sb: Superblock, d: Disk, tab: seq<DInode>, owner: map<nat, Owner>, i: nat, k: nat)
    requires Owned(sb, d, tab, owner) && i < |tab| && k < SLOTS && Slot(d, tab, i, k) != 0
    ensures var a := Slot(d, tab, i, k);
            a in owner && owner[a] == Owner(i, k) && sb.datastart <= a < sb.size
  {
    assert SlotAt(d, tab, owner, i, k);
    assert OwnerAt(sb, d, tab, owner, Slot(d, tab, i, k));
  }

  // ---- Steps that keep ownership ----

  /** Nothing changes in any slot, nor in the bitmap. */
  ghost predicate SameSlots(d: Disk, tab: seq<DInode>, d': Disk, tab': seq<DInode>) {
    && TableOk(d, tab) && TableOk(d', tab') && |tab| == |tab'|
    && forall i, k :: 0 <= i < |tab| && 0 <= k < SLOTS ==> Slot(d', tab', i, k) == Slot(d, tab, i, k)
  }

  lemma SameSlotsKeep(sb: Superblock, d: Disk, tab: seq<DInode>, owner: map<nat, Owner>, d': Disk, tab': seq<DInode>)
    requires Owned(sb, d, tab, owner) && SameSlots(d, tab, d', tab') && |d'| == sb.size && BitsOk(sb, d', owner)
    ensures Owned(sb, d', tab', owner)
  {
    hide BitsOk, TableOk;
    forall i, k | 0 <= i < |tab| && 0 <= k < SLOTS ensures SlotAt(d', tab', owner, i, k) {
      assert SlotAt(d, tab, owner, i, k) && Slot(d', tab', i, k) == Slot(d, tab, i, k);
    }
    forall a | a in owner ensures OwnerAt(sb, d', tab', owner, a) {
      assert OwnerAt(sb, d, tab, owner, a);
      assert Slot(d', tab', owner[a].inum, owner[a].slot) == Slot(d, tab, owner[a].inum, owner[a].slot);
    }
  }

  /** Slot (i, k) goes from empty to `a`; all others stay. */
  ghost predicate GainsSlot(d: Disk, tab: seq<DInode>, d': Disk, tab': seq<DInode>, i: nat, k: nat, a: nat) {
    && TableOk(d, tab) && TableOk(d', tab') && |tab| == |tab'|
    && forall j, m :: 0 <= j < |tab| && 0 <= m < SLOTS ==>
         Slot(d', tab', j, m) == if j == i && m == k then a else Slot(d, tab, j, m)
  }

  lemma GainKeeps(sb: Superblock, d: Disk, tab: seq<DInode>, owner: map<nat, Owner>,
                  d': Disk, tab': seq<DInode>, i: nat, k: nat, a: nat)
    requires Owned(sb, d, tab, owner) && GainsSlot(d, tab, d', tab', i, k, a) && i < |tab| && k < SLOTS
    requires Slot(d, tab, i, k) == 0 && a !in owner && sb.datastart <= a < sb.size
    requires |d'| == sb.size && BitsOk(sb, d', owner[a := Owner(i, k)])
    ensures Owned(sb, d', tab', owner[a := Owner(i, k)])
  {
    hide BitsOk, TableOk;
    var owner' := owner[a := Owner(i, k)];
    forall j, m | 0 <= j < |tab| && 0 <= m < SLOTS ensures SlotAt(d', tab', owner', j, m) {
      assert SlotAt(d, tab, owner, j, m);
      assert Slot(d', tab', j, m) == if j == i && m == k then a else Slot(d, tab, j, m);
    }
    forall b | b in owner' ensures OwnerAt(sb, d', tab', owner', b) {
      if b != a {
        assert OwnerAt(sb, d, tab, owner, b);
        var o := owner[b];
        assert Slot(d', tab', o.inum, o.slot) == if o.inum == i && o.slot == k then a else Slot(d, tab, o.inum, o.slot);
      } else {
        assert Slot(d', tab', i, k) == a;
      }
    }
  }

  /** Slots lo <= k < hi of inode `i` become empty; all others stay. */
  ghost predicate LosesSlots(d: Disk, tab: seq<DInode>, d': Disk, tab': seq<DInode>, i: nat, lo: nat, hi: nat) {
    && TableOk(d, tab) && TableOk(d', tab') && |tab| == |tab'|
    && forall j, m :: 0 <= j < |tab| && 0 <= m < SLOTS ==>
         Slot(d', tab', j, m) == if j == i && lo <= m < hi then 0 else Slot(d, tab, j, m)
  }

  ghost function Without(owner: map<nat, Owner>, i: nat, lo: nat, hi: nat): map<nat, Owner> {
    map a | a in owner && !(owner[a].inum == i && lo <= owner[a].slot < hi) :: owner[a]
  }

  lemma LoseKeeps(sb: Superblock, d: Disk, tab: seq<DInode>, owner: map<nat, Owner>,
                  d': Disk, tab': seq<DInode>, i: nat, lo: nat, hi: nat)
    requires Owned(sb, d, tab, owner) && LosesSlots(d, tab, d', tab', i, lo, hi)
    requires |d'| == sb.size && BitsOk(sb, d', Without(owner, i, lo, hi))
    ensures Owned(sb, d', tab', Without(owner, i, lo, hi))
  {
    hide BitsOk, TableOk;
    var owner' := Without(owner, i, lo, hi);
    forall j, m | 0 <= j < |tab| && 0 <= m < SLOTS ensures SlotAt(d', tab', owner', j, m) {
      assert SlotAt(d, tab, owner, j, m);
      assert Slot(d', tab', j, m) == if j == i && lo <= m < hi then 0 else Slot(d, tab, j, m);
    }
    forall b | b in owner' ensures OwnerAt(sb, d', tab', owner', b) {
      assert OwnerAt(sb, d, tab, owner, b);
      var o := owner[b];
      assert Slot(d', tab', o.inum, o.slot) == if o.inum == i && lo <= o.slot < hi then 0
             else Slot(d, tab, o.inum, o.slot);
    }
  }

  // ---- What an operation on one inode leaves alone ----

  /** The blocks of all inodes but `i`, with their slots. */
  ghost function Elsewhere(owner: map<nat, Owner>, i: nat): map<nat, Owner> {
    map a | a in owner && owner[a].inum != i :: owner[a]
  }

  ghost function BlocksOf(owner: map<nat, Owner>, i: nat): set<nat> {
    set a | a in owner && owner[a].inum == i
  }

  /** An inode whose first `n` slots are the ones in use has `n` blocks. */
  lemma CountBlocks(sb: Superblock, d: Disk, tab: seq<DInode>, owner: map<nat, Owner>, i: nat, n: nat)
    requires Owned(sb, d, tab, owner) && i < |tab| && n <= SLOTS
    requires forall k: nat :: k < SLOTS ==> (Slot(d, tab, i, k) != 0 <==> k < n)
    ensures |BlocksOf(owner, i)| == n
  {
    hide BitsOk, TableOk, Slot;
    forall a | a in BlocksOf(owner, i) ensures owner[a].slot < n {
      assert OwnerAt(sb, d, tab, owner, a);
    }
    BelowSlot(sb, d, tab, owner, i, n);
    assert BlocksOf(owner, i) == Below(owner, i, n);
  }

  ghost function Below(owner: map<nat, Owner>, i: nat, n: nat): set<nat> {
    set a | a in owner && owner[a].inum == i && owner[a].slot < n
  }

  lemma {:induction false} BelowSlot(sb: Superblock, d: Disk, tab: seq<DInode>, owner: map<nat, Owner>, i: nat, n: nat)
    requires Owned(sb, d, tab, owner) && i < |tab| && n <= SLOTS
    requires forall k: nat :: k < n ==> Slot(d, tab, i, k) != 0
    ensures |Below(owner, i, n)| == n
  {
    if n > 0 {
      BelowSlot(sb, d, tab, owner, i, n - 1);
      OneBelow(sb, d, tab, owner, i, n - 1);
    } else {
      assert Below(owner, i, n) == {};
    }
  }

  lemma OneBelow(sb: Superblock, d: Disk, tab: seq<DInode>, owner: map<nat, Owner>, i: nat, n: nat)
    requires Owned(sb, d, tab, owner) && i < |tab| && n < SLOTS && Slot(d, tab, i, n) != 0
    ensures var a := Slot(d, tab, i, n); a !in Below(owner, i, n) && Below(owner, i, n + 1) == Below(owner, i, n) + {a}
  {
    hide BitsOk, TableOk, SlotAddr;
    assert SlotAt(d, tab, owner, i, n);
    forall c ensures c in Below(owner, i, n + 1) <==> c == Slot(d, tab, i, n) || c in Below(owner, i, n) {
      assert c in owner ==> OwnerAt(sb, d, tab, owner, c);
    }
  }

  lemma GainElsewhere(owner: map<nat, Owner>, i: nat, k: nat, a: nat)
    requires a !in owner
    ensures Elsewhere(owner[a := Owner(i, k)], i) == Elsewhere(owner, i)
  {
  }

  lemma LoseElsewhere(owner: map<nat, Owner>, i: nat, lo: nat, hi: nat)
    ensures Elsewhere(Without(owner, i, lo, hi), i) == Elsewhere(owner, i)
  {
  }

  /** Inodes that keep their blocks keep them in their slots, and gain none. */
  lemma OtherSlots(sb: Superblock, d: Disk, tab: seq<DInode>, owner: map<nat, Owner>,
                   d': Disk, tab': seq<DInode>, owner': map<nat, Owner>, i: nat, j: nat, k: nat)
    requires Owned(sb, d, tab, owner) && Owned(sb, d', tab', owner') && Elsewhere(owner', i) == Elsewhere(owner, i)
    requires j < |tab| && j != i && k < SLOTS
    ensures Slot(d', tab', j, k) == Slot(d, tab, j, k)
  {
    hide BitsOk, TableOk, SlotAddr;
    var a, a' := Slot(d, tab, j, k), Slot(d', tab', j, k);
    assert SlotAt(d, tab, owner, j, k) && SlotAt(d', tab', owner', j, k);
    if a != 0 {
      assert a in Elsewhere(owner, i);
      assert OwnerAt(sb, d', tab', owner', a);
    }
    if a' != 0 {
      assert a' in Elsewhere(owner', i);
      assert OwnerAt(sb, d, tab, owner, a');
    }
  }

  /** The bitmap determines the free blocks: with the owned ones they make up all data blocks. */
  ghost function Free(sb: Superblock, d: Disk): set<nat>
    requires sb.Valid() && |d| == sb.size
  {
    set b: nat | b < sb.size && IsFree(sb, d, b)
  }

  ghost predicate IsFree(sb: Superblock, d: Disk, b: nat)
    requires sb.Valid() && |d| == sb.size && b < sb.size
  {
    BblockInside(sb, b);
    !Used(sb, d, b)
  }

  /** Free and owned blocks are different, and together they are all the data blocks. */
  lemma Conservation(sb: Superblock, d: Disk, tab: seq<DInode>, owner: map<nat, Owner>)
    requires Owned(sb, d, tab, owner)
    ensures Free(sb, d) !! owner.Keys
    ensures |Free(sb, d)| + |owner| == sb.size - sb.datastart
  {
    FreeIs(sb, d, tab, owner);
    hide Owned, Free;
    ThreeParts(Free(sb, d), owner.Keys, sb.datastart, sb.size);
  }

  lemma FreeIs(sb: Superblock, d: Disk, tab: seq<DInode>, owner: map<nat, Owner>)
    requires Owned(sb, d, tab, owner)
    ensures sb.datastart <= sb.size
    ensures forall b: nat :: b in Free(sb, d) || b in owner.Keys <==> sb.datastart <= b < sb.size
    ensures Free(sb, d) !! owner.Keys
  {
    hide TableOk;
    forall b: nat ensures b in Free(sb, d) <==> sb.datastart <= b < sb.size && b !in owner {
      if b < sb.size {
        assert BitAt(sb, d, owner, b);
        assert IsFree(sb, d, b) <==> b >= sb.datastart && b !in owner;
      }
    }
    forall a | a in owner ensures sb.datastart <= a < sb.size {
      assert OwnerAt(sb, d, tab, owner, a);
    }
  }
}
