/** Block allocation and file contents (fs.c), on the disk as `bread` shows it. */
module FileSystem {
  import opened Arith
  import opened Bytes
  import opened FsLayout
  import opened FsOwnership
  import opened FsFile
  import opened FsInode
  import opened FsContents
  import opened Wrappers

  const T_DEV := 3
  const NDEV := 10

  /** A byte count, the -1 return, the device's own routine, or a kernel panic. */
  datatype Outcome = Count(n: nat) | Failed | Device(major: nat) | Panic

  /** The in-memory inode. */
  class Inode {
    const inum: nat
    var d: DInode

    constructor (inum: nat, d: DInode)
      ensures this.inum == inum && this.d == d
    {
      this.inum, this.d := inum, d;
    }
  }

  ghost predicate Full(sb: Superblock, d: Disk) {
    sb.Valid() && |d| == sb.size && forall b: nat :: b < sb.size ==> !IsFree(sb, d, b)
  }

  lemma NoRoom(sb: Superblock, d: Disk)
    requires sb.Valid() && |d| == sb.size
    ensures Full(sb, d) <==> Room(sb, d) == 0
  {
    hide IsFree;
    assert Room(sb, d) == 0 ==> Free(sb, d) == {};
    if Full(sb, d) {
      assert Free(sb, d) == {};
    } else {
      var b: nat :| b < sb.size && IsFree(sb, d, b);
      assert b in Free(sb, d);
    }
  }

  lemma BitPlace(sb: Superblock, b: nat, bi: nat)
    requires b % BPB == 0 && bi < BPB
    ensures sb.Bblock(b + bi) == sb.Bblock(b) && (b + bi) % BPB == bi
  {
  }

  class Files {
    const sb: Superblock
    var disk: Disk
    ghost var owner: map<nat, Owner>

    constructor (sb: Superblock, disk: Disk, ghost owner: map<nat, Owner>)
      ensures this.sb == sb && this.disk == disk && this.owner == owner
    {
      this.sb, this.disk, this.owner := sb, disk, owner;
    }

    ghost predicate Ok(ip: Inode)
      reads this, ip
    {
      && FsOk(sb, disk, ip.inum, ip.d, owner)
      && sb.Valid() && |disk| == sb.size && ip.inum < sb.ninodes && InodeOk(disk, ip.d) && ip.d.size <= MAXBYTES
    }

    method Bzero(b: nat)
      requires b < |disk|
      modifies this`disk
      ensures disk == old(disk)[b := ZeroBlock()]
    {
      disk := disk[b := ZeroBlock()];
    }

    method Balloc() returns (r: Option<nat>)
      requires sb.Valid() && |disk| == sb.size
      modifies this`disk
      ensures |disk| == sb.size
      ensures r.None? ==> disk == old(disk) && Full(sb, disk)
      ensures r.Some? ==>
                && r.value < sb.size && IsFree(sb, old(disk), r.value)
                && (forall b: nat :: b < r.value ==> !IsFree(sb, old(disk), b))
                && sb.Bblock(r.value) < sb.size && disk == Allocated(sb, old(disk), r.value)
    {
      hide Bit, Mark, IsFree;
      var b := 0;
      while b < sb.size
        invariant b % BPB == 0 && disk == old(disk)
        invariant forall c: nat :: c < b && c < sb.size ==> !IsFree(sb, disk, c)
      {
        BblockInside(sb, b);
        var bp := disk[sb.Bblock(b)];
        var bi := FirstClear(b);
        if bi < BPB && b + bi < sb.size {
          BitPlace(sb, b, bi);
          disk := disk[sb.Bblock(b) := Mark(bp, bi)];
          Bzero(b + bi);
          return Some(b + bi);
        }
        b := b + BPB;
      }
      return None;
    }

    /** The inner loop of balloc: the first free block among those of one bitmap block. */
    method FirstClear(b: nat) returns (bi: nat)
      requires sb.Valid() && |disk| == sb.size && b % BPB == 0 && b < sb.size
      ensures bi == BPB || (bi < BPB && (b + bi >= sb.size || IsFree(sb, disk, b + bi)))
      ensures forall c: nat :: b <= c < b + bi && c < sb.size ==> !IsFree(sb, disk, c)
    {
      hide Bit;
      BblockInside(sb, b);
      var bp := disk[sb.Bblock(b)];
      bi := 0;
      while bi < BPB && b + bi < sb.size
        invariant bi <= BPB
        invariant forall c: nat :: b <= c < b + bi && c < sb.size ==> !IsFree(sb, disk, c)
      {
        BitPlace(sb, b, bi);
        if !Bit(bp, bi) {
          return;
        }
        bi := bi + 1;
      }
    }

    /** Panics (false) when the block is free already. */
    method Bfree(b: nat) returns (ok: bool)
      requires sb.Bblock(b) < |disk|
      modifies this`disk
      ensures ok <==> Used(sb, old(disk), b)
      ensures disk == if ok then UnmarkOn(sb, old(disk), b) else old(disk)
    {
      hide Bit, Unmark;
      var bp := disk[sb.Bblock(b)];
      var bi := b % BPB;
      if !Bit(bp, bi) {
        return false;
      }
      disk := disk[sb.Bblock(b) := Unmark(bp, bi)];
      return true;
    }

    /** The disk block of the `bn`th block of the file, allocated if there was none. */
    method Bmap(ip: Inode, bn: nat) returns (r: Option<nat>)
      requires Ok(ip)
      modifies this, ip`d
      ensures r.None? <==> bn >= MAXFILE || old(Room(sb, disk) < Lacks(disk, ip.d, bn))
      ensures r.Some? ==>
                && Ok(ip) && bn < MAXFILE && 0 < r.value < |disk| && SlotAddr(disk, ip.d.addrs, FileSlot(bn)) == r.value
                && SameFiles(sb, old(disk), old(ip.d), disk, ip.d, ip.inum)
                && FillsBlock(sb, old(disk), old(ip.d), disk, ip.d, bn)
                && ip.d == old(ip.d).(addrs := ip.d.addrs)
                && Elsewhere(owner, ip.inum) == Elsewhere(old(owner), ip.inum)
      ensures bn < MAXFILE && old(SlotAddr(disk, ip.d.addrs, FileSlot(bn))) != 0 ==>
                r.Some? && disk == old(disk) && ip.d == old(ip.d) && owner == old(owner)
    {
      hide FsOk, SameFiles, Word, Elsewhere, Room;
      SameFilesRefl(sb, disk, ip.inum, ip.d, owner);
      if bn < NDIRECT {
        var addr := ip.d.addrs[bn];
        if addr == 0 {
          r := BallocInto(ip, bn);
          return;
        }
        OkSlot(sb, disk, ip.inum, ip.d, owner, bn);
        return Some(addr);
      }
      if bn - NDIRECT < NINDIRECT {
        if ip.d.addrs[NDIRECT] == 0 {
          r := BallocInto(ip, NDIRECT);
          if r.None? {
            return;
          }
        }
        ghost var d1, x1 := disk, ip.d;
        r := EntryOf(ip, bn - NDIRECT);
        if r.Some? {
          SameFilesTrans(sb, old(disk), old(ip.d), d1, x1, disk, ip.d, ip.inum);
        }
        return;
      }
      return None;
    }

    /** The address in entry `e` of the indirect block, allocated if there was none. */
    method EntryOf(ip: Inode, e: nat) returns (r: Option<nat>)
      requires Ok(ip) && e < NINDIRECT && ip.d.addrs[NDIRECT] != 0
      modifies this
      ensures r.None? <==> old(Room(sb, disk) < Lacks(disk, ip.d, NDIRECT + e))
      ensures r.Some? ==>
                && Ok(ip) && 0 < r.value < |disk|
                && Room(sb, disk) == old(Room(sb, disk) - Lacks(disk, ip.d, NDIRECT + e))
                && SlotAddr(disk, ip.d.addrs, NDIRECT + 1 + e) == r.value
                && SameFiles(sb, old(disk), ip.d, disk, ip.d, ip.inum)
                && KeepsSlots(old(disk), ip.d, disk, ip.d) && SlotsBut(old(disk), ip.d, disk, ip.d, NDIRECT + 1 + e)
                && Elsewhere(owner, ip.inum) == Elsewhere(old(owner), ip.inum)
      ensures old(SlotAddr(disk, ip.d.addrs, NDIRECT + 1 + e)) != 0 ==>
                r.Some? && disk == old(disk) && owner == old(owner)
    {
      hide FsOk, SameFiles, Word, SetWord, Allocated, Elsewhere, Room, Full, IsFree;
      SameFilesRefl(sb, disk, ip.inum, ip.d, owner);
      OkSlot(sb, disk, ip.inum, ip.d, owner, NDIRECT);
      var ind := ip.d.addrs[NDIRECT];
      var a := disk[ind];
      var addr := Word(a, e);
      if addr == 0 {
        NoRoom(sb, disk);
        r := Balloc();
        if r.None? {
          return;
        }
        addr := r.value;
        AttachEntry(sb, old(disk), ip.inum, ip.d, owner, e, addr);
        GainElsewhere(owner, ip.inum, NDIRECT + 1 + e, addr);
        RoomIs(sb, old(disk), ip.inum, ip.d, owner);
        disk := disk[ind := SetWord(a, e, addr)];
        owner := owner[addr := Owner(ip.inum, NDIRECT + 1 + e)];
        OkInode(sb, disk, ip.inum, ip.d, owner);
        RoomIs(sb, disk, ip.inum, ip.d, owner);
      }
      OkSlot(sb, disk, ip.inum, ip.d, owner, NDIRECT + 1 + e);
      return Some(addr);
    }

    /** `ip->addrs[k] = balloc()`. */
    method BallocInto(ip: Inode, k: nat) returns (r: Option<nat>)
      requires Ok(ip) && k <= NDIRECT && ip.d.addrs[k] == 0
      modifies this, ip`d
      ensures r.None? <==> old(Room(sb, disk)) == 0
      ensures r.Some? ==>
                && Ok(ip) && 0 < r.value < |disk| && disk[r.value] == ZeroBlock()
                && Room(sb, disk) == old(Room(sb, disk)) - 1
                && ip.d == old(ip.d).(addrs := old(ip.d).addrs[k := r.value])
                && SameFiles(sb, old(disk), old(ip.d), disk, ip.d, ip.inum)
                && KeepsSlots(old(disk), old(ip.d), disk, ip.d) && SlotsBut(old(disk), old(ip.d), disk, ip.d, k)
                && Elsewhere(owner, ip.inum) == Elsewhere(old(owner), ip.inum)
    {
      hide Room, Full;
      NoRoom(sb, disk);
      r := Balloc();
      if r.Some? {
        AttachAddr(sb, old(disk), ip.inum, ip.d, owner, k, r.value);
        GainElsewhere(owner, ip.inum, k, r.value);
        RoomIs(sb, old(disk), ip.inum, ip.d, owner);
        ip.d := ip.d.(addrs := ip.d.addrs[k := r.value]);
        owner := owner[r.value := Owner(ip.inum, k)];
        OkInode(sb, disk, ip.inum, ip.d, owner);
        RoomIs(sb, disk, ip.inum, ip.d, owner);
      }
    }

    method Iupdate(ip: Inode)
      requires Ok(ip)
      modifies this`disk
      ensures Ok(ip) && OnDisk(sb, disk, ip.inum) == ip.d
      ensures Table(sb, disk, ip.inum, ip.d) == old(Table(sb, disk, ip.inum, ip.d))
      ensures SameBytes(old(disk), old(Table(sb, disk, ip.inum, ip.d)), disk, Table(sb, disk, ip.inum, ip.d))
      ensures SameBetween(old(disk), disk, sb.bmapstart, sb.size)
    {
      hide PutInode, GetInode;
      StoreInode(sb, disk, ip.inum, ip.d, owner);
      var b := sb.Iblock(ip.inum);
      disk := disk[b := PutInode(disk[b], ip.inum % IPB, ip.d)];
    }

    /** Frees the blocks in the direct slots. */
    method TruncDirect(ip: Inode)
      requires Ok(ip)
      modifies this, ip`d
      ensures Ok(ip) && owner == Without(old(owner), ip.inum, 0, NDIRECT)
      ensures ip.d == old(ip.d).(addrs := ip.d.addrs) && forall k :: 0 <= k < NDIRECT ==> ip.d.addrs[k] == 0
      ensures OthersSame(sb, old(disk), old(ip.d), disk, ip.d, ip.inum)
    {
      hide FsOk, BitsOk, OthersSame, Without, UnmarkOn;
      OthersRefl(sb, disk, ip.inum, ip.d, owner);
      WithoutNone(owner, ip.inum, 0);
      var i := 0;
      while i < NDIRECT
        invariant i <= NDIRECT && Ok(ip) && owner == Without(old(owner), ip.inum, 0, i)
        invariant ip.d == old(ip.d).(addrs := ip.d.addrs) && forall k :: 0 <= k < i ==> ip.d.addrs[k] == 0
        invariant OthersSame(sb, old(disk), old(ip.d), disk, ip.d, ip.inum)
      {
        WithoutTwice(old(owner), ip.inum, 0, i, i + 1);
        if ip.d.addrs[i] != 0 {
          ghost var d1, x1 := disk, ip.d;
          OkInode(sb, disk, ip.inum, ip.d, owner);
          WithoutNone(owner, ip.inum, i);
          FreeOne(sb, disk, ip.inum, ip.d, owner, i, i, i, i, i + 1, disk);
          var ok := Bfree(ip.d.addrs[i]);
          assert ok;  // no "freeing free block"
          DropAddr(sb, d1, ip.inum, x1, owner, i, i + 1, disk);
          owner := Without(owner, ip.inum, i, i + 1);
          ip.d := ip.d.(addrs := ip.d.addrs[i := 0]);
          OkInode(sb, disk, ip.inum, ip.d, owner);
          OthersTrans(sb, old(disk), old(ip.d), d1, x1, disk, ip.d, ip.inum);
        } else {
          WithoutEmpty(sb, disk, ip.inum, ip.d, owner, i, i + 1);
        }
        i := i + 1;
      }
    }

    /** Frees the blocks the indirect block lists, and that block. */
    method TruncIndirect(ip: Inode)
      requires Ok(ip)
      modifies this, ip`d
      ensures Ok(ip) && owner == Without(old(owner), ip.inum, NDIRECT, SLOTS)
      ensures ip.d == old(ip.d).(addrs := old(ip.d.addrs)[NDIRECT := 0])
      ensures OthersSame(sb, old(disk), old(ip.d), disk, ip.d, ip.inum)
    {
      hide FsOk, BitsOk, OthersSame, Without, UnmarkOn, Word;
      var ind := ip.d.addrs[NDIRECT];
      if ind == 0 {
        OthersRefl(sb, disk, ip.inum, ip.d, owner);
        WithoutEmpty(sb, disk, ip.inum, ip.d, owner, NDIRECT, SLOTS);
        return;
      }
      OkSlot(sb, disk, ip.inum, ip.d, owner, NDIRECT);
      OkInode(sb, disk, ip.inum, ip.d, owner);
      WithoutNone(owner, ip.inum, NDIRECT + 1);
      var a := disk[ind];
      var j := 0;
      while j < NINDIRECT
        invariant j <= NINDIRECT && ip.d == old(ip.d) && owner == old(owner) && BesidesBitmap(sb, old(disk), disk)
        invariant BitsOk(sb, disk, Without(owner, ip.inum, NDIRECT + 1, NDIRECT + 1 + j))
      {
        ghost var k := NDIRECT + 1 + j;
        FreeOne(sb, old(disk), ip.inum, ip.d, owner, k, NDIRECT + 1, k, NDIRECT + 1, k + 1, disk);
        if Word(a, j) != 0 {
          var ok := Bfree(Word(a, j));
          assert ok;
        }
        j := j + 1;
      }
      FreeOne(sb, old(disk), ip.inum, ip.d, owner, NDIRECT, NDIRECT + 1, SLOTS, NDIRECT, SLOTS, disk);
      var ok := Bfree(ind);
      assert ok;
      DropAddr(sb, old(disk), ip.inum, ip.d, owner, NDIRECT, SLOTS, disk);
      owner := Without(owner, ip.inum, NDIRECT, SLOTS);
      ip.d := ip.d.(addrs := ip.d.addrs[NDIRECT := 0]);
      OkInode(sb, disk, ip.inum, ip.d, owner);
    }

    method Itrunc(ip: Inode)
      requires Ok(ip)
      modifies this, ip`d
      ensures Ok(ip) && ip.d == old(ip.d).(size := 0, addrs := NoAddrs())
      ensures owner == Without(old(owner), ip.inum, 0, SLOTS)
      ensures Free(sb, disk) == old(Free(sb, disk)) + BlocksOf(old(owner), ip.inum)
      ensures OnDisk(sb, disk, ip.inum) == ip.d
      ensures Table(sb, disk, ip.inum, ip.d) == old(Table(sb, disk, ip.inum, ip.d))[ip.inum := ip.d]
      ensures OtherBytes(old(disk), old(Table(sb, disk, ip.inum, ip.d)), disk, Table(sb, disk, ip.inum, ip.d), ip.inum)
      ensures old(Compact(ip)) ==> Compact(ip)
    {
      TruncDirect(ip);
      ghost var d1, x1 := disk, ip.d;
      TruncIndirect(ip);
      ghost var d2, x2 := disk, ip.d;
      OthersTrans(sb, old(disk), old(ip.d), d1, x1, d2, x2, ip.inum);
      WithoutTwice(old(owner), ip.inum, 0, NDIRECT, SLOTS);
      hide Without;
      Restat(sb, disk, ip.inum, ip.d, owner, ip.d.(size := 0));
      ip.d := ip.d.(size := 0);
      OkInode(sb, disk, ip.inum, ip.d, owner);
      assert ip.d.addrs == NoAddrs();
      TableSame(sb, old(disk), d2, ip.inum, old(ip.d), ip.d);
      Iupdate(ip);
      hide Table, OnDisk;
      OtherThenSame(old(disk), old(Table(sb, disk, ip.inum, ip.d)), d2, Table(sb, d2, ip.inum, x2),
                    d2, Table(sb, d2, ip.inum, ip.d), ip.inum);
      OtherThenSame(old(disk), old(Table(sb, disk, ip.inum, ip.d)), d2, Table(sb, d2, ip.inum, ip.d),
                    disk, Table(sb, disk, ip.inum, ip.d), ip.inum);
      FreedBlocks(sb, old(disk), old(Table(sb, disk, ip.inum, ip.d)), old(owner),
                  disk, Table(sb, disk, ip.inum, ip.d), ip.inum);
      StaysCompact(ip, old(disk), old(Table(sb, disk, ip.inum, ip.d)), old(owner));
    }

    /** Freeing all blocks of one inode. */
    lemma StaysCompact(ip: Inode, d: Disk, tab: seq<DInode>, own: map<nat, Owner>)
      requires Ok(ip) && Owned(sb, d, tab, own) && owner == Without(own, ip.inum, 0, SLOTS)
      requires Table(sb, disk, ip.inum, ip.d) == tab[ip.inum := ip.d] && ip.d.size == 0 && ip.d.addrs == NoAddrs()
      ensures AllTight(d, tab) ==> Compact(ip)
    {
      LoseElsewhere(own, ip.inum, 0, SLOTS);
      EmptyIsTight(disk, ip.d);
      hide Owned, AllTight, Tight, Without, Elsewhere, Table;
      assert Table(sb, disk, ip.inum, ip.d)[ip.inum] == ip.d;
      AllTightKept(sb, d, tab, own, disk, Table(sb, disk, ip.inum, ip.d), owner, ip.inum);
    }

    /** No inode is held: all are as on disk. */
    ghost predicate Rest()
      reads this
    {
      RestOk(sb, disk, owner)
    }

    /** No inode has a hole, or a block past its end. */
    ghost predicate Compact(ip: Inode)
      reads this, ip
    {
      sb.Valid() && |disk| == sb.size && AllTight(disk, Table(sb, disk, ip.inum, ip.d))
    }

    lemma CompactIsMapped(ip: Inode)
      requires Ok(ip) && Compact(ip)
      ensures Mapped(disk, ip.d, 0, ip.d.size)
    {
      assert Tight(disk, Table(sb, disk, ip.inum, ip.d)[ip.inum]);
      TightIsMapped(disk, ip.d);
    }

    /** ilock's load; false is the panic on a free inode. */
    method Ilock(ip: Inode) returns (ok: bool)
      requires Rest() && ip.inum < sb.ninodes
      modifies ip`d
      ensures Ok(ip) && ip.d == OnDisk(sb, disk, ip.inum) && (ok <==> ip.d.kind != 0)
      ensures Table(sb, disk, ip.inum, ip.d) == Inodes(sb, disk)
    {
      hide GetInode;
      LoadInode(sb, disk, owner, ip.inum);
      IblockInside(sb, ip.inum);
      ip.d := GetInode(disk[sb.Iblock(ip.inum)], ip.inum % IPB);
      OkInode(sb, disk, ip.inum, ip.d, owner);
      return ip.d.kind != 0;
    }

    /** Takes the lowest free inode but number 0, which is never given out; None is the panic. */
    method Ialloc(kind: nat) returns (r: Option<nat>)
      requires Rest() && kind < 0x1_0000
      requires forall i: nat :: i < sb.ninodes && OnDisk(sb, disk, i).kind == 0 ==>
                 OnDisk(sb, disk, i).addrs == NoAddrs()
      modifies this`disk
      ensures Rest()
      ensures r.None? ==> disk == old(disk) && forall i: nat :: 1 <= i < sb.ninodes ==> OnDisk(sb, disk, i).kind != 0
      ensures r.Some? ==>
                && 1 <= r.value < sb.ninodes && old(OnDisk(sb, disk, r.value)).kind == 0
                && (forall i: nat :: 1 <= i < r.value ==> old(OnDisk(sb, disk, i)).kind != 0)
                && Inodes(sb, disk) == old(Inodes(sb, disk))[r.value := Blank(kind)]
                && SameBytes(old(disk), old(Inodes(sb, disk)), disk, Inodes(sb, disk))
    {
      hide GetInode, PutInode, Owned, SizesOk, Inodes;
      var inum := 1;
      while inum < sb.ninodes
        invariant 1 <= inum && disk == old(disk)
        invariant forall i: nat :: 1 <= i < inum && i < sb.ninodes ==> OnDisk(sb, disk, i).kind != 0
      {
        IblockInside(sb, inum);
        var b := sb.Iblock(inum);
        var dip := GetInode(disk[b], inum % IPB);
        if dip.kind == 0 {
          NewInode(sb, disk, owner, inum, kind);
          disk := disk[b := PutInode(disk[b], inum % IPB, Blank(kind))];
          return Some(inum);
        }
        inum := inum + 1;
      }
      return None;
    }

    /** iput; `last` says that no other reference is left.  Without links too, the inode and its blocks become free. */
    method Iput(ip: Inode, last: bool)
      requires Ok(ip)
      modifies this, ip`d
      ensures !(last && old(ip.d).nlink == 0) ==> disk == old(disk) && owner == old(owner) && ip.d == old(ip.d)
      ensures last && old(ip.d).nlink == 0 ==>
                && Ok(ip) && ip.d == old(ip.d).(kind := 0, size := 0, addrs := NoAddrs())
                && owner == Without(old(owner), ip.inum, 0, SLOTS)
                && Free(sb, disk) == old(Free(sb, disk)) + BlocksOf(old(owner), ip.inum)
                && OnDisk(sb, disk, ip.inum) == ip.d
                && Table(sb, disk, ip.inum, ip.d) == old(Table(sb, disk, ip.inum, ip.d))[ip.inum := ip.d]
                && OtherBytes(old(disk), old(Table(sb, disk, ip.inum, ip.d)), disk, Table(sb, disk, ip.inum, ip.d),
                              ip.inum)
      ensures old(Compact(ip)) ==> Compact(ip)
    {
      if !last || ip.d.nlink != 0 {
        return;
      }
      ghost var tab0 := Table(sb, disk, ip.inum, ip.d);
      Itrunc(ip);
      ghost var d1, tab1 := disk, Table(sb, disk, ip.inum, ip.d);
      Restat(sb, disk, ip.inum, ip.d, owner, ip.d.(kind := 0));
      TableSame(sb, disk, disk, ip.inum, ip.d, ip.d.(kind := 0));
      ip.d := ip.d.(kind := 0);
      OkInode(sb, disk, ip.inum, ip.d, owner);
      ghost var tab2 := Table(sb, disk, ip.inum, ip.d);
      hide Table, OnDisk, Without, Free;
      Iupdate(ip);
      OtherThenSame(old(disk), tab0, d1, tab1, d1, tab2, ip.inum);
      OtherThenSame(old(disk), tab0, d1, tab2, disk, tab2, ip.inum);
      FreedBlocks(sb, old(disk), tab0, old(owner), disk, tab2, ip.inum);
      StaysCompact(ip, old(disk), tab0, old(owner));
    }

    /** The loop of readi: `count` bytes from `off` on, block by block. */
    method ReadChunks(ip: Inode, off: nat, count: nat) returns (ok: bool, dst: seq<Byte>)
      requires Ok(ip) && off + count <= ip.d.size
      modifies this, ip`d
      ensures ok <==> old(Room(sb, disk) >= Need(disk, ip.d, off, off + count))
      ensures ok ==>
                && Ok(ip) && ip.d == old(ip.d).(addrs := ip.d.addrs) && |dst| == count
                && (forall q :: 0 <= q < count ==> dst[q] == ByteAt(old(disk), old(ip.d).addrs, off + q))
                && SameFiles(sb, old(disk), old(ip.d), disk, ip.d, ip.inum)
                && FillsRange(sb, old(disk), old(ip.d), disk, ip.d, off, off + count)
                && Elsewhere(owner, ip.inum) == Elsewhere(old(owner), ip.inum)
      ensures Mapped(old(disk), old(ip.d), off, off + count) ==>
                ok && disk == old(disk) && ip.d == old(ip.d) && owner == old(owner)
    {
      hide FsOk, SameFiles, ByteAt, SlotAddr, KeepsSlots, Elsewhere, FillsRange, FillsBlock, Need, Lacks, Room;
      SameFilesRefl(sb, disk, ip.inum, ip.d, owner);
      FillsNothing(sb, disk, ip.d, off);
      dst := [];
      var tot := 0;
      while tot < count
        invariant tot <= count && |dst| == tot && Ok(ip) && (tot == 0 || tot == count || (off + tot) % BSIZE == 0)
        invariant ip.d == old(ip.d).(addrs := ip.d.addrs)
        invariant SameFiles(sb, old(disk), old(ip.d), disk, ip.d, ip.inum)
        invariant FillsRange(sb, old(disk), old(ip.d), disk, ip.d, off, off + tot)
        invariant Elsewhere(owner, ip.inum) == Elsewhere(old(owner), ip.inum)
        invariant forall q :: 0 <= q < tot ==> dst[q] == ByteAt(old(disk), old(ip.d).addrs, off + q)
        invariant Mapped(old(disk), old(ip.d), off, off + count) ==>
                    disk == old(disk) && ip.d == old(ip.d) && owner == old(owner)
      {
        var at := off + tot;
        ghost var d1, x1 := disk, ip.d;
        assert Mapped(old(disk), old(ip.d), off, off + count) ==> MappedAt(disk, ip.d.addrs, at);
        var bp := Bmap(ip, at / BSIZE);
        if bp.None? {
          FallsShort(sb, old(disk), old(ip.d), d1, x1, off, at, off + count);
          return false, [];
        }
        SameFilesTrans(sb, old(disk), old(ip.d), d1, x1, disk, ip.d, ip.inum);
        var m := if count - tot < BSIZE - at % BSIZE then count - tot else BSIZE - at % BSIZE;
        FillsMore(sb, old(disk), old(ip.d), d1, x1, disk, ip.d, off, at, m);
        ChunkRead(disk, ip.d, at, m, bp.value);
        FileBytesSame(sb, old(disk), old(ip.d), disk, ip.d, ip.inum, at, m);
        dst := dst + disk[bp.value][at % BSIZE..at % BSIZE + m];
        tot := tot + m;
      }
      Enough(sb, old(disk), old(ip.d), disk, ip.d, off, off + count);
      ok := true;
    }

    /** `devices[m]` says whether device `m` has a read routine; `off` and `n` are 32-bit. */
    method Readi(ip: Inode, off: nat, n: nat, devices: seq<bool>) returns (r: Outcome, dst: seq<Byte>)
      requires Ok(ip) && off < WORD && n < WORD && |devices| == NDEV
      modifies this, ip`d
      ensures old(ip.d).kind == T_DEV ==>
                && disk == old(disk) && ip.d == old(ip.d) && owner == old(owner)
                && r == if ip.d.major < NDEV && devices[ip.d.major] then Device(ip.d.major) else Failed
      ensures old(ip.d).kind != T_DEV && (off > old(ip.d).size || off + n >= WORD) ==>
                disk == old(disk) && ip.d == old(ip.d) && owner == old(owner) && r == Failed
      ensures old(ip.d).kind != T_DEV && !(off > old(ip.d).size || off + n >= WORD) ==>
                var count := if off + n > old(ip.d).size then old(ip.d).size - off else n;
                r == if old(Room(sb, disk)) < Need(old(disk), old(ip.d), off, off + count) then Panic else Count(count)
      ensures old(Compact(ip)) ==> r != Panic && disk == old(disk) && ip.d == old(ip.d) && owner == old(owner)
      ensures r.Count? ==>
                && Ok(ip) && off + r.n <= old(ip.d).size && ip.d == old(ip.d).(addrs := ip.d.addrs)
                && dst == old(File(ip))[off..off + r.n]
                && SameFiles(sb, old(disk), old(ip.d), disk, ip.d, ip.inum)
                && Elsewhere(owner, ip.inum) == Elsewhere(old(owner), ip.inum)
                && (Mapped(old(disk), old(ip.d), off, off + r.n) ==>
                      disk == old(disk) && ip.d == old(ip.d) && owner == old(owner))
    {
      hide FsOk, SameFiles, ByteAt, SlotAddr, MappedAt, Elsewhere, Tight, FillsRange, Need, Room;
      dst := [];
      if Compact(ip) {
        CompactIsMapped(ip);
      }
      if ip.d.kind == T_DEV {
        if ip.d.major >= NDEV || !devices[ip.d.major] {
          return Failed, [];
        }
        return Device(ip.d.major), [];
      }
      if off > ip.d.size || (off + n) % WORD < off {
        return Failed, [];
      }
      var count := if off + n > ip.d.size then ip.d.size - off else n;
      var ok;
      ok, dst := ReadChunks(ip, off, count);
      if !ok {
        return Panic, [];
      }
      return Count(count), dst;
    }

    /** The contents of the locked inode. */
    ghost function File(ip: Inode): (c: seq<Byte>)
      requires Ok(ip)
      reads this, ip
      ensures |c| == ip.d.size && forall p :: 0 <= p < |c| ==> c[p] == ByteAt(disk, ip.d.addrs, p)
    {
      ContentsOf(sb, disk, ip.inum, ip.d, owner);
      Contents(disk, Table(sb, disk, ip.inum, ip.d), ip.inum)
    }

    /** One pass of writei's loop, after `s` has been written from `off` on. */
    method WriteChunk(ip: Inode, ghost d0: Disk, ghost x0: DInode, off: nat, ghost s: seq<Byte>, at: nat,
                      chunk: seq<Byte>)
      returns (ok: bool)
      requires Ok(ip) && sb.Valid() && |d0| == sb.size && at == off + |s| && InodeOk(d0, x0)
      requires Wrote(d0, Table(sb, d0, ip.inum, x0), disk, Table(sb, disk, ip.inum, ip.d), ip.inum, off, s)
      requires 0 < |chunk| <= BSIZE - at % BSIZE && at + |chunk| <= MAXBYTES
      modifies this, ip`d
      ensures ok <==> old(Room(sb, disk) >= Lacks(disk, ip.d, at / BSIZE))
      ensures ok ==>
                && Ok(ip) && ip.d == old(ip.d).(addrs := ip.d.addrs)
                && Wrote(d0, Table(sb, d0, ip.inum, x0), disk, Table(sb, disk, ip.inum, ip.d), ip.inum, off, s + chunk)
                && SameBetween(old(disk), disk, 0, sb.bmapstart)
                && Elsewhere(owner, ip.inum) == Elsewhere(old(owner), ip.inum)
                && FillsBlock(sb, old(disk), old(ip.d), disk, ip.d, at / BSIZE)
      ensures old(MappedAt(disk, ip.d.addrs, at)) ==> ok && owner == old(owner) && ip.d == old(ip.d)
    {
      hide Wrote, SlotAddr, FillsBlock, Elsewhere, Room;
      ghost var tab0, tab := Table(sb, d0, ip.inum, x0), Table(sb, disk, ip.inum, ip.d);
      var bp := Bmap(ip, at / BSIZE);
      if bp.None? {
        return false;
      }
      ghost var d1, tab1 := disk, Table(sb, disk, ip.inum, ip.d);
      WroteThenSame(d0, tab0, old(disk), tab, d1, tab1, ip.inum, off, s);
      WroteChunk(sb, d0, tab0, d1, tab1, owner, ip.inum, off, s, chunk);
      disk := disk[bp.value := Patched(disk[bp.value], at % BSIZE, chunk)];
      hide Table, Owned, SameSlots;
      DataWritten(sb, d1, ip.inum, ip.d, owner, disk, at / BSIZE);
      FillsThenSame(sb, old(disk), old(ip.d), d1, disk, ip.d, at / BSIZE);
      ok := true;
    }

    /** The loop of writei: all of `src`, from `off` on. */
    method WriteChunks(ip: Inode, src: seq<Byte>, off: nat) returns (ok: bool)
      requires Ok(ip) && off + |src| <= MAXBYTES
      modifies this, ip`d
      ensures ok <==> old(Room(sb, disk) >= Need(disk, ip.d, off, off + |src|))
      ensures ok ==>
                && Ok(ip) && ip.d == old(ip.d).(addrs := ip.d.addrs)
                && Wrote(old(disk), old(Table(sb, disk, ip.inum, ip.d)), disk, Table(sb, disk, ip.inum, ip.d),
                         ip.inum, off, src)
                && SameBetween(old(disk), disk, 0, sb.bmapstart)
                && Elsewhere(owner, ip.inum) == Elsewhere(old(owner), ip.inum)
                && FillsRange(sb, old(disk), old(ip.d), disk, ip.d, off, off + |src|)
      ensures Mapped(old(disk), old(ip.d), off, off + |src|) ==> ok && owner == old(owner) && ip.d == old(ip.d)
    {
      hide FsOk, Wrote, SlotAddr, KeepsSlots, Table, Mapped, MappedAt, FillsRange, FillsBlock, Need, Lacks, Room,
           Elsewhere;
      Untouched(sb, disk, ip.inum, ip.d, owner, off);
      FillsNothing(sb, disk, ip.d, off);
      var tot := 0;
      while tot < |src|
        invariant tot <= |src| && Ok(ip) && (tot == 0 || tot == |src| || (off + tot) % BSIZE == 0)
        invariant ip.d == old(ip.d).(addrs := ip.d.addrs)
        invariant Wrote(old(disk), old(Table(sb, disk, ip.inum, ip.d)), disk, Table(sb, disk, ip.inum, ip.d),
                        ip.inum, off, src[..tot])
        invariant SameBetween(old(disk), disk, 0, sb.bmapstart)
        invariant Elsewhere(owner, ip.inum) == Elsewhere(old(owner), ip.inum)
        invariant FillsRange(sb, old(disk), old(ip.d), disk, ip.d, off, off + tot)
        invariant Mapped(old(disk), old(ip.d), off, off + |src|) ==> owner == old(owner) && ip.d == old(ip.d)
      {
        var at := off + tot;
        var m := if |src| - tot < BSIZE - at % BSIZE then |src| - tot else BSIZE - at % BSIZE;
        ghost var d1, x1 := disk, ip.d;
        StillMapped(sb, old(disk), old(ip.d), d1, x1, off, at, off + |src|);
        ok := WriteChunk(ip, old(disk), old(ip.d), off, src[..tot], at, src[tot..tot + m]);
        if !ok {
          FallsShort(sb, old(disk), old(ip.d), d1, x1, off, at, off + |src|);
          return;
        }
        assert src[..tot] + src[tot..tot + m] == src[..tot + m];
        FillsMore(sb, old(disk), old(ip.d), d1, x1, disk, ip.d, off, at, m);
        tot := tot + m;
      }
      assert src[..tot] == src;
      Enough(sb, old(disk), old(ip.d), disk, ip.d, off, off + |src|);
      ok := true;
    }

    /** `src` is the caller's buffer, `off` a 32-bit offset. */
    method Writei(ip: Inode, src: seq<Byte>, off: nat, devices: seq<bool>) returns (r: Outcome)
      requires Ok(ip) && off < WORD && |src| < WORD && |devices| == NDEV
      modifies this, ip`d
      ensures old(ip.d).kind == T_DEV ==>
                && disk == old(disk) && ip.d == old(ip.d) && owner == old(owner)
                && r == if ip.d.major < NDEV && devices[ip.d.major] then Device(ip.d.major) else Failed
      ensures old(ip.d).kind != T_DEV && (off > old(ip.d).size || off + |src| > MAXBYTES) ==>
                disk == old(disk) && ip.d == old(ip.d) && owner == old(owner) && r == Failed
      ensures old(ip.d).kind != T_DEV && !(off > old(ip.d).size || off + |src| > MAXBYTES) ==>
                r == if old(Room(sb, disk)) < Need(old(disk), old(ip.d), off, off + |src|) then Panic else Count(|src|)
      ensures r.Count? ==>
                && Ok(ip) && off <= old(ip.d).size && off + |src| <= MAXBYTES
                && Room(sb, disk) == old(Room(sb, disk) - Need(disk, ip.d, off, off + |src|))
                && File(ip) == Splice(old(File(ip)), off, src)
                && OtherBytes(old(disk), old(Table(sb, disk, ip.inum, ip.d)), disk, Table(sb, disk, ip.inum, ip.d),
                              ip.inum)
                && Table(sb, disk, ip.inum, ip.d) == old(Table(sb, disk, ip.inum, ip.d))[ip.inum := ip.d]
                && ip.d == old(ip.d).(size := ip.d.size, addrs := ip.d.addrs)
                && Elsewhere(owner, ip.inum) == Elsewhere(old(owner), ip.inum)
                && (Mapped(old(disk), old(ip.d), 0, old(ip.d).size) ==> Mapped(disk, ip.d, 0, ip.d.size))
                && (Tight(old(disk), old(ip.d)) ==> Tight(disk, ip.d))
                && (Mapped(old(disk), old(ip.d), off, off + |src|) ==>
                      owner == old(owner) && ip.d.addrs == old(ip.d.addrs))
      ensures r.Count? && off + |src| <= old(ip.d).size ==> OnDisk(sb, disk, ip.inum) == old(OnDisk(sb, disk, ip.inum))
      ensures r.Count? && old(OnDisk(sb, disk, ip.inum)) == old(ip.d) ==>
                (OnDisk(sb, disk, ip.inum) == ip.d <==>
                  off + |src| > old(ip.d).size || Anchored(old(ip.d).addrs, off, off + |src|))
      ensures r.Count? && old(OnDisk(sb, disk, ip.inum)) == old(ip.d) && Tight(old(disk), old(ip.d)) ==>
                OnDisk(sb, disk, ip.inum) == ip.d
      ensures r != Panic && old(Compact(ip)) ==> Compact(ip)
    {
      hide FsOk, Wrote, SlotAddr, KeepsSlots, Table, AnchoredAt, Mapped, Anchored, MappedAt, OnDisk, OtherBytes, Splice,
           Tight, NewBelow, Elsewhere, AllTight, Room, Need;
      if ip.d.kind == T_DEV {
        if ip.d.major >= NDEV || !devices[ip.d.major] {
          return Failed;
        }
        return Device(ip.d.major);
      }
      if off > ip.d.size || (off + |src|) % WORD < off {
        return Failed;
      }
      if off + |src| > MAXFILE * BSIZE {
        return Failed;
      }
      var ok := WriteChunks(ip, src, off);
      if !ok {
        return Panic;
      }
      ghost var tab0, d1, x1 := old(Table(sb, disk, ip.inum, ip.d)), disk, ip.d;
      ghost var tab1 := Table(sb, d1, ip.inum, x1);
      OnDiskSame(sb, old(disk), disk, ip.inum);
      TableSame(sb, old(disk), disk, ip.inum, old(ip.d), ip.d);
      RoomIs(sb, disk, ip.inum, ip.d, owner);
      if |src| > 0 && off + |src| > ip.d.size {
        SetSize(ip, off + |src|);
        WroteThenSame(old(disk), tab0, d1, tab1, disk, Table(sb, disk, ip.inum, ip.d), ip.inum, off, src);
        KeepsTrans(old(disk), old(ip.d), d1, x1, disk, ip.d);
        MappedKept(d1, x1, disk, ip.d, off, off + |src|);
        SlotsSameNew(old(disk), old(ip.d), d1, x1, disk, ip.d, off + |src|);
      }
      RoomIs(sb, disk, ip.inum, ip.d, owner);
      ghost var tab2 := Table(sb, disk, ip.inum, ip.d);
      ContentsOf(sb, disk, ip.inum, ip.d, owner);
      ContentsSpliced(old(disk), tab0, disk, tab2, ip.inum, off, src);
      WroteOthers(old(disk), tab0, disk, tab2, ip.inum, off, src);
      MappedJoin(old(disk), old(ip.d), disk, ip.d, off, off + |src|);
      TightJoin(old(disk), old(ip.d), disk, ip.d, off, off + |src|);
      AllTightHeld(sb, old(disk), old(ip.d), old(owner), disk, ip.d, owner, ip.inum);
      return Count(|src|);
    }

    /** The new size, written back. */
    method SetSize(ip: Inode, size: nat)
      requires Ok(ip) && size <= MAXBYTES
      modifies this`disk, ip`d
      ensures Ok(ip) && ip.d == old(ip.d).(size := size) && OnDisk(sb, disk, ip.inum) == ip.d
      ensures Table(sb, disk, ip.inum, ip.d) == old(Table(sb, disk, ip.inum, ip.d))[ip.inum := ip.d]
      ensures SameBytes(old(disk), old(Table(sb, disk, ip.inum, ip.d)), disk, Table(sb, disk, ip.inum, ip.d))
      ensures KeepsSlots(old(disk), old(ip.d), disk, ip.d) && SlotsBut(old(disk), old(ip.d), disk, ip.d, SLOTS)
    {
      ghost var tab := Table(sb, disk, ip.inum, ip.d);
      Restat(sb, disk, ip.inum, ip.d, owner, ip.d.(size := size));
      TableSame(sb, disk, disk, ip.inum, ip.d, ip.d.(size := size));
      if ip.d.addrs[NDIRECT] != 0 {
        OkSlot(sb, disk, ip.inum, ip.d, owner, NDIRECT);
      }
      ip.d := ip.d.(size := size);
      OkInode(sb, disk, ip.inum, ip.d, owner);
      ghost var tab1 := Table(sb, disk, ip.inum, ip.d);
      hide FsOk, Table, OnDisk, TableOk, Word, FileByte;
      Iupdate(ip);
      SameBytesTrans(old(disk), tab, old(disk), tab1, disk, tab1);
    }
  }

  lemma WroteOthers(d: Disk, tab: seq<DInode>, d': Disk, tab': seq<DInode>, i: nat, off: nat, s: seq<Byte>)
    requires Wrote(d, tab, d', tab', i, off, s)
    ensures OtherBytes(d, tab, d', tab', i)
  {
    hide TableOk, FileByte;
  }

  /** A file without holes has none after a write that starts at or before its end. */
  lemma MappedJoin(d: Disk, x: DInode, d': Disk, x': DInode, lo: nat, hi: nat)
    requires KeepsSlots(d, x, d', x') && lo <= x.size <= MAXBYTES && hi <= MAXBYTES && Mapped(d', x', lo, hi)
    requires x'.size <= MAXBYTES && x'.size == if hi > x.size then hi else x.size
    ensures Mapped(d, x, 0, x.size) ==> Mapped(d', x', 0, x'.size)
  {
    hide MappedAt;
    if Mapped(d, x, 0, x.size) {
      MappedKept(d, x, d', x', 0, x.size);
    }
  }

  lemma SlotsSameNew(d: Disk, x: DInode, d1: Disk, x1: DInode, d2: Disk, x2: DInode, hi: nat)
    requires NewBelow(d, x, d1, x1, hi) && SlotsBut(d1, x1, d2, x2, SLOTS)
    ensures NewBelow(d, x, d2, x2, hi)
  {
    forall p | 0 <= p < MAXBYTES && MappedAt(d2, x2.addrs, p)
      ensures MappedAt(d, x.addrs, p) || p / BSIZE * BSIZE < hi
    {
      var k := FileSlot(p / BSIZE);
      assert SlotAddr(d2, x2.addrs, k) == SlotAddr(d1, x1.addrs, k);
      assert MappedAt(d1, x1.addrs, p);
    }
    assert SlotAddr(d2, x2.addrs, NDIRECT) == SlotAddr(d1, x1.addrs, NDIRECT);
  }

  lemma TightJoin(d: Disk, x: DInode, d': Disk, x': DInode, lo: nat, hi: nat)
    requires NewBelow(d, x, d', x', hi) && lo <= hi <= MAXBYTES && x.size <= MAXBYTES && x'.size <= MAXBYTES
    requires Mapped(d, x, 0, x.size) ==> Mapped(d', x', 0, x'.size)
    requires x'.size == if hi > x.size then hi else x.size
    ensures Tight(d, x) ==> Tight(d', x')
    ensures Tight(d, x) && hi <= x.size ==> Mapped(d, x, lo, hi)
  {
    hide MappedAt, NewBelow;
    if Tight(d, x) {
      TightIsMapped(d, x);
      TightKept(d, x, d', x', hi);
    }
  }

  lemma AllTightHeld(sb: Superblock, d: Disk, x: DInode, owner: map<nat, Owner>,
                     d': Disk, x': DInode, owner': map<nat, Owner>, inum: nat)
    requires FsOk(sb, d, inum, x, owner) && FsOk(sb, d', inum, x', owner')
    requires Elsewhere(owner', inum) == Elsewhere(owner, inum)
    requires Table(sb, d', inum, x') == Table(sb, d, inum, x)[inum := x'] && (Tight(d, x) ==> Tight(d', x'))
    ensures AllTight(d, Table(sb, d, inum, x)) ==> AllTight(d', Table(sb, d', inum, x'))
  {
    hide Owned, Tight, Elsewhere;
    var tab, tab' := Table(sb, d, inum, x), Table(sb, d', inum, x');
    assert tab[inum] == x && tab'[inum] == x';
    hide Table;
    AllTightKept(sb, d, tab, owner, d', tab', owner', inum);
  }

  lemma Untouched(sb: Superblock, d: Disk, inum: nat, x: DInode, owner: map<nat, Owner>, off: nat)
    requires FsOk(sb, d, inum, x, owner) && InodeOk(d, x) && off <= MAXBYTES
    ensures Wrote(d, Table(sb, d, inum, x), d, Table(sb, d, inum, x), inum, off, [])
  {
    hide FileByte, Table;
  }

  lemma StillMapped(sb: Superblock, d: Disk, x: DInode, d': Disk, x': DInode, lo: nat, p: nat, hi: nat)
    requires FillsRange(sb, d, x, d', x', lo, p) && p < hi <= MAXBYTES
    ensures Mapped(d, x, lo, hi) ==> MappedAt(d', x'.addrs, p)
  {
    if Mapped(d, x, lo, hi) {
      MappedKept(d, x, d', x', lo, hi);
    }
  }

  lemma DataWritten(sb: Superblock, d: Disk, inum: nat, x: DInode, owner: map<nat, Owner>, d': Disk, bn: nat)
    requires FsOk(sb, d, inum, x, owner) && InodeOk(d, x) && SameBetween(d, d', 0, sb.bmapstart) && |d'| == sb.size
    requires Owned(sb, d', Table(sb, d, inum, x), owner)
    requires SameSlots(d, Table(sb, d, inum, x), d', Table(sb, d, inum, x))
    ensures Table(sb, d', inum, x) == Table(sb, d, inum, x) && FsOk(sb, d', inum, x, owner)
            && Room(sb, d') == Room(sb, d)
    ensures KeepsSlots(d, x, d', x) && NewFor(d, x, d', x, bn)
  {
    TableSame(sb, d, d', inum, x, x);
    var tab := Table(sb, d, inum, x);
    assert Table(sb, d', inum, x) == tab && tab[inum] == x;
    hide Owned, Table, Room, OnDisk;
    RoomIs(sb, d, inum, x, owner);
    RoomIs(sb, d', inum, x, owner);
    SlotsKeptIfSame(d, d', tab, inum);
  }

  lemma FillsThenSame(sb: Superblock, d: Disk, x: DInode, d1: Disk, d2: Disk, x1: DInode, bn: nat)
    requires FillsBlock(sb, d, x, d1, x1, bn) && |d2| == sb.size && Room(sb, d2) == Room(sb, d1)
    requires KeepsSlots(d1, x1, d2, x1) && NewFor(d1, x1, d2, x1, bn)
    ensures FillsBlock(sb, d, x, d2, x1, bn)
  {
    hide SlotAddr, AnchoredAt, Lacks, Room;
    KeepsTrans(d, x, d1, x1, d2, x1);
    NewTwice(d, x, d1, x1, d2, x1, bn);
  }

  lemma OnDiskSame(sb: Superblock, d: Disk, d': Disk, i: nat)
    requires sb.Valid() && i < sb.ninodes && SameBetween(d, d', 0, sb.bmapstart) && |d| == sb.size
    ensures OnDisk(sb, d', i) == OnDisk(sb, d, i)
  {
  }

  lemma SlotsKeptIfSame(d: Disk, d': Disk, tab: seq<DInode>, i: nat)
    requires SameSlots(d, tab, d', tab) && i < |tab|
    ensures KeepsSlots(d, tab[i], d', tab[i]) && forall bn :: NewFor(d, tab[i], d', tab[i], bn)
    ensures forall k :: 0 <= k < SLOTS ==> SlotAddr(d', tab[i].addrs, k) == SlotAddr(d, tab[i].addrs, k)
  {
    assert InodeOk(d, tab[i]) && InodeOk(d', tab[i]);
    forall k | 0 <= k < SLOTS ensures SlotAddr(d', tab[i].addrs, k) == SlotAddr(d, tab[i].addrs, k) {
      assert Slot(d', tab, i, k) == Slot(d, tab, i, k);
    }
  }

  lemma FileBytesSame(sb: Superblock, d: Disk, x: DInode, d': Disk, x': DInode, inum: nat, at: nat, m: nat)
    requires SameFiles(sb, d, x, d', x', inum) && inum < sb.ninodes && InodeOk(d, x) && InodeOk(d', x')
             && at + m <= MAXBYTES
    ensures forall p :: at <= p < at + m ==> ByteAt(d', x'.addrs, p) == ByteAt(d, x.addrs, p)
  {
    hide ByteAt;
    forall p | at <= p < at + m ensures ByteAt(d', x'.addrs, p) == ByteAt(d, x.addrs, p) {
      assert FileByte(d', Table(sb, d', inum, x'), inum, p) == FileByte(d, Table(sb, d, inum, x), inum, p);
    }
  }

  lemma OtherThenSame(d: Disk, tab: seq<DInode>, d1: Disk, tab1: seq<DInode>, d2: Disk, tab2: seq<DInode>, i: nat)
    requires OtherBytes(d, tab, d1, tab1, i) && SameBytes(d1, tab1, d2, tab2)
    ensures OtherBytes(d, tab, d2, tab2, i)
  {
    hide TableOk, FileByte;
  }

  /** With an inode's slots empty, its blocks are what has become free. */
  lemma FreedBlocks(sb: Superblock, d: Disk, tab: seq<DInode>, owner: map<nat, Owner>, d': Disk, tab': seq<DInode>,
                    i: nat)
    requires Owned(sb, d, tab, owner) && Owned(sb, d', tab', Without(owner, i, 0, SLOTS))
    ensures Free(sb, d') == Free(sb, d) + BlocksOf(owner, i)
  {
    FreeIs(sb, d, tab, owner);
    FreeIs(sb, d', tab', Without(owner, i, 0, SLOTS));
    forall c | c in owner ensures owner[c].slot < SLOTS {
      assert OwnerAt(sb, d, tab, owner, c);
    }
    hide Owned, Free;
    forall b: nat ensures b in Free(sb, d') <==> b in Free(sb, d) + BlocksOf(owner, i) {
      assert b in Without(owner, i, 0, SLOTS) <==> b in owner && b !in BlocksOf(owner, i);
    }
  }

  lemma SameFilesRefl(sb: Superblock, d: Disk, inum: nat, x: DInode, owner: map<nat, Owner>)
    requires FsOk(sb, d, inum, x, owner)
    ensures SameFiles(sb, d, x, d, x, inum)
  {
    hide Table, TableOk;
  }

  lemma SameFilesTrans(sb: Superblock, d: Disk, x: DInode, d1: Disk, x1: DInode, d2: Disk, x2: DInode, inum: nat)
    requires SameFiles(sb, d, x, d1, x1, inum) && SameFiles(sb, d1, x1, d2, x2, inum)
    ensures SameFiles(sb, d, x, d2, x2, inum)
  {
  }

  // ---- A file with a hole ----

  /** A one-inode file system whose file has size 512 and no block: what rounding up a directory's size leaves. */
  const HOLE_SB := Superblock(8, 1, 1, 3, 5)

  function Hole(): (x: DInode)
    ensures x.Fits() && x.addrs == NoAddrs() && x.size == 512 && x.kind == 1
  {
    DInode(1, 0, 0, 1, 512, NoAddrs())
  }

  function HoleInodes(): Block {
    PutInode(ZeroBlock(), 0, Hole())
  }

  function HoleBitmap(): Block {
    ZeroBlock()[0 := 31]
  }

  function HoleDisk(): Disk {
    var z := ZeroBlock();
    [z, HoleInodes(), z, HoleBitmap(), z, z, z, z]
  }

  /** A write into the hole enters a block in the inode without the size growing: memory has the byte, but the inode on
      disk still has no block, while the bitmap says that the block is taken. */
  method WriteIntoHole() returns (fs: Files, ip: Inode)
    ensures fs.Ok(ip) && |fs.File(ip)| == 512 && fs.File(ip)[0] == 7
    ensures OnDisk(fs.sb, fs.disk, ip.inum) == Hole() && Hole().addrs == NoAddrs()
    ensures ip.d.addrs[0] != 0 && fs.sb.Bblock(ip.d.addrs[0]) < |fs.disk| && Used(fs.sb, fs.disk, ip.d.addrs[0])
  {
    HoleIsOk();
    hide HoleDisk, RestOk, FsOk, OnDisk, Table, AllTight, Need, Room, Tight, Mapped, OtherBytes, Elsewhere, Anchored;
    fs := new Files(HOLE_SB, HoleDisk(), map[]);
    ip := new Inode(0, Blank(0));
    var ok := fs.Ilock(ip);
    ghost var c := fs.File(ip);
    var r := fs.Writei(ip, [7], 0, seq(NDEV, _ => false));
    SpliceBack(c, 0, [7]);
    assert fs.File(ip)[0..1][0] == 7;
    InUse(fs.sb, fs.disk, 0, ip.d, fs.owner, 0);
  }

  lemma InUse(sb: Superblock, d: Disk, inum: nat, x: DInode, owner: map<nat, Owner>, k: nat)
    requires FsOk(sb, d, inum, x, owner) && InodeOk(d, x) && k < SLOTS && SlotAddr(d, x.addrs, k) != 0
    ensures var a := SlotAddr(d, x.addrs, k); sb.Bblock(a) < |d| && Used(sb, d, a)
  {
    var a := SlotAddr(d, x.addrs, k);
    SlotInData(sb, d, Table(sb, d, inum, x), owner, inum, k);
    BblockInside(sb, a);
    assert BitAt(sb, d, owner, a);
  }

  lemma HoleIsOk()
    ensures RestOk(HOLE_SB, HoleDisk(), map[]) && OnDisk(HOLE_SB, HoleDisk(), 0) == Hole()
            && InodeOk(HoleDisk(), Hole())
    ensures Room(HOLE_SB, HoleDisk()) >= Need(HoleDisk(), Hole(), 0, 1)
    ensures !Anchored(Hole().addrs, 0, 1)
  {
    hide PutInode, GetInode;
    var d := HoleDisk();
    InodeRoundTrip(ZeroBlock(), 0, Hole(), 0);
    assert Inodes(HOLE_SB, d) == [Hole()];
    assert Pow2(2) == 4 && Pow2(5) == 32;
    forall b: nat | b < 8 ensures Used(HOLE_SB, d, b) <==> b < 5 {
      assert HOLE_SB.Bblock(b) == 3 && d[3][0] == 31;
      OnesBelow(5, b);
    }
    assert BitsOk(HOLE_SB, d, map[]);
    assert IsFree(HOLE_SB, d, 5) && 5 in Free(HOLE_SB, d);
    assert !AnchoredAt(Hole().addrs, 0 / BSIZE);
    assert Holes(d, Hole(), 0, 0) == 0;
  }
}
