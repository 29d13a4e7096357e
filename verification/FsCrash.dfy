/** The file system on top of the log: a crash leaves it consistent.

    mkfs puts the log between the superblock and the inodes. */
module FsCrash {
  import opened Bytes
  import opened FsLayout
  import opened FsOwnership
  import opened FsFile
  import opened FsInode
  import opened FsContents
  import opened FsSession
  import opened Redo
  import opened GroupCommit

  /** Every block of every inode its own, the bitmap right, no holes: what calls start from and leave. */
  ghost predicate Consistent(sb: Superblock, d: seq<Block>) {
    exists owner :: QuietAt(sb, d, owner)
  }

  /** The log is no part of the file system. */
  lemma OutsideLog(g: Geometry, sb: Superblock, d: seq<Block>, d': seq<Block>)
    requires g.start + g.size <= sb.inodestart && g.blocks == sb.size
    requires SameHome(g, d, d') && Consistent(sb, d)
    ensures Consistent(sb, d')
  {
    var owner :| QuietAt(sb, d, owner);
    assert SameBetween(d, d', sb.inodestart, sb.size);
    QuietFrame(sb, d, owner, d');
  }

  lemma QuietFrame(sb: Superblock, d: seq<Block>, owner: map<nat, Owner>, d': seq<Block>)
    requires QuietAt(sb, d, owner) && SameBetween(d, d', sb.inodestart, sb.size)
    ensures QuietAt(sb, d', owner) && SystemAt(sb, d', owner) == SystemAt(sb, d, owner)
  {
    var tab := Inodes(sb, d);
    hide GetInode;
    forall i: nat | i < sb.ninodes ensures OnDisk(sb, d', i) == OnDisk(sb, d, i) {
      IblockInside(sb, i);
    }
    assert Inodes(sb, d') == tab;
    DataUntouched(sb, d, tab, owner, d');
    hide Owned, AllTight, OnDisk, Inodes, SizesOk, TableOk, FileByte;
    AllTightSame(sb, d, tab, owner, d', tab);
    SameRoom(sb, d, owner, d');
    SameViews(d, tab, d');
  }

  lemma SameViews(d: seq<Block>, tab: seq<DInode>, d': seq<Block>)
    requires SameBytes(d, tab, d', tab) && SizesOk(tab)
    ensures Views(d', tab) == Views(d, tab)
  {
    forall i | 0 <= i < |tab| ensures ViewOf(d', tab, i) == ViewOf(d, tab, i) {
      ContentsSame(d, tab, d', tab, i);
    }
  }

  /** If each committed batch takes a consistent file system to a consistent one, then in every run of operations,
      commits, crashes and recoveries, a crash now and a recovery would leave a consistent file system. */
  lemma CrashLeavesFiles(g: Geometry, d: seq<Block>, es: seq<Event>, sb: Superblock)
    requires g.start + g.size <= sb.inodestart && g.blocks == sb.size
    requires DiskOk(g, d) && g.size > LOGSIZE && Consistent(sb, Recovered(g, d))
    requires EachKeeps(x => Consistent(sb, x), Recovered(g, d), Run(g, d, es).batches)
    ensures var s := Run(g, d, es); DiskOk(g, s.disk) && Consistent(sb, Recovered(g, s.disk))
  {
    forall a, b | SameHome(g, a, b) && Consistent(sb, a) ensures Consistent(sb, b) {
      OutsideLog(g, sb, a, b);
    }
    CrashKeepsProperty(g, d, es, x => Consistent(sb, x));
  }
}
