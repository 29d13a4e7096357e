/** Any sequence of calls on any inodes, against files that are just byte sequences.

    Every call loads its inode from the disk and drops it again, so what one call leaves for the next is the disk
    alone: a call whose inode were not written back would be forgotten. */
module FsSession {
  import opened Bytes
  import opened FsLayout
  import opened FsOwnership
  import opened FsFile
  import opened FsInode
  import opened FsContents
  import opened FileSystem
  import opened Wrappers

  /** A file as its users see it; kind 0 is a free inode. */
  datatype View = View(kind: nat, major: nat, minor: nat, nlink: nat, contents: seq<Byte>)

  /** All files, and the number of blocks there are for more. */
  datatype System = System(files: seq<View>, room: nat)

  /** ialloc; a new link count, written back; readi; writei; and iput of the last reference. */
  datatype Call =
    | Create(kind: nat)
    | Links(inum: nat, nlink: nat)
    | Read(inum: nat, off: nat, n: nat)
    | Write(inum: nat, off: nat, src: seq<Byte>)
    | Drop(inum: nat)

  datatype Reply = Made(inum: nat) | Data(bytes: seq<Byte>) | Done | Error | ToDevice(major: nat)

  // ---- What the calls mean ----

  /** Arguments are C integers, inode numbers those of the disk. */
  predicate CallOk(c: Call, ninodes: nat) {
    match c
    case Create(kind) => kind < 0x1_0000
    case Links(inum, nlink) => inum < ninodes && nlink < 0x1_0000
    case Read(inum, off, n) => inum < ninodes && off < WORD && n < WORD
    case Write(inum, off, src) => inum < ninodes && off < WORD && |src| < WORD
    case Drop(inum) => inum < ninodes
  }

  function FirstFree(files: seq<View>, i: nat): (r: nat)
    ensures i <= r && (r < |files| ==> files[r].kind == 0)
    ensures forall j :: i <= j < r && j < |files| ==> files[j].kind != 0
    decreases |files| - i
  {
    if i >= |files| || files[i].kind == 0 then i else FirstFree(files, i + 1)
  }

  predicate ReadFits(f: View, off: nat, n: nat) {
    off <= |f.contents| && off + n < WORD
  }

  predicate WriteFits(f: View, off: nat, src: seq<Byte>) {
    f.kind != T_DEV && off <= |f.contents| && off + |src| <= MAXBYTES
  }

  /** Blocks a write adds. */
  function Growth(f: View, off: nat, src: seq<Byte>): int {
    if WriteFits(f, off, src) then BlocksFor(|Splice(f.contents, off, src)|) - BlocksFor(|f.contents|) else 0
  }

  /** The panics: no inode left, a free inode locked, no block left. */
  predicate Panics(s: System, c: Call)
    requires CallOk(c, |s.files|)
  {
    match c
    case Create(_) => FirstFree(s.files, 1) >= |s.files|
    case Write(i, off, src) => s.files[i].kind == 0 || s.room < Growth(s.files[i], off, src)
    case _ => s.files[c.inum].kind == 0
  }

  function After(s: System, c: Call): System
    requires CallOk(c, |s.files|) && !Panics(s, c)
  {
    match c
    case Create(kind) => s.(files := s.files[FirstFree(s.files, 1) := View(kind, 0, 0, 0, [])])
    case Links(i, nlink) => s.(files := s.files[i := s.files[i].(nlink := nlink)])
    case Read(_, _, _) => s
    case Write(i, off, src) =>
      var f := s.files[i];
      if !WriteFits(f, off, src) then s
      else System(s.files[i := f.(contents := Splice(f.contents, off, src))], s.room - Growth(f, off, src))
    case Drop(i) =>
      var f := s.files[i];
      if f.nlink != 0 then s
      else System(s.files[i := f.(kind := 0, contents := [])], s.room + BlocksFor(|f.contents|))
  }

  function Answer(s: System, c: Call, devices: seq<bool>): Reply
    requires CallOk(c, |s.files|) && !Panics(s, c) && |devices| == NDEV
  {
    match c
    case Create(_) => Made(FirstFree(s.files, 1))
    case Links(_, _) => Done
    case Read(i, off, n) =>
      var f := s.files[i];
      if f.kind == T_DEV then DeviceReply(f.major, devices)
      else if !ReadFits(f, off, n) then Error
      else Data(f.contents[off..if off + n > |f.contents| then |f.contents| else off + n])
    case Write(i, off, src) =>
      if s.files[i].kind == T_DEV then DeviceReply(s.files[i].major, devices)
      else if WriteFits(s.files[i], off, src) then Done else Error
    case Drop(_) => Done
  }

  function DeviceReply(major: nat, devices: seq<bool>): Reply
    requires |devices| == NDEV
  {
    if major < NDEV && devices[major] then ToDevice(major) else Error
  }

  /** The calls answer with `rs`, none of them panicking, and turn `s` into `s'`. */
  predicate Ran(s: System, calls: seq<Call>, devices: seq<bool>, rs: seq<Reply>, s': System)
    requires |devices| == NDEV
    decreases calls
  {
    |rs| == |calls| &&
    if calls == [] then s' == s
    else
      && CallOk(calls[0], |s.files|) && !Panics(s, calls[0]) && rs[0] == Answer(s, calls[0], devices)
      && Ran(After(s, calls[0]), calls[1..], devices, rs[1..], s')
  }

  lemma {:induction false} OneMore(s: System, calls: seq<Call>, devices: seq<bool>, rs: seq<Reply>, s': System, c: Call)
    requires |devices| == NDEV && Ran(s, calls, devices, rs, s') && CallOk(c, |s'.files|) && !Panics(s', c)
    ensures Ran(s, calls + [c], devices, rs + [Answer(s', c, devices)], After(s', c))
    decreases calls
  {
    var r := Answer(s', c, devices);
    if calls == [] {
      assert calls + [c] == [c] && rs + [r] == [r];
    } else {
      OneMore(After(s, calls[0]), calls[1..], devices, rs[1..], s', c);
      assert (calls + [c])[1..] == calls[1..] + [c] && (rs + [r])[1..] == rs[1..] + [r];
    }
  }

  // ---- What the disk shows ----

  ghost function ViewOf(d: Disk, tab: seq<DInode>, i: nat): View
    requires TableOk(d, tab) && SizesOk(tab) && i < |tab|
  {
    View(tab[i].kind, tab[i].major, tab[i].minor, tab[i].nlink, Contents(d, tab, i))
  }

  ghost function Views(d: Disk, tab: seq<DInode>): (v: seq<View>)
    requires TableOk(d, tab) && SizesOk(tab)
    ensures |v| == |tab| && forall i :: 0 <= i < |tab| ==> v[i] == ViewOf(d, tab, i)
  {
    seq(|tab|, i requires 0 <= i < |tab| && TableOk(d, tab) && SizesOk(tab) => ViewOf(d, tab, i))
  }

  ghost predicate FreeEmpty(tab: seq<DInode>) {
    forall i :: 0 <= i < |tab| && tab[i].kind == 0 ==> tab[i].addrs == NoAddrs()
  }

  /** Between calls: nobody holds an inode, every inode has exactly its blocks, and free inodes have none. */
  ghost predicate QuietAt(sb: Superblock, d: Disk, owner: map<nat, Owner>) {
    RestOk(sb, d, owner) && AllTight(d, Inodes(sb, d)) && FreeEmpty(Inodes(sb, d))
  }

  ghost function SystemAt(sb: Superblock, d: Disk, owner: map<nat, Owner>): (s: System)
    requires QuietAt(sb, d, owner)
    ensures |s.files| == sb.ninodes && sb.Valid() && |d| == sb.size && s.room == Room(sb, d)
  {
    System(Views(d, Inodes(sb, d)), Room(sb, d))
  }

  ghost predicate Quiet(fs: Files)
    reads fs
  {
    QuietAt(fs.sb, fs.disk, fs.owner)
  }

  ghost function Shown(fs: Files): (s: System)
    requires Quiet(fs)
    reads fs
    ensures |s.files| == fs.sb.ninodes
  {
    SystemAt(fs.sb, fs.disk, fs.owner)
  }

  lemma ViewsChange(d: Disk, tab: seq<DInode>, d': Disk, tab': seq<DInode>, i: nat, v: View)
    requires OtherBytes(d, tab, d', tab', i) && SizesOk(tab) && SizesOk(tab')
    requires i < |tab| && tab' == tab[i := tab'[i]] && v == ViewOf(d', tab', i)
    ensures Views(d', tab') == Views(d, tab)[i := v]
  {
    hide TableOk, SizesOk, FileByte, Contents;
    forall j | 0 <= j < |tab| && j != i ensures ViewOf(d', tab', j) == ViewOf(d, tab, j) {
      assert tab'[j].size == tab[j].size <= MAXBYTES by {
        SizeOk(tab, j);
      }
      ContentsSame(d, tab, d', tab', j);
    }
  }

  lemma SizeOk(tab: seq<DInode>, j: nat)
    requires SizesOk(tab) && j < |tab|
    ensures tab[j].size <= MAXBYTES
  {
  }

  // ---- The calls ----

  /** A locked inode as its users see it. */
  ghost function Held(fs: Files, ip: Inode): View
    requires fs.Ok(ip)
    reads fs, ip
  {
    View(ip.d.kind, ip.d.major, ip.d.minor, ip.d.nlink, fs.File(ip))
  }

  ghost predicate Loaded(fs: Files, ip: Inode, s: System)
    reads fs, ip
  {
    && fs.Ok(ip) && ip.inum < |s.files| && s.files[ip.inum] == Held(fs, ip)
    && Table(fs.sb, fs.disk, ip.inum, ip.d) == Inodes(fs.sb, fs.disk) && ip.d == OnDisk(fs.sb, fs.disk, ip.inum)
    && fs.Compact(ip) && Tight(fs.disk, ip.d)
  }

  method Load(fs: Files, inum: nat) returns (ip: Inode, ok: bool)
    requires Quiet(fs) && inum < fs.sb.ninodes
    ensures fresh(ip) && ip.inum == inum && Loaded(fs, ip, Shown(fs)) && (ok <==> ip.d.kind != 0)
  {
    ip := new Inode(inum, Blank(0));
    ok := fs.Ilock(ip);
    assert Tight(fs.disk, Inodes(fs.sb, fs.disk)[inum]);
    hide Owned, OnDisk, TableOk, Tight;
  }

  /** A call on one inode is over: it has been written back, and no other has changed. */
  lemma Finished(fs: Files, ip: Inode, d: Disk, owner: map<nat, Owner>)
    requires QuietAt(fs.sb, d, owner) && fs.Ok(ip) && OnDisk(fs.sb, fs.disk, ip.inum) == ip.d && fs.Compact(ip)
    requires Table(fs.sb, fs.disk, ip.inum, ip.d) == Inodes(fs.sb, d)[ip.inum := ip.d]
    requires OtherBytes(d, Inodes(fs.sb, d), fs.disk, Table(fs.sb, fs.disk, ip.inum, ip.d), ip.inum)
    requires ip.d.kind == 0 ==> ip.d.addrs == NoAddrs()
    ensures Quiet(fs)
    ensures Shown(fs) == System(SystemAt(fs.sb, d, owner).files[ip.inum := Held(fs, ip)], Room(fs.sb, fs.disk))
  {
    WrittenBack(fs.sb, fs.disk, ip.inum, ip.d, fs.owner);
    hide Owned, AllTight, OnDisk, Inodes, OtherBytes, TableOk, SizesOk, Contents, Room;
    ViewsChange(d, Inodes(fs.sb, d), fs.disk, Inodes(fs.sb, fs.disk), ip.inum, Held(fs, ip));
  }

  method DoCreate(fs: Files, kind: nat) returns (ok: bool, r: Reply)
    requires Quiet(fs) && CallOk(Create(kind), fs.sb.ninodes)
    modifies fs
    ensures ok <==> !Panics(old(Shown(fs)), Create(kind))
    ensures ok ==> Quiet(fs) && Shown(fs) == After(old(Shown(fs)), Create(kind))
    ensures ok ==> r == Made(FirstFree(old(Shown(fs)).files, 1))
  {
    ghost var d, owner := fs.disk, fs.owner;
    hide Owned, AllTight, SizesOk, OnDisk, Inodes, TableOk, Views, SameBytes, FirstFree, Room;
    var made := fs.Ialloc(kind);
    Found(fs.sb, d, owner, made);
    if made.None? {
      return false, Error;
    }
    Created(fs.sb, d, owner, fs.disk, made.value, kind);
    SameRoom(fs.sb, d, owner, fs.disk);
    return true, Made(made.value);
  }

  lemma SameRoom(sb: Superblock, d: Disk, owner: map<nat, Owner>, d': Disk)
    requires QuietAt(sb, d, owner) && QuietAt(sb, d', owner)
    ensures Room(sb, d') == Room(sb, d)
  {
    Conservation(sb, d, Inodes(sb, d), owner);
    Conservation(sb, d', Inodes(sb, d'), owner);
  }

  lemma Found(sb: Superblock, d: Disk, owner: map<nat, Owner>, r: Option<nat>)
    requires RestOk(sb, d, owner)
    requires r.None? ==> forall i: nat :: 1 <= i < sb.ninodes ==> OnDisk(sb, d, i).kind != 0
    requires r.Some? ==>
               && 1 <= r.value < sb.ninodes && OnDisk(sb, d, r.value).kind == 0
               && forall i: nat :: 1 <= i < r.value ==> OnDisk(sb, d, i).kind != 0
    ensures var first := FirstFree(Views(d, Inodes(sb, d)), 1);
            if r.Some? then first == r.value else first >= sb.ninodes
  {
    var files := Views(d, Inodes(sb, d));
    hide Owned, SizesOk, OnDisk, Inodes, TableOk, Views, Contents;
    forall i: nat | i < sb.ninodes ensures files[i].kind == OnDisk(sb, d, i).kind {
      assert files[i] == ViewOf(d, Inodes(sb, d), i);
    }
  }

  lemma Created(sb: Superblock, d: Disk, owner: map<nat, Owner>, d': Disk, i: nat, kind: nat)
    requires RestOk(sb, d, owner) && RestOk(sb, d', owner) && i < sb.ninodes
    requires AllTight(d, Inodes(sb, d)) && FreeEmpty(Inodes(sb, d))
    requires SameBytes(d, Inodes(sb, d), d', Inodes(sb, d')) && Inodes(sb, d') == Inodes(sb, d)[i := Blank(kind)]
    ensures AllTight(d', Inodes(sb, d')) && FreeEmpty(Inodes(sb, d'))
    ensures Views(d', Inodes(sb, d')) == Views(d, Inodes(sb, d))[i := View(kind, 0, 0, 0, [])]
  {
    var tab, tab' := Inodes(sb, d), Inodes(sb, d');
    assert InodeOk(d', tab'[i]);
    EmptyIsTight(d', tab'[i]);
    hide Owned, Tight, Inodes, SizesOk, FileByte;
    AllTightKept(sb, d, tab, owner, d', tab', owner, i);
    assert OtherBytes(d, tab, d', tab', i);
    ViewsChange(d, tab, d', tab', i, ViewOf(d', tab', i));
    assert Contents(d', tab', i) == [];
  }

  method DoRead(fs: Files, inum: nat, off: nat, n: nat, devices: seq<bool>) returns (ok: bool, r: Reply)
    requires Quiet(fs) && CallOk(Read(inum, off, n), fs.sb.ninodes) && |devices| == NDEV
    modifies fs
    ensures ok <==> !Panics(old(Shown(fs)), Read(inum, off, n))
    ensures Quiet(fs) && Shown(fs) == old(Shown(fs))
    ensures ok ==> r == Answer(old(Shown(fs)), Read(inum, off, n), devices)
  {
    hide QuietAt, SystemAt, FsOk, Tight, AllTight, OnDisk, Inodes, Table, SameFiles, Mapped, Elsewhere, Room, Need;
    var ip;
    ip, ok := Load(fs, inum);
    if !ok {
      return false, Error;
    }
    var o, dst := fs.Readi(ip, off, n, devices);
    match o
    case Count(_) => r := Data(dst);
    case Device(major) => r := ToDevice(major);
    case _ => r := Error;
  }

  method DoWrite(fs: Files, inum: nat, off: nat, src: seq<Byte>, devices: seq<bool>) returns (ok: bool, r: Reply)
    requires Quiet(fs) && CallOk(Write(inum, off, src), fs.sb.ninodes) && |devices| == NDEV
    modifies fs
    ensures ok <==> !Panics(old(Shown(fs)), Write(inum, off, src))
    ensures ok ==> Quiet(fs) && Shown(fs) == After(old(Shown(fs)), Write(inum, off, src))
    ensures ok ==> r == Answer(old(Shown(fs)), Write(inum, off, src), devices)
  {
    hide QuietAt, SystemAt, FsOk, Tight, AllTight, OnDisk, Inodes, Table, Mapped, Anchored, Elsewhere, Room, Need,
         OtherBytes, Splice;
    var ip;
    ip, ok := Load(fs, inum);
    if !ok {
      return false, Error;
    }
    if WriteFits(Held(fs, ip), off, src) {
      GrowthIs(fs, ip, off, src);
    }
    ghost var d, owner := fs.disk, fs.owner;
    var o := fs.Writei(ip, src, off, devices);
    match o
    case Panic => return false, Error;
    case Count(_) =>
      r := Done;
      Finished(fs, ip, d, owner);
    case Device(major) => r := ToDevice(major);
    case Failed => r := Error;
  }

  lemma GrowthIs(fs: Files, ip: Inode, off: nat, src: seq<Byte>)
    requires fs.Ok(ip) && Tight(fs.disk, ip.d) && WriteFits(Held(fs, ip), off, src)
    ensures Need(fs.disk, ip.d, off, off + |src|) == Growth(Held(fs, ip), off, src)
  {
    NeedTight(fs.disk, ip.d, off, off + |src|);
    SpliceBack(fs.File(ip), off, src);
  }

  /** `ip->nlink` changed and written back, as sys_link and sys_unlink do. */
  method DoLinks(fs: Files, inum: nat, nlink: nat) returns (ok: bool)
    requires Quiet(fs) && CallOk(Links(inum, nlink), fs.sb.ninodes)
    modifies fs
    ensures ok <==> !Panics(old(Shown(fs)), Links(inum, nlink))
    ensures ok ==> Quiet(fs) && Shown(fs) == After(old(Shown(fs)), Links(inum, nlink))
  {
    hide QuietAt, SystemAt, FsOk, Tight, AllTight, OnDisk, Inodes, Table, SameBytes, OtherBytes, Room;
    var ip;
    ip, ok := Load(fs, inum);
    if !ok {
      return;
    }
    ghost var d, owner, x := fs.disk, fs.owner, ip.d;
    ip.d := ip.d.(nlink := nlink);
    Relinked(fs.sb, d, owner, inum, x, ip.d);
    fs.Iupdate(ip);
    RelinkDone(fs.sb, d, owner, inum, x, fs.disk, ip.d);
    Finished(fs, ip, d, owner);
    SameRoom(fs.sb, d, owner, fs.disk);
  }

  lemma Relinked(sb: Superblock, d: Disk, owner: map<nat, Owner>, i: nat, x: DInode, x': DInode)
    requires FsOk(sb, d, i, x, owner) && InodeOk(d, x) && x.size <= MAXBYTES
    requires x' == x.(nlink := x'.nlink) && x'.nlink < 0x1_0000
    ensures FsOk(sb, d, i, x', owner)
    ensures Table(sb, d, i, x') == Table(sb, d, i, x)[i := x']
    ensures SameBytes(d, Table(sb, d, i, x), d, Table(sb, d, i, x'))
  {
    Restat(sb, d, i, x, owner, x');
    TableSame(sb, d, d, i, x, x');
  }

  lemma RelinkDone(sb: Superblock, d: Disk, owner: map<nat, Owner>, i: nat, x: DInode, d': Disk, x': DInode)
    requires FsOk(sb, d, i, x, owner) && FsOk(sb, d', i, x', owner) && AllTight(d, Table(sb, d, i, x))
    requires Table(sb, d', i, x') == Table(sb, d, i, x)[i := x'] && x'.size == x.size
    requires SameBytes(d, Table(sb, d, i, x), d, Table(sb, d, i, x'))
    requires SameBytes(d, Table(sb, d, i, x'), d', Table(sb, d', i, x'))
    ensures AllTight(d', Table(sb, d', i, x'))
    ensures OtherBytes(d, Table(sb, d, i, x), d', Table(sb, d', i, x'), i)
    ensures Contents(d', Table(sb, d', i, x'), i) == Contents(d, Table(sb, d, i, x), i)
  {
    var tab, tab' := Table(sb, d, i, x), Table(sb, d', i, x');
    assert tab[i] == x && tab'[i] == x';
    SameBytesTrans(d, tab, d, Table(sb, d, i, x'), d', tab');
    hide Table, AllTight, TableOk, FileByte, Contents;
    AllTightSame(sb, d, tab, owner, d', tab');
    hide Owned;
    ContentsSame(d, tab, d', tab', i);
  }

  method DoDrop(fs: Files, inum: nat) returns (ok: bool)
    requires Quiet(fs) && CallOk(Drop(inum), fs.sb.ninodes)
    modifies fs
    ensures ok <==> !Panics(old(Shown(fs)), Drop(inum))
    ensures ok ==> Quiet(fs) && Shown(fs) == After(old(Shown(fs)), Drop(inum))
  {
    hide QuietAt, SystemAt, FsOk, Tight, AllTight, OnDisk, Inodes, Table, OtherBytes, Free, Without, BlocksOf;
    var ip;
    ip, ok := Load(fs, inum);
    if !ok {
      return;
    }
    ghost var d, owner := fs.disk, fs.owner;
    DropRoom(fs, ip);
    ghost var gone := ip.d.nlink == 0;
    fs.Iput(ip, true);
    if gone {
      Finished(fs, ip, d, owner);
    }
  }

  /** The blocks of a file without holes are as many as its size asks for, and none of them is free. */
  lemma DropRoom(fs: Files, ip: Inode)
    requires fs.Ok(ip) && Tight(fs.disk, ip.d)
    ensures var freed := BlocksOf(fs.owner, ip.inum);
            |Free(fs.sb, fs.disk) + freed| == Room(fs.sb, fs.disk) + BlocksFor(ip.d.size)
  {
    var tab := Table(fs.sb, fs.disk, ip.inum, ip.d);
    forall k: nat | k < SLOTS ensures Slot(fs.disk, tab, ip.inum, k) != 0 <==> k < BlocksFor(ip.d.size) {
      TightSlotAt(fs.disk, ip.d, k);
    }
    hide Owned, Tight, Table, Free, Slot;
    CountBlocks(fs.sb, fs.disk, tab, fs.owner, ip.inum, BlocksFor(ip.d.size));
    FreeIs(fs.sb, fs.disk, tab, fs.owner);
    assert Free(fs.sb, fs.disk) !! BlocksOf(fs.owner, ip.inum);
  }

  method Do(fs: Files, c: Call, devices: seq<bool>) returns (ok: bool, r: Reply)
    requires Quiet(fs) && CallOk(c, fs.sb.ninodes) && |devices| == NDEV
    modifies fs
    ensures ok <==> !Panics(old(Shown(fs)), c)
    ensures ok ==> Quiet(fs) && Shown(fs) == After(old(Shown(fs)), c) && r == Answer(old(Shown(fs)), c, devices)
  {
    hide Quiet, Shown;
    match c
    case Create(kind) => ok, r := DoCreate(fs, kind);
    case Links(inum, nlink) => ok := DoLinks(fs, inum, nlink); r := Done;
    case Read(inum, off, n) => ok, r := DoRead(fs, inum, off, n, devices);
    case Write(inum, off, src) => ok, r := DoWrite(fs, inum, off, src, devices);
    case Drop(inum) => ok := DoDrop(fs, inum); r := Done;
  }

  /** The replies, up to the first panic, are those of the byte sequences, and so are the files afterwards. */
  method Session(fs: Files, calls: seq<Call>, devices: seq<bool>) returns (rs: seq<Reply>, ghost s: System)
    requires Quiet(fs) && |devices| == NDEV && forall i :: 0 <= i < |calls| ==> CallOk(calls[i], fs.sb.ninodes)
    modifies fs
    ensures |rs| <= |calls| && Ran(old(Shown(fs)), calls[..|rs|], devices, rs, s)
    ensures |rs| == |calls| ==> Quiet(fs) && Shown(fs) == s
    ensures |rs| < |calls| ==> |s.files| == fs.sb.ninodes && Panics(s, calls[|rs|])
  {
    hide Quiet, Shown, Panics, After, Answer, CallOk;
    rs, s := [], Shown(fs);
    while |rs| < |calls|
      invariant |rs| <= |calls| && Quiet(fs) && s == Shown(fs)
      invariant Ran(old(Shown(fs)), calls[..|rs|], devices, rs, s)
      decreases |calls| - |rs|
    {
      ghost var i := |rs|;
      var ok, r := Do(fs, calls[|rs|], devices);
      if !ok {
        return;
      }
      hide Ran;
      OneMore(old(Shown(fs)), calls[..i], devices, rs, s, calls[i]);
      assert calls[..i] + [calls[i]] == calls[..i + 1];
      rs, s := rs + [r], Shown(fs);
    }
  }
}
