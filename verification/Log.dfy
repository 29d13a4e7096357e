/** The log as it runs (log.c), over the buffer cache.  The disk writes of `commit` and of
    `recover_from_log` are exactly the sequences whose crash atomicity `Redo` proves. */
module Log {
  import opened Bytes
  import opened Redo
  import opened BufferCache
  import opened Sets

  ghost predicate NoneBusy(bufs: seq<Buf>) {
    forall i :: 0 <= i < |bufs| ==> !bufs[i].busy
  }

  ghost predicate NoneDirty(bufs: seq<Buf>) {
    forall i :: 0 <= i < |bufs| ==> !bufs[i].dirty
  }

  /** The block is in a dirty buffer: it cannot be recycled. */
  ghost predicate Pinned(bufs: seq<Buf>, bn: nat) {
    exists i :: 0 <= i < |bufs| && bufs[i].Holds(bn) && bufs[i].dirty
  }

  ghost predicate SomeClean(bufs: seq<Buf>) {
    exists i :: 0 <= i < |bufs| && bufs[i].Reusable()
  }

  ghost predicate TwoClean(bufs: seq<Buf>) {
    exists i, j :: 0 <= i < j < |bufs| && bufs[i].Reusable() && bufs[j].Reusable()
  }

  /** Nobody is using the block. */
  ghost predicate Unheld(bufs: seq<Buf>, bn: nat) {
    forall i :: 0 <= i < |bufs| && bufs[i].Holds(bn) ==> !bufs[i].busy
  }

  /** Nobody is using a block of the log or of the list, so that `commit` never sleeps in `bget`.  Other
      processes may well be reading other blocks. */
  ghost predicate LogFree(bufs: seq<Buf>, g: Geometry, l: seq<nat>) {
    && (forall bn :: g.start <= bn < g.start + g.size ==> Unheld(bufs, bn))
    && (forall k :: 0 <= k < |l| ==> Unheld(bufs, l[k]))
  }

  /** Buffers in use stay as they are, and no others are in use. */
  ghost predicate SameHeld(bufs: seq<Buf>, bufs': seq<Buf>) {
    |bufs'| == |bufs| && forall i :: 0 <= i < |bufs| ==>
      (bufs[i].busy ==> bufs'[i] == bufs[i]) && (bufs'[i].busy ==> bufs[i].busy)
  }

  /** Every pinned block is in the list, and every block of the list is pinned. */
  ghost predicate Tied(bufs: seq<Buf>, l: seq<nat>) {
    forall bn :: Pinned(bufs, bn) <==> bn in l
  }

  /** What one copy leaves: the same buffers in use, nothing newly dirty, other blocks as pinned as before. */
  ghost predicate Settled(bufs: seq<Buf>, bufs': seq<Buf>, dst: nat) {
    && SameHeld(bufs, bufs') && SomeClean(bufs')
    && (NoneDirty(bufs) ==> NoneDirty(bufs') && TwoClean(bufs'))
    && (forall bn :: bn != dst && Pinned(bufs, bn) ==> Pinned(bufs', bn))
    && (forall bn :: Pinned(bufs', bn) ==> Pinned(bufs, bn))
  }

  ghost predicate AllPinned(bufs: seq<Buf>, l: seq<nat>, from: nat) {
    forall k :: from <= k < |l| ==> Pinned(bufs, l[k])
  }

  /** Installing the log data a view of the disk holds. */
  ghost function InstallsFrom(g: Geometry, view: Disk, l: seq<nat>): (ws: seq<Write>)
    requires g.start + |l| < |view|
    ensures |ws| == |l| && forall k :: 0 <= k < |l| ==> ws[k] == Write(l[k], view[g.start + 1 + k])
  {
    seq(|l|, k requires 0 <= k < |l| => Write(l[k], view[g.start + 1 + k]))
  }

  /** With the home blocks pinned, or nothing dirty at all, every `bread` of a copy succeeds. */
  ghost predicate CanInstall(bufs: seq<Buf>, l: seq<nat>, from: nat) {
    (NoRepeats(l) && AllPinned(bufs, l, from)) || (NoneDirty(bufs) && TwoClean(bufs))
  }

  class RedoLog {
    const g: Geometry
    const cache: Cache
    var n: nat
    var block: seq<nat>
    var outstanding: nat

    constructor (g: Geometry, cache: Cache)
      ensures this.g == g && this.cache == cache && n == 0 && |block| == LOGSIZE && outstanding == 0
    {
      this.g, this.cache, n, block, outstanding := g, cache, 0, seq(LOGSIZE, _ => 0), 0;
    }

    ghost function List(): seq<nat>
      reads this
      requires n <= |block|
    {
      block[..n]
    }

    /** What holds even in the middle of a commit or a recovery. */
    ghost predicate Sound()
      reads this, cache
    {
      && cache.Valid() && g.Valid() && |cache.disk| == g.blocks
      && |block| == LOGSIZE && n <= LOGSIZE && ListOk(g, List())
    }

    /** Exactly the blocks of the list, none twice, are pinned in the cache. */
    ghost predicate Valid()
      reads this, cache
    {
      Sound() && NoRepeats(List()) && Tied(cache.bufs, List())
    }

    /** Two `bread`s in a row. */
    method ReadTwo(a: nat, b: nat) returns (i: nat, j: nat)
      requires cache.Valid() && a < |cache.disk| && b < |cache.disk| && a != b
      requires Unheld(cache.bufs, a) && Unheld(cache.bufs, b)
      requires SomeClean(cache.bufs) && (Pinned(cache.bufs, b) || (NoneDirty(cache.bufs) && TwoClean(cache.bufs)))
      modifies cache`bufs
      ensures cache.Valid() && TwoRead(old(cache.bufs), cache.bufs, i, j, a, b, cache.latest)
    {
      hide Coherent, Lru.RingOk;
      SameLength(cache);
      FirstReady(cache.bufs, a);
      var ra := cache.Bread(a);
      SecondReady(old(cache.bufs), cache.bufs, ra.b, a, b);
      var rb := cache.Bread(b);
      i, j := ra.b, rb.b;
    }

    /** Read two blocks, copy one to the other, write it, release both: the body of the loops of
        `write_log` and `install_trans`, which read them in different orders. */
    method CopyBlock(a: nat, b: nat, fromA: bool)
      requires cache.Valid() && a < |cache.disk| && b < |cache.disk| && a != b
      requires Unheld(cache.bufs, a) && Unheld(cache.bufs, b)
      requires SomeClean(cache.bufs) && (Pinned(cache.bufs, b) || (NoneDirty(cache.bufs) && TwoClean(cache.bufs)))
      modifies cache
      ensures cache.Valid()
      ensures var src, dst := if fromA then a else b, if fromA then b else a;
              var data := old(cache.latest)[src];
              && Settled(old(cache.bufs), cache.bufs, dst)
              && cache.disk == old(cache.disk)[dst := data] && cache.latest == old(cache.latest)[dst := data]
              && cache.trace == old(cache.trace) + [Write(dst, data)]
              && !Pinned(cache.bufs, dst)
    {
      ghost var bufs0, disk0, latest0 := cache.bufs, cache.disk, cache.latest;
      var i, j := ReadTwo(a, b);
      hide Coherent, Lru.RingOk;
      if fromA {
        SourceKept(bufs0, disk0, latest0, a, i);
        CopyOver(i, j);
        SettledBy(bufs0, cache.bufs, i, j, a, b);
        CleanNotPinned(cache.bufs, cache.disk, cache.latest, j, b);
      } else {
        SourceKept(bufs0, disk0, latest0, b, j);
        CopyOver(j, i);
        SettledBy(bufs0, cache.bufs, j, i, b, a);
        CleanNotPinned(cache.bufs, cache.disk, cache.latest, i, a);
      }
    }

    /** `memmove`, `bwrite`, and both `brelse`s. */
    method CopyOver(src: nat, dst: nat)
      requires cache.Valid() && src < |cache.bufs| && dst < |cache.bufs| && src != dst
      requires cache.bufs[src].busy && cache.bufs[src].valid && cache.bufs[dst].busy && cache.bufs[dst].valid
      requires var s, d := cache.bufs[src], cache.bufs[dst];
               s.blockno < |cache.disk| && s.blockno != d.blockno && (s.dirty || cache.disk[s.blockno] == s.data)
      modifies cache
      ensures cache.Valid()
      ensures var s, d := old(cache.bufs)[src], old(cache.bufs)[dst];
              && cache.bufs == old(cache.bufs)[src := s.(busy := false)]
                                              [dst := d.(busy := false, dirty := false, data := s.data)]
              && d.blockno < |old(cache.disk)| == |old(cache.latest)|
              && cache.disk == old(cache.disk)[d.blockno := s.data]
              && cache.latest == old(cache.latest)[d.blockno := s.data]
              && cache.trace == old(cache.trace) + [Write(d.blockno, s.data)]
    {
      hide Coherent, Lru.RingOk;
      SameLength(cache);
      cache.Store(dst, cache.bufs[src].data);
      cache.Bwrite(dst);
      cache.Brelse(src);
      cache.Brelse(dst);
      assert cache.bufs == old(cache.bufs)[src := old(cache.bufs)[src].(busy := false)]
                             [dst := old(cache.bufs)[dst].(busy := false, dirty := false,
                                                           data := old(cache.bufs)[src].data)];
    }

    /** `write_log`: the cached blocks into the log. */
    method WriteLog()
      requires Sound() && LogFree(cache.bufs, g, List()) && SomeClean(cache.bufs) && AllPinned(cache.bufs, List(), 0)
      modifies cache
      ensures Sound() && SameHeld(old(cache.bufs), cache.bufs) && SomeClean(cache.bufs)
              && AllPinned(cache.bufs, List(), 0)
      ensures forall bn :: Pinned(cache.bufs, bn) ==> Pinned(old(cache.bufs), bn)
      ensures forall k :: 0 <= k < n ==> List()[k] < |old(cache.latest)|
      ensures cache.disk == Apply(old(cache.disk), Copies(g, old(cache.latest), List()))
      ensures cache.latest == Apply(old(cache.latest), Copies(g, old(cache.latest), List()))
      ensures cache.trace == old(cache.trace) + Copies(g, old(cache.latest), List())
    {
      hide Coherent, Lru.RingOk, Apply, LogFree, SameHeld;
      SameLength(cache);
      SameHeldRefl(cache.bufs);
      ghost var l, disk0, view := List(), cache.disk, cache.latest;
      ghost var ws := Copies(g, view, l);
      ApplyNone(disk0); ApplyNone(view);
      var tail := 0;
      while tail < n
        invariant 0 <= tail <= n && cache.Valid() && |cache.disk| == g.blocks
        invariant SameHeld(old(cache.bufs), cache.bufs) && SomeClean(cache.bufs) && AllPinned(cache.bufs, l, 0)
        invariant forall bn :: Pinned(cache.bufs, bn) ==> Pinned(old(cache.bufs), bn)
        invariant cache.disk == Apply(disk0, ws[..tail]) && cache.latest == Apply(view, ws[..tail])
        invariant cache.trace == old(cache.trace) + ws[..tail]
      {
        ghost var bufs1 := cache.bufs;
        assert block[tail] == l[tail] && g.Home(l[tail]);
        ApplyNext(disk0, ws, tail);
        ApplyNext(view, ws, tail);
        DuringCopies(g, view, view, l, tail);
        LogUnheld(old(cache.bufs), cache.bufs, g, l, tail);
        CopyBlock(g.start + tail + 1, block[tail], false);
        SameHeldTrans(old(cache.bufs), bufs1, cache.bufs);
        assert ws[..tail + 1] == ws[..tail] + [ws[tail]];
        tail := tail + 1;
      }
      assert ws[..n] == ws;
    }

    /** `install_trans`: the log blocks to their home locations. */
    method InstallTrans()
      requires Sound() && LogFree(cache.bufs, g, List()) && SomeClean(cache.bufs) && CanInstall(cache.bufs, List(), 0)
      modifies cache
      ensures Sound() && SameHeld(old(cache.bufs), cache.bufs) && SomeClean(cache.bufs)
      ensures NoneDirty(old(cache.bufs)) ==> NoneDirty(cache.bufs)
      ensures forall bn :: Pinned(cache.bufs, bn) ==> Pinned(old(cache.bufs), bn) && bn !in List()
      ensures g.start + n < |old(cache.latest)|
      ensures cache.disk == Apply(old(cache.disk), InstallsFrom(g, old(cache.latest), List()))
      ensures cache.latest == Apply(old(cache.latest), InstallsFrom(g, old(cache.latest), List()))
      ensures cache.trace == old(cache.trace) + InstallsFrom(g, old(cache.latest), List())
    {
      hide Coherent, Lru.RingOk, Apply, LogFree, SameHeld;
      SameLength(cache);
      SameHeldRefl(cache.bufs);
      ghost var l, disk0, view := List(), cache.disk, cache.latest;
      ghost var ws := InstallsFrom(g, view, l);
      ApplyNone(disk0); ApplyNone(view);
      var tail := 0;
      while tail < n
        invariant 0 <= tail <= n && cache.Valid() && |cache.disk| == g.blocks
        invariant SameHeld(old(cache.bufs), cache.bufs) && SomeClean(cache.bufs) && CanInstall(cache.bufs, l, tail)
        invariant NoneDirty(old(cache.bufs)) ==> NoneDirty(cache.bufs)
        invariant forall bn :: Pinned(cache.bufs, bn) ==> Pinned(old(cache.bufs), bn) && bn !in l[..tail]
        invariant cache.disk == Apply(disk0, ws[..tail]) && cache.latest == Apply(view, ws[..tail])
        invariant cache.trace == old(cache.trace) + ws[..tail]
      {
        ghost var bufs1 := cache.bufs;
        assert block[tail] == l[tail] && g.Home(l[tail]);
        ApplyNext(disk0, ws, tail);
        ApplyNext(view, ws, tail);
        InstallsKeepLog(g, view, l, tail);
        LogUnheld(old(cache.bufs), cache.bufs, g, l, tail);
        CopyBlock(g.start + tail + 1, block[tail], true);
        SameHeldTrans(old(cache.bufs), bufs1, cache.bufs);
        assert ws[..tail + 1] == ws[..tail] + [ws[tail]] && l[..tail + 1] == l[..tail] + [l[tail]];
        tail := tail + 1;
      }
      assert ws[..n] == ws && l[..n] == l;
    }

    /** `write_head`. */
    method WriteHead()
      requires Sound() && Unheld(cache.bufs, g.start) && SomeClean(cache.bufs) && !Pinned(cache.bufs, g.start)
      modifies cache
      ensures Sound() && SameHeld(old(cache.bufs), cache.bufs) && SomeClean(cache.bufs)
      ensures NoneDirty(old(cache.bufs)) ==> NoneDirty(cache.bufs)
      ensures forall bn :: Pinned(cache.bufs, bn) <==> Pinned(old(cache.bufs), bn)
      ensures |old(cache.disk)| == |old(cache.latest)| == g.blocks
      ensures var h := HeaderBlock(old(cache.latest)[g.start], List());
              && cache.disk == old(cache.disk)[g.start := h] && cache.latest == old(cache.latest)[g.start := h]
              && cache.trace == old(cache.trace) + [Write(g.start, h)]
    {
      hide Coherent, Lru.RingOk;
      SameLength(cache);
      FirstReady(cache.bufs, g.start);
      var r := cache.Bread(g.start);
      ghost var l, hb0 := List(), cache.bufs[r.b].data;
      var hb := SetWord(cache.bufs[r.b].data, 0, n);
      var i := 0;
      while i < n
        invariant 0 <= i <= n && hb == SetList(SetWord(hb0, 0, n), l, i)
      {
        assert block[i] == l[i];
        hb := SetWord(hb, 1 + i, block[i]);
        i := i + 1;
      }
      cache.Store(r.b, hb);
      cache.Bwrite(r.b);
      cache.Brelse(r.b);
      HeadSettled(old(cache.bufs), cache.bufs, r.b, g.start);
    }

    /** Copying count and list from the header. */
    method TakeList(lh: Block)
      requires |block| == LOGSIZE && HeaderCount(lh) <= LOGSIZE
      modifies this`n, this`block
      ensures |block| == LOGSIZE && n == HeaderCount(lh) && List() == HeaderList(lh, n)
    {
      n := HeaderCount(lh);
      var i := 0;
      while i < n
        invariant 0 <= i <= n && |block| == LOGSIZE
        invariant forall k :: 0 <= k < i ==> block[k] == Word(lh, 1 + k)
        modifies this`block
      {
        block := block[i := Word(lh, 1 + i)];
        i := i + 1;
      }
    }

    /** `read_head`. */
    method ReadHead()
      requires cache.Valid() && g.Valid() && |cache.disk| == g.blocks && |block| == LOGSIZE
      requires NoneBusy(cache.bufs) && TwoClean(cache.bufs) && NoneDirty(cache.bufs) && HeaderOk(g, cache.disk)
      modifies this`n, this`block, cache
      ensures HeaderOk(g, cache.disk) && Sound() && List() == Logged(g, cache.disk)
      ensures NoneBusy(cache.bufs) && TwoClean(cache.bufs) && NoneDirty(cache.bufs)
      ensures cache.disk == old(cache.disk) && cache.latest == old(cache.latest) && cache.trace == old(cache.trace)
    {
      NothingPinned(cache.bufs, g.start);
      UnpinnedOnDisk(cache.bufs, cache.disk, cache.latest, g.start);
      hide Coherent, Lru.RingOk;
      FirstReady(cache.bufs, g.start);
      var r := cache.Bread(g.start);
      TakeList(cache.bufs[r.b].data);
      assert List() == Logged(g, cache.disk);
      cache.Brelse(r.b);
      HeadSettled(old(cache.bufs), cache.bufs, r.b, g.start);
      TwoStayClean(old(cache.bufs), cache.bufs);
    }

    /** The first half of `commit`, up to the header write that decides it. */
    method LogAndHead()
      requires Sound() && LogFree(cache.bufs, g, List()) && SomeClean(cache.bufs) && AllPinned(cache.bufs, List(), 0)
      requires !Pinned(cache.bufs, g.start)
      modifies cache
      ensures Sound() && SameHeld(old(cache.bufs), cache.bufs) && SomeClean(cache.bufs)
              && AllPinned(cache.bufs, List(), 0)
      ensures forall bn :: Pinned(cache.bufs, bn) ==> Pinned(old(cache.bufs), bn)
      ensures |old(cache.disk)| == |old(cache.latest)| == g.blocks
      ensures var h := Write(g.start, HeaderBlock(old(cache.latest)[g.start], List()));
              var copies := Copies(g, old(cache.latest), List());
              && cache.disk == Apply(old(cache.disk), copies)[g.start := h.data]
              && cache.latest == Apply(old(cache.latest), copies)[g.start := h.data]
              && cache.trace == old(cache.trace) + copies + [h]
    {
      hide Coherent, Lru.RingOk, Apply, HeaderBlock, SomeClean, LogFree, SameHeld;
      SameLength(cache);
      ghost var view, l := cache.latest, List();
      WriteLog();
      ghost var bufs1 := cache.bufs;
      DuringWhole(g, view, l);
      LogStaysFree(old(cache.bufs), bufs1, g, l);
      WriteHead();
      SameHeldTrans(old(cache.bufs), bufs1, cache.bufs);
    }

    /** The second half: install, then erase the transaction from the log. */
    method InstallAndClear()
      requires Sound() && LogFree(cache.bufs, g, List()) && SomeClean(cache.bufs) && CanInstall(cache.bufs, List(), 0)
      requires !Pinned(cache.bufs, g.start)
      modifies this`n, cache
      ensures Sound() && n == 0 && SameHeld(old(cache.bufs), cache.bufs)
      ensures NoneDirty(old(cache.bufs)) ==> NoneDirty(cache.bufs)
      ensures forall bn :: Pinned(cache.bufs, bn) ==> Pinned(old(cache.bufs), bn) && bn !in old(List())
      ensures |old(cache.disk)| == |old(cache.latest)| == g.blocks && g.start + old(n) < g.blocks
      ensures var h := Write(g.start, HeaderBlock(old(cache.latest)[g.start], []));
              var ws := InstallsFrom(g, old(cache.latest), old(List()));
              && cache.disk == Apply(old(cache.disk), ws)[g.start := h.data]
              && cache.latest == Apply(old(cache.latest), ws)[g.start := h.data]
              && cache.trace == old(cache.trace) + ws + [h]
    {
      hide Coherent, Lru.RingOk, Apply, HeaderBlock, SomeClean, LogFree, SameHeld;
      SameLength(cache);
      ghost var view, l := cache.latest, List();
      InstallTrans();
      ghost var bufs1 := cache.bufs;
      StartUntouched(g, view, InstallsFrom(g, view, l));
      LogStaysFree(old(cache.bufs), bufs1, g, l);
      n := 0;
      assert List() == [];
      WriteHead();
      SameHeldTrans(old(cache.bufs), bufs1, cache.bufs);
    }

    /** `commit`: its disk writes are exactly `CommitWrites`, of the operations' final data.  Other processes
        may hold buffers of other blocks meanwhile. */
    method Commit()
      requires Valid() && LogFree(cache.bufs, g, List()) && SomeClean(cache.bufs)
      modifies this`n, cache
      ensures Valid() && n == 0 && SameHeld(old(cache.bufs), cache.bufs)
      ensures |old(cache.disk)| == |old(cache.latest)| == g.blocks && SameHome(g, cache.latest, old(cache.latest))
      ensures var ws := CommitWrites(g, old(cache.disk), old(cache.latest), old(List()));
              cache.trace == old(cache.trace) + ws && cache.disk == Apply(old(cache.disk), ws)
    {
      SameLength(cache);
      ghost var l, disk0, view := List(), cache.disk, cache.latest;
      if n > 0 {
        assert !Pinned(cache.bufs, g.start);
        LogStaysFree(cache.bufs, cache.bufs, g, l);
        UnpinnedOnDisk(cache.bufs, disk0, view, g.start);
        CommitLogged();
      } else {
        ApplyNone(disk0);
        SameHeldRefl(cache.bufs);
      }
    }

    method CommitLogged()
      requires Valid() && LogFree(cache.bufs, g, List()) && SomeClean(cache.bufs) && n > 0
      requires |cache.disk| == |cache.latest| == g.blocks && cache.disk[g.start] == cache.latest[g.start]
      modifies this`n, cache
      ensures Valid() && n == 0 && SameHeld(old(cache.bufs), cache.bufs)
      ensures SameHome(g, cache.latest, old(cache.latest))
      ensures var ws := CommitWrites(g, old(cache.disk), old(cache.latest), old(List()));
              cache.trace == old(cache.trace) + ws && cache.disk == Apply(old(cache.disk), ws)
    {
      hide Coherent, Lru.RingOk, Apply, HeaderBlock, SomeClean, LogFree, SameHeld, SameHome;
      hide CommitWrites, Copies, Homes, InstallsFrom, Pinned;
      ghost var l, disk0, view, trace0 := List(), cache.disk, cache.latest, cache.trace;
      ghost var copies, h := Copies(g, view, l), Write(g.start, HeaderBlock(disk0[g.start], l));
      ListPinned(cache.bufs, g, l);
      LogAndHead();
      ghost var trace1, bufs1 := cache.trace, cache.bufs;
      assert trace1 == trace0 + copies + [h];
      DuringWhole(g, view, l);
      InstallsAreHomes(g, view, l, cache.latest);
      LogStaysFree(old(cache.bufs), bufs1, g, l);
      InstallAndClear();
      assert cache.trace == trace1 + Homes(view, l) + [Write(g.start, HeaderBlock(h.data, []))];
      TraceIsCommit(g, disk0, view, l, trace0);
      HomesKept(g, view, l, h.data, HeaderBlock(h.data, []));
      SameHeldTrans(old(cache.bufs), bufs1, cache.bufs);
      assert List() == [];
    }

    /** `recover_from_log`, at boot with an empty cache: its disk writes are exactly `RecoveryWrites`. */
    method RecoverFromLog()
      requires cache.Valid() && g.Valid() && |cache.disk| == g.blocks && |block| == LOGSIZE
      requires NoneBusy(cache.bufs) && NoneDirty(cache.bufs) && |cache.bufs| >= 2 && DiskOk(g, cache.disk)
      modifies this`n, this`block, cache
      ensures Valid() && n == 0 && NoneBusy(cache.bufs) && NoneDirty(cache.bufs) && cache.latest == cache.disk
      ensures var ws := RecoveryWrites(g, old(cache.disk));
              cache.trace == old(cache.trace) + ws && cache.disk == Apply(old(cache.disk), ws)
    {
      SameLength(cache);
      ghost var disk0, trace0 := cache.disk, cache.trace;
      assert cache.bufs[0].Reusable() && cache.bufs[1].Reusable();
      AllOnDisk(cache.bufs, disk0, cache.latest);
      ReadHead();
      NothingPinned(cache.bufs, g.start);
      InstallAndClear();
      AllOnDisk(cache.bufs, cache.disk, cache.latest);
      hide Coherent, Lru.RingOk, Apply, HeaderBlock;
      ApplyOne(disk0, Installs(g, disk0), Head(g, disk0[g.start], []));
      assert cache.trace == trace0 + RecoveryWrites(g, disk0);
      forall bn ensures !Pinned(cache.bufs, bn) {
        NothingPinned(cache.bufs, bn);
      }
    }

    /** `begin_op` up to its `sleep` or its return; no commit is under way. */
    method BeginOp() returns (admitted: bool)
      requires n <= |block|
      modifies this`outstanding
      ensures admitted <==> n + (old(outstanding) + 1) * MAXOPBLOCKS <= LOGSIZE
      ensures outstanding == old(outstanding) + if admitted then 1 else 0
    {
      if n + (outstanding + 1) * MAXOPBLOCKS > LOGSIZE {
        return false;
      }
      outstanding := outstanding + 1;
      return true;
    }

    /** `end_op`: the last operation commits. */
    method EndOp()
      requires Valid() && outstanding >= 1
      requires outstanding == 1 ==> LogFree(cache.bufs, g, List()) && SomeClean(cache.bufs)
      modifies this`n, this`outstanding, cache
      ensures Valid() && outstanding == old(outstanding) - 1
      ensures outstanding > 0 ==> unchanged(cache) && n == old(n)
      ensures outstanding == 0 ==>
                && n == 0 && SameHeld(old(cache.bufs), cache.bufs)
                && |old(cache.disk)| == |old(cache.latest)| == g.blocks && SameHome(g, cache.latest, old(cache.latest))
                && var ws := CommitWrites(g, old(cache.disk), old(cache.latest), old(List()));
                   cache.trace == old(cache.trace) + ws && cache.disk == Apply(old(cache.disk), ws)
    {
      hide Coherent, Lru.RingOk, Apply, CommitWrites, SameHeld, Pinned;
      outstanding := outstanding - 1;
      if outstanding == 0 {
        Commit();
      }
    }

    /** `log_write` of a buffer the caller holds. */
    method LogWrite(b: nat) returns (r: Logging)
      requires Valid() && b < |cache.bufs| && cache.bufs[b].busy && cache.bufs[b].valid
      requires g.Home(cache.bufs[b].blockno) && cache.bufs[b].blockno < WORD
      modifies this`n, this`block, cache`bufs
      ensures Valid()
      ensures r == if old(n) >= LOGSIZE || old(n) >= g.size - 1 then TooBig
                   else if outstanding < 1 then OutsideTrans else Recorded
      ensures r == Recorded ==>
                var bn := cache.bufs[b].blockno;
                && List() == (if bn in old(List()) then old(List()) else old(List()) + [bn])
                && cache.bufs == old(cache.bufs)[b := old(cache.bufs)[b].(dirty := true)]
      ensures r != Recorded ==> cache.bufs == old(cache.bufs) && List() == old(List())
    {
      if n >= LOGSIZE || n >= g.size - 1 {
        return TooBig;
      }
      if outstanding < 1 {
        return OutsideTrans;
      }
      ghost var l := List();
      var bn := cache.bufs[b].blockno;
      TiedMore(cache.bufs, cache.disk, cache.latest, l, b);
      hide Coherent, Lru.RingOk, Tied;
      var i := 0;
      while i < n && block[i] != bn
        invariant 0 <= i <= n && forall k :: 0 <= k < i ==> block[k] != bn
      {
        i := i + 1;
      }
      assert i < n ==> l[i] == bn;
      assert i == n ==> bn !in l;
      block := block[i := bn];
      if i == n {
        n := n + 1;
      }
      assert List() == if bn in l then l else l + [bn];
      cache.MarkDirty(b);
      return Recorded;
    }
  }

  datatype Logging = Recorded | TooBig | OutsideTrans

  lemma SameHeldRefl(bufs: seq<Buf>)
    ensures SameHeld(bufs, bufs)
  {
  }

  lemma SameHeldTrans(bufs0: seq<Buf>, bufs1: seq<Buf>, bufs2: seq<Buf>)
    requires SameHeld(bufs0, bufs1) && SameHeld(bufs1, bufs2)
    ensures SameHeld(bufs0, bufs2)
  {
  }

  lemma LogStaysFree(bufs: seq<Buf>, bufs': seq<Buf>, g: Geometry, l: seq<nat>)
    requires LogFree(bufs, g, l) && SameHeld(bufs, bufs') && g.Valid()
    ensures LogFree(bufs', g, l) && Unheld(bufs', g.start)
  {
    forall bn: nat | Unheld(bufs, bn) ensures Unheld(bufs', bn) {
    }
  }

  lemma LogUnheld(bufs: seq<Buf>, bufs': seq<Buf>, g: Geometry, l: seq<nat>, k: nat)
    requires LogFree(bufs, g, l) && SameHeld(bufs, bufs') && ListOk(g, l) && k < |l|
    ensures Unheld(bufs', g.start + k + 1) && Unheld(bufs', l[k])
  {
    assert Unheld(bufs, g.start + k + 1) && Unheld(bufs, l[k]);
  }

  lemma ListPinned(bufs: seq<Buf>, g: Geometry, l: seq<nat>)
    requires Tied(bufs, l) && ListOk(g, l) && g.Valid()
    ensures AllPinned(bufs, l, 0) && !Pinned(bufs, g.start)
  {
    hide Pinned;
  }

  /** Marking a buffer dirty pins its block and no other. */
  lemma TiedMore(bufs: seq<Buf>, disk: Disk, latest: Disk, l: seq<nat>, b: nat)
    requires Coherent(bufs, disk, latest) && Tied(bufs, l) && b < |bufs| && bufs[b].busy
    ensures var bn := bufs[b].blockno;
            Tied(bufs[b := bufs[b].(dirty := true)], if bn in l then l else l + [bn])
  {
    var bn, bufs' := bufs[b].blockno, bufs[b := bufs[b].(dirty := true)];
    assert BufAt(bufs, latest, b);
    forall c ensures Pinned(bufs', c) <==> c == bn || Pinned(bufs, c) {
      assert bufs'[b].Holds(bn) && bufs'[b].dirty;
      if i :| 0 <= i < |bufs| && bufs[i].Holds(c) && bufs[i].dirty {
        assert bufs'[i].Holds(c) && bufs'[i].dirty;
      }
      if i :| 0 <= i < |bufs| && i != b && bufs'[i].Holds(c) && bufs'[i].dirty {
        assert bufs[i].Holds(c) && bufs[i].dirty;
      }
    }
  }

  /** Copying to the log and installing what was copied leaves the home blocks' latest contents as they were. */
  lemma HomesKept(g: Geometry, view: Disk, l: seq<nat>, h: Block, h': Block)
    requires g.Valid() && |view| == g.blocks && ListOk(g, l)
    ensures var e := Apply(view, Copies(g, view, l))[g.start := h];
            SameHome(g, Apply(e, Homes(view, l))[g.start := h'], view)
  {
    hide Apply;
    var copies, homes := Copies(g, view, l), Homes(view, l);
    var e := Apply(view, copies)[g.start := h];
    forall bn | 0 <= bn < g.blocks && g.Home(bn) ensures Apply(e, homes)[g.start := h'][bn] == view[bn] {
      CopiesTouch(g, view, l, |l|, bn);
      assert copies[..|l|] == copies;
      ApplyUntouched(view, copies, bn);
      if Touches(homes, bn) {
        ApplyTouched(e, homes, bn, view[bn]);
      } else {
        ApplyUntouched(e, homes, bn);
      }
    }
  }

  lemma TwoStayClean(bufs: seq<Buf>, bufs': seq<Buf>)
    requires SameHeld(bufs, bufs') && NoneBusy(bufs) && NoneDirty(bufs') && TwoClean(bufs)
    ensures TwoClean(bufs')
  {
    var i, j :| 0 <= i < j < |bufs| && bufs[i].Reusable() && bufs[j].Reusable();
    assert bufs'[i].Reusable() && bufs'[j].Reusable();
  }

  lemma AllOnDisk(bufs: seq<Buf>, disk: Disk, latest: Disk)
    requires Coherent(bufs, disk, latest) && NoneBusy(bufs) && NoneDirty(bufs)
    ensures latest == disk
  {
    forall bn | 0 <= bn < |disk| ensures disk[bn] == latest[bn] {
      NothingPinned(bufs, bn);
      UnpinnedOnDisk(bufs, disk, latest, bn);
    }
  }

  /** Reading, writing and releasing one buffer pins nothing and unpins nothing else. */
  lemma HeadSettled(bufs: seq<Buf>, bufs': seq<Buf>, r: nat, bn: nat)
    requires r < |bufs| == |bufs'| && bufs' == bufs[r := bufs'[r]] && !Pinned(bufs, bn)
    requires bufs'[r].Holds(bn) && !bufs'[r].busy && !bufs'[r].dirty && !bufs[r].dirty && !bufs[r].busy
    ensures SameHeld(bufs, bufs') && SomeClean(bufs') && (NoneDirty(bufs) ==> NoneDirty(bufs'))
    ensures forall b :: Pinned(bufs', b) <==> Pinned(bufs, b)
  {
    assert bufs'[r].Reusable();
    forall b ensures Pinned(bufs', b) <==> Pinned(bufs, b) {
      if Pinned(bufs', b) {
        var i :| 0 <= i < |bufs'| && bufs'[i].Holds(b) && bufs'[i].dirty;
        assert bufs[i].Holds(b) && bufs[i].dirty;
      }
      if Pinned(bufs, b) {
        var i :| 0 <= i < |bufs| && bufs[i].Holds(b) && bufs[i].dirty;
        assert bufs'[i].Holds(b) && bufs'[i].dirty;
      }
    }
  }

  lemma NothingPinned(bufs: seq<Buf>, bn: nat)
    requires NoneDirty(bufs)
    ensures !Pinned(bufs, bn)
  {
  }

  lemma DuringWhole(g: Geometry, view: Disk, l: seq<nat>)
    requires g.Valid() && |view| == g.blocks && ListOk(g, l)
    ensures var e := Apply(view, Copies(g, view, l));
            e[g.start] == view[g.start] && forall k :: 0 <= k < |l| ==> e[g.start + 1 + k] == view[l[k]]
  {
    DuringCopies(g, view, view, l, |l|);
    assert Copies(g, view, l)[..|l|] == Copies(g, view, l);
  }

  /** With the log written, what gets installed is the cached data of the home blocks. */
  lemma InstallsAreHomes(g: Geometry, view: Disk, l: seq<nat>, now: Disk)
    requires g.Valid() && |view| == g.blocks == |now| && ListOk(g, l)
    requires forall k :: 0 <= k < |l| ==> now[g.start + 1 + k] == view[l[k]]
    ensures InstallsFrom(g, now, l) == Homes(view, l)
  {
  }

  lemma StartUntouched(g: Geometry, view: Disk, ws: seq<Write>)
    requires g.Valid() && |view| == g.blocks && (forall k :: 0 <= k < |ws| ==> g.Home(ws[k].bn))
    ensures Apply(view, ws)[g.start] == view[g.start]
  {
    hide Apply;
    ApplyUntouched(view, ws, g.start);
  }

  lemma Regroup(t: seq<Write>, a: seq<Write>, b: seq<Write>, c: seq<Write>, d: seq<Write>)
    ensures t + a + b + c + d == t + (a + b + c + d)
  {
  }

  lemma TraceIsCommit(g: Geometry, d: Disk, view: Disk, l: seq<nat>, t: seq<Write>)
    requires g.Valid() && |d| == |view| == g.blocks && ListOk(g, l) && l != []
    ensures var h := HeaderBlock(d[g.start], l);
            var ws := CommitWrites(g, d, view, l);
            && t + Copies(g, view, l) + [Write(g.start, h)] + Homes(view, l)
               + [Write(g.start, HeaderBlock(h, []))] == t + ws
            && Apply(d, ws)
               == Apply(Apply(d, Copies(g, view, l))[g.start := h], Homes(view, l))[g.start := HeaderBlock(h, [])]
  {
    hide Apply, HeaderBlock;
    var h := HeaderBlock(d[g.start], l);
    Regroup(t, Copies(g, view, l), [Write(g.start, h)], Homes(view, l), [Write(g.start, HeaderBlock(h, []))]);
    ApplyOne(d, Copies(g, view, l), Write(g.start, h));
    ApplyConcat(d, Copies(g, view, l) + [Write(g.start, h)], Homes(view, l));
    ApplyOne(d, Copies(g, view, l) + [Write(g.start, h)] + Homes(view, l), Write(g.start, HeaderBlock(h, [])));
  }

  /** Installing touches home blocks only, so the log data is still there to be read. */
  lemma InstallsKeepLog(g: Geometry, view: Disk, l: seq<nat>, n: nat)
    requires g.Valid() && |view| == g.blocks && ListOk(g, l) && n < |l|
    ensures Apply(view, InstallsFrom(g, view, l)[..n])[g.start + 1 + n] == view[g.start + 1 + n]
  {
    hide Apply;
    var all := InstallsFrom(g, view, l);
    forall k | 0 <= k < n ensures all[..n][k].bn != g.start + 1 + n {
      assert g.Home(l[k]);
    }
    ApplyUntouched(view, all[..n], g.start + 1 + n);
  }

  lemma SameLength(cache: Cache)
    requires cache.Valid()
    ensures |cache.disk| == |cache.latest|
  {
  }

  ghost predicate TwoRead(bufs: seq<Buf>, bufs': seq<Buf>, i: nat, j: nat, a: nat, b: nat, latest: Disk) {
    && i < |bufs| && j < |bufs| && i != j && a < |latest| && b < |latest|
    && bufs' == bufs[i := Buf(true, true, bufs[i].dirty, ROOTDEV, a, latest[a])]
                    [j := Buf(true, true, bufs[j].dirty, ROOTDEV, b, latest[b])]
    && !bufs[i].busy && !bufs[j].busy
    && (bufs[i].Holds(a) || (bufs[i].Reusable() && !Pinned(bufs, a)))
    && (bufs[j].Holds(b) || (bufs[j].Reusable() && !Pinned(bufs, b)))
  }

  lemma FirstReady(bufs: seq<Buf>, a: nat)
    requires Unheld(bufs, a) && SomeClean(bufs)
    ensures !(exists i :: 0 <= i < |bufs| && bufs[i].Holds(a) && bufs[i].busy)
    ensures Cached(bufs, a) || exists i :: 0 <= i < |bufs| && bufs[i].Reusable()
  {
  }

  /** An unpinned block's latest contents are on disk, unless somebody is using it. */
  lemma UnpinnedOnDisk(bufs: seq<Buf>, disk: Disk, latest: Disk, bn: nat)
    requires Coherent(bufs, disk, latest) && Unheld(bufs, bn) && bn < |disk| && !Pinned(bufs, bn)
    ensures disk[bn] == latest[bn]
  {
    assert BlockAt(bufs, disk, latest, bn);
  }

  /** The source of a copy is still pinned afterwards, or is on disk. */
  lemma SourceKept(bufs: seq<Buf>, disk: Disk, latest: Disk, bn: nat, r: nat)
    requires Coherent(bufs, disk, latest) && Unheld(bufs, bn) && bn < |disk| && r < |bufs|
    requires bufs[r].Holds(bn) || !Pinned(bufs, bn)
    ensures (bufs[r].Holds(bn) && bufs[r].dirty) || disk[bn] == latest[bn]
  {
    if !(bufs[r].Holds(bn) && bufs[r].dirty) {
      forall i | 0 <= i < |bufs| && bufs[i].Holds(bn) ensures !bufs[i].dirty {
        assert !Twins(bufs, r, i);
      }
      UnpinnedOnDisk(bufs, disk, latest, bn);
    }
  }

  lemma CleanNotPinned(bufs: seq<Buf>, disk: Disk, latest: Disk, i: nat, bn: nat)
    requires Coherent(bufs, disk, latest) && i < |bufs| && bufs[i].Holds(bn) && !bufs[i].dirty
    ensures !Pinned(bufs, bn)
  {
    forall k | 0 <= k < |bufs| && bufs[k].Holds(bn) ensures !bufs[k].dirty {
      assert !Twins(bufs, i, k);
    }
  }

  lemma SettledBy(bufs: seq<Buf>, bufs': seq<Buf>, s: nat, d: nat, src: nat, dst: nat)
    requires s < |bufs| && d < |bufs| && s != d && |bufs'| == |bufs| && src != dst && !bufs[s].busy && !bufs[d].busy
    requires bufs' == bufs[s := bufs'[s]][d := bufs'[d]]
    requires bufs'[s].Holds(src) && !bufs'[s].busy && bufs'[s].dirty == bufs[s].dirty
    requires bufs[s].dirty ==> bufs[s].Holds(src)
    requires bufs'[d].Holds(dst) && !bufs'[d].busy && !bufs'[d].dirty
    requires bufs[d].dirty ==> bufs[d].Holds(dst)
    ensures Settled(bufs, bufs', dst)
  {
    assert bufs'[d].Reusable();
    assert NoneDirty(bufs) ==> bufs'[s].Reusable();
    forall bn | Pinned(bufs', bn) ensures Pinned(bufs, bn) {
      var i :| 0 <= i < |bufs'| && bufs'[i].Holds(bn) && bufs'[i].dirty;
      assert bufs[i].Holds(bn) && bufs[i].dirty;
    }
    forall bn | bn != dst && Pinned(bufs, bn) ensures Pinned(bufs', bn) {
      var i :| 0 <= i < |bufs| && bufs[i].Holds(bn) && bufs[i].dirty;
      assert bufs'[i].Holds(bn) && bufs'[i].dirty;
    }
  }

  /** After the first `bread`, the second finds its block or a buffer. */
  lemma SecondReady(bufs0: seq<Buf>, bufs1: seq<Buf>, r: nat, a: nat, b: nat)
    requires r < |bufs0| == |bufs1| && bufs1 == bufs0[r := bufs1[r]] && bufs1[r].Holds(a) && a != b && Unheld(bufs0, b)
    requires bufs0[r].Holds(a) || bufs0[r].Reusable()
    requires Pinned(bufs0, b) || TwoClean(bufs0)
    ensures !(exists i :: 0 <= i < |bufs1| && bufs1[i].Holds(b) && bufs1[i].busy)
    ensures Cached(bufs1, b) || exists i :: 0 <= i < |bufs1| && bufs1[i].Reusable()
    ensures Pinned(bufs0, b) ==> Cached(bufs1, b)
  {
    if Pinned(bufs0, b) {
      var i :| 0 <= i < |bufs0| && bufs0[i].Holds(b) && bufs0[i].dirty;
      assert bufs1[i].Holds(b);
    } else {
      var i, j :| 0 <= i < j < |bufs0| && bufs0[i].Reusable() && bufs0[j].Reusable();
      assert bufs1[if r == i then j else i].Reusable();
    }
  }
}
