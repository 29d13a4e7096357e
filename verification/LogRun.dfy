/** Operations at work on the log and the cache together: any number of processes hold any number of buffers,
    read, change, log and release them, and the last operation to end commits. */
module LogRun {
  import opened Bytes
  import opened Redo
  import opened BufferCache
  import opened Log
  import opened Sets

  /** What the calls below change; `list` is `log.lh` in memory. */
  datatype Sys = Sys(bufs: seq<Buf>, disk: Disk, latest: Disk, list: seq<nat>, outstanding: nat, trace: seq<Write>)

  datatype Call = Begin | Get(bn: nat) | Change(b: nat, data: Block) | LogIt(b: nat) | Release(b: nat) | End

  ghost predicate SysOk(g: Geometry, s: Sys) {
    && Coherent(s.bufs, s.disk, s.latest) && DiskOk(g, s.disk) && Logged(g, s.disk) == []
    && ListOk(g, s.list) && NoRepeats(s.list) && Tied(s.bufs, s.list)
  }

  predicate Held(s: Sys, b: nat) {
    b < |s.bufs| && s.bufs[b].busy && s.bufs[b].valid && s.bufs[b].dev == ROOTDEV && s.bufs[b].blockno < |s.disk|
  }

  /** What `bread` may take for block `bn`. */
  ghost predicate Gets(s: Sys, bn: nat, b: nat) {
    && b < |s.bufs| && !s.bufs[b].busy
    && (s.bufs[b].Holds(bn) || (!Cached(s.bufs, bn) && s.bufs[b].Reusable()))
  }

  ghost function Read(s: Sys, bn: nat, b: nat): Buf
    requires b < |s.bufs| && bn < |s.latest|
  {
    Buf(true, true, s.bufs[b].dirty, ROOTDEV, bn, s.latest[bn])
  }

  ghost function With(s: Sys, b: nat, x: Buf): Sys
    requires b < |s.bufs|
  {
    s.(bufs := s.bufs[b := x])
  }

  /** The call `c` may take `s` to `s'`.  A `bread` that has to sleep, and a `begin_op` that is not admitted, change
      nothing; a call that panics has no successor.  A holder who has changed a buffer logs it before releasing it. */
  ghost predicate Does(g: Geometry, s: Sys, c: Call, s': Sys) {
    match c
    case Begin => s' == s || s' == s.(outstanding := s.outstanding + 1)
    case Get(bn) =>
      && bn < |s.latest|
      && (s' == s || exists b: nat :: Gets(s, bn, b) && s' == With(s, b, Read(s, bn, b)))
    case Change(b, data) =>
      && Held(s, b) && g.Home(s.bufs[b].blockno) && s.bufs[b].blockno < |s.latest|
      && s' == With(s, b, s.bufs[b].(data := data)).(latest := s.latest[s.bufs[b].blockno := data])
    case LogIt(b) =>
      && Held(s, b) && g.Home(s.bufs[b].blockno) && s.bufs[b].blockno < WORD
      && |s.list| < LOGSIZE && |s.list| < g.size - 1 && s.outstanding >= 1
      && var bn := s.bufs[b].blockno;
         s' == With(s, b, s.bufs[b].(dirty := true)).(list := if bn in s.list then s.list else s.list + [bn])
    case Release(b) =>
      && Held(s, b) && (s.bufs[b].dirty || s.disk[s.bufs[b].blockno] == s.bufs[b].data)
      && s' == With(s, b, s.bufs[b].(busy := false))
    case End =>
      && s.outstanding >= 1
      && if s.outstanding > 1 then s' == s.(outstanding := s.outstanding - 1) else Commits(g, s, s')
  }

  /** The commit of the last operation. */
  ghost predicate Commits(g: Geometry, s: Sys, s': Sys) {
    && LogFree(s.bufs, g, s.list) && SomeClean(s.bufs) && g.Valid() && |s.disk| == |s.latest| == g.blocks
    && ListOk(g, s.list)
    && s'.outstanding == 0 && s'.list == [] && SameHeld(s.bufs, s'.bufs) && SameHome(g, s'.latest, s.latest)
    && Coherent(s'.bufs, s'.disk, s'.latest) && Tied(s'.bufs, [])
    && var ws := CommitWrites(g, s.disk, s.latest, s.list);
       s'.trace == s.trace + ws && s'.disk == Apply(s.disk, ws)
  }

  // ---- The calls ----

  ghost function Now(log: RedoLog): Sys
    requires log.n <= |log.block|
    reads log, log.cache
  {
    Sys(log.cache.bufs, log.cache.disk, log.cache.latest, log.List(), log.outstanding, log.cache.trace)
  }

  method DoBegin(log: RedoLog) returns (admitted: bool)
    requires log.Valid()
    modifies log`outstanding
    ensures log.Valid() && Does(log.g, old(Now(log)), Begin, Now(log))
  {
    hide Coherent, Lru.RingOk;
    admitted := log.BeginOp();
  }

  method DoGet(log: RedoLog, bn: nat) returns (r: Got)
    requires log.Valid() && bn < |log.cache.disk|
    modifies log.cache`bufs
    ensures log.Valid() && Does(log.g, old(Now(log)), Get(bn), Now(log))
    ensures r.Ready? ==> Held(Now(log), r.b) && log.cache.bufs[r.b].Holds(bn)
    ensures r.Ready? ==> log.cache.bufs[r.b].data == log.cache.latest[bn]
  {
    ghost var s := Now(log);
    r := log.cache.Bread(bn);
    SameLength(log.cache);
    if r.Ready? {
      assert Gets(s, bn, r.b);
      GetKeepsTie(s.bufs, s.disk, s.latest, s.list, bn, r.b);
    }
  }

  method DoChange(log: RedoLog, b: nat, data: Block)
    requires log.Valid() && Held(Now(log), b) && log.g.Home(log.cache.bufs[b].blockno)
    modifies log.cache`bufs, log.cache`latest
    ensures log.Valid() && Does(log.g, old(Now(log)), Change(b, data), Now(log))
  {
    ghost var bufs := log.cache.bufs;
    SameLength(log.cache);
    log.cache.Store(b, data);
    hide Coherent, Lru.RingOk;
    SamePins(bufs, log.cache.bufs, b);
  }

  method DoLog(log: RedoLog, b: nat) returns (r: Logging)
    requires log.Valid() && Held(Now(log), b) && log.g.Home(log.cache.bufs[b].blockno)
             && log.cache.bufs[b].blockno < WORD
    modifies log`n, log`block, log.cache`bufs
    ensures log.Valid() && (r == Recorded ==> Does(log.g, old(Now(log)), LogIt(b), Now(log)))
  {
    hide Coherent, Lru.RingOk, Tied;
    r := log.LogWrite(b);
  }

  method DoRelease(log: RedoLog, b: nat)
    requires log.Valid() && Held(Now(log), b)
    requires var x := log.cache.bufs[b]; x.dirty || log.cache.disk[x.blockno] == x.data
    modifies log.cache`bufs, log.cache`next, log.cache`prev, log.cache`ring
    ensures log.Valid() && Does(log.g, old(Now(log)), Release(b), Now(log))
  {
    ghost var bufs := log.cache.bufs;
    log.cache.Brelse(b);
    hide Coherent, Lru.RingOk;
    SamePins(bufs, log.cache.bufs, b);
  }

  method DoEnd(log: RedoLog)
    requires log.Valid() && log.outstanding >= 1
    requires log.outstanding == 1 ==> LogFree(log.cache.bufs, log.g, log.List()) && SomeClean(log.cache.bufs)
    modifies log`n, log`outstanding, log.cache
    ensures log.Valid() && Does(log.g, old(Now(log)), End, Now(log))
  {
    hide Coherent, Lru.RingOk, Apply, CommitWrites, SameHeld, Tied, NoRepeats;
    SameLength(log.cache);
    log.EndOp();
  }

  // ---- What every call keeps ----

  /** A buffer that keeps its block and its dirty bit keeps what is pinned. */
  lemma SamePins(bufs: seq<Buf>, bufs': seq<Buf>, b: nat)
    requires b < |bufs| == |bufs'| && bufs' == bufs[b := bufs'[b]]
    requires bufs'[b].dirty == bufs[b].dirty && bufs'[b].dev == bufs[b].dev && bufs'[b].blockno == bufs[b].blockno
    ensures forall bn :: Pinned(bufs', bn) <==> Pinned(bufs, bn)
  {
    forall bn ensures Pinned(bufs', bn) <==> Pinned(bufs, bn) {
      if i :| 0 <= i < |bufs| && bufs[i].Holds(bn) && bufs[i].dirty {
        assert bufs'[i].Holds(bn) && bufs'[i].dirty;
      }
      if i :| 0 <= i < |bufs| && bufs'[i].Holds(bn) && bufs'[i].dirty {
        assert bufs[i].Holds(bn) && bufs[i].dirty;
      }
    }
  }

  /** `bread` recycles no pinned buffer. */
  lemma GetKeepsTie(bufs: seq<Buf>, disk: Disk, latest: Disk, l: seq<nat>, bn: nat, b: nat)
    requires Tied(bufs, l) && b < |bufs| && bn < |latest| && (bufs[b].Holds(bn) || bufs[b].Reusable())
    ensures Tied(bufs[b := Buf(true, true, bufs[b].dirty, ROOTDEV, bn, latest[bn])], l)
  {
    var bufs' := bufs[b := Buf(true, true, bufs[b].dirty, ROOTDEV, bn, latest[bn])];
    forall c ensures Pinned(bufs', c) <==> Pinned(bufs, c) {
      if i :| 0 <= i < |bufs| && bufs[i].Holds(c) && bufs[i].dirty {
        assert bufs'[i].Holds(c) && bufs'[i].dirty;
      }
      if i :| 0 <= i < |bufs| && bufs'[i].Holds(c) && bufs'[i].dirty {
        assert bufs[i].Holds(c) && bufs[i].dirty;
      }
    }
  }

  lemma GetKeeps(g: Geometry, s: Sys, bn: nat, b: nat)
    requires SysOk(g, s) && bn < |s.latest| && Gets(s, bn, b)
    ensures SysOk(g, With(s, b, Read(s, bn, b)))
  {
    var x := Read(s, bn, b);
    assert BufAt(s.bufs, s.latest, b) && BlockAt(s.bufs, s.disk, s.latest, bn);
    ChangeKeeps(s.bufs, s.disk, s.latest, b, x, s.disk, s.latest);
    hide Coherent;
    GetKeepsTie(s.bufs, s.disk, s.latest, s.list, bn, b);
  }

  lemma ChangeKeepsSys(g: Geometry, s: Sys, b: nat, data: Block)
    requires SysOk(g, s) && Held(s, b) && s.bufs[b].blockno < |s.latest|
    ensures SysOk(g, With(s, b, s.bufs[b].(data := data)).(latest := s.latest[s.bufs[b].blockno := data]))
  {
    var x, latest' := s.bufs[b].(data := data), s.latest[s.bufs[b].blockno := data];
    assert BufAt(s.bufs, s.latest, b);
    ChangeKeeps(s.bufs, s.disk, s.latest, b, x, s.disk, latest');
    hide Coherent;
    SamePins(s.bufs, s.bufs[b := x], b);
  }

  lemma LogKeeps(g: Geometry, s: Sys, b: nat, s': Sys)
    requires SysOk(g, s) && Does(g, s, LogIt(b), s')
    ensures SysOk(g, s')
  {
    assert BufAt(s.bufs, s.latest, b);
    ChangeKeeps(s.bufs, s.disk, s.latest, b, s.bufs[b].(dirty := true), s.disk, s.latest);
    TiedMore(s.bufs, s.disk, s.latest, s.list, b);
  }

  lemma ReleaseKeeps(g: Geometry, s: Sys, b: nat, s': Sys)
    requires SysOk(g, s) && Does(g, s, Release(b), s')
    ensures SysOk(g, s')
  {
    assert BufAt(s.bufs, s.latest, b);
    ChangeKeeps(s.bufs, s.disk, s.latest, b, s.bufs[b].(busy := false), s.disk, s.latest);
    hide Coherent;
    SamePins(s.bufs, s'.bufs, b);
  }

  lemma CommitKeeps(g: Geometry, s: Sys, s': Sys)
    requires SysOk(g, s) && Commits(g, s, s')
    ensures SysOk(g, s')
  {
    hide Coherent, Apply, Tied;
    var ws := CommitWrites(g, s.disk, s.latest, s.list);
    CommitAtomic(g, s.disk, s.latest, s.list, |ws|);
    assert ws[..|ws|] == ws;
  }

  lemma CallKeeps(g: Geometry, s: Sys, c: Call, s': Sys)
    requires SysOk(g, s) && Does(g, s, c, s')
    ensures SysOk(g, s')
  {
    match c
    case Begin =>
    case Get(bn) =>
      if s' != s {
        var b: nat :| Gets(s, bn, b) && s' == With(s, b, Read(s, bn, b));
        GetKeeps(g, s, bn, b);
      }
    case Change(b, data) => ChangeKeepsSys(g, s, b, data);
    case LogIt(b) => LogKeeps(g, s, b, s');
    case Release(b) => ReleaseKeeps(g, s, b, s');
    case End =>
      if s.outstanding == 1 {
        CommitKeeps(g, s, s');
      }
  }

  // ---- Runs ----

  /** A run: states with the calls between them, from what `recover_from_log` leaves. */
  ghost predicate IsRun(g: Geometry, run: seq<Sys>, calls: seq<Call>) {
    && |run| == |calls| + 1
    && SysOk(g, run[0]) && run[0].list == [] && run[0].outstanding == 0 && run[0].latest == run[0].disk
    && forall i :: 0 <= i < |calls| ==> StepAt(g, run, calls, i)
  }

  ghost predicate StepAt(g: Geometry, run: seq<Sys>, calls: seq<Call>, i: nat)
    requires i < |calls| && |run| == |calls| + 1
  {
    Does(g, run[i], calls[i], run[i + 1])
  }

  /** In every run, after every call: the cache is coherent, exactly the logged blocks are pinned, none is logged
      twice, and the log on disk is empty. */
  lemma {:induction false} RunKeeps(g: Geometry, run: seq<Sys>, calls: seq<Call>, i: nat)
    requires IsRun(g, run, calls) && i < |run|
    ensures SysOk(g, run[i])
  {
    hide SysOk, Does;
    if i > 0 {
      RunKeeps(g, run, calls, i - 1);
      assert StepAt(g, run, calls, i - 1);
      CallKeeps(g, run[i - 1], calls[i - 1], run[i]);
    }
  }

  /** A dirty buffer keeps its block, its dirty bit and the block's latest contents until the next commit. */
  lemma PinnedBuffer(g: Geometry, s: Sys, c: Call, s': Sys, b: nat)
    requires SysOk(g, s) && Does(g, s, c, s') && !(c.End? && s.outstanding == 1) && b < |s.bufs| && s.bufs[b].dirty
    ensures b < |s'.bufs| && s'.bufs[b].dirty && s'.bufs[b].dev == s.bufs[b].dev
            && s'.bufs[b].blockno == s.bufs[b].blockno
  {
    hide Coherent, Tied;
  }

  ghost predicate NoCommit(run: seq<Sys>, calls: seq<Call>, i: nat, j: nat)
    requires |run| == |calls| + 1 && j <= |calls|
  {
    forall k :: i <= k < j ==> !(calls[k].End? && run[k].outstanding == 1)
  }

  /** A logged block is never recycled before its commit: in every run it stays in the one buffer it was logged in,
      dirty, with the data last stored in it. */
  lemma {:induction false} LoggedStays(g: Geometry, run: seq<Sys>, calls: seq<Call>, i: nat, j: nat, b: nat)
    requires IsRun(g, run, calls) && i <= j < |run| && NoCommit(run, calls, i, j)
    requires b < |run[i].bufs| && run[i].bufs[b].dirty
    ensures b < |run[j].bufs| && run[j].bufs[b].dirty && run[j].bufs[b].Holds(run[i].bufs[b].blockno)
    ensures run[i].bufs[b].blockno in run[j].list && run[i].bufs[b].blockno < |run[j].latest|
    ensures run[j].bufs[b].data == run[j].latest[run[i].bufs[b].blockno]
  {
    RunKeeps(g, run, calls, j);
    hide Does;
    if i < j {
      LoggedStays(g, run, calls, i, j - 1, b);
      RunKeeps(g, run, calls, j - 1);
      assert StepAt(g, run, calls, j - 1);
      PinnedBuffer(g, run[j - 1], calls[j - 1], run[j], b);
    }
    DirtyHolds(g, run[j], b);
  }

  lemma DirtyHolds(g: Geometry, s: Sys, b: nat)
    requires SysOk(g, s) && b < |s.bufs| && s.bufs[b].dirty
    ensures s.bufs[b].dev == ROOTDEV && s.bufs[b].blockno in s.list
    ensures s.bufs[b].blockno < |s.latest| && s.bufs[b].data == s.latest[s.bufs[b].blockno]
  {
    assert BufAt(s.bufs, s.latest, b);
    assert s.bufs[b].Holds(s.bufs[b].blockno);
  }

  /** The disk's contents with all stores so far applied, each to the block the buffer then held. */
  ghost function Stored(run: seq<Sys>, calls: seq<Call>, i: nat): (d: Disk)
    requires |run| == |calls| + 1 && i < |run|
    ensures |d| == |run[0].disk|
  {
    if i == 0 then run[0].disk else StoredBy(run[i - 1], calls[i - 1], Stored(run, calls, i - 1))
  }

  ghost function StoredBy(s: Sys, c: Call, d: Disk): (d': Disk)
    ensures |d'| == |d|
  {
    if c.Change? && c.b < |s.bufs| && s.bufs[c.b].blockno < |d| then d[s.bufs[c.b].blockno := c.data] else d
  }

  /** What `bread` shows and `commit` writes is, for every home block, the data last stored in it. */
  lemma {:induction false} LatestIsStored(g: Geometry, run: seq<Sys>, calls: seq<Call>, i: nat)
    requires IsRun(g, run, calls) && i < |run|
    ensures SameHome(g, run[i].latest, Stored(run, calls, i))
  {
    hide SysOk, Does, SameHome, StoredBy;
    if i == 0 {
      LatestAtStart(g, run[0]);
    } else {
      LatestIsStored(g, run, calls, i - 1);
      RunKeeps(g, run, calls, i - 1);
      assert StepAt(g, run, calls, i - 1);
      LatestChange(g, run[i - 1], calls[i - 1], run[i], Stored(run, calls, i - 1));
    }
  }

  lemma LatestAtStart(g: Geometry, s: Sys)
    requires SysOk(g, s) && s.latest == s.disk
    ensures SameHome(g, s.latest, s.disk)
  {
  }

  lemma LatestChange(g: Geometry, s: Sys, c: Call, s': Sys, d: Disk)
    requires SysOk(g, s) && Does(g, s, c, s') && SameHome(g, s.latest, d)
    ensures SameHome(g, s'.latest, StoredBy(s, c, d))
  {
    hide Coherent, Tied, CommitWrites, Apply;
  }

  /** Each commit of a run writes exactly `CommitWrites` of the data last stored, and a crash after any of those
      writes is recovered to all of it or to none of it.  (The state before it is sound by `RunKeeps`.) */
  lemma CommitOfLastData(g: Geometry, run: seq<Sys>, calls: seq<Call>, i: nat, k: nat)
    requires IsRun(g, run, calls) && i < |calls| && calls[i].End? && run[i].outstanding == 1
    requires SysOk(g, run[i]) && k <= |CommitWrites(g, run[i].disk, run[i].latest, run[i].list)|
    ensures var s, ws := run[i], CommitWrites(g, run[i].disk, run[i].latest, run[i].list);
            && run[i + 1].trace == s.trace + ws && run[i + 1].disk == Apply(s.disk, ws) && run[i + 1].list == []
            && (forall m :: 0 <= m < |s.list| ==> s.list[m] < g.blocks == |Stored(run, calls, i)|
                                                   && s.latest[s.list[m]] == Stored(run, calls, i)[s.list[m]])
            && var e := Apply(s.disk, ws[..k]);
               && DiskOk(g, e)
               && SameHome(g, Recovered(g, e), if k <= |s.list| then s.disk else Overlay(s.disk, s.latest, s.list))
  {
    hide Apply, Tied, Stored, CommitWrites;
    LatestIsStored(g, run, calls, i);
    assert StepAt(g, run, calls, i);
    CommitAtomic(g, run[i].disk, run[i].latest, run[i].list, k);
  }

  /** `recover_from_log` at boot leaves a state from which runs start. */
  method DoRecover(log: RedoLog)
    requires log.cache.Valid() && log.g.Valid() && |log.cache.disk| == log.g.blocks && |log.block| == LOGSIZE
    requires NoneBusy(log.cache.bufs) && NoneDirty(log.cache.bufs) && |log.cache.bufs| >= 2
             && DiskOk(log.g, log.cache.disk)
    requires log.outstanding == 0
    modifies log`n, log`block, log.cache
    ensures log.Valid() && IsRun(log.g, [Now(log)], [])
    ensures SameHome(log.g, log.cache.disk, Recovered(log.g, old(log.cache.disk)))
  {
    ghost var d := log.cache.disk;
    log.RecoverFromLog();
    hide Coherent, Lru.RingOk, Apply, Tied;
    ghost var ws := RecoveryWrites(log.g, d);
    RecoveryAtomic(log.g, d, |ws|);
    assert ws[..|ws|] == ws && log.List() == [];
  }
}
