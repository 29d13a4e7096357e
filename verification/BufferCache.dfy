/** The buffer cache (bio.c): at most one buffer per block, least-recently-used replacement of clean
    free buffers, and coherence with the disk.

    `iderw` is one atomic read or write, as in memide.c.  There is one device; `dev` is -1 in a buffer
    that never held a block.  The ghost `latest` is what was last stored in each block through any
    buffer, and `trace` the disk writes so far. */
module BufferCache {
  import opened Bytes
  import opened Redo
  import opened Lru
  import opened Sets

  const ROOTDEV := 1

  datatype Buf = Buf(busy: bool, valid: bool, dirty: bool, dev: int, blockno: nat, data: Block)
  {
    predicate Holds(bn: nat) { dev == ROOTDEV && blockno == bn }
    predicate Reusable() { !busy && !dirty }
  }

  // ---- Coherence ----

  ghost predicate BufAt(bufs: seq<Buf>, latest: Disk, i: nat)
    requires i < |bufs|
  {
    var b := bufs[i];
    if b.dev == ROOTDEV then
      b.blockno < |latest| && (b.dirty ==> b.valid) && (if b.valid then b.data == latest[b.blockno] else b.busy)
    else b.dev == -1 && !b.valid && !b.dirty && !b.busy
  }

  ghost predicate Twins(bufs: seq<Buf>, i: nat, j: nat)
    requires i < |bufs| && j < |bufs|
  {
    i != j && bufs[i].dev == ROOTDEV && bufs[j].Holds(bufs[i].blockno)
  }

  ghost predicate Keeps(bufs: seq<Buf>, i: nat, bn: nat) {
    i < |bufs| && bufs[i].Holds(bn) && bufs[i].valid && (bufs[i].dirty || bufs[i].busy)
  }

  /** A block whose latest contents are not on disk is in a buffer that cannot be recycled. */
  ghost predicate BlockAt(bufs: seq<Buf>, disk: Disk, latest: Disk, bn: nat)
    requires bn < |disk| == |latest|
  {
    disk[bn] == latest[bn] || exists i :: Keeps(bufs, i, bn)
  }

  ghost predicate Coherent(bufs: seq<Buf>, disk: Disk, latest: Disk) {
    && |disk| == |latest|
    && (forall i :: 0 <= i < |bufs| ==> BufAt(bufs, latest, i))
    && (forall i, j :: 0 <= i < |bufs| && 0 <= j < |bufs| ==> !Twins(bufs, i, j))
    && (forall bn :: 0 <= bn < |disk| ==> BlockAt(bufs, disk, latest, bn))
  }

  ghost predicate Cached(bufs: seq<Buf>, bn: nat) {
    exists i :: 0 <= i < |bufs| && bufs[i].Holds(bn)
  }

  /** A clean free buffer holds what is on disk. */
  lemma CleanIsOnDisk(bufs: seq<Buf>, disk: Disk, latest: Disk, i: nat)
    requires Coherent(bufs, disk, latest) && i < |bufs| && bufs[i].dev == ROOTDEV
             && !(bufs[i].valid && (bufs[i].dirty || bufs[i].busy))
    ensures bufs[i].blockno < |disk| && disk[bufs[i].blockno] == latest[bufs[i].blockno]
  {
    assert BufAt(bufs, latest, i);
    assert BlockAt(bufs, disk, latest, bufs[i].blockno);
    forall k: nat ensures !Keeps(bufs, k, bufs[i].blockno) {
      if k < |bufs| {
        assert !Twins(bufs, i, k);
      }
    }
  }

  /** Changing buffer `i` to `b` keeps coherence, given that it does so at `i`. */
  lemma ChangeKeeps(bufs: seq<Buf>, disk: Disk, latest: Disk, i: nat, b: Buf, disk': Disk, latest': Disk)
    requires Coherent(bufs, disk, latest) && i < |bufs| && |disk'| == |latest'| == |disk|
    requires BufAt(bufs[i := b], latest', i)
    requires b.dev == ROOTDEV && (bufs[i].Holds(b.blockno) || !Cached(bufs, b.blockno))
    requires forall bn :: 0 <= bn < |disk| && bn != b.blockno ==> disk'[bn] == disk[bn] && latest'[bn] == latest[bn]
    requires (b.valid && (b.dirty || b.busy)) || disk'[b.blockno] == latest'[b.blockno]
    requires bufs[i].Holds(b.blockno) || !(bufs[i].dirty || bufs[i].busy)
    ensures Coherent(bufs[i := b], disk', latest')
  {
    var bufs' := bufs[i := b];
    forall k | 0 <= k < |bufs| ensures BufAt(bufs', latest', k) {
      assert BufAt(bufs, latest, k) && !Twins(bufs, i, k);
    }
    forall j, k | 0 <= j < |bufs| && 0 <= k < |bufs| ensures !Twins(bufs', j, k) {
      assert !Twins(bufs, j, k) && !Twins(bufs, i, k) && !Twins(bufs, i, j);
    }
    forall bn | 0 <= bn < |disk| ensures BlockAt(bufs', disk', latest', bn) {
      assert BlockAt(bufs, disk, latest, bn);
      if bn == b.blockno {
        assert Keeps(bufs', i, bn) || disk'[bn] == latest'[bn];
      } else if k :| Keeps(bufs, k, bn) {
        assert Keeps(bufs', k, bn);
      }
    }
  }

  /** The buffer at list position `i` is free and clean, and none behind it is. */
  ghost predicate LeastRecentAt(ring: seq<nat>, bufs: seq<Buf>, i: nat)
    requires i < |ring|
  {
    && ring[i] < |bufs| && bufs[ring[i]].Reusable()
    && forall k :: i < k < |ring| ==> ring[k] < |bufs| && !bufs[ring[k]].Reusable()
  }

  /** Buffer `b` is the least recently used of those that may be recycled. */
  ghost predicate LeastRecent(ring: seq<nat>, bufs: seq<Buf>, b: nat) {
    b < |bufs| && bufs[b].Reusable() && exists i :: 0 < i < |ring| && ring[i] == b && LeastRecentAt(ring, bufs, i)
  }

  function Unused(): Buf {
    Buf(false, false, false, -1, 0, seq(BSIZE, k => 0))
  }

  lemma UnusedHasNone()
    ensures Unused().dev == -1
  {
  }

  lemma NothingCached(bufs: seq<Buf>, d: Disk)
    requires forall i :: 0 <= i < |bufs| ==> bufs[i] == Unused()
    ensures Coherent(bufs, d, d)
  {
    forall i | 0 <= i < |bufs| ensures BufAt(bufs, d, i) {
    }
    forall bn | 0 <= bn < |d| ensures BlockAt(bufs, d, d, bn) {
    }
  }

  /** The list after `binit`'s loop has put in buffers 0..b, for `n` buffers and the head `n`. */
  ghost predicate Threaded(next: seq<nat>, prev: seq<nat>, ring: seq<nat>, n: nat, b: nat) {
    && |next| == |prev| == n + 1 && |ring| == b + 1 && ring[0] == n
    && NoRepeats(ring) && InRange(ring, n + 1) && Links(next, prev, ring)
    && forall i :: 1 <= i <= b ==> ring[i] == b - i
  }

  lemma Thread(next: seq<nat>, prev: seq<nat>, ring: seq<nat>, n: nat, b: nat)
    requires Threaded(next, prev, ring, n, b) && b < n
    ensures next[n] < |prev|
    ensures Threaded(next[b := next[n]][n := b], prev[b := n][next[n] := b], InsertFront(ring, b), n, b + 1)
  {
    assert LinkAt(next, prev, ring, 0);
    InsertLinks(next, prev, ring, b);
    InsertNoRepeats(ring, b);
    var ring' := InsertFront(ring, b);
    assert ring'[1] == b && forall i :: 2 <= i <= b + 1 ==> ring'[i] == ring[i - 1];
  }

  /** What `bget` finds: a free buffer, a busy one to sleep on, or nothing to recycle. */
  datatype Got = Ready(b: nat) | MustSleep(b: nat) | NoBuffers

  class Cache {
    var disk: Disk
    var bufs: seq<Buf>
    var next: seq<nat>
    var prev: seq<nat>
    ghost var ring: seq<nat>
    ghost var latest: Disk
    ghost var trace: seq<Write>

    ghost predicate Valid()
      reads this
    {
      RingOk(next, prev, ring, |bufs|) && Coherent(bufs, disk, latest)
    }

    /** `binit`: every buffer in the list, the last one first. */
    constructor (d: Disk, n: nat)
      ensures Valid() && |bufs| == n && disk == d && latest == d && trace == []
      ensures forall i :: 0 <= i < n ==> bufs[i].dev == -1
      ensures forall i :: 1 <= i <= n ==> ring[i] == n - i
    {
      disk, latest, trace := d, d, [];
      bufs := seq(n, _ => Unused());
      next, prev := seq(n + 1, _ => n), seq(n + 1, _ => n);
      ring := [n];
      new;
      hide Coherent, Unused;
      NothingCached(bufs, d);
      assert LinkAt(next, prev, ring, 0);
      for b := 0 to n
        invariant |bufs| == n && disk == latest == d && trace == [] && Coherent(bufs, disk, latest)
        invariant forall i :: 0 <= i < n ==> bufs[i] == Unused()
        invariant Threaded(next, prev, ring, n, b)
      {
        Thread(next, prev, ring, n, b);
        next := next[b := next[n]];
        prev := prev[b := n];
        prev := prev[next[n] := b];
        next := next[n := b];
        ring := InsertFront(ring, b);
      }
      assert forall i :: 0 <= i < n ==> bufs[i].dev == Unused().dev;
      UnusedHasNone();
    }

    /** The first loop of `bget`: look for the block in list order. */
    method Find(bn: nat) returns (found: bool, b: nat)
      requires Valid()
      ensures found <==> Cached(bufs, bn)
      ensures found ==> b < |bufs| && bufs[b].Holds(bn)
    {
      ghost var i := 1;
      assert LinkAt(next, prev, ring, 0);
      b := next[|bufs|];
      while b != |bufs|
        invariant 1 <= i <= |ring| && b == if i < |ring| then ring[i] else |bufs|
        invariant forall k :: 1 <= k < i ==> !bufs[ring[k]].Holds(bn)
        decreases |ring| - i
      {
        assert ring[0] != ring[i];
        if bufs[b].dev == ROOTDEV && bufs[b].blockno == bn {
          return true, b;
        }
        assert LinkAt(next, prev, ring, i);
        b := next[b];
        i := i + 1;
      }
      HeadIsFirst(ring, i);
      forall k | 0 <= k < |bufs| ensures !bufs[k].Holds(bn) {
        Present(ring, |bufs|, k);
        var j :| 0 <= j < |ring| && ring[j] == k;
      }
      found := false;
    }

    /** The second loop of `bget`: the least recently used buffer that is free and clean. */
    method FindReusable() returns (found: bool, b: nat, ghost i: nat)
      requires Valid()
      ensures found <==> exists k :: 0 <= k < |bufs| && bufs[k].Reusable()
      ensures found ==> 0 < i < |ring| && ring[i] == b && LeastRecentAt(ring, bufs, i)
    {
      i := |ring| - 1;
      assert LinkAt(next, prev, ring, |ring| - 1);
      b := prev[|bufs|];
      while b != |bufs|
        invariant 0 <= i < |ring| && b == ring[i]
        invariant forall k :: i < k < |ring| ==> ring[k] < |bufs| && !bufs[ring[k]].Reusable()
        decreases i
      {
        if !bufs[b].busy && !bufs[b].dirty {
          assert ring[0] != |bufs| || i > 0;
          return true, b, i;
        }
        assert i > 0;
        assert ring[0] != ring[i] && ring[i] < |bufs| + 1;
        assert LinkAt(next, prev, ring, i - 1);
        b := prev[b];
        i := i - 1;
      }
      HeadIsFirst(ring, i);
      forall k | 0 <= k < |bufs| ensures !bufs[k].Reusable() {
        Present(ring, |bufs|, k);
        var j :| 0 <= j < |ring| && ring[j] == k;
      }
      found := false;
    }

    /** `bget`, one pass from `loop:`. */
    method Bget(bn: nat) returns (r: Got)
      requires Valid() && bn < |disk|
      modifies this`bufs
      ensures RingOk(next, prev, ring, |bufs|) && Coherent(bufs, disk, latest)
      ensures |bufs| == |old(bufs)|
      ensures r.MustSleep? <==> exists i :: 0 <= i < |old(bufs)| && old(bufs)[i].Holds(bn) && old(bufs)[i].busy
      ensures r.NoBuffers? <==> !Cached(old(bufs), bn) && forall i :: 0 <= i < |old(bufs)| ==> !old(bufs)[i].Reusable()
      ensures !r.Ready? ==> bufs == old(bufs)
      ensures r.Ready? ==>
                && r.b < |bufs|
                && (if Cached(old(bufs), bn) then old(bufs)[r.b].Holds(bn)
                    && bufs == old(bufs)[r.b := old(bufs)[r.b].(busy := true)]
                    else LeastRecent(ring, old(bufs), r.b) &&
                         bufs == old(bufs)[r.b := Buf(true, false, false, ROOTDEV, bn, old(bufs)[r.b].data)])
    {
      var found, b := Find(bn);
      if found {
        assert forall i :: 0 <= i < |bufs| && bufs[i].Holds(bn) ==> i == b by {
          forall i | 0 <= i < |bufs| && bufs[i].Holds(bn) ensures i == b { assert !Twins(bufs, b, i); }
        }
        if bufs[b].busy {
          return MustSleep(b);
        }
        assert BufAt(bufs, latest, b);
        if !bufs[b].dirty { CleanIsOnDisk(bufs, disk, latest, b); }
        ChangeKeeps(bufs, disk, latest, b, bufs[b].(busy := true), disk, latest);
        bufs := bufs[b := bufs[b].(busy := true)];
        return Ready(b);
      }
      var free, c, i := FindReusable();
      if !free {
        return NoBuffers;
      }
      RecycleKeeps(bufs, disk, latest, c, Buf(true, false, false, ROOTDEV, bn, bufs[c].data));
      bufs := bufs[c := Buf(true, false, false, ROOTDEV, bn, bufs[c].data)];
      return Ready(c);
    }

    /** `iderw` on a buffer that has to be read. */
    method ReadBlock(b: nat)
      requires Valid() && b < |bufs| && bufs[b].dev == ROOTDEV && !bufs[b].valid
      modifies this`bufs
      ensures Valid() && old(bufs)[b].blockno < |latest|
      ensures bufs == old(bufs)[b := old(bufs)[b].(valid := true, data := latest[old(bufs)[b].blockno])]
    {
      assert BufAt(bufs, latest, b);
      CleanIsOnDisk(bufs, disk, latest, b);
      ghost var filled := bufs[b].(valid := true, data := disk[bufs[b].blockno]);
      ChangeKeeps(bufs, disk, latest, b, filled, disk, latest);
      bufs := bufs[b := bufs[b].(valid := true, data := disk[bufs[b].blockno])];
    }

    /** `bread`: the block's latest contents, wherever they are. */
    method Bread(bn: nat) returns (r: Got)
      requires Valid() && bn < |disk|
      modifies this`bufs
      ensures Valid() && |bufs| == |old(bufs)|
      ensures r.MustSleep? <==> exists i :: 0 <= i < |old(bufs)| && old(bufs)[i].Holds(bn) && old(bufs)[i].busy
      ensures r.NoBuffers? <==> !Cached(old(bufs), bn) && forall i :: 0 <= i < |old(bufs)| ==> !old(bufs)[i].Reusable()
      ensures !r.Ready? ==> bufs == old(bufs)
      ensures r.Ready? ==>
                && r.b < |bufs|
                && (old(bufs)[r.b].Holds(bn) || (!Cached(old(bufs), bn) && LeastRecent(ring, old(bufs), r.b)))
                && bufs == old(bufs)[r.b := Buf(true, true, old(bufs)[r.b].dirty, ROOTDEV, bn, latest[bn])]
    {
      r := Bget(bn);
      if r.Ready? {
        assert BufAt(bufs, latest, r.b);
        assert BufAt(old(bufs), latest, r.b);
        if !bufs[r.b].valid {
          ReadBlock(r.b);
        }
      }
    }

    /** `bwrite`: the buffer's contents go to disk, and it is clean. */
    method Bwrite(b: nat)
      requires Valid() && b < |bufs| && bufs[b].busy && bufs[b].valid
      modifies this`bufs, this`disk, this`trace
      ensures Valid() && bufs == old(bufs)[b := old(bufs)[b].(dirty := false)]
      ensures bufs[b].blockno < |old(disk)| && disk == old(disk)[bufs[b].blockno := bufs[b].data]
      ensures trace == old(trace) + [Write(bufs[b].blockno, bufs[b].data)]
    {
      assert BufAt(bufs, latest, b);
      var bn, data := bufs[b].blockno, bufs[b].data;
      ChangeKeeps(bufs, disk, latest, b, bufs[b].(dirty := false), disk[bn := data], latest);
      disk := disk[bn := data];
      bufs := bufs[b := bufs[b].(dirty := false)];
      trace := trace + [Write(bn, data)];
    }

    /** The holder of a buffer changes its data. */
    method Store(b: nat, data: Block)
      requires Valid() && b < |bufs| && bufs[b].busy && bufs[b].valid
      modifies this`bufs, this`latest
      ensures Valid() && bufs == old(bufs)[b := old(bufs)[b].(data := data)]
      ensures bufs[b].blockno < |old(latest)| && latest == old(latest)[bufs[b].blockno := data]
    {
      assert BufAt(bufs, latest, b);
      ghost var latest' := latest[bufs[b].blockno := data];
      ChangeKeeps(bufs, disk, latest, b, bufs[b].(data := data), disk, latest');
      bufs := bufs[b := bufs[b].(data := data)];
      latest := latest';
    }

    /** `b->flags |= B_DIRTY`: pinned until written. */
    method MarkDirty(b: nat)
      requires Valid() && b < |bufs| && bufs[b].busy && bufs[b].valid
      modifies this`bufs
      ensures Valid() && bufs == old(bufs)[b := old(bufs)[b].(dirty := true)]
    {
      assert BufAt(bufs, latest, b);
      ChangeKeeps(bufs, disk, latest, b, bufs[b].(dirty := true), disk, latest);
      bufs := bufs[b := bufs[b].(dirty := true)];
    }

    /** `brelse`: to the front of the list, and free.  A changed buffer must have been written or
        logged first, or the change would be lost. */
    method Brelse(b: nat)
      requires Valid() && b < |bufs| && bufs[b].busy && bufs[b].valid
      requires bufs[b].dirty || (bufs[b].blockno < |disk| && disk[bufs[b].blockno] == bufs[b].data)
      modifies this`bufs, this`next, this`prev, this`ring
      ensures Valid() && bufs == old(bufs)[b := old(bufs)[b].(busy := false)]
      ensures exists k :: 0 < k < |old(ring)| && old(ring)[k] == b && ring == MoveFront(old(ring), k)
    {
      Unlink(b);
      Relink(b);
      assert BufAt(bufs, latest, b);
      ChangeKeeps(bufs, disk, latest, b, bufs[b].(busy := false), disk, latest);
      bufs := bufs[b := bufs[b].(busy := false)];
    }

    method Unlink(b: nat)
      requires RingOk(next, prev, ring, |bufs|) && b < |bufs|
      modifies this`next, this`prev, this`ring
      ensures |next| == |prev| == |bufs| + 1 && Links(next, prev, ring) && NoRepeats(ring) && b !in ring
      ensures exists k :: 0 < k < |old(ring)| && old(ring)[k] == b && ring == Remove(old(ring), k)
    {
      Present(ring, |bufs|, b);
      ghost var k :| 0 <= k < |ring| && ring[k] == b;
      RemoveLinks(next, prev, ring, k);
      RemoveNoRepeats(ring, k);
      prev := prev[next[b] := prev[b]];
      next := next[prev[b] := next[b]];
      ring := Remove(ring, k);
    }

    method Relink(b: nat)
      requires |ring| > 0 && ring[0] == |bufs| && |next| == |prev| == |bufs| + 1 && b < |bufs|
      requires Links(next, prev, ring) && NoRepeats(ring) && b !in ring
      modifies this`next, this`prev, this`ring
      ensures |next| == |prev| == |bufs| + 1 && Links(next, prev, ring) && NoRepeats(ring)
      ensures ring == InsertFront(old(ring), b)
    {
      var head := |bufs|;
      assert LinkAt(next, prev, ring, 0);
      InsertLinks(next, prev, ring, b);
      InsertNoRepeats(ring, b);
      next := next[b := next[head]];
      prev := prev[b := head];
      prev := prev[next[head] := b];
      next := next[head := b];
      ring := InsertFront(ring, b);
    }
  }

  lemma RecycleKeeps(bufs: seq<Buf>, disk: Disk, latest: Disk, i: nat, b: Buf)
    requires Coherent(bufs, disk, latest) && i < |bufs| && bufs[i].Reusable()
    requires b.dev == ROOTDEV && b.blockno < |disk| && !Cached(bufs, b.blockno) && b.busy && !b.valid && !b.dirty
    ensures Coherent(bufs[i := b], disk, latest)
  {
    assert BlockAt(bufs, disk, latest, b.blockno);
    ChangeKeeps(bufs, disk, latest, i, b, disk, latest);
  }

  lemma HeadIsFirst(ring: seq<nat>, i: nat)
    requires NoRepeats(ring) && |ring| > 0 && i <= |ring|
    ensures i == |ring| || i == 0 || ring[i] != ring[0]
  {
  }
}
