/** The on-disk redo log (log.c) as sequences of block writes.

    `CommitWrites` are the writes of `commit`, `RecoveryWrites` those of `recover_from_log`.  A crash
    leaves some prefix of them on disk, and recovery may itself be cut short any number of times. */
module Redo {
  import opened Bytes
  import opened Sets

  const MAXOPBLOCKS := 10
  const LOGSIZE := 30

  type Disk = seq<Block>

  datatype Write = Write(bn: nat, data: Block)

  /** Where the log is: the header block at `start`, then `size - 1` data blocks. */
  datatype Geometry = Geometry(start: nat, size: nat, blocks: nat)
  {
    ghost predicate Valid() { size >= 1 && start + size <= blocks }
    predicate Home(bn: nat) { bn < blocks && !(start <= bn < start + size) }
  }

  ghost predicate DiskOk(g: Geometry, d: Disk) {
    g.Valid() && |d| == g.blocks && HeaderOk(g, d)
  }

  // ---- The header block ----

  function HeaderCount(b: Block): nat {
    Word(b, 0)
  }

  function HeaderList(b: Block, n: nat): (l: seq<nat>)
    requires n <= LOGSIZE
    ensures |l| == n && forall k :: 0 <= k < n ==> l[k] == Word(b, 1 + k)
  {
    seq(n, k requires 0 <= k < n => Word(b, 1 + k))
  }

  /** The block list a header records, as `read_head` reads it. */
  function Logged(g: Geometry, d: Disk): seq<nat>
    requires g.start < |d| && HeaderCount(d[g.start]) <= LOGSIZE
  {
    HeaderList(d[g.start], HeaderCount(d[g.start]))
  }

  /** The header names home blocks only, and its data fits in the log. */
  ghost predicate HeaderOk(g: Geometry, d: Disk) {
    && g.start < |d| && HeaderCount(d[g.start]) <= LOGSIZE
    && ListOk(g, Logged(g, d))
  }

  ghost predicate ListOk(g: Geometry, l: seq<nat>) {
    |l| < g.size && |l| <= LOGSIZE && forall k :: 0 <= k < |l| ==> g.Home(l[k]) && l[k] < WORD
  }

  /** The header block with count and list overwritten, as `write_head` does. */
  function HeaderBlock(b: Block, l: seq<nat>): Block
    requires |l| <= LOGSIZE && forall k :: 0 <= k < |l| ==> l[k] < WORD
  {
    SetList(SetWord(b, 0, |l|), l, |l|)
  }

  function SetList(b: Block, l: seq<nat>, n: nat): Block
    requires n <= |l| <= LOGSIZE && forall k :: 0 <= k < |l| ==> l[k] < WORD
  {
    if n == 0 then b else SetWord(SetList(b, l, n - 1), n, l[n - 1])
  }

  lemma {:induction false} SetListWord(b: Block, l: seq<nat>, n: nat, j: nat)
    requires n <= |l| <= LOGSIZE && (forall k :: 0 <= k < |l| ==> l[k] < WORD) && j < WORDS
    ensures Word(SetList(b, l, n), j) == if 1 <= j <= n then l[j - 1] else Word(b, j)
  {
    if n > 0 {
      SetListWord(b, l, n - 1, j);
      WordOfSet(SetList(b, l, n - 1), n, l[n - 1], j);
    }
  }

  /** What `write_head` writes, `read_head` reads back. */
  lemma HeaderRoundTrip(b: Block, l: seq<nat>)
    requires |l| <= LOGSIZE && forall k :: 0 <= k < |l| ==> l[k] < WORD
    ensures HeaderCount(HeaderBlock(b, l)) == |l| && HeaderList(HeaderBlock(b, l), |l|) == l
  {
    var h := SetWord(b, 0, |l|);
    WordOfSet(b, 0, |l|, 0);
    SetListWord(h, l, |l|, 0);
    forall k | 0 <= k < |l| ensures Word(HeaderBlock(b, l), 1 + k) == l[k] {
      SetListWord(h, l, |l|, 1 + k);
    }
  }

  // ---- Applying writes ----

  function Apply(d: Disk, ws: seq<Write>): (r: Disk)
    ensures |r| == |d|
  {
    if ws == [] then d
    else
      var e := Apply(d, ws[..|ws| - 1]);
      var w := ws[|ws| - 1];
      if w.bn < |e| then e[w.bn := w.data] else e
  }

  lemma {:induction false} ApplyConcat(d: Disk, a: seq<Write>, b: seq<Write>)
    ensures Apply(d, a + b) == Apply(Apply(d, a), b)
  {
    if b == [] {
      assert a + b == a;
    } else {
      assert (a + b)[..|a + b| - 1] == a + b[..|b| - 1];
      ApplyConcat(d, a, b[..|b| - 1]);
    }
  }

  lemma ApplyNext(d: Disk, ws: seq<Write>, k: nat)
    requires k < |ws| && ws[k].bn < |d|
    ensures Apply(d, ws[..k + 1]) == Apply(d, ws[..k])[ws[k].bn := ws[k].data]
  {
    assert ws[..k + 1][..k] == ws[..k];
  }

  ghost predicate Touches(ws: seq<Write>, bn: nat) {
    exists k :: 0 <= k < |ws| && ws[k].bn == bn
  }

  lemma ApplyNone(d: Disk)
    ensures Apply(d, []) == d
  {
  }

  lemma {:induction false} ApplyUntouched(d: Disk, ws: seq<Write>, bn: nat)
    requires bn < |d| && !Touches(ws, bn)
    ensures Apply(d, ws)[bn] == d[bn]
  {
    if ws != [] {
      assert ws[|ws| - 1].bn != bn;
      assert !Touches(ws[..|ws| - 1], bn);
      ApplyUntouched(d, ws[..|ws| - 1], bn);
    }
  }

  /** If every write to `bn` writes `data`, that is what `bn` holds afterwards. */
  lemma {:induction false} ApplyTouched(d: Disk, ws: seq<Write>, bn: nat, data: Block)
    requires bn < |d| && Touches(ws, bn) && (forall k :: 0 <= k < |ws| && ws[k].bn == bn ==> ws[k].data == data)
    ensures Apply(d, ws)[bn] == data
  {
    var last := |ws| - 1;
    if ws[last].bn != bn {
      var k :| 0 <= k < |ws| && ws[k].bn == bn;
      assert ws[..last][k].bn == bn;
      ApplyTouched(d, ws[..last], bn, data);
    }
  }

  /** What a block holds after writes that touch it does not depend on what it held before. */
  lemma {:induction false} ApplyForgets(d: Disk, e: Disk, ws: seq<Write>, bn: nat)
    requires |d| == |e| && bn < |d| && (Touches(ws, bn) || d[bn] == e[bn])
    ensures Apply(d, ws)[bn] == Apply(e, ws)[bn]
  {
    if ws != [] {
      var last := |ws| - 1;
      if ws[last].bn != bn {
        assert Touches(ws, bn) ==> Touches(ws[..last], bn) by {
          if Touches(ws, bn) {
            var k :| 0 <= k < |ws| && ws[k].bn == bn;
            assert ws[..last][k].bn == bn;
          }
        }
        ApplyForgets(d, e, ws[..last], bn);
      }
    }
  }

  /** Redoing a list of writes after a prefix of it changes nothing: why recovery may be repeated. */
  lemma RedoAfterPrefix(d: Disk, ws: seq<Write>, j: nat)
    requires j <= |ws|
    ensures Apply(Apply(d, ws[..j]), ws) == Apply(d, ws)
  {
    var e := Apply(d, ws[..j]);
    forall bn | 0 <= bn < |d| ensures Apply(e, ws)[bn] == Apply(d, ws)[bn] {
      if !Touches(ws, bn) {
        assert !Touches(ws[..j], bn);
        ApplyUntouched(d, ws[..j], bn);
      }
      ApplyForgets(e, d, ws, bn);
    }
  }

  // ---- Commit and recovery ----

  function Copies(g: Geometry, view: Disk, l: seq<nat>): (ws: seq<Write>)
    requires forall k :: 0 <= k < |l| ==> l[k] < |view|
    ensures |ws| == |l| && forall k :: 0 <= k < |l| ==> ws[k] == Write(g.start + 1 + k, view[l[k]])
  {
    seq(|l|, k requires 0 <= k < |l| => Write(g.start + 1 + k, view[l[k]]))
  }

  function Homes(view: Disk, l: seq<nat>): (ws: seq<Write>)
    requires forall k :: 0 <= k < |l| ==> l[k] < |view|
    ensures |ws| == |l| && forall k :: 0 <= k < |l| ==> ws[k] == Write(l[k], view[l[k]])
  {
    seq(|l|, k requires 0 <= k < |l| => Write(l[k], view[l[k]]))
  }

  function Head(g: Geometry, b: Block, l: seq<nat>): Write
    requires |l| <= LOGSIZE && forall k :: 0 <= k < |l| ==> l[k] < WORD
  {
    Write(g.start, HeaderBlock(b, l))
  }

  /** The writes of `commit`: copies into the log, the header, the home blocks, the cleared header.
      `view` is what the buffer cache holds. */
  function CommitWrites(g: Geometry, d: Disk, view: Disk, l: seq<nat>): seq<Write>
    requires g.start < |d| && |l| <= LOGSIZE && forall k :: 0 <= k < |l| ==> l[k] < |view| && l[k] < WORD
  {
    if l == [] then []
    else Copies(g, view, l) + [Head(g, d[g.start], l)] + Homes(view, l) + [Head(g, HeaderBlock(d[g.start], l), [])]
  }

  /** Installing what a disk's own log records. */
  function Installs(g: Geometry, d: Disk): (ws: seq<Write>)
    requires g.start < |d| && HeaderCount(d[g.start]) <= LOGSIZE && g.start + HeaderCount(d[g.start]) < |d|
    ensures var l := Logged(g, d);
            |ws| == |l| && forall k :: 0 <= k < |l| ==> ws[k] == Write(l[k], d[g.start + 1 + k])
  {
    var l := Logged(g, d);
    seq(|l|, k requires 0 <= k < |l| => Write(l[k], d[g.start + 1 + k]))
  }

  /** The writes of `recover_from_log`. */
  function RecoveryWrites(g: Geometry, d: Disk): seq<Write>
    requires DiskOk(g, d)
  {
    Installs(g, d) + [Head(g, d[g.start], [])]
  }

  /** The disk an uninterrupted recovery would leave, apart from the header. */
  function Recovered(g: Geometry, d: Disk): Disk
    requires DiskOk(g, d)
  {
    Apply(d, Installs(g, d))
  }

  ghost predicate SameHome(g: Geometry, d: Disk, e: Disk) {
    |d| == |e| == g.blocks && forall bn :: 0 <= bn < g.blocks && g.Home(bn) ==> d[bn] == e[bn]
  }

  /** The old contents with every logged block replaced by its committed data. */
  function Overlay(d: Disk, view: Disk, l: seq<nat>): (r: Disk)
    requires |view| == |d|
    ensures |r| == |d| && forall bn :: 0 <= bn < |d| ==> r[bn] == if bn in l then view[bn] else d[bn]
  {
    seq(|d|, bn requires 0 <= bn < |d| => if bn in l then view[bn] else d[bn])
  }

  lemma EmptyLog(g: Geometry, d: Disk)
    requires DiskOk(g, d) && Logged(g, d) == []
    ensures Recovered(g, d) == d
  {
  }

  lemma CopiesTouch(g: Geometry, view: Disk, l: seq<nat>, n: nat, bn: nat)
    requires n <= |l| && (forall k :: 0 <= k < |l| ==> l[k] < |view|)
    ensures Touches(Copies(g, view, l)[..n], bn) <==> g.start < bn <= g.start + n
  {
    if g.start < bn <= g.start + n {
      assert Copies(g, view, l)[..n][bn - g.start - 1].bn == bn;
    }
  }

  lemma HomesTouch(view: Disk, l: seq<nat>, n: nat, bn: nat)
    requires n <= |l| && (forall k :: 0 <= k < |l| ==> l[k] < |view|)
    ensures Touches(Homes(view, l)[..n], bn) <==> bn in l[..n]
  {
  }

  /** Part one of a commit: only log blocks are written. */
  lemma DuringCopies(g: Geometry, d: Disk, view: Disk, l: seq<nat>, n: nat)
    requires g.Valid() && |d| == g.blocks && ListOk(g, l) && |view| == g.blocks && n <= |l|
    ensures var e := Apply(d, Copies(g, view, l)[..n]);
            e[g.start] == d[g.start] && SameHome(g, e, d) && forall k :: 0 <= k < n ==> e[g.start + 1 + k] == view[l[k]]
  {
    hide Apply;
    var ws := Copies(g, view, l)[..n];
    var e := Apply(d, ws);
    CopiesTouch(g, view, l, n, g.start);
    ApplyUntouched(d, ws, g.start);
    forall bn | 0 <= bn < g.blocks && g.Home(bn) ensures e[bn] == d[bn] {
      CopiesTouch(g, view, l, n, bn);
      ApplyUntouched(d, ws, bn);
    }
    forall k | 0 <= k < n ensures e[g.start + 1 + k] == view[l[k]] {
      CopiesTouch(g, view, l, n, g.start + 1 + k);
      ApplyTouched(d, ws, g.start + 1 + k, view[l[k]]);
    }
  }

  /** Part two: the header is on disk, and `n` home blocks are installed. */
  lemma DuringHomes(g: Geometry, c: Disk, view: Disk, l: seq<nat>, n: nat)
    requires DiskOk(g, c) && ListOk(g, l) && |view| == g.blocks && n <= |l| && Logged(g, c) == l
    requires forall k :: 0 <= k < |l| ==> c[g.start + 1 + k] == view[l[k]]
    ensures var e := Apply(c, Homes(view, l)[..n]);
            && DiskOk(g, e) && Logged(g, e) == l && e[g.start] == c[g.start]
            && SameHome(g, Recovered(g, e), Overlay(c, view, l))
            && (n == |l| ==> SameHome(g, e, Overlay(c, view, l)))
  {
    var ws, all := Homes(view, l)[..n], Homes(view, l);
    var e := Apply(c, ws);
    forall bn | g.start <= bn < g.start + g.size ensures e[bn] == c[bn] {
      HomesTouch(view, l, n, bn);
      ApplyUntouched(c, ws, bn);
    }
    assert Installs(g, e) == all;
    RedoAfterPrefix(c, all, n);
    OverlayIsHomes(g, c, view, l);
    assert n == |l| ==> ws == all;
  }

  lemma OverlayIsHomes(g: Geometry, c: Disk, view: Disk, l: seq<nat>)
    requires |c| == g.blocks == |view| && (forall k :: 0 <= k < |l| ==> l[k] < |view| && g.Home(l[k]))
    ensures SameHome(g, Apply(c, Homes(view, l)), Overlay(c, view, l))
  {
    var all := Homes(view, l);
    assert all[..|l|] == all && l[..|l|] == l;
    forall bn | 0 <= bn < g.blocks && g.Home(bn) ensures Apply(c, all)[bn] == Overlay(c, view, l)[bn] {
      HomesTouch(view, l, |l|, bn);
      if bn in l {
        ApplyTouched(c, all, bn, view[bn]);
      } else {
        ApplyUntouched(c, all, bn);
      }
    }
  }

  lemma WriteHeadOk(g: Geometry, d: Disk, l: seq<nat>)
    requires g.Valid() && |d| == g.blocks && ListOk(g, l)
    ensures var e := d[g.start := HeaderBlock(d[g.start], l)];
            DiskOk(g, e) && Logged(g, e) == l && SameHome(g, e, d)
  {
    HeaderRoundTrip(d[g.start], l);
  }

  lemma ApplyOne(d: Disk, ws: seq<Write>, w: Write)
    requires w.bn < |d|
    ensures Apply(d, ws + [w]) == Apply(d, ws)[w.bn := w.data]
  {
  }

  /** Crash atomicity of a commit: whatever prefix of its writes reached the disk, recovery finds the
      old contents if the header write is not among them, and otherwise all of the transaction. */
  lemma CommitAtomic(g: Geometry, d: Disk, view: Disk, l: seq<nat>, k: nat)
    requires DiskOk(g, d) && Logged(g, d) == [] && ListOk(g, l) && |view| == g.blocks
    requires k <= |CommitWrites(g, d, view, l)|
    ensures var e := Apply(d, CommitWrites(g, d, view, l)[..k]);
            && DiskOk(g, e)
            && SameHome(g, Recovered(g, e), if k <= |l| then d else Overlay(d, view, l))
            && (k == |CommitWrites(g, d, view, l)| ==> Logged(g, e) == [] && SameHome(g, e, Overlay(d, view, l)))
  {
    hide Apply, HeaderBlock, Recovered;
    if l == [] {
      EmptyLog(g, d);
      EmptyCommit(g, d, view, k);
    } else if k <= |l| {
      CommitBefore(g, d, view, l, k);
    } else {
      CommitAfter(g, d, view, l, k);
    }
  }

  lemma EmptyCommit(g: Geometry, d: Disk, view: Disk, k: nat)
    requires DiskOk(g, d) && |view| == g.blocks && k == 0
    ensures Apply(d, CommitWrites(g, d, view, [])[..k]) == d && Overlay(d, view, []) == d
  {
  }

  lemma CommitBefore(g: Geometry, d: Disk, view: Disk, l: seq<nat>, k: nat)
    requires DiskOk(g, d) && Logged(g, d) == [] && ListOk(g, l) && |view| == g.blocks && l != [] && k <= |l|
    ensures var e := Apply(d, CommitWrites(g, d, view, l)[..k]);
            DiskOk(g, e) && Logged(g, e) == [] && SameHome(g, Recovered(g, e), d)
  {
    assert CommitWrites(g, d, view, l)[..k] == Copies(g, view, l)[..k];
    DuringCopies(g, d, view, l, k);
    EmptyLog(g, Apply(d, Copies(g, view, l)[..k]));
  }

  /** The disk once the copies and the header are written. */
  lemma HeaderWritten(g: Geometry, d: Disk, view: Disk, l: seq<nat>)
    requires g.Valid() && |d| == g.blocks && ListOk(g, l) && |view| == g.blocks
    ensures var c := Apply(d, Copies(g, view, l) + [Head(g, d[g.start], l)]);
            && DiskOk(g, c) && Logged(g, c) == l && SameHome(g, c, d) && c[g.start] == HeaderBlock(d[g.start], l)
            && forall k :: 0 <= k < |l| ==> c[g.start + 1 + k] == view[l[k]]
  {
    hide Apply, HeaderBlock;
    var copies := Copies(g, view, l);
    assert copies[..|l|] == copies;
    DuringCopies(g, d, view, l, |l|);
    ApplyOne(d, copies, Head(g, d[g.start], l));
    WriteHeadOk(g, Apply(d, copies), l);
  }

  /** The first writes of a commit: the copies and the header. */
  function UpToHeader(g: Geometry, d: Disk, view: Disk, l: seq<nat>): (ws: seq<Write>)
    requires g.start < |d| && |l| <= LOGSIZE && forall k :: 0 <= k < |l| ==> l[k] < |view| && l[k] < WORD
    ensures |ws| == |l| + 1
  {
    Copies(g, view, l) + [Head(g, d[g.start], l)]
  }

  /** The disk once `n` home blocks are installed too. */
  lemma HomesWritten(g: Geometry, d: Disk, view: Disk, l: seq<nat>, n: nat)
    requires DiskOk(g, d) && ListOk(g, l) && |view| == g.blocks && n <= |l|
    ensures var f := Apply(d, UpToHeader(g, d, view, l) + Homes(view, l)[..n]);
            && DiskOk(g, f) && f[g.start] == HeaderBlock(d[g.start], l)
            && SameHome(g, Recovered(g, f), Overlay(d, view, l)) && (n == |l| ==> SameHome(g, f, Overlay(d, view, l)))
  {
    hide Apply, HeaderBlock, Recovered, Overlay;
    var first := UpToHeader(g, d, view, l);
    var c := Apply(d, first);
    HeaderWritten(g, d, view, l);
    ApplyConcat(d, first, Homes(view, l)[..n]);
    DuringHomes(g, c, view, l, n);
    OverlaySame(g, c, d, view, l);
    hide SameHome;
    SameHomeTrans(g, Recovered(g, Apply(c, Homes(view, l)[..n])), Overlay(c, view, l), Overlay(d, view, l));
    if n == |l| {
      SameHomeTrans(g, Apply(c, Homes(view, l)[..n]), Overlay(c, view, l), Overlay(d, view, l));
    }
  }

  lemma CommitAfter(g: Geometry, d: Disk, view: Disk, l: seq<nat>, k: nat)
    requires DiskOk(g, d) && Logged(g, d) == [] && ListOk(g, l) && |view| == g.blocks && l != []
    requires |l| < k <= |CommitWrites(g, d, view, l)|
    ensures var e := Apply(d, CommitWrites(g, d, view, l)[..k]);
            && DiskOk(g, e) && SameHome(g, Recovered(g, e), Overlay(d, view, l))
            && (k == |CommitWrites(g, d, view, l)| ==> Logged(g, e) == [] && SameHome(g, e, Overlay(d, view, l)))
  {
    hide Apply, HeaderBlock, Recovered, Overlay, SameHome;
    var first, homes, ws := UpToHeader(g, d, view, l), Homes(view, l), CommitWrites(g, d, view, l);
    if k < |ws| {
      var n := k - |l| - 1;
      assert ws[..k] == first + homes[..n];
      HomesWritten(g, d, view, l, n);
    } else {
      var clear := Head(g, HeaderBlock(d[g.start], l), []);
      assert homes[..|l|] == homes;
      assert ws[..k] == first + homes + [clear];
      HomesWritten(g, d, view, l, |l|);
      HeaderCleared(g, d, first + homes, clear);
      SameHomeTrans(g, Apply(d, ws[..k]), Apply(d, first + homes), Overlay(d, view, l));
    }
  }

  lemma SameHomeTrans(g: Geometry, a: Disk, b: Disk, c: Disk)
    requires SameHome(g, a, b) && SameHome(g, b, c)
    ensures SameHome(g, a, c)
  {
  }

  lemma HeaderCleared(g: Geometry, d: Disk, ws: seq<Write>, clear: Write)
    requires g.Valid() && |d| == g.blocks && clear == Head(g, Apply(d, ws)[g.start], [])
    ensures var e := Apply(d, ws + [clear]);
            DiskOk(g, e) && Logged(g, e) == [] && Recovered(g, e) == e && SameHome(g, e, Apply(d, ws))
  {
    hide HeaderBlock;
    ApplyOne(d, ws, clear);
    WriteHeadOk(g, Apply(d, ws), []);
    EmptyLog(g, Apply(d, ws + [clear]));
  }

  lemma OverlaySame(g: Geometry, c: Disk, d: Disk, view: Disk, l: seq<nat>)
    requires SameHome(g, c, d) && |view| == |c|
    ensures SameHome(g, Overlay(c, view, l), Overlay(d, view, l))
  {
  }

  /** Recovery may be cut short: whatever prefix of its writes reached the disk, recovering again
      gives the same contents; completed, it leaves them in place with an empty log. */
  lemma RecoveryAtomic(g: Geometry, d: Disk, k: nat)
    requires DiskOk(g, d) && k <= |RecoveryWrites(g, d)|
    ensures var e := Apply(d, RecoveryWrites(g, d)[..k]);
            && DiskOk(g, e) && SameHome(g, Recovered(g, e), Recovered(g, d))
            && (k == |RecoveryWrites(g, d)| ==> Logged(g, e) == [] && SameHome(g, e, Recovered(g, d)))
  {
    hide HeaderBlock;
    var all, clear, l := Installs(g, d), Head(g, d[g.start], []), Logged(g, d);
    if k <= |all| {
      assert RecoveryWrites(g, d)[..k] == all[..k];
      DuringInstalls(g, d, k);
      RedoAfterPrefix(d, all, k);
    } else {
      assert RecoveryWrites(g, d)[..k] == all + [clear] && all[..|all|] == all;
      DuringInstalls(g, d, |all|);
      HeaderCleared(g, d, all, clear);
    }
  }

  lemma DuringInstalls(g: Geometry, d: Disk, n: nat)
    requires DiskOk(g, d) && n <= |Installs(g, d)|
    ensures var e := Apply(d, Installs(g, d)[..n]);
            DiskOk(g, e) && e[g.start] == d[g.start] && Installs(g, e) == Installs(g, d)
  {
    var ws, l := Installs(g, d)[..n], Logged(g, d);
    var e := Apply(d, ws);
    forall bn | g.start <= bn < g.start + g.size ensures e[bn] == d[bn] {
      assert forall k :: 0 <= k < n ==> ws[k].bn == l[k] && g.Home(l[k]);
      ApplyUntouched(d, ws, bn);
    }
  }

  /** Any number of recoveries, each cut short after some writes. */
  function Interrupted(g: Geometry, d: Disk, cuts: seq<nat>): (e: Disk)
    requires DiskOk(g, d)
    ensures DiskOk(g, e) && SameHome(g, Recovered(g, e), Recovered(g, d))
  {
    if cuts == [] then d
    else
      var e := Interrupted(g, d, cuts[..|cuts| - 1]);
      var ws := RecoveryWrites(g, e);
      var k := if cuts[|cuts| - 1] <= |ws| then cuts[|cuts| - 1] else |ws|;
      RecoveryAtomic(g, e, k);
      Apply(e, ws[..k])
  }

  /** Crash during a commit, then any number of crashes during recovery, then a recovery that
      completes: the home blocks are exactly the old ones or exactly the new ones, as the header
      write had landed or not. */
  lemma CrashAtomicity(g: Geometry, d: Disk, view: Disk, l: seq<nat>, k: nat, cuts: seq<nat>)
    requires DiskOk(g, d) && Logged(g, d) == [] && ListOk(g, l) && |view| == g.blocks
    requires k <= |CommitWrites(g, d, view, l)|
    ensures var crashed := Apply(d, CommitWrites(g, d, view, l)[..k]);
            && DiskOk(g, crashed)
            && var again := Interrupted(g, crashed, cuts);
               var final := Apply(again, RecoveryWrites(g, again));
               DiskOk(g, final) && Logged(g, final) == [] &&
               SameHome(g, final, if k <= |l| then d else Overlay(d, view, l))
  {
    CommitAtomic(g, d, view, l, k);
    var again := Interrupted(g, Apply(d, CommitWrites(g, d, view, l)[..k]), cuts);
    var ws := RecoveryWrites(g, again);
    assert ws[..|ws|] == ws;
    RecoveryAtomic(g, again, |ws|);
  }
}
