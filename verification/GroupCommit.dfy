/** Group commit (log.c): concurrent operations, their log reservation, commit, crash and recovery.

    An event is one critical section under log.lock, one disk write of `commit` or recovery, or a
    crash.  `view` is what `bread` yields: the buffer cache over the disk.  The state also carries
    the history the results speak of: every entry so far, in batches, and the first operation of the
    current batch. */
module GroupCommit {
  import opened Bytes
  import opened Redo
  import opened Sets

  /** One `log_write`: operation `op` gave block `bn` the contents `data`. */
  datatype Entry = Entry(op: nat, bn: nat, data: Block)

  /** The entries between two commits or crashes, made durable together or lost together, and the
      operations lo <= op < hi begun in that time. */
  datatype Batch = Batch(durable: bool, entries: seq<Entry>, lo: nat, hi: nat)

  datatype Phase =
    | Open                                                  // log.committing == 0
    | Committing(base: Disk, ws: seq<Write>, done: nat)     // `done` of the writes of commit are on disk
    | Recovering(base: Disk, ws: seq<Write>, done: nat)     // the same for recover_from_log

  /** `left` holds the outstanding operations with the log_write calls each may still make; `checked`
      those that are past the unlocked test of log_write.  `waiting` sleep in begin_op. */
  datatype State = State(
    disk: Disk, view: Disk, list: seq<nat>, left: map<nat, nat>, checked: map<nat, Entry>,
    nextOp: nat, waiting: set<nat>, phase: Phase, panicked: bool,
    batches: seq<Batch>, pending: seq<Entry>, epoch: nat)

  datatype Event =
    | Begin(proc: nat)
    | Check(op: nat, bn: nat, data: Block)
    | Append(op: nat)
    | End(op: nat)
    | DiskStep
    | Crash

  // ---- Steps ----

  /** `begin_op`: sleep while a commit runs or the log might fill up, else become outstanding. */
  function BeginStep(s: State, proc: nat): State {
    if s.phase.Recovering? then s
    else if s.phase.Committing? || |s.list| + (|s.left| + 1) * MAXOPBLOCKS > LOGSIZE then
      s.(waiting := s.waiting + {proc})
    else s.(left := s.left[s.nextOp := MAXOPBLOCKS], nextOp := s.nextOp + 1, waiting := s.waiting - {proc})
  }

  /** The tests of `log_write`, made without the lock. */
  function CheckStep(g: Geometry, s: State, e: Entry): State {
    if |s.list| >= LOGSIZE || |s.list| >= g.size - 1 then s.(panicked := true)
    else s.(checked := s.checked[e.op := e])
  }

  /** The locked part of `log_write`: absorb or append, and pin. */
  function AppendStep(s: State, op: nat): State
    requires op in s.checked && op in s.left && s.left[op] > 0 && s.checked[op].bn < |s.view|
  {
    var e := s.checked[op];
    s.(view := s.view[e.bn := e.data], list := if e.bn in s.list then s.list else s.list + [e.bn],
       left := s.left[op := s.left[op] - 1], checked := s.checked - {op}, pending := s.pending + [e])
  }

  /** `end_op`: the last one out commits, the others wake the sleepers. */
  function EndStep(g: Geometry, s: State, op: nat): State
    requires g.start < |s.disk| && |s.list| <= LOGSIZE
    requires forall k :: 0 <= k < |s.list| ==> s.list[k] < |s.view| && s.list[k] < WORD
  {
    var left := s.left - {op};
    if !s.phase.Open? then s.(panicked := true)
    else if left.Keys == {} then
      s.(left := left, phase := Committing(s.disk, CommitWrites(g, s.disk, s.view, s.list), 0))
    else s.(left := left, waiting := {})
  }

  /** The next disk write of a commit or recovery, or its end. */
  function DiskStepOf(s: State): State {
    match s.phase
    case Open => s
    case Committing(base, ws, done) =>
      if done < |ws| then
        var s' := s.(disk := Apply(s.disk, [ws[done]]), phase := Committing(base, ws, done + 1));
        if done == |s.list| then
          s'.(batches := s.batches + [Batch(true, s.pending, s.epoch, s.nextOp)], pending := [], epoch := s.nextOp)
        else s'
      else s.(phase := Open, list := [], waiting := {})
    case Recovering(base, ws, done) =>
      if done < |ws| then s.(disk := Apply(s.disk, [ws[done]]), phase := Recovering(base, ws, done + 1))
      else s.(phase := Open, view := s.disk)
  }

  /** Everything in memory is lost; the next boot runs `recover_from_log`. */
  function CrashStep(g: Geometry, s: State): State
    requires DiskOk(g, s.disk)
  {
    s.(list := [], left := map[], checked := map[], waiting := {}, panicked := false,
       phase := Recovering(s.disk, RecoveryWrites(g, s.disk), 0),
       batches := s.batches + [Batch(false, s.pending, s.epoch, s.nextOp)], pending := [], epoch := s.nextOp)
  }

  ghost predicate StepOk(g: Geometry, s: State) {
    && DiskOk(g, s.disk) && |s.view| == g.blocks && |s.list| <= LOGSIZE
    && forall k :: 0 <= k < |s.list| ==> g.Home(s.list[k]) && s.list[k] < WORD
  }

  /** An operation makes at most MAXOPBLOCKS calls of log_write, on home blocks, one at a time. */
  ghost function Step(g: Geometry, s: State, e: Event): State
    requires StepOk(g, s)
  {
    if e.Crash? then CrashStep(g, s)
    else if s.panicked then s
    else
      match e
      case Begin(p) => BeginStep(s, p)
      case Check(op, bn, data) =>
        if op in s.left && s.left[op] > 0 && op !in s.checked && g.Home(bn) && bn < WORD then
          CheckStep(g, s, Entry(op, bn, data))
        else s
      case Append(op) =>
        if op in s.checked && op in s.left && s.left[op] > 0 && s.checked[op].bn < |s.view| then AppendStep(s, op)
        else s
      case End(op) => if op in s.left && op !in s.checked then EndStep(g, s, op) else s
      case DiskStep => DiskStepOf(s)
  }

  // ---- The atomic disk it implements ----

  /** The effect of a list of entries, one after the other. */
  function Replay(d: Disk, es: seq<Entry>): (r: Disk)
    ensures |r| == |d|
  {
    if es == [] then d
    else
      var r := Replay(d, es[..|es| - 1]);
      var e := es[|es| - 1];
      if e.bn < |r| then r[e.bn := e.data] else r
  }

  /** The entries of the batches that were committed. */
  function Kept(bs: seq<Batch>): seq<Entry> {
    if bs == [] then []
    else
      var b := bs[|bs| - 1];
      Kept(bs[..|bs| - 1]) + if b.durable then b.entries else []
  }

  /** What the disk would hold after a crash now and a completed recovery. */
  ghost predicate Durable(g: Geometry, s: State, init: Disk) {
    DiskOk(g, s.disk) && SameHome(g, Recovered(g, s.disk), Replay(init, Kept(s.batches)))
  }

  /** What operations see. */
  ghost predicate Visible(g: Geometry, s: State, init: Disk) {
    SameHome(g, s.view, Replay(init, Kept(s.batches) + s.pending))
  }

  lemma ReplaySnoc(d: Disk, es: seq<Entry>, e: Entry)
    requires e.bn < |d|
    ensures Replay(d, es + [e]) == Replay(d, es)[e.bn := e.data]
  {
    assert (es + [e])[..|es|] == es;
  }

  lemma KeptSnoc(bs: seq<Batch>, b: Batch)
    ensures Kept(bs + [b]) == Kept(bs) + if b.durable then b.entries else []
  {
    assert (bs + [b])[..|bs|] == bs;
  }

  // ---- Invariant ----

  /** Reservation: what is logged plus what outstanding operations may still log fits. */
  ghost predicate Reserved(g: Geometry, s: State) {
    && g.size > LOGSIZE && !s.panicked && ListOk(g, s.list) && NoRepeats(s.list)
    && |s.list| + MapSum(s.left) <= LOGSIZE
    && (forall o :: o in s.left ==> s.left[o] <= MAXOPBLOCKS)
    && (forall o :: o in s.checked ==>
          && o in s.left && s.left[o] > 0
          && s.checked[o].op == o && g.Home(s.checked[o].bn) && s.checked[o].bn < WORD)
  }

  /** Only logged blocks differ from `base`. */
  ghost predicate OnlyLogged(g: Geometry, base: Disk, view: Disk, l: seq<nat>) {
    |base| == |view| == g.blocks &&
    forall bn :: 0 <= bn < g.blocks && g.Home(bn) && bn !in l ==> view[bn] == base[bn]
  }

  ghost predicate PhaseOk(g: Geometry, s: State, init: Disk) {
    |init| == g.blocks && |s.view| == g.blocks && (s.list == [] ==> s.pending == []) &&
    match s.phase
    case Open =>
      && DiskOk(g, s.disk) && Logged(g, s.disk) == [] && SameHome(g, s.disk, Replay(init, Kept(s.batches)))
      && Visible(g, s, init) && OnlyLogged(g, s.disk, s.view, s.list)
      && (s.left.Keys == {} ==> s.list == [])
    case Committing(base, ws, done) =>
      && s.left.Keys == {} && DiskOk(g, base) && Logged(g, base) == [] && ListOk(g, s.list)
      && ws == CommitWrites(g, base, s.view, s.list) && done <= |ws| && s.disk == Apply(base, ws[..done])
      && Visible(g, s, init) && OnlyLogged(g, base, s.view, s.list)
      && (if done <= |s.list| then SameHome(g, base, Replay(init, Kept(s.batches))) else s.pending == [])
    case Recovering(base, ws, done) =>
      && s.left.Keys == {} && s.list == [] && s.waiting == {} && DiskOk(g, base)
      && ws == RecoveryWrites(g, base) && done <= |ws| && s.disk == Apply(base, ws[..done])
      && SameHome(g, Recovered(g, base), Replay(init, Kept(s.batches)))
  }

  ghost predicate MadeBy(es: seq<Entry>, lo: nat, hi: nat) {
    forall k :: 0 <= k < |es| ==> lo <= es[k].op < hi
  }

  /** Batches hold the entries of different operations. */
  ghost predicate BatchesOk(s: State) {
    && s.epoch <= s.nextOp
    && (forall o :: o in s.left ==> s.epoch <= o < s.nextOp)
    && MadeBy(s.pending, s.epoch, s.nextOp)
    && (forall i :: 0 <= i < |s.batches| ==>
          MadeBy(s.batches[i].entries, s.batches[i].lo, s.batches[i].hi) && s.batches[i].hi <= s.epoch)
    && (forall i, j :: 0 <= i < j < |s.batches| ==> s.batches[i].hi <= s.batches[j].lo)
  }

  /** Whoever sleeps in begin_op has an end_op to come that will wake it. */
  ghost predicate SleepersOk(s: State) {
    s.waiting != {} ==> s.phase.Committing? || (s.phase.Open? && s.left.Keys != {})
  }

  ghost predicate Inv(g: Geometry, s: State, init: Disk) {
    Reserved(g, s) && PhaseOk(g, s, init) && BatchesOk(s) && SleepersOk(s)
  }

  // ---- What the invariant says about the disk ----

  lemma OverlayIsView(g: Geometry, base: Disk, view: Disk, l: seq<nat>)
    requires OnlyLogged(g, base, view, l)
    ensures SameHome(g, Overlay(base, view, l), view)
  {
  }

  lemma InvDurable(g: Geometry, s: State, init: Disk)
    requires PhaseOk(g, s, init)
    ensures Durable(g, s, init)
  {
    hide Apply, CommitWrites, RecoveryWrites, Recovered, Replay, Kept, DiskOk;
    match s.phase
    case Open => EmptyLog(g, s.disk);
    case Committing(base, ws, done) =>
      CommitAtomic(g, base, s.view, s.list, done);
      OverlayIsView(g, base, s.view, s.list);
      assert s.pending == [] ==> Kept(s.batches) + s.pending == Kept(s.batches);
    case Recovering(base, ws, done) =>
      RecoveryAtomic(g, base, done);
  }

  // ---- Every event keeps it ----

  lemma BeginKeeps(g: Geometry, s: State, init: Disk, p: nat)
    requires Inv(g, s, init)
    ensures Inv(g, BeginStep(s, p), init)
  {
    hide Reserved, PhaseOk, BatchesOk, SleepersOk;
    BeginReserves(g, s, p);
    BeginPhase(g, s, init, p);
    BeginBatches(s, p);
    BeginSleepers(g, s, init, p);
  }

  lemma BeginBatches(s: State, p: nat)
    requires BatchesOk(s)
    ensures BatchesOk(BeginStep(s, p))
  {
  }

  lemma BeginSleepers(g: Geometry, s: State, init: Disk, p: nat)
    requires PhaseOk(g, s, init) && SleepersOk(s)
    ensures SleepersOk(BeginStep(s, p))
  {
    hide CommitWrites, RecoveryWrites, Recovered, Replay, Kept, Apply, DiskOk, OnlyLogged, SameHome, ListOk, Logged;
    assert s.left.Keys == {} ==> |s.left| == 0;
  }

  /** The admission test leaves room for all the new operation may log. */
  lemma BeginReserves(g: Geometry, s: State, p: nat)
    requires Reserved(g, s) && BatchesOk(s)
    ensures Reserved(g, BeginStep(s, p))
  {
    hide ListOk, NoRepeats, MapSum;
    var s' := BeginStep(s, p);
    if s'.nextOp != s.nextOp {
      assert s.nextOp !in s.left;
      MapSumInsert(s.left, s.nextOp, MAXOPBLOCKS);
      SumBound(s.left);
    }
  }

  lemma BeginPhase(g: Geometry, s: State, init: Disk, p: nat)
    requires PhaseOk(g, s, init)
    ensures PhaseOk(g, BeginStep(s, p), init)
  {
    hide CommitWrites, RecoveryWrites, Recovered, Replay, Kept, Apply, DiskOk, OnlyLogged, SameHome, ListOk, Logged;
  }

  lemma {:induction false} SumBound(m: map<nat, nat>)
    requires forall o :: o in m ==> m[o] <= MAXOPBLOCKS
    ensures MapSum(m) <= |m| * MAXOPBLOCKS
    decreases |m|
  {
    if m.Keys != {} {
      var o := Pick(m.Keys);
      MapSumRemove(m, o);
      SumBound(m - {o});
    }
  }

  lemma CheckKeeps(g: Geometry, s: State, init: Disk, e: Entry)
    requires Inv(g, s, init) && e.op in s.left && s.left[e.op] > 0 && g.Home(e.bn) && e.bn < WORD
    ensures Inv(g, CheckStep(g, s, e), init)
  {
    hide CommitWrites, RecoveryWrites, Recovered, Replay, Kept, Apply, DiskOk, OnlyLogged, SameHome, NoRepeats,
         Logged, MapSum;
    MapSumRemove(s.left, e.op);
  }

  lemma AppendKeeps(g: Geometry, s: State, init: Disk, op: nat)
    requires Inv(g, s, init) && op in s.checked && op in s.left && s.left[op] > 0 && s.checked[op].bn < |s.view|
    ensures Inv(g, AppendStep(s, op), init)
  {
    hide Reserved, PhaseOk, BatchesOk;
    AppendReserves(g, s, op);
    AppendPhase(g, s, init, op);
    AppendBatches(g, s, op);
    assert s.left[op := s.left[op] - 1].Keys == s.left.Keys;
  }

  lemma AppendBatches(g: Geometry, s: State, op: nat)
    requires Reserved(g, s) && BatchesOk(s)
    requires op in s.checked && op in s.left && s.left[op] > 0 && s.checked[op].bn < |s.view|
    ensures BatchesOk(AppendStep(s, op))
  {
    hide ListOk, NoRepeats;
    assert s.left[op := s.left[op] - 1].Keys == s.left.Keys;
  }

  /** Each call uses up at least what it logs; absorption keeps the list free of repeats. */
  lemma AppendReserves(g: Geometry, s: State, op: nat)
    requires Reserved(g, s) && op in s.checked && op in s.left && s.left[op] > 0 && s.checked[op].bn < |s.view|
    ensures Reserved(g, AppendStep(s, op))
  {
    hide MapSum;
    MapSumUpdate(s.left, op, s.left[op] - 1);
  }

  lemma AppendPhase(g: Geometry, s: State, init: Disk, op: nat)
    requires Reserved(g, s) && PhaseOk(g, s, init)
    requires op in s.checked && op in s.left && s.left[op] > 0 && s.checked[op].bn < |s.view|
    ensures PhaseOk(g, AppendStep(s, op), init)
  {
    hide CommitWrites, RecoveryWrites, Recovered, Replay, Kept, Apply, DiskOk, Logged, NoRepeats, ListOk;
    var s', e := AppendStep(s, op), s.checked[op];
    assert op in s.left.Keys;
    ReplaySnoc(init, Kept(s.batches) + s.pending, e);
    assert Kept(s.batches) + s.pending + [e] == Kept(s.batches) + s'.pending;
  }

  lemma EndKeeps(g: Geometry, s: State, init: Disk, op: nat)
    requires Inv(g, s, init) && StepOk(g, s) && op in s.left && op !in s.checked
    ensures Inv(g, EndStep(g, s, op), init)
  {
    hide CommitWrites, RecoveryWrites, Recovered, Replay, Kept, MapSum;
    MapSumRemove(s.left, op);
    var s' := EndStep(g, s, op);
    if s'.phase.Committing? {
      assert s'.phase.ws[..0] == [];
    }
  }

  lemma CommitWriteKeeps(g: Geometry, s: State, init: Disk)
    requires PhaseOk(g, s, init) && s.phase.Committing? && s.phase.done < |s.phase.ws|
    ensures PhaseOk(g, DiskStepOf(s), init)
  {
    hide CommitWrites, RecoveryWrites, Recovered, Replay, Kept, Apply, DiskOk, Logged, NoRepeats, ListOk;
    var ws, done := s.phase.ws, s.phase.done;
    ApplyConcat(s.phase.base, ws[..done], [ws[done]]);
    assert ws[..done] + [ws[done]] == ws[..done + 1];
    if done == |s.list| {
      KeptSnoc(s.batches, Batch(true, s.pending, s.epoch, s.nextOp));
      assert Kept(s.batches) + s.pending + [] == Kept(s.batches) + s.pending;
    }
  }

  lemma CommitEndKeeps(g: Geometry, s: State, init: Disk)
    requires PhaseOk(g, s, init) && s.phase.Committing? && s.phase.done >= |s.phase.ws|
    ensures PhaseOk(g, DiskStepOf(s), init)
  {
    hide RecoveryWrites, Recovered, Replay, Kept, Apply, DiskOk, Logged, NoRepeats, ListOk;
    var base := s.phase.base;
    CommitAtomic(g, base, s.view, s.list, s.phase.done);
    OverlayIsView(g, base, s.view, s.list);
    assert Kept(s.batches) + [] == Kept(s.batches);
  }

  lemma RecoveryKeeps(g: Geometry, s: State, init: Disk)
    requires PhaseOk(g, s, init) && s.phase.Recovering?
    ensures PhaseOk(g, DiskStepOf(s), init)
  {
    hide CommitWrites, RecoveryWrites, Recovered, Replay, Kept, Apply, DiskOk, Logged, NoRepeats, ListOk;
    var base, ws, done := s.phase.base, s.phase.ws, s.phase.done;
    if done < |ws| {
      ApplyConcat(base, ws[..done], [ws[done]]);
      assert ws[..done] + [ws[done]] == ws[..done + 1];
    } else {
      RecoveryAtomic(g, base, done);
      assert Kept(s.batches) + [] == Kept(s.batches);
    }
  }

  lemma DiskStepBatches(s: State)
    requires BatchesOk(s) && s.left == map[]
    ensures BatchesOk(DiskStepOf(s))
  {
    hide MadeBy, Apply;
    assert MadeBy([], s.nextOp, s.nextOp) by { NoEntries(s.nextOp); }
  }

  lemma NoEntries(n: nat)
    ensures MadeBy([], n, n)
  {
  }

  lemma DiskStepKeeps(g: Geometry, s: State, init: Disk)
    requires Inv(g, s, init)
    ensures Inv(g, DiskStepOf(s), init)
  {
    hide PhaseOk, BatchesOk, Apply, NoRepeats, ListOk;
    if !s.phase.Open? {
      NoneOutstanding(g, s, init);
      DiskStepBatches(s);
      if s.phase.Recovering? {
        RecoveryKeeps(g, s, init);
      } else if s.phase.done < |s.phase.ws| {
        CommitWriteKeeps(g, s, init);
      } else {
        CommitEndKeeps(g, s, init);
        assert ListOk(g, []) && NoRepeats([]) by { EmptyList(g); }
      }
    }
  }

  lemma EmptyList(g: Geometry)
    requires g.size > LOGSIZE
    ensures ListOk(g, []) && NoRepeats([])
  {
  }

  lemma NoneOutstanding(g: Geometry, s: State, init: Disk)
    requires PhaseOk(g, s, init) && !s.phase.Open?
    ensures s.left == map[] && (s.phase.Recovering? ==> s.list == [] && s.waiting == {})
  {
    assert s.left.Keys == {};
  }

  lemma CrashPhase(g: Geometry, s: State, init: Disk)
    requires PhaseOk(g, s, init) && Durable(g, s, init)
    ensures PhaseOk(g, CrashStep(g, s), init)
  {
    hide CommitWrites, RecoveryWrites, Recovered, Replay, Kept, Apply, DiskOk, Logged, SameHome, OnlyLogged, ListOk;
    KeptSnoc(s.batches, Batch(false, s.pending, s.epoch, s.nextOp));
    assert Kept(s.batches) + [] == Kept(s.batches);
    assert RecoveryWrites(g, s.disk)[..0] == [];
    ApplyNone(s.disk);
  }

  lemma CrashBatches(g: Geometry, s: State)
    requires DiskOk(g, s.disk) && BatchesOk(s)
    ensures BatchesOk(CrashStep(g, s))
  {
    hide MadeBy, DiskOk, RecoveryWrites;
    NoEntries(s.nextOp);
  }

  lemma CrashKeeps(g: Geometry, s: State, init: Disk)
    requires g.size > LOGSIZE && PhaseOk(g, s, init) && BatchesOk(s)
    ensures DiskOk(g, s.disk) && Inv(g, CrashStep(g, s), init)
  {
    hide PhaseOk, BatchesOk, RecoveryWrites, Recovered, Replay, Kept, DiskOk;
    InvDurable(g, s, init);
    CrashPhase(g, s, init);
    CrashBatches(g, s);
  }

  // ---- Runs ----

  /** A machine switched on with some disk: it starts by recovering. */
  ghost function Boot(g: Geometry, d: Disk): State
    requires DiskOk(g, d)
  {
    State(d, d, [], map[], map[], 0, {}, Recovering(d, RecoveryWrites(g, d), 0), false, [], [], 0)
  }

  lemma InvStepOk(g: Geometry, s: State, init: Disk)
    requires Inv(g, s, init)
    ensures StepOk(g, s)
  {
    InvDurable(g, s, init);
  }

  lemma StepKeeps(g: Geometry, s: State, init: Disk, e: Event)
    requires Inv(g, s, init)
    ensures StepOk(g, s) && Inv(g, Step(g, s, e), init)
  {
    hide PhaseOk, BatchesOk, SleepersOk, CommitWrites, RecoveryWrites, DiskOk, ListOk, NoRepeats;
    InvStepOk(g, s, init);
    match e
    case Begin(p) => BeginKeeps(g, s, init, p);
    case Check(op, bn, data) =>
      if op in s.left && s.left[op] > 0 && op !in s.checked && g.Home(bn) && bn < WORD {
        CheckKeeps(g, s, init, Entry(op, bn, data));
      }
    case Append(op) =>
      if op in s.checked && op in s.left && s.left[op] > 0 && s.checked[op].bn < |s.view| {
        AppendKeeps(g, s, init, op);
      }
    case End(op) =>
      if op in s.left && op !in s.checked { EndKeeps(g, s, init, op); }
    case DiskStep => DiskStepKeeps(g, s, init);
    case Crash => CrashKeeps(g, s, init);
  }

  /** The state after a run.  `init` is what the first recovery makes of the disk. */
  ghost function Run(g: Geometry, d: Disk, es: seq<Event>): (s: State)
    requires DiskOk(g, d) && g.size > LOGSIZE
    ensures Inv(g, s, Recovered(g, d))
  {
    if es == [] then
      BootInv(g, d);
      Boot(g, d)
    else
      var s := Run(g, d, es[..|es| - 1]);
      StepKeeps(g, s, Recovered(g, d), es[|es| - 1]);
      Step(g, s, es[|es| - 1])
  }

  lemma BootInv(g: Geometry, d: Disk)
    requires DiskOk(g, d) && g.size > LOGSIZE
    ensures Inv(g, Boot(g, d), Recovered(g, d))
  {
    hide RecoveryWrites, Recovered;
    assert RecoveryWrites(g, d)[..0] == [];
    ApplyNone(d);
    RecoveryAtomic(g, d, 0);
    var s := Boot(g, d);
    assert s.left.Keys == {} && MapSum(s.left) == 0;
    assert Replay(Recovered(g, d), Kept(s.batches)) == Recovered(g, d);
    EmptyList(g);
  }

  /** Main result.  In every interleaving of operations, commits, crashes and recoveries:
      a crash now would leave exactly the committed batches on disk; operations see those and the
      pending entries; and log_write never panics. */
  lemma TransactionsAreAtomic(g: Geometry, d: Disk, es: seq<Event>)
    requires DiskOk(g, d) && g.size > LOGSIZE
    ensures var s := Run(g, d, es);
            && Durable(g, s, Recovered(g, d))
            && (!s.phase.Recovering? ==> Visible(g, s, Recovered(g, d)))
            && !s.panicked && |s.list| <= LOGSIZE && NoRepeats(s.list)
            && (s.phase.Committing? ==> s.left == map[])
            && (s.phase.Open? && s.left == map[] ==> s.list == [] && s.pending == [])
  {
    var s := Run(g, d, es);
    InvDurable(g, s, Recovered(g, d));
    if !s.phase.Open? {
      NoneOutstanding(g, s, Recovered(g, d));
    }
  }

  /** Whatever every committed batch keeps is there after any crash and recovery. */
  lemma CrashKeepsProperty(g: Geometry, d: Disk, es: seq<Event>, p: Disk -> bool)
    requires DiskOk(g, d) && g.size > LOGSIZE && p(Recovered(g, d))
    requires forall a, b :: SameHome(g, a, b) && p(a) ==> p(b)
    requires EachKeeps(p, Recovered(g, d), Run(g, d, es).batches)
    ensures var s := Run(g, d, es); DiskOk(g, s.disk) && p(Recovered(g, s.disk))
  {
    var s := Run(g, d, es);
    hide Run, Recovered, SameHome;
    TransactionsAreAtomic(g, d, es);
    BatchesKeep(p, Recovered(g, d), s.batches, |s.batches|);
    assert s.batches[..|s.batches|] == s.batches;
    SameHomeFlip(g, Recovered(g, s.disk), Replay(Recovered(g, d), Kept(s.batches)));
  }

  ghost predicate EachKeeps(p: Disk -> bool, init: Disk, bs: seq<Batch>) {
    forall i :: 0 <= i < |bs| && p(Replay(init, Kept(bs[..i]))) ==> p(Replay(init, Kept(bs[..i + 1])))
  }

  lemma {:induction false} BatchesKeep(p: Disk -> bool, init: Disk, bs: seq<Batch>, n: nat)
    requires EachKeeps(p, init, bs) && n <= |bs| && p(init)
    ensures p(Replay(init, Kept(bs[..n])))
  {
    if n > 0 {
      BatchesKeep(p, init, bs, n - 1);
    }
  }

  lemma SameHomeFlip(g: Geometry, a: Disk, b: Disk)
    requires SameHome(g, a, b)
    ensures SameHome(g, b, a)
  {
  }

  /** Isolation: all entries an operation ever makes are in one batch, so they are committed together
      or lost together, and an outstanding operation has none in a finished batch. */
  lemma OperationsAreWhole(g: Geometry, d: Disk, es: seq<Event>, op: nat, i: nat, k: nat)
    requires DiskOk(g, d) && g.size > LOGSIZE
    requires var s := Run(g, d, es); i < |s.batches| && k < |s.batches[i].entries| && s.batches[i].entries[k].op == op
    ensures var s := Run(g, d, es);
            && op !in s.left
            && (forall m :: 0 <= m < |s.pending| ==> s.pending[m].op != op)
            && (forall j, m :: 0 <= j < |s.batches| && 0 <= m < |s.batches[j].entries| ==>
                  s.batches[j].entries[m].op == op ==> j == i)
  {
    var s := Run(g, d, es);
    assert BatchesOk(s);
    assert MadeBy(s.batches[i].entries, s.batches[i].lo, s.batches[i].hi);
    forall j, m | 0 <= j < |s.batches| && 0 <= m < |s.batches[j].entries| && s.batches[j].entries[m].op == op
      ensures j == i
    {
      assert MadeBy(s.batches[j].entries, s.batches[j].lo, s.batches[j].hi);
    }
  }

  // ---- Progress ----

  function Steps(s: State, n: nat): State
    decreases n
  {
    if n == 0 then s else Steps(DiskStepOf(s), n - 1)
  }

  /** A commit ends, and its end wakes every sleeper. */
  lemma {:induction false} CommitWakes(s: State, n: nat)
    requires s.phase.Committing? && s.phase.done <= |s.phase.ws| && n == |s.phase.ws| - s.phase.done + 1
    ensures Steps(s, n).phase.Open? && Steps(s, n).waiting == {} && Steps(s, n).list == []
    decreases n
  {
    if s.phase.done < |s.phase.ws| {
      CommitWakes(DiskStepOf(s), n - 1);
    } else {
      assert Steps(s, 1) == Steps(DiskStepOf(s), 0);
    }
  }

  /** No one sleeps in begin_op for ever: there is a commit under way, or an outstanding operation
      whose end_op either wakes the sleepers or starts the commit that will. */
  lemma SleeperHasWaker(g: Geometry, d: Disk, es: seq<Event>)
    requires DiskOk(g, d) && g.size > LOGSIZE && Run(g, d, es).waiting != {}
    ensures var s := Run(g, d, es);
            || s.phase.Committing?
            || (s.left.Keys != {} && StepOk(g, s) && forall op :: op in s.left && op !in s.checked ==>
                  var s' := EndStep(g, s, op); s'.waiting == {} || s'.phase.Committing?)
  {
    InvStepOk(g, Run(g, d, es), Recovered(g, d));
  }

  // ---- The size of the log ----

  /** Event by event, `es` leads from `s` to `s'`. */
  ghost predicate Leads(g: Geometry, s: State, es: seq<Event>, s': State)
    decreases |es|
  {
    if es == [] then s == s' else StepOk(g, s) && Leads(g, Step(g, s, es[0]), es[1..], s')
  }

  /** How many of the first `i` calls operation `j` of three made, ten each in turn. */
  function Made(i: nat, j: nat): nat {
    if i <= 10 * j then 0 else if i >= 10 * j + 10 then 10 else i - 10 * j
  }

  /** Three operations from `a` on have together logged `i` blocks, the first ones after the log. */
  ghost predicate Filled(g: Geometry, s: State, a: nat, i: nat) {
    && StepOk(g, s) && s.phase.Open? && !s.panicked && s.checked == map[] && |s.list| == i
    && (forall k :: 0 <= k < i ==> g.start + g.size <= s.list[k] < g.start + g.size + i)
    && (forall j :: 0 <= j < 3 ==> Budget(s, a, i, j))
  }

  ghost predicate Budget(s: State, a: nat, i: nat, j: nat) {
    a + j in s.left && s.left[a + j] == 10 - Made(i, j)
  }

  lemma FillLog(g: Geometry, s: State, a: nat, i: nat, data: Block) returns (es: seq<Event>, s': State)
    requires Filled(g, s, a, i) && i < g.size <= LOGSIZE && g.start + 2 * g.size <= g.blocks < WORD
    ensures Leads(g, s, es, s') && s'.panicked
    decreases g.size - i
  {
    var op, bn := a + i / 10, g.start + g.size + i;
    assert Budget(s, a, i, i / 10);
    var s1 := Step(g, s, Check(op, bn, data));
    if i == g.size - 1 {
      es, s' := [Check(op, bn, data)], s1;
      assert es[1..] == [];
    } else {
      var s2 := Step(g, s1, Append(op));
      assert s1.checked - {op} == map[];
      FilledNext(g, s, a, i, data, s1, s2);
      es, s' := FillLog(g, s2, a, i + 1, data);
      LeadsCons(g, s1, Append(op), es, s');
      LeadsCons(g, s, Check(op, bn, data), [Append(op)] + es, s');
      es := [Check(op, bn, data)] + ([Append(op)] + es);
    }
  }

  lemma LeadsCons(g: Geometry, s: State, e: Event, es: seq<Event>, s': State)
    requires StepOk(g, s) && Leads(g, Step(g, s, e), es, s')
    ensures Leads(g, s, [e] + es, s')
  {
    assert ([e] + es)[1..] == es;
  }

  lemma FilledNext(g: Geometry, s: State, a: nat, i: nat, data: Block, s1: State, s2: State)
    requires Filled(g, s, a, i) && i + 1 < g.size <= LOGSIZE && g.start + 2 * g.size <= g.blocks < WORD
    requires var op, bn := a + i / 10, g.start + g.size + i;
             && s1 == s.(checked := map[op := Entry(op, bn, data)])
             && op in s.left && s.left[op] > 0 && bn < |s.view| && s2 == AppendStep(s1, op)
    ensures Filled(g, s2, a, i + 1)
  {
    var op, bn := a + i / 10, g.start + g.size + i;
    assert bn !in s.list && s2.list == s.list + [bn];
    var n := i + 1;
    forall j | 0 <= j < 3 ensures Budget(s2, a, n, j) {
      assert Budget(s, a, i, j);
    }
  }

  /** Operations a..a+n-1 have begun, and nothing has been logged. */
  ghost predicate Begun(g: Geometry, s: State, a: nat, n: nat) {
    && StepOk(g, s) && s.phase.Open? && !s.panicked && s.checked == map[] && s.list == []
    && s.nextOp == a + n && |s.left| == n && (forall o :: o in s.left ==> a <= o < a + n)
    && (forall j :: 0 <= j < n ==> Budget(s, a, 0, j))
  }

  lemma OneBegins(g: Geometry, s: State, a: nat, n: nat)
    requires Begun(g, s, a, n) && n < 3
    ensures Begun(g, Step(g, s, Begin(n)), a, n + 1)
  {
    hide DiskOk;
    var s' := Step(g, s, Begin(n));
    assert s'.left == s.left[a + n := MAXOPBLOCKS];
    forall j | 0 <= j < n ensures Budget(s', a, 0, j) {
      assert Budget(s, a, 0, j);
    }
  }

  /** Recovery from a boot with disk `d`, after `n` of its writes. */
  ghost function Booting(g: Geometry, d: Disk, n: nat): State
    requires DiskOk(g, d) && n <= |RecoveryWrites(g, d)|
  {
    var ws := RecoveryWrites(g, d);
    Boot(g, d).(disk := Apply(d, ws[..n]), phase := Recovering(d, ws, n))
  }

  lemma {:induction false} BootEnds(g: Geometry, d: Disk, n: nat) returns (es: seq<Event>, s: State)
    requires DiskOk(g, d) && n <= |RecoveryWrites(g, d)|
    ensures Leads(g, Booting(g, d, n), es, s) && Begun(g, s, 0, 0)
    decreases |RecoveryWrites(g, d)| - n
  {
    hide RecoveryWrites, Apply, Leads, HeaderOk;
    var b, ws := Booting(g, d, n), RecoveryWrites(g, d);
    RecoveryAtomic(g, d, n);
    if n < |ws| {
      ApplyConcat(d, ws[..n], [ws[n]]);
      assert ws[..n] + [ws[n]] == ws[..n + 1];
      es, s := BootEnds(g, d, n + 1);
    } else {
      es, s := [], Step(g, b, DiskStep);
      LeadsNowhere(g, s);
    }
    LeadsCons(g, b, DiskStep, es, s);
    es := [DiskStep] + es;
  }

  lemma LeadsNowhere(g: Geometry, s: State)
    ensures Leads(g, s, [], s)
  {
  }

  lemma {:induction false} LeadsOn(g: Geometry, s: State, es: seq<Event>, s1: State, es': seq<Event>, s': State)
    requires Leads(g, s, es, s1) && Leads(g, s1, es', s')
    ensures Leads(g, s, es + es', s')
    decreases es
  {
    hide Step, StepOk;
    if es == [] {
      assert es + es' == es';
    } else {
      LeadsOn(g, Step(g, s, es[0]), es[1..], s1, es', s');
      assert es + es' == [es[0]] + (es[1..] + es');
      LeadsCons(g, s, es[0], es[1..] + es', s');
    }
  }

  /** A log of LOGSIZE blocks or fewer, which is what mkfs makes, can be filled to the panic after any boot by three
      operations within their budgets.  Together with `TransactionsAreAtomic`: log_write never panics
      exactly when log.size > LOGSIZE. */
  lemma SmallLogPanics(g: Geometry, d: Disk, data: Block) returns (es: seq<Event>, s': State)
    requires DiskOk(g, d) && g.size <= LOGSIZE && g.start + 2 * g.size <= g.blocks < WORD
    ensures Leads(g, Boot(g, d), es, s') && s'.panicked
  {
    hide Step, Leads, RecoveryWrites;
    assert RecoveryWrites(g, d)[..0] == [];
    ApplyNone(d);
    var boot, s := BootEnds(g, d, 0);
    OneBegins(g, s, 0, 0);
    var s1 := Step(g, s, Begin(0));
    OneBegins(g, s1, 0, 1);
    var s2 := Step(g, s1, Begin(1));
    OneBegins(g, s2, 0, 2);
    es, s' := FillLog(g, Step(g, s2, Begin(2)), 0, 0, data);
    LeadsCons(g, s2, Begin(2), es, s');
    LeadsCons(g, s1, Begin(1), [Begin(2)] + es, s');
    LeadsCons(g, s, Begin(0), [Begin(1)] + ([Begin(2)] + es), s');
    es := [Begin(0)] + ([Begin(1)] + ([Begin(2)] + es));
    LeadsOn(g, Boot(g, d), boot, s, es, s');
    es := boot + es;
  }
}
