/** What became of every block that operations logged, told from the calls alone.

    `History` notes the calls: the block and data each `log_write` was given, in order, cut back at crashes to what had
    been committed.  Of the machine it looks only at the answers: whether `begin_op` returned, and whether the header
    block on the disk has been written. */
module CommitHistory {
  import opened Bytes
  import opened Redo
  import opened GroupCommit
  import opened Sets

  /** `live` are the operations begun and not ended, with the calls of log_write each may still make; `asked` what those
      in a call of log_write were given; `made` all entries not lost in a crash, of which the first `durable` are
      committed. */
  datatype Seen = Seen(live: map<nat, nat>, asked: map<nat, Entry>, made: seq<Entry>, durable: nat, next: nat)

  function Note(g: Geometry, o: Seen, e: Event, admitted: bool, landed: bool): Seen {
    match e
    case Begin(_) => if admitted then o.(live := o.live[o.next := MAXOPBLOCKS], next := o.next + 1) else o
    case Check(op, bn, data) =>
      if op in o.live && o.live[op] > 0 && op !in o.asked && g.Home(bn) && bn < WORD
      then o.(asked := o.asked[op := Entry(op, bn, data)]) else o
    case Append(op) =>
      if op in o.asked && op in o.live && o.live[op] > 0
      then o.(made := o.made + [o.asked[op]], live := o.live[op := o.live[op] - 1], asked := o.asked - {op}) else o
    case End(op) => if op in o.live && op !in o.asked then o.(live := o.live - {op}) else o
    case DiskStep => if landed then o.(durable := |o.made|) else o
    case Crash =>
      o.(live := map[], asked := map[], made := if o.durable <= |o.made| then o.made[..o.durable] else o.made)
  }

  /** The header on disk went from an empty list to one that is not. */
  ghost predicate Landed(g: Geometry, d: Disk, d': Disk) {
    DiskOk(g, d) && DiskOk(g, d') && Logged(g, d) == [] && Logged(g, d') != []
  }

  ghost function History(g: Geometry, d: Disk, es: seq<Event>): Seen
    requires DiskOk(g, d) && g.size > LOGSIZE
  {
    if es == [] then Seen(map[], map[], [], 0, 0)
    else
      var before := es[..|es| - 1];
      var s, s' := Run(g, d, before), Run(g, d, es);
      Note(g, History(g, d, before), es[|es| - 1], s'.nextOp > s.nextOp, Landed(g, s.disk, s'.disk))
  }

  // ---- When the header lands ----

  lemma CommitHeader(g: Geometry, d: Disk, view: Disk, l: seq<nat>, k: nat)
    requires DiskOk(g, d) && Logged(g, d) == [] && ListOk(g, l) && |view| == g.blocks && l != []
    requires k <= |CommitWrites(g, d, view, l)|
    ensures var e, ws := Apply(d, CommitWrites(g, d, view, l)[..k]), CommitWrites(g, d, view, l);
            DiskOk(g, e) && Logged(g, e) == if |l| < k < |ws| then l else []
  {
    hide Apply, Recovered, Overlay, SameHome;
    var ws := CommitWrites(g, d, view, l);
    if k <= |l| {
      CommitBefore(g, d, view, l, k);
    } else if k < |ws| {
      var n := k - |l| - 1;
      assert ws[..k] == UpToHeader(g, d, view, l) + Homes(view, l)[..n];
      hide HeaderBlock;
      HomesWritten(g, d, view, l, n);
      HeaderRoundTrip(d[g.start], l);
    } else {
      CommitAfter(g, d, view, l, k);
    }
  }

  lemma RecoveryHeader(g: Geometry, d: Disk, k: nat)
    requires DiskOk(g, d) && k < |RecoveryWrites(g, d)|
    ensures var e, e' := Apply(d, RecoveryWrites(g, d)[..k]), Apply(d, RecoveryWrites(g, d)[..k + 1]);
            !Landed(g, e, e')
  {
    hide Apply, Recovered, SameHome;
    var ws := RecoveryWrites(g, d);
    if k + 1 == |ws| {
      RecoveryAtomic(g, d, k + 1);
    } else {
      assert ws[..k] == Installs(g, d)[..k] && ws[..k + 1] == Installs(g, d)[..k + 1];
      DuringInstalls(g, d, k);
      DuringInstalls(g, d, k + 1);
    }
  }

  // ---- The machine and the history agree ----

  ghost predicate Agree(s: State, o: Seen) {
    && o.live == s.left && o.asked == s.checked && o.next == s.nextOp
    && o.made == Kept(s.batches) + s.pending && o.durable == |Kept(s.batches)|
  }

  lemma DiskStepAgrees(g: Geometry, s: State, init: Disk, o: Seen)
    requires Inv(g, s, init) && Agree(s, o)
    ensures var s' := DiskStepOf(s); Agree(s', Note(g, o, DiskStep, false, Landed(g, s.disk, s'.disk)))
  {
    hide CommitWrites, RecoveryWrites, Recovered, Apply, Replay, DiskOk, SameHome, OnlyLogged, NoRepeats;
    match s.phase
    case Open =>
    case Committing(base, ws, done) =>
      if done < |ws| {
        NextWrite(base, ws, done, s.disk);
        NoEmptyCommit(g, base, s.view, s.list);
        CommitHeader(g, base, s.view, s.list, done);
        CommitHeader(g, base, s.view, s.list, done + 1);
        KeptSnoc(s.batches, Batch(true, s.pending, s.epoch, s.nextOp));
        assert Kept(s.batches) + s.pending + [] == Kept(s.batches) + s.pending;
      }
    case Recovering(base, ws, done) =>
      if done < |ws| {
        NextWrite(base, ws, done, s.disk);
        RecoveryHeader(g, base, done);
      }
  }

  lemma NoEmptyCommit(g: Geometry, d: Disk, view: Disk, l: seq<nat>)
    requires DiskOk(g, d) && ListOk(g, l) && |view| == g.blocks
    ensures CommitWrites(g, d, view, l) != [] ==> l != []
    ensures l != [] ==> |CommitWrites(g, d, view, l)| == 2 * |l| + 2
  {
  }

  lemma NextWrite(base: Disk, ws: seq<Write>, done: nat, d: Disk)
    requires done < |ws| && d == Apply(base, ws[..done])
    ensures Apply(d, [ws[done]]) == Apply(base, ws[..done + 1])
  {
    ApplyConcat(base, ws[..done], [ws[done]]);
    assert ws[..done] + [ws[done]] == ws[..done + 1];
  }

  lemma CallAgrees(g: Geometry, s: State, e: Event, o: Seen)
    requires StepOk(g, s) && Reserved(g, s) && Agree(s, o) && (e.Begin? || e.Append? || e.End?)
    requires s.left.Keys != {} ==> s.phase.Open?
    ensures var s' := Step(g, s, e); Agree(s', Note(g, o, e, s'.nextOp > s.nextOp, false))
  {
    hide DiskOk, ListOk, NoRepeats, CommitWrites, Kept, MapSum;
    match e
    case Begin(p) =>
    case Append(op) =>
    case End(op) =>
      assert op in s.left ==> op in s.left.Keys;
  }

  lemma CheckAgrees(g: Geometry, s: State, init: Disk, e: Event, o: Seen)
    requires Inv(g, s, init) && StepOk(g, s) && Agree(s, o) && e.Check?
    ensures var s' := Step(g, s, e); Agree(s', Note(g, o, e, false, false))
  {
    hide PhaseOk, BatchesOk, SleepersOk, DiskOk, ListOk, NoRepeats, Kept, MapSum;
    var Check(op, bn, data) := e;
    if op in s.left && s.left[op] > 0 && op !in s.checked && g.Home(bn) && bn < WORD {
      CheckKeeps(g, s, init, Entry(op, bn, data));
    }
  }

  lemma CrashAgrees(g: Geometry, s: State, o: Seen)
    requires DiskOk(g, s.disk) && Agree(s, o)
    ensures Agree(CrashStep(g, s), Note(g, o, Crash, false, false))
  {
    hide DiskOk, RecoveryWrites;
    KeptSnoc(s.batches, Batch(false, s.pending, s.epoch, s.nextOp));
    hide Kept;
    assert Kept(s.batches) + [] == Kept(s.batches);
  }

  lemma StepAgrees(g: Geometry, s: State, init: Disk, e: Event, o: Seen)
    requires Inv(g, s, init) && Agree(s, o)
    ensures StepOk(g, s)
    ensures var s' := Step(g, s, e); Agree(s', Note(g, o, e, s'.nextOp > s.nextOp, Landed(g, s.disk, s'.disk)))
  {
    InvStepOk(g, s, init);
    if !s.phase.Open? {
      NoneOutstanding(g, s, init);
    }
    if e.DiskStep? {
      DiskStepAgrees(g, s, init, o);
    } else if e.Check? {
      CheckAgrees(g, s, init, e, o);
    } else if e.Crash? {
      CrashAgrees(g, s, o);
    } else {
      hide Step, Note;
      CallAgrees(g, s, e, o);
    }
  }

  lemma {:induction false} HistoryAgrees(g: Geometry, d: Disk, es: seq<Event>)
    requires DiskOk(g, d) && g.size > LOGSIZE
    ensures Agree(Run(g, d, es), History(g, d, es))
  {
    hide Agree, Note, Landed;
    if es == [] {
      BootAgrees(g, d);
    } else {
      var before := es[..|es| - 1];
      HistoryAgrees(g, d, before);
      StepAgrees(g, Run(g, d, before), Recovered(g, d), es[|es| - 1], History(g, d, before));
    }
  }

  lemma BootAgrees(g: Geometry, d: Disk)
    requires DiskOk(g, d) && g.size > LOGSIZE
    ensures Agree(Run(g, d, []), Seen(map[], map[], [], 0, 0))
  {
  }

  // ---- What that means ----

  /** In every run: a crash now would leave exactly the durable entries; operations see those and all later ones; and
      whenever the log is open and no operation is outstanding, every entry is durable. */
  lemma NothingIsLost(g: Geometry, d: Disk, es: seq<Event>)
    requires DiskOk(g, d) && g.size > LOGSIZE
    ensures var s, o := Run(g, d, es), History(g, d, es);
            && o.durable <= |o.made| && DiskOk(g, s.disk)
            && SameHome(g, Recovered(g, s.disk), Replay(Recovered(g, d), o.made[..o.durable]))
            && (!s.phase.Recovering? ==> SameHome(g, s.view, Replay(Recovered(g, d), o.made)))
            && (s.phase.Open? && o.live == map[] ==> o.durable == |o.made|)
  {
    HistoryAgrees(g, d, es);
    TransactionsAreAtomic(g, d, es);
    hide Run, History, Recovered, SameHome, Replay, Kept, DiskOk;
    var o, kept := History(g, d, es), Kept(Run(g, d, es).batches);
    assert o.made[..o.durable] == kept;
  }

  /** Entry `k` is the last one for its block. */
  ghost predicate LastFor(es: seq<Entry>, k: nat) {
    k < |es| && forall m :: k < m < |es| ==> es[m].bn != es[k].bn
  }

  lemma {:induction false} ReplayIsLast(d: Disk, es: seq<Entry>, k: nat)
    requires LastFor(es, k) && es[k].bn < |d|
    ensures Replay(d, es)[es[k].bn] == es[k].data
  {
    if k < |es| - 1 {
      assert es[..|es| - 1][k] == es[k];
      ReplayIsLast(d, es[..|es| - 1], k);
    }
  }

  /** One event more. */
  lemma Snoc(g: Geometry, d: Disk, es: seq<Event>, e: Event)
    requires DiskOk(g, d) && g.size > LOGSIZE
    ensures var s, s' := Run(g, d, es), Run(g, d, es + [e]);
            && Inv(g, s, Recovered(g, d)) && StepOk(g, s) && s' == Step(g, s, e)
            && History(g, d, es + [e])
               == Note(g, History(g, d, es), e, s'.nextOp > s.nextOp, Landed(g, s.disk, s'.disk))
  {
    hide Inv, Step, Note, Landed, DiskOk;
    assert (es + [e])[..|es|] == es;
    InvStepOk(g, Run(g, d, es), Recovered(g, d));
  }

  /** No operation is split by a crash: its entries are all durable or none of them is. */
  lemma CommittedWhole(g: Geometry, d: Disk, es: seq<Event>, i: nat, j: nat)
    requires DiskOk(g, d) && g.size > LOGSIZE
    requires i < History(g, d, es).durable <= j < |History(g, d, es).made|
    ensures History(g, d, es).made[i].op != History(g, d, es).made[j].op
    ensures History(g, d, es).made[i].op !in History(g, d, es).live
  {
    hide Run, History, Step, Recovered, Reserved, PhaseOk, SleepersOk, StepOk, DiskOk;
    HistoryAgrees(g, d, es);
    Snoc(g, d, es, DiskStep);
    var s, o := Run(g, d, es), History(g, d, es);
    KeptBelow(s.batches, s.epoch);
    hide Kept;
    assert o.made[i] == Kept(s.batches)[i] && o.made[j] == s.pending[j - |Kept(s.batches)|];
  }

  lemma {:induction false} KeptBelow(bs: seq<Batch>, hi: nat)
    requires forall i :: 0 <= i < |bs| ==> MadeBy(bs[i].entries, bs[i].lo, bs[i].hi) && bs[i].hi <= hi
    ensures MadeBy(Kept(bs), 0, hi)
  {
    if bs != [] {
      KeptBelow(bs[..|bs| - 1], hi);
    }
  }

  function DiskSteps(n: nat): seq<Event> {
    if n == 0 then [] else DiskSteps(n - 1) + [DiskStep]
  }

  /** When the last operation ends, its commit is under way, and after the disk writes that remain, every entry of every
      operation is in its home block: the disk holds the data last given for each block. */
  lemma LastEndCommits(g: Geometry, d: Disk, es: seq<Event>, op: nat) returns (n: nat)
    requires DiskOk(g, d) && g.size > LOGSIZE
    requires var o := History(g, d, es); op in o.live && o.live - {op} == map[] && op !in o.asked
    ensures var es' := es + [End(op)] + DiskSteps(n);
            var s, o := Run(g, d, es'), History(g, d, es');
            && s.phase.Open? && o.live == map[] && o.made == History(g, d, es).made && o.durable == |o.made|
            && SameHome(g, s.disk, Replay(Recovered(g, d), o.made))
            && forall k: nat :: LastFor(o.made, k) && g.Home(o.made[k].bn) ==> s.disk[o.made[k].bn] == o.made[k].data
  {
    var ended := es + [End(op)];
    var s1 := EndStarts(g, d, es, op);
    n := |s1.phase.ws| - s1.phase.done + 1;
    CommitWakes(s1, n);
    RunSteps(g, d, ended, n);
    DiskStepsMakeNothing(g, d, ended, n);
    var es' := ended + DiskSteps(n);
    NothingIsLost(g, d, es');
    HistoryAgrees(g, d, es');
    OpenDisk(g, Run(g, d, es'), Recovered(g, d));
    hide Run, History, Recovered, SameHome, Replay, DiskSteps, Steps;
    var o := History(g, d, es');
    assert o.made[..o.durable] == o.made;
    LastIsHome(g, Run(g, d, es').disk, Recovered(g, d), o.made);
  }

  lemma LastIsHome(g: Geometry, e: Disk, d: Disk, es: seq<Entry>)
    requires SameHome(g, e, Replay(d, es))
    ensures forall k: nat :: LastFor(es, k) && g.Home(es[k].bn) ==> e[es[k].bn] == es[k].data
  {
    hide Replay;
    forall k: nat | LastFor(es, k) && g.Home(es[k].bn) ensures e[es[k].bn] == es[k].data {
      ReplayIsLast(d, es, k);
    }
  }

  lemma EndStarts(g: Geometry, d: Disk, es: seq<Event>, op: nat) returns (s1: State)
    requires DiskOk(g, d) && g.size > LOGSIZE
    requires var o := History(g, d, es); op in o.live && o.live - {op} == map[] && op !in o.asked
    ensures s1 == Run(g, d, es + [End(op)]) && s1.phase.Committing? && s1.phase.done <= |s1.phase.ws|
    ensures var o := History(g, d, es + [End(op)]); o.live == map[] && o.made == History(g, d, es).made
  {
    hide Run, History, Recovered, CommitWrites, Landed, PhaseOk, BatchesOk, SleepersOk, DiskOk, ListOk, NoRepeats;
    hide MapSum;
    HistoryAgrees(g, d, es);
    Snoc(g, d, es, End(op));
    var s := Run(g, d, es);
    s1 := Run(g, d, es + [End(op)]);
    NotOpenNone(g, s, Recovered(g, d), op);
  }

  lemma NotOpenNone(g: Geometry, s: State, init: Disk, op: nat)
    requires PhaseOk(g, s, init) && op in s.left
    ensures s.phase.Open?
  {
    if !s.phase.Open? {
      NoneOutstanding(g, s, init);
    }
  }

  lemma OpenDisk(g: Geometry, s: State, init: Disk)
    requires Inv(g, s, init) && s.phase.Open?
    ensures DiskOk(g, s.disk) && SameHome(g, s.disk, Recovered(g, s.disk))
  {
    EmptyLog(g, s.disk);
  }

  lemma {:induction false} RunSteps(g: Geometry, d: Disk, es: seq<Event>, n: nat)
    requires DiskOk(g, d) && g.size > LOGSIZE
    ensures Run(g, d, es + DiskSteps(n)) == Steps(Run(g, d, es), n)
    decreases n
  {
    hide Run, History, Inv, StepOk, DiskStepOf, DiskOk;
    if n == 0 {
      assert es + DiskSteps(0) == es;
    } else {
      RunSteps(g, d, es, n - 1);
      var before := es + DiskSteps(n - 1);
      assert es + DiskSteps(n) == before + [DiskStep];
      Snoc(g, d, before, DiskStep);
      StepsSnoc(Run(g, d, es), n - 1);
      NotPanicked(g, Run(g, d, before), Recovered(g, d));
    }
  }

  lemma NotPanicked(g: Geometry, s: State, init: Disk)
    requires Inv(g, s, init)
    ensures !s.panicked
  {
  }

  lemma {:induction false} StepsSnoc(s: State, n: nat)
    ensures Steps(s, n + 1) == DiskStepOf(Steps(s, n))
    decreases n
  {
    if n > 0 {
      StepsSnoc(DiskStepOf(s), n - 1);
    } else {
      assert Steps(s, 1) == Steps(DiskStepOf(s), 0);
    }
  }

  lemma {:induction false} DiskStepsMakeNothing(g: Geometry, d: Disk, es: seq<Event>, n: nat)
    requires DiskOk(g, d) && g.size > LOGSIZE
    ensures var o, o' := History(g, d, es), History(g, d, es + DiskSteps(n)); o'.made == o.made && o'.live == o.live
    decreases n
  {
    hide Run, History, Step, Inv, StepOk, Landed, DiskOk;
    if n == 0 {
      assert es + DiskSteps(0) == es;
    } else {
      DiskStepsMakeNothing(g, d, es, n - 1);
      var before := es + DiskSteps(n - 1);
      assert es + DiskSteps(n) == before + [DiskStep];
      Snoc(g, d, before, DiskStep);
    }
  }

  // ---- The list, and who may begin ----

  ghost function BlocksOf(es: seq<Entry>): (r: set<nat>)
    ensures forall bn: nat :: bn in r <==> exists k :: 0 <= k < |es| && es[k].bn == bn
  {
    set k | 0 <= k < |es| :: es[k].bn
  }

  /** While the log is open, its list holds exactly the blocks given since the last commit. */
  ghost predicate ListIs(s: State) {
    s.phase.Open? ==> Elements(s.list) == BlocksOf(s.pending)
  }

  lemma AppendListIs(s: State, op: nat)
    requires ListIs(s) && op in s.checked && op in s.left && s.left[op] > 0 && s.checked[op].bn < |s.view|
    ensures ListIs(AppendStep(s, op))
  {
    var x := s.checked[op];
    OneBlockMore(s.pending, x);
    assert Elements(if x.bn in s.list then s.list else s.list + [x.bn]) == Elements(s.list) + {x.bn};
  }

  lemma DiskListIs(g: Geometry, s: State, init: Disk)
    requires PhaseOk(g, s, init) && ListIs(s)
    ensures ListIs(DiskStepOf(s))
  {
    hide CommitWrites, RecoveryWrites, Recovered, Apply, Replay, Kept, DiskOk, SameHome, OnlyLogged, ListOk, Logged;
    assert Elements([]) == BlocksOf([]);
    if s.phase.Committing? {
      NoEmptyCommit(g, s.phase.base, s.view, s.list);
    }
  }

  lemma StepListIs(g: Geometry, s: State, init: Disk, e: Event)
    requires Inv(g, s, init) && ListIs(s) && StepOk(g, s)
    ensures ListIs(Step(g, s, e))
  {
    hide PhaseOk, BatchesOk, SleepersOk, DiskOk, CommitWrites, RecoveryWrites, ListOk, NoRepeats, DiskStepOf;
    if e.Append? {
      hide ListIs;
      if op :| op == e.op && op in s.checked && op in s.left && s.left[op] > 0 && s.checked[op].bn < |s.view| {
        AppendListIs(s, op);
      }
    } else if e.DiskStep? {
      hide ListIs;
      DiskListIs(g, s, init);
    }
  }

  lemma OneBlockMore(es: seq<Entry>, x: Entry)
    ensures BlocksOf(es + [x]) == BlocksOf(es) + {x.bn}
  {
    forall bn: nat ensures bn in BlocksOf(es + [x]) <==> bn in BlocksOf(es) + {x.bn} {
      if k :| 0 <= k < |es| && es[k].bn == bn {
        assert (es + [x])[k].bn == bn;
      }
      assert (es + [x])[|es|] == x;
    }
  }

  lemma {:induction false} RunListIs(g: Geometry, d: Disk, es: seq<Event>)
    requires DiskOk(g, d) && g.size > LOGSIZE
    ensures ListIs(Run(g, d, es))
  {
    hide ListIs, Inv, Step, DiskOk;
    if es == [] {
      NotOpenYet(g, d);
    } else {
      var before, e := es[..|es| - 1], es[|es| - 1];
      RunListIs(g, d, before);
      Snoc(g, d, before, e);
      assert before + [e] == es;
      StepListIs(g, Run(g, d, before), Recovered(g, d), e);
    }
  }

  lemma NotOpenYet(g: Geometry, d: Disk)
    requires DiskOk(g, d) && g.size > LOGSIZE
    ensures ListIs(Run(g, d, []))
  {
  }

  /** `begin_op` returns exactly when the log is open and has room for all that the outstanding operations and this one
      may add to the blocks given since the last commit; else, unless the machine is recovering, the caller sleeps. */
  lemma BeginAnswers(g: Geometry, d: Disk, es: seq<Event>, p: nat)
    requires DiskOk(g, d) && g.size > LOGSIZE
    ensures var s, s', o := Run(g, d, es), Run(g, d, es + [Begin(p)]), History(g, d, es);
            && o.durable <= |o.made|
            && (s'.nextOp > s.nextOp <==>
                  && s.phase.Open?
                  && |BlocksOf(o.made[o.durable..])| + (|o.live| + 1) * MAXOPBLOCKS <= LOGSIZE)
            && (s'.nextOp == s.nextOp && !s.phase.Recovering? ==> p in s'.waiting)
  {
    hide Run, History, PhaseOk, BatchesOk, SleepersOk, DiskOk, ListOk, Landed, Kept;
    HistoryAgrees(g, d, es);
    RunListIs(g, d, es);
    Snoc(g, d, es, Begin(p));
    var s, o := Run(g, d, es), History(g, d, es);
    assert o.made[o.durable..] == s.pending;
    ElementsSize(s.list);
  }
}
