/** Process creation, exit and wait (proc.c) over a process table of any size.

    Each event is one critical section under ptable.lock, or one unlocked write of `fork`; between
    events the lock is free.  `nextpid` is an unbounded counter here. */
module ProcTree {
  import opened Wrappers

  datatype State = UNUSED | EMBRYO | SLEEPING | RUNNABLE | RUNNING | ZOMBIE

  /** What a process sleeps on: a process slot (in `wait`), or anything else. */
  datatype Chan = OfProc(slot: nat) | Other(n: nat)

  /** `struct proc`.  `forking` is the slot its `fork` call is filling in, and `builder` is, in such a
      slot, the process doing so. */
  datatype Proc = Proc(
    state: State, pid: nat, parent: Option<nat>, chan: Option<Chan>, forking: Option<nat>, builder: Option<nat>)
  {
    predicate Live() { state == SLEEPING || state == RUNNABLE || state == RUNNING }
    predicate Settled() { Live() || state == ZOMBIE }
  }

  datatype Table = Table(procs: seq<Proc>, nextpid: nat, init: nat, returned: seq<nat>)

  // ---- What the critical sections compute ----

  /** `wakeup1`. */
  function WakeOn(ps: seq<Proc>, c: Chan): (r: seq<Proc>)
    ensures |r| == |ps|
    ensures forall i :: 0 <= i < |ps| ==>
              r[i] == if ps[i].state == SLEEPING && ps[i].chan == Some(c) then ps[i].(state := RUNNABLE) else ps[i]
  {
    seq(|ps|, i requires 0 <= i < |ps| =>
      if ps[i].state == SLEEPING && ps[i].chan == Some(c) then ps[i].(state := RUNNABLE) else ps[i])
  }

  predicate IsZombieChild(p: Proc, parent: nat) {
    p.parent == Some(parent) && p.state == ZOMBIE
  }

  predicate HasZombieChild(ps: seq<Proc>, parent: nat, n: nat)
    requires n <= |ps|
  {
    exists i :: 0 <= i < n && IsZombieChild(ps[i], parent)
  }

  predicate HasChild(ps: seq<Proc>, parent: nat, n: nat)
    requires n <= |ps|
  {
    exists i :: 0 <= i < n && ps[i].parent == Some(parent)
  }

  /** Children of `e` among the first `n` handed to `init`. */
  function Reparent(ps: seq<Proc>, e: nat, init: nat, n: nat): (r: seq<Proc>)
    requires n <= |ps|
    ensures |r| == |ps|
    ensures forall i :: 0 <= i < |ps| ==>
              r[i] == if i < n && ps[i].parent == Some(e) then ps[i].(parent := Some(init)) else ps[i]
  {
    seq(|ps|, i requires 0 <= i < |ps| =>
      if i < n && ps[i].parent == Some(e) then ps[i].(parent := Some(init)) else ps[i])
  }

  /** `exit` of the process in slot `e`, from the first `wakeup1` to ZOMBIE. */
  function ExitOf(ps: seq<Proc>, e: nat, init: nat): seq<Proc>
    requires e < |ps| && ps[e].parent.Some?
  {
    var woken := WakeOn(ps, OfProc(ps[e].parent.value));
    var moved := Reparent(woken, e, init, |ps|);
    var told := if HasZombieChild(ps, e, |ps|) then WakeOn(moved, OfProc(init)) else moved;
    told[e := told[e].(state := ZOMBIE)]
  }

  function FirstUnused(ps: seq<Proc>, from: nat): (r: nat)
    requires from <= |ps|
    ensures from <= r <= |ps| && (r < |ps| ==> ps[r].state == UNUSED)
    ensures forall i :: from <= i < r ==> ps[i].state != UNUSED
    decreases |ps| - from
  {
    if from == |ps| || ps[from].state == UNUSED then from else FirstUnused(ps, from + 1)
  }

  function FirstZombieChild(ps: seq<Proc>, me: nat, from: nat): (r: nat)
    requires from <= |ps|
    ensures from <= r <= |ps| && (r < |ps| ==> IsZombieChild(ps[r], me))
    ensures forall i :: from <= i < r ==> !IsZombieChild(ps[i], me)
    decreases |ps| - from
  {
    if from == |ps| || IsZombieChild(ps[from], me) then from else FirstZombieChild(ps, me, from + 1)
  }

  /** A slot after `wait` has freed it. */
  function Reaped(p: Proc): Proc {
    p.(state := UNUSED, pid := 0, parent := None)
  }

  // ---- Events ----

  datatype Event =
    | Alloc(me: nat)               // allocproc, locked part
    | AllocFailed(me: nat)         // kalloc or copyuvm failed: the slot is UNUSED again
    | SetParent(me: nat)           // np->parent = proc
    | ForkDone(me: nat)            // np->state = RUNNABLE
    | Exit(me: nat)
    | Wait(me: nat, killed: bool)  // one pass of the loop in wait
    | Schedule(me: nat)            // the scheduler picks a RUNNABLE process
    | Yield(me: nat)
    | Sleep(me: nat, n: nat)       // sleep on some other channel
    | Wakeup(me: nat, n: nat)

  predicate Running(t: Table, me: nat) {
    me < |t.procs| && t.procs[me].state == RUNNING
  }

  predicate InFork(t: Table, me: nat) {
    Running(t, me) && t.procs[me].forking.Some? && t.procs[me].forking.value < |t.procs| &&
    t.procs[me].forking.value != me
  }

  function SetState(t: Table, i: nat, state: State): Table
    requires i < |t.procs|
  {
    t.(procs := t.procs[i := t.procs[i].(state := state)])
  }

  function AllocStep(t: Table, me: nat): Table
    requires me < |t.procs|
  {
    var k := FirstUnused(t.procs, 0);
    if k == |t.procs| || k == me then t
    else t.(procs := t.procs[k := t.procs[k].(state := EMBRYO, pid := t.nextpid, builder := Some(me))]
                            [me := t.procs[me].(forking := Some(k))],
            nextpid := t.nextpid + 1)
  }

  function WaitStep(t: Table, me: nat, killed: bool): Table
    requires me < |t.procs|
  {
    var k := FirstZombieChild(t.procs, me, 0);
    if k < |t.procs| then
      t.(procs := t.procs[k := Reaped(t.procs[k])], returned := t.returned + [t.procs[k].pid])
    else if !HasChild(t.procs, me, |t.procs|) || killed then t
    else t.(procs := t.procs[me := t.procs[me].(state := SLEEPING, chan := Some(OfProc(me)))])
  }

  function Step(t: Table, e: Event): Table {
    match e
    case Alloc(me) =>
      if Running(t, me) && t.procs[me].forking == None then AllocStep(t, me) else t
    case AllocFailed(me) =>
      if InFork(t, me) && t.procs[t.procs[me].forking.value].parent == None then
        var k := t.procs[me].forking.value;
        t.(procs := t.procs[k := t.procs[k].(state := UNUSED)][me := t.procs[me].(forking := None)])
      else t
    case SetParent(me) =>
      if InFork(t, me) then
        var k := t.procs[me].forking.value;
        t.(procs := t.procs[k := t.procs[k].(parent := Some(me))])
      else t
    case ForkDone(me) =>
      if InFork(t, me) && t.procs[t.procs[me].forking.value].parent == Some(me) then
        var k := t.procs[me].forking.value;
        t.(procs := t.procs[k := t.procs[k].(state := RUNNABLE)][me := t.procs[me].(forking := None)])
      else t
    case Exit(me) =>
      if Running(t, me) && t.procs[me].forking == None && me != t.init && t.procs[me].parent.Some? then
        t.(procs := ExitOf(t.procs, me, t.init))
      else t
    case Wait(me, killed) =>
      if Running(t, me) && t.procs[me].forking == None then WaitStep(t, me, killed) else t
    case Schedule(me) =>
      if me < |t.procs| && t.procs[me].state == RUNNABLE then SetState(t, me, RUNNING) else t
    case Yield(me) => if Running(t, me) then SetState(t, me, RUNNABLE) else t
    case Sleep(me, n) =>
      if Running(t, me) && t.procs[me].forking == None then
        t.(procs := t.procs[me := t.procs[me].(state := SLEEPING, chan := Some(Other(n)))])
      else t
    case Wakeup(me, n) => t.(procs := WakeOn(t.procs, Other(n)))
  }

  // ---- What the calls answer ----

  /** `k` is the lowest zombie child of `me`. */
  ghost predicate LowestZombie(ps: seq<Proc>, me: nat, k: nat) {
    k < |ps| && IsZombieChild(ps[k], me) && forall i :: 0 <= i < k ==> !IsZombieChild(ps[i], me)
  }

  /** A pass of `wait` reaps the lowest zombie child, freeing its slot and no other; without one it gives up exactly if
      there are no children or the caller is killed, and else sleeps. */
  lemma WaitMeans(t: Table, me: nat, killed: bool)
    requires me < |t.procs|
    ensures var t' := WaitStep(t, me, killed);
            && t'.nextpid == t.nextpid && t'.init == t.init
            && (forall k: nat :: LowestZombie(t.procs, me, k) ==>
                  && t'.procs == t.procs[k := t.procs[k].(state := UNUSED, pid := 0, parent := None)]
                  && t'.returned == t.returned + [t.procs[k].pid])
            && ((forall i :: 0 <= i < |t.procs| ==> !IsZombieChild(t.procs[i], me)) ==>
                  && t'.returned == t.returned
                  && t'.procs == if killed || (forall i :: 0 <= i < |t.procs| ==> t.procs[i].parent != Some(me))
                                 then t.procs
                                 else t.procs[me := t.procs[me].(state := SLEEPING, chan := Some(OfProc(me)))])
  {
    var k := FirstZombieChild(t.procs, me, 0);
    forall j: nat | LowestZombie(t.procs, me, j) ensures j == k {
    }
  }

  /** After a whole `fork`, the lowest unused slot holds a RUNNABLE child with a new pid; nothing else has changed. */
  lemma ForkMakesChild(t: Table, me: nat, k: nat)
    requires Running(t, me) && t.procs[me].forking == None
    requires k < |t.procs| && t.procs[k].state == UNUSED && forall i :: 0 <= i < k ==> t.procs[i].state != UNUSED
    ensures var t' := Step(Step(Step(t, Alloc(me)), SetParent(me)), ForkDone(me));
            && t'.procs == t.procs[k := t.procs[k].(state := RUNNABLE, pid := t.nextpid, parent := Some(me),
                                                    builder := Some(me))]
            && t'.nextpid == t.nextpid + 1 && t'.returned == t.returned
  {
    assert FirstUnused(t.procs, 0) == k;
    var t1 := Step(t, Alloc(me));
    var t2 := Step(t1, SetParent(me));
    assert t1.procs[me].forking == Some(k) && t2.procs[k].parent == Some(me);
    var t3 := Step(t2, ForkDone(me));
    assert t3.procs[me] == t.procs[me];
  }

  // ---- Invariant ----

  /** A settled process other than init has a live parent; a slot not in use has none. */
  ghost predicate ParentAt(ps: seq<Proc>, init: nat, i: nat)
    requires i < |ps|
  {
    && (i == init ==> ps[i].Live() && ps[i].parent == None)
    && (ps[i].state == UNUSED ==> ps[i].parent == None)
    && (ps[i].Settled() && i != init ==>
          && ps[i].parent.Some? && ps[i].parent.value < |ps| && ps[i].parent.value != i
          && ps[ps[i].parent.value].Live())
  }

  /** A slot being filled in and the live process filling it in know each other. */
  ghost predicate ForkAt(ps: seq<Proc>, i: nat)
    requires i < |ps|
  {
    && (ps[i].forking.Some? ==>
          var k := ps[i].forking.value;
          ps[i].Live() && k < |ps| && ps[k].state == EMBRYO && ps[k].builder == Some(i))
    && (ps[i].state == EMBRYO ==>
          && ps[i].builder.Some? && ps[i].builder.value < |ps| && ps[ps[i].builder.value].forking == Some(i)
          && (ps[i].parent == None || ps[i].parent == ps[i].builder))
  }

  /** A pid in use is below nextpid and was not returned by `wait`. */
  ghost predicate PidAt(t: Table, i: nat)
    requires i < |t.procs|
  {
    t.procs[i].state != UNUSED ==> t.procs[i].pid < t.nextpid && t.procs[i].pid !in t.returned
  }

  ghost predicate SamePid(ps: seq<Proc>, i: nat, j: nat)
    requires i < |ps| && j < |ps|
  {
    i != j && ps[i].state != UNUSED && ps[j].state != UNUSED && ps[i].pid == ps[j].pid
  }

  /** Process `i` sleeps in `wait` although `k` is its zombie child. */
  ghost predicate Overslept(ps: seq<Proc>, i: nat, k: nat)
    requires i < |ps| && k < |ps|
  {
    ps[i].state == SLEEPING && ps[i].chan == Some(OfProc(i)) && IsZombieChild(ps[k], i)
  }

  ghost predicate ParentsOk(ps: seq<Proc>, init: nat) {
    init < |ps| && forall i :: 0 <= i < |ps| ==> ParentAt(ps, init, i)
  }

  ghost predicate ForksOk(ps: seq<Proc>) {
    forall i :: 0 <= i < |ps| ==> ForkAt(ps, i)
  }

  ghost predicate PidsOk(t: Table) {
    && (forall i :: 0 <= i < |t.procs| ==> PidAt(t, i))
    && (forall i, j :: 0 <= i < |t.procs| && 0 <= j < |t.procs| ==> !SamePid(t.procs, i, j))
    && (forall k :: 0 <= k < |t.returned| ==> t.returned[k] < t.nextpid)
    && (forall j, k :: 0 <= j < k < |t.returned| ==> t.returned[j] != t.returned[k])
  }

  ghost predicate WaitersOk(ps: seq<Proc>) {
    forall i, k :: 0 <= i < |ps| && 0 <= k < |ps| ==> !Overslept(ps, i, k)
  }

  ghost predicate Inv(t: Table) {
    ParentsOk(t.procs, t.init) && ForksOk(t.procs) && PidsOk(t) && WaitersOk(t.procs)
  }

  // ---- Every event keeps it ----

  /** Changes that touch neither parents nor liveness, nor anything pids and forks depend on. */
  ghost predicate Quiet(ps: seq<Proc>, ps': seq<Proc>) {
    |ps'| == |ps| && forall i :: 0 <= i < |ps| ==> QuietAt(ps[i], ps'[i])
  }

  ghost predicate QuietAt(p: Proc, p': Proc) {
    && p' == p.(state := p'.state, chan := p'.chan)
    && (p'.state == p.state || (p.Live() && p'.Live()))
  }

  lemma QuietParents(ps: seq<Proc>, ps': seq<Proc>, init: nat)
    requires Quiet(ps, ps') && ParentsOk(ps, init)
    ensures ParentsOk(ps', init)
  {
    forall i | 0 <= i < |ps'| ensures ParentAt(ps', init, i) {
      assert ParentAt(ps, init, i) && QuietAt(ps[i], ps'[i]);
      if ps[i].Settled() && i != init {
        assert QuietAt(ps[ps[i].parent.value], ps'[ps[i].parent.value]);
      }
    }
  }

  lemma QuietForks(ps: seq<Proc>, ps': seq<Proc>)
    requires Quiet(ps, ps') && ForksOk(ps)
    ensures ForksOk(ps')
  {
    forall i | 0 <= i < |ps'| ensures ForkAt(ps', i) {
      assert ForkAt(ps, i) && QuietAt(ps[i], ps'[i]);
      if ps[i].forking.Some? { assert QuietAt(ps[ps[i].forking.value], ps'[ps[i].forking.value]); }
      if ps[i].state == EMBRYO { assert QuietAt(ps[ps[i].builder.value], ps'[ps[i].builder.value]); }
    }
  }

  lemma QuietPids(t: Table, ps': seq<Proc>)
    requires Quiet(t.procs, ps') && PidsOk(t)
    ensures PidsOk(t.(procs := ps'))
  {
    var t' := t.(procs := ps');
    forall i | 0 <= i < |ps'| ensures PidAt(t', i) {
      assert PidAt(t, i) && QuietAt(t.procs[i], ps'[i]);
    }
    forall i, j | 0 <= i < |ps'| && 0 <= j < |ps'| ensures !SamePid(ps', i, j) {
      assert !SamePid(t.procs, i, j) && QuietAt(t.procs[i], ps'[i]) && QuietAt(t.procs[j], ps'[j]);
    }
  }

  lemma QuietKeepsInv(t: Table, ps': seq<Proc>)
    requires Inv(t) && Quiet(t.procs, ps') && WaitersOk(ps')
    ensures Inv(t.(procs := ps'))
  {
    hide ParentsOk, ForksOk, PidsOk;
    QuietParents(t.procs, ps', t.init);
    QuietForks(t.procs, ps');
    QuietPids(t, ps');
  }

  lemma WakeKeepsInv(t: Table, c: Chan)
    requires Inv(t)
    ensures Inv(t.(procs := WakeOn(t.procs, c)))
  {
    hide ParentsOk, ForksOk, PidsOk;
    var ps, ps' := t.procs, WakeOn(t.procs, c);
    forall i | 0 <= i < |ps| ensures QuietAt(ps[i], ps'[i]) {
    }
    forall i, k | 0 <= i < |ps| && 0 <= k < |ps| ensures !Overslept(ps', i, k) {
      assert !Overslept(ps, i, k);
    }
    QuietKeepsInv(t, ps');
  }

  /** The scheduler, `yield` and `sleep`: one live process changes to another live state. */
  lemma SetLiveKeepsInv(t: Table, me: nat, p': Proc)
    requires Inv(t) && me < |t.procs| && QuietAt(t.procs[me], p') && p'.Live()
    requires p'.state == SLEEPING && p'.chan == Some(OfProc(me)) ==>
               forall k :: 0 <= k < |t.procs| ==> !IsZombieChild(t.procs[k], me)
    ensures Inv(t.(procs := t.procs[me := p']))
  {
    hide ParentsOk, ForksOk, PidsOk;
    var ps, ps' := t.procs, t.procs[me := p'];
    forall i | 0 <= i < |ps| ensures QuietAt(ps[i], ps'[i]) {
    }
    forall i, k | 0 <= i < |ps| && 0 <= k < |ps| ensures !Overslept(ps', i, k) {
      assert !Overslept(ps, i, k);
    }
    QuietKeepsInv(t, ps');
  }

  /** `wait` frees a zombie child: nobody's parent is a zombie, and its pid goes to the caller. */
  lemma ReapKeepsInv(t: Table, k: nat)
    requires Inv(t) && k < |t.procs| && t.procs[k].state == ZOMBIE
    ensures Inv(t.(procs := t.procs[k := Reaped(t.procs[k])], returned := t.returned + [t.procs[k].pid]))
  {
    var ps, ps' := t.procs, t.procs[k := Reaped(t.procs[k])];
    var t' := t.(procs := ps', returned := t.returned + [ps[k].pid]);
    assert PidAt(t, k) && ParentAt(ps, t.init, k) && ForkAt(ps, k);
    forall i | 0 <= i < |ps| ensures ParentAt(ps', t.init, i) && ForkAt(ps', i) {
      assert ParentAt(ps, t.init, i) && ForkAt(ps, i);
    }
    forall i | 0 <= i < |ps| ensures PidAt(t', i) {
      assert PidAt(t, i) && !SamePid(ps, i, k);
    }
    forall i, j | 0 <= i < |ps| && 0 <= j < |ps| ensures !SamePid(ps', i, j) && !Overslept(ps', i, j) {
      assert !SamePid(ps, i, j) && !Overslept(ps, i, j);
    }
    assert forall j :: 0 <= j < |t.returned| ==> t.returned[j] in t.returned;
  }

  lemma WaitKeepsInv(t: Table, me: nat, killed: bool)
    requires Inv(t) && Running(t, me)
    ensures Inv(WaitStep(t, me, killed))
  {
    var k := FirstZombieChild(t.procs, me, 0);
    if k < |t.procs| {
      ReapKeepsInv(t, k);
    } else {
      SetLiveKeepsInv(t, me, t.procs[me].(state := SLEEPING, chan := Some(OfProc(me))));
    }
  }

  /** `allocproc` takes an unused slot and a new pid. */
  lemma AllocKeepsInv(t: Table, me: nat)
    requires Inv(t) && Running(t, me) && t.procs[me].forking == None
    ensures Inv(AllocStep(t, me))
  {
    var ps, t' := t.procs, AllocStep(t, me);
    var ps', k := t'.procs, FirstUnused(t.procs, 0);
    if t' != t {
      assert ParentAt(ps, t.init, k) && ForkAt(ps, k) && ForkAt(ps, me);
      forall i | 0 <= i < |ps| ensures ParentAt(ps', t.init, i) && ForkAt(ps', i) {
        assert ParentAt(ps, t.init, i) && ForkAt(ps, i);
      }
      hide ParentAt, ForkAt;
      AllocPids(t, me);
    }
  }

  lemma AllocPids(t: Table, me: nat)
    requires PidsOk(t) && WaitersOk(t.procs) && me < |t.procs| && t.procs[me].state == RUNNING
    ensures PidsOk(AllocStep(t, me)) && WaitersOk(AllocStep(t, me).procs)
  {
    var ps, t' := t.procs, AllocStep(t, me);
    forall i | 0 <= i < |ps| ensures PidAt(t', i) {
      assert PidAt(t, i);
    }
    forall i, j | 0 <= i < |ps| && 0 <= j < |ps| ensures !SamePid(t'.procs, i, j) && !Overslept(t'.procs, i, j) {
      assert !SamePid(ps, i, j) && !Overslept(ps, i, j) && PidAt(t, i) && PidAt(t, j);
    }
  }

  /** The steps of `fork` on the slot it is filling in. */
  lemma ForkKeepsInv(t: Table, me: nat, k: nat, p': Proc, done: bool)
    requires Inv(t) && InFork(t, me) && k == t.procs[me].forking.value
    requires if !done then p' == t.procs[k].(parent := Some(me))
             else if t.procs[k].parent == None then p' == t.procs[k].(state := UNUSED)
             else p' == t.procs[k].(state := RUNNABLE)
    ensures var q := if done then t.procs[me].(forking := None) else t.procs[me];
            Inv(t.(procs := t.procs[k := p'][me := q]))
  {
    var q := if done then t.procs[me].(forking := None) else t.procs[me];
    var ps, ps' := t.procs, t.procs[k := p'][me := q];
    var t' := t.(procs := ps');
    assert ParentAt(ps, t.init, k) && ForkAt(ps, k) && ForkAt(ps, me);
    forall i | 0 <= i < |ps| ensures ParentAt(ps', t.init, i) {
      assert ParentAt(ps, t.init, i);
    }
    forall i | 0 <= i < |ps| ensures ForkAt(ps', i) {
      assert ForkAt(ps, i);
    }
    hide ParentAt, ForkAt;
    ForkPids(t, me, k, p', q);
  }

  lemma ForkPids(t: Table, me: nat, k: nat, p': Proc, q: Proc)
    requires PidsOk(t) && WaitersOk(t.procs) && k < |t.procs| && me < |t.procs| && t.procs[k].state == EMBRYO
    requires p' == t.procs[k].(state := p'.state, parent := p'.parent) && p'.state in {EMBRYO, UNUSED, RUNNABLE}
    requires q == t.procs[me].(forking := q.forking) && t.procs[me].state == RUNNING
    ensures var ps' := t.procs[k := p'][me := q]; PidsOk(t.(procs := ps')) && WaitersOk(ps')
  {
    var ps, ps' := t.procs, t.procs[k := p'][me := q];
    var t' := t.(procs := ps');
    forall i | 0 <= i < |ps| ensures PidAt(t', i) {
      assert PidAt(t, i);
    }
    forall i, j | 0 <= i < |ps| && 0 <= j < |ps| ensures !SamePid(ps', i, j) && !Overslept(ps', i, j) {
      assert !SamePid(ps, i, j) && !Overslept(ps, i, j);
    }
  }

  /** What `exit` leaves in each slot: the caller a zombie; its children with init; its parent awake if it slept in
      `wait`, and so init if it was handed a zombie; all else as it was. */
  lemma ExitMeans(ps: seq<Proc>, e: nat, init: nat, i: nat)
    requires e < |ps| && ps[e].parent.Some? && i < |ps| && ps[e].state == RUNNING
    ensures var f := ExitOf(ps, e, init);
            var woken := ps[i].chan == Some(OfProc(ps[e].parent.value))
                         || (ps[i].chan == Some(OfProc(init)) && exists k :: 0 <= k < |ps| && IsZombieChild(ps[k], e));
            && |f| == |ps|
            && f[i] == ps[i].(parent := if ps[i].parent == Some(e) then Some(init) else ps[i].parent,
                              state := if i == e then ZOMBIE
                                       else if ps[i].state == SLEEPING && woken then RUNNABLE else ps[i].state)
  {
  }

  lemma ExitAt(ps: seq<Proc>, e: nat, init: nat, i: nat)
    requires e < |ps| && ps[e].parent.Some? && ps[e].parent != Some(e) && i < |ps| && ps[e].state == RUNNING
    ensures var w, f := WakeOn(ps, OfProc(ps[e].parent.value)), ExitOf(ps, e, init);
            && |f| == |ps|
            && f[i].parent == (if ps[i].parent == Some(e) then Some(init) else ps[i].parent)
            && f[i] == w[i].(state := f[i].state, parent := f[i].parent)
            && (i == e ==> f[i].state == ZOMBIE)
            && (i != e ==> f[i].state == w[i].state || (w[i].state == SLEEPING && f[i].state == RUNNABLE))
            && (i == init && i != e && HasZombieChild(ps, e, |ps|) ==>
                  !(f[i].state == SLEEPING && f[i].chan == Some(OfProc(init))))
  {
    ExitMeans(ps, e, init, i);
    hide ExitOf;
  }

  lemma ExitKeepsInv(t: Table, e: nat)
    requires Inv(t) && Running(t, e) && t.procs[e].forking == None && e != t.init && t.procs[e].parent.Some?
    ensures Inv(t.(procs := ExitOf(t.procs, e, t.init)))
  {
    var ps, q := t.procs, t.procs[e].parent.value;
    var w, f := WakeOn(ps, OfProc(q)), ExitOf(ps, e, t.init);
    var tw, t' := t.(procs := w), t.(procs := f);
    WakeKeepsInv(t, OfProc(q));
    assert ParentAt(ps, t.init, e) && ParentAt(ps, t.init, t.init);
    hide ExitOf, WakeOn;
    ExitAt(ps, e, t.init, e);
    ExitAt(ps, e, t.init, t.init);
    forall i | 0 <= i < |ps| ensures ParentAt(f, t.init, i) && ForkAt(f, i) && PidAt(t', i) {
      ExitParent(t, e, i);
      ExitFork(t, e, i);
      ExitAt(ps, e, t.init, i);
      assert PidAt(tw, i);
    }
    forall i, j | 0 <= i < |ps| && 0 <= j < |ps| ensures !SamePid(f, i, j) && !Overslept(f, i, j) {
      ExitAt(ps, e, t.init, i);
      ExitAt(ps, e, t.init, j);
      assert !SamePid(w, i, j);
      ExitWaiter(t, e, i, j);
    }
  }

  lemma ExitParent(t: Table, e: nat, i: nat)
    requires Inv(t) && Running(t, e) && e != t.init && t.procs[e].parent.Some? && i < |t.procs|
    ensures |ExitOf(t.procs, e, t.init)| == |t.procs| && ParentAt(ExitOf(t.procs, e, t.init), t.init, i)
  {
    var ps := t.procs;
    assert ParentAt(ps, t.init, e) && ParentAt(ps, t.init, i) && ParentAt(ps, t.init, t.init);
    ExitAt(ps, e, t.init, i);
    ExitAt(ps, e, t.init, t.init);
    if ps[i].Settled() && i != t.init {
      ExitAt(ps, e, t.init, ps[i].parent.value);
    }
  }

  lemma ExitFork(t: Table, e: nat, i: nat)
    requires Inv(t) && Running(t, e) && t.procs[e].forking == None && e != t.init && t.procs[e].parent.Some?
             && i < |t.procs|
    ensures |ExitOf(t.procs, e, t.init)| == |t.procs| && ForkAt(ExitOf(t.procs, e, t.init), i)
  {
    var ps := t.procs;
    assert ParentAt(ps, t.init, e) && ForkAt(ps, i) && ForkAt(ps, e);
    ExitAt(ps, e, t.init, i);
    if ps[i].forking.Some? {
      ExitAt(ps, e, t.init, ps[i].forking.value);
    }
    if ps[i].state == EMBRYO {
      ExitAt(ps, e, t.init, ps[i].builder.value);
    }
  }

  lemma ExitWaiter(t: Table, e: nat, i: nat, k: nat)
    requires Inv(t) && Running(t, e) && e != t.init && t.procs[e].parent.Some? && i < |t.procs| && k < |t.procs|
    ensures |ExitOf(t.procs, e, t.init)| == |t.procs| && !Overslept(ExitOf(t.procs, e, t.init), i, k)
  {
    var ps := t.procs;
    assert ParentAt(ps, t.init, e) && !Overslept(ps, i, k);
    ExitAt(ps, e, t.init, i);
    ExitAt(ps, e, t.init, k);
    assert IsZombieChild(ps[k], e) ==> HasZombieChild(ps, e, |ps|);
  }

  lemma StepKeepsInv(t: Table, e: Event)
    requires Inv(t)
    ensures Inv(Step(t, e))
  {
    hide ParentsOk, ForksOk, PidsOk, WaitersOk;
    var ps := t.procs;
    match e
    case Alloc(me) =>
      if Running(t, me) && ps[me].forking == None { AllocKeepsInv(t, me); }
    case AllocFailed(me) =>
      if InFork(t, me) && ps[ps[me].forking.value].parent == None {
        ForkKeepsInv(t, me, ps[me].forking.value, ps[ps[me].forking.value].(state := UNUSED), true);
      }
    case SetParent(me) =>
      if InFork(t, me) {
        var k, p' := ps[me].forking.value, ps[ps[me].forking.value].(parent := Some(me));
        ForkKeepsInv(t, me, k, p', false);
        assert ps[k := p'][me := ps[me]] == ps[k := p'];
      }
    case ForkDone(me) =>
      if InFork(t, me) && ps[ps[me].forking.value].parent == Some(me) {
        ForkKeepsInv(t, me, ps[me].forking.value, ps[ps[me].forking.value].(state := RUNNABLE), true);
      }
    case Exit(me) =>
      if Running(t, me) && ps[me].forking == None && me != t.init && ps[me].parent.Some? { ExitKeepsInv(t, me); }
    case Wait(me, killed) =>
      if Running(t, me) && ps[me].forking == None { WaitKeepsInv(t, me, killed); }
    case Schedule(me) =>
      if me < |ps| && ps[me].state == RUNNABLE { SetLiveKeepsInv(t, me, ps[me].(state := RUNNING)); }
    case Yield(me) =>
      if Running(t, me) { SetLiveKeepsInv(t, me, ps[me].(state := RUNNABLE)); }
    case Sleep(me, n) =>
      if Running(t, me) { SetLiveKeepsInv(t, me, ps[me].(state := SLEEPING, chan := Some(Other(n)))); }
    case Wakeup(me, n) => WakeKeepsInv(t, Other(n));
  }

  // ---- Runs ----

  /** The table `userinit` leaves: one process, the rest unused. */
  function Start(n: nat): Table
    requires n > 0
  {
    Table(seq(n, i => if i == 0 then Proc(RUNNABLE, 1, None, None, None, None)
                      else Proc(UNUSED, 0, None, None, None, None)), 2, 0, [])
  }

  function Run(n: nat, es: seq<Event>): Table
    requires n > 0
  {
    if es == [] then Start(n) else Step(Run(n, es[..|es| - 1]), es[|es| - 1])
  }

  lemma {:induction false} RunKeepsInv(n: nat, es: seq<Event>)
    requires n > 0
    ensures Inv(Run(n, es))
  {
    if es == [] {
      var t := Start(n);
      assert forall i :: 0 <= i < n ==> ParentAt(t.procs, 0, i) && ForkAt(t.procs, i) && PidAt(t, i);
    } else {
      RunKeepsInv(n, es[..|es| - 1]);
      StepKeepsInv(Run(n, es[..|es| - 1]), es[|es| - 1]);
    }
  }

  /** In every reachable state, a zombie has a parent, which is alive, and which is not asleep in
      `wait`; and no two calls of `wait` have returned the same pid. */
  lemma ProcessTree(n: nat, es: seq<Event>)
    requires n > 0
    ensures var t := Run(n, es);
            && (forall k :: 0 <= k < |t.procs| && t.procs[k].state == ZOMBIE ==>
                  && t.procs[k].parent.Some? && t.procs[k].parent.value < |t.procs|
                  && var q := t.procs[k].parent.value;
                     t.procs[q].Live() && !(t.procs[q].state == SLEEPING && t.procs[q].chan == Some(OfProc(q))))
            && (forall j, k :: 0 <= j < k < |t.returned| ==> t.returned[j] != t.returned[k])
  {
    RunKeepsInv(n, es);
    var t := Run(n, es);
    forall k | 0 <= k < |t.procs| && t.procs[k].state == ZOMBIE
      ensures t.procs[k].parent.Some? && t.procs[k].parent.value < |t.procs|
      ensures var q := t.procs[k].parent.value;
              t.procs[q].Live() && !(t.procs[q].state == SLEEPING && t.procs[q].chan == Some(OfProc(q)))
    {
      assert ParentAt(t.procs, t.init, k);
      assert !Overslept(t.procs, t.procs[k].parent.value, k);
    }
  }

  /** A zombie keeps its slot, its pid and its state until a `wait` of its parent returns that pid. */
  lemma ZombieWaits(n: nat, es: seq<Event>, e: Event, k: nat)
    requires n > 0 && k < |Run(n, es).procs| && Run(n, es).procs[k].state == ZOMBIE
    ensures var t, t' := Run(n, es), Run(n, es + [e]);
            && |t'.procs| == |t.procs|
            && if t'.procs[k].state == ZOMBIE then t'.procs[k].pid == t.procs[k].pid
               else
                 && e.Wait? && t.procs[k].parent == Some(e.me) && t'.procs[k].state == UNUSED
                 && t'.returned == t.returned + [t.procs[k].pid]
  {
    RunKeepsInv(n, es);
    assert (es + [e])[..|es|] == es;
    hide Run;
    ZombieStep(Run(n, es), e, k);
  }

  lemma ZombieStep(t: Table, e: Event, k: nat)
    requires Inv(t) && k < |t.procs| && t.procs[k].state == ZOMBIE
    ensures var t' := Step(t, e);
            && |t'.procs| == |t.procs|
            && if t'.procs[k].state == ZOMBIE then t'.procs[k].pid == t.procs[k].pid
               else
                 && e.Wait? && t.procs[k].parent == Some(e.me) && t'.procs[k].state == UNUSED
                 && t'.returned == t.returned + [t.procs[k].pid]
  {
    hide PidsOk, WaitersOk, ParentsOk;
    match e
    case Exit(me) =>
      if Running(t, me) && t.procs[me].parent.Some? {
        ExitMeans(t.procs, me, t.init, k);
        hide ExitOf;
      }
    case SetParent(me) => if InFork(t, me) { assert ForkAt(t.procs, me); }
    case AllocFailed(me) => if InFork(t, me) { assert ForkAt(t.procs, me); }
    case ForkDone(me) => if InFork(t, me) { assert ForkAt(t.procs, me); }
    case _ =>
  }

  /** And `wait` returns no other pid. */
  lemma ReturnedIsReaped(n: nat, es: seq<Event>, e: Event)
    requires n > 0
    ensures var t, t' := Run(n, es), Run(n, es + [e]);
            t'.returned == t.returned || (e.Wait? && exists k: nat :: LowestZombie(t.procs, e.me, k)
                                                                      && t'.returned == t.returned + [t.procs[k].pid])
  {
    assert (es + [e])[..|es|] == es;
    var t := Run(n, es);
    hide Run;
    if e.Wait? && Running(t, e.me) && t.procs[e.me].forking == None {
      var k := FirstZombieChild(t.procs, e.me, 0);
      assert k < |t.procs| ==> LowestZombie(t.procs, e.me, k);
    }
  }
}
