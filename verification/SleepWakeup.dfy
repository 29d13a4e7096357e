/** `sleep` and `wakeup` (proc.c) between any number of processes.

    Consumers wait under a lock for a counter to be positive; producers raise it under the same lock
    and call `wakeup`, before or after releasing the lock.  Each step is one lock operation, one
    update or one hand-over to the scheduler; a step that has to spin leaves the state as it is. */
module SleepWakeup {
  import opened Wrappers

  type Pid = nat

  /** Where a process is, with the locks it holds. */
  datatype Pc =
    | Idle
    | Test                    // lk: the consumer's while condition
    | WantPt                  // lk: in sleep, about to acquire ptable.lock
    | HasBoth                 // lk, pt: about to release lk
    | Unlocked                // none: only if sleep released lk first
    | HasPt                   // pt: about to set SLEEPING
    | GoingToSleep            // pt: SLEEPING, in sched
    | Sleeping                // none: SLEEPING
    | Runnable                // none: woken
    | Resumed                 // pt: back from sched
    | WantLk                  // none: about to reacquire lk
    | Took                    // lk: consumed, about to release
    | Raise                   // lk: the producer, about to raise the counter
    | Raised                  // lk: counter raised, wakeup still to come
    | RaisedFree              // none: the same after releasing lk first
    | InWakeup(locked: bool)  // pt, and lk if locked: about to run wakeup1
    | Woke(locked: bool)      // the same, after wakeup1
    | Leave                   // lk: about to release
  {
    predicate HoldsLk() {
      Test? || WantPt? || HasBoth? || Took? || Raise? || Raised? || Leave? ||
      (InWakeup? && locked) || (Woke? && locked)
    }

    predicate HoldsPt() {
      HasBoth? || HasPt? || GoingToSleep? || Resumed? || InWakeup? || Woke?
    }

    /** The counter was raised and the matching `wakeup1` has not run. */
    predicate OwesWakeup() {
      Raised? || RaisedFree? || InWakeup?
    }

    predicate IsSleeping() {
      GoingToSleep? || Sleeping?
    }
  }

  datatype State = State(value: nat, lk: Option<Pid>, pt: Option<Pid>, pc: map<Pid, Pc>)

  /** A process takes a step (`choice` picks the role, and the order of wakeup and release), or a
      sleeping process is woken by `kill`. */
  datatype Event = Go(p: Pid, choice: bool) | Kill(p: Pid)

  function Goto(s: State, p: Pid, pc: Pc): State {
    s.(pc := s.pc[p := pc])
  }

  function TakeLk(s: State, p: Pid, pc: Pc): State {
    if s.lk == None then Goto(s, p, pc).(lk := Some(p)) else s
  }

  function TakePt(s: State, p: Pid, pc: Pc): State {
    if s.pt == None then Goto(s, p, pc).(pt := Some(p)) else s
  }

  /** `wakeup1`: every process SLEEPING on the channel becomes RUNNABLE. */
  function WakeAll(pc: map<Pid, Pc>): map<Pid, Pc> {
    map q | q in pc :: if pc[q].IsSleeping() then Runnable else pc[q]
  }

  /** One step.  `ptFirst` is what `sleep` does: take ptable.lock before releasing lk. */
  function Step(ptFirst: bool, s: State, e: Event): State {
    if e.p !in s.pc then s
    else if e.Kill? then
      if s.pt == None && s.pc[e.p] == Sleeping then Goto(s, e.p, Runnable) else s
    else
      var p := e.p;
      match s.pc[p]
      case Idle => TakeLk(s, p, if e.choice then Test else Raise)
      case Test => if s.value > 0 then Goto(s, p, Took).(value := s.value - 1) else Goto(s, p, WantPt)
      case WantPt => if ptFirst then TakePt(s, p, HasBoth) else Goto(s, p, Unlocked).(lk := None)
      case HasBoth => Goto(s, p, HasPt).(lk := None)
      case Unlocked => TakePt(s, p, HasPt)
      case HasPt => Goto(s, p, GoingToSleep)
      case GoingToSleep => Goto(s, p, Sleeping).(pt := None)
      case Sleeping => s
      case Runnable => TakePt(s, p, Resumed)
      case Resumed => Goto(s, p, WantLk).(pt := None)
      case WantLk => TakeLk(s, p, Test)
      case Took => Goto(s, p, Idle).(lk := None)
      case Raise => Goto(s, p, Raised).(value := s.value + 1)
      case Raised => if e.choice then TakePt(s, p, InWakeup(true)) else Goto(s, p, RaisedFree).(lk := None)
      case RaisedFree => TakePt(s, p, InWakeup(false))
      case InWakeup(locked) => s.(pc := WakeAll(s.pc)[p := Woke(locked)])
      case Woke(locked) => Goto(s, p, if locked then Leave else Idle).(pt := None)
      case Leave => Goto(s, p, Idle).(lk := None)
  }

  function Init(procs: set<Pid>): State {
    State(0, None, None, map p | p in procs :: Idle)
  }

  /** The state after a schedule: any interleaving is one. */
  function Run(ptFirst: bool, procs: set<Pid>, es: seq<Event>): State {
    if es == [] then Init(procs) else Step(ptFirst, Run(ptFirst, procs, es[..|es| - 1]), es[|es| - 1])
  }

  /** No lost wakeup: while someone sleeps although the counter is positive, someone still has to
      run `wakeup1`. */
  ghost predicate NoLostWakeup(s: State) {
    forall q :: q in s.pc && s.pc[q].IsSleeping() && s.value > 0 ==> exists p :: p in s.pc && s.pc[p].OwesWakeup()
  }

  // ---- Invariant ----

  /** Each lock is held by exactly the process that is where the lock is held. */
  ghost predicate LocksOk(s: State) {
    && (forall p :: p in s.pc && s.pc[p].HoldsLk() ==> s.lk == Some(p))
    && (forall p :: p in s.pc && s.pc[p].HoldsPt() ==> s.pt == Some(p))
    && (s.lk.Some? ==> s.lk.value in s.pc && s.pc[s.lk.value].HoldsLk())
    && (s.pt.Some? ==> s.pt.value in s.pc && s.pc[s.pt.value].HoldsPt())
  }

  ghost predicate Owed(s: State) {
    exists p :: p in s.pc && s.pc[p].OwesWakeup()
  }

  ghost predicate Inv(s: State) {
    && LocksOk(s)
    && (forall q :: q in s.pc ==> !s.pc[q].Unlocked?)
    && (forall q :: q in s.pc && (s.pc[q].WantPt? || s.pc[q].HasBoth?) ==> s.value == 0)
    && (forall q :: q in s.pc && (s.pc[q].HasPt? || s.pc[q].IsSleeping()) ==> s.value == 0 || Owed(s))
  }

  /** `p` moves to `pc`, taking only free locks and dropping only its own. */
  ghost predicate Moves(s: State, s': State, p: Pid, pc: Pc) {
    && p in s.pc && s'.pc == s.pc[p := pc]
    && Rule(s.lk, s'.lk, p, s.pc[p].HoldsLk(), pc.HoldsLk())
    && Rule(s.pt, s'.pt, p, s.pc[p].HoldsPt(), pc.HoldsPt())
  }

  ghost predicate Rule(lock: Option<Pid>, lock': Option<Pid>, p: Pid, held: bool, holds: bool) {
    if holds then lock' == Some(p) && (lock == None || lock == Some(p))
    else lock' == if held then None else lock
  }

  lemma MoveKeepsLocks(s: State, s': State, p: Pid, pc: Pc)
    requires LocksOk(s) && Moves(s, s', p, pc)
    ensures LocksOk(s')
  {
  }

  /** Every step is a move, except `wakeup1`, and raises, uses or keeps the counter. */
  lemma StepMoves(s: State, e: Event)
    requires e.p in s.pc && !(e.Go? && s.pc[e.p].InWakeup?)
    requires (s.pc[e.p].HoldsLk() ==> s.lk == Some(e.p)) && (s.pc[e.p].HoldsPt() ==> s.pt == Some(e.p))
    ensures var s' := Step(true, s, e); e.p in s'.pc && Moves(s, s', e.p, s'.pc[e.p])
  {
    hide Rule, Step;
    StepPc(s, e);
    StepLk(s, e);
    StepPt(s, e);
  }

  lemma StepLk(s: State, e: Event)
    requires e.p in s.pc && !(e.Go? && s.pc[e.p].InWakeup?) && (s.pc[e.p].HoldsLk() ==> s.lk == Some(e.p))
    ensures var s' := Step(true, s, e);
            e.p in s'.pc && Rule(s.lk, s'.lk, e.p, s.pc[e.p].HoldsLk(), s'.pc[e.p].HoldsLk())
  {
  }

  lemma StepPt(s: State, e: Event)
    requires e.p in s.pc && !(e.Go? && s.pc[e.p].InWakeup?) && (s.pc[e.p].HoldsPt() ==> s.pt == Some(e.p))
    ensures var s' := Step(true, s, e);
            e.p in s'.pc && Rule(s.pt, s'.pt, e.p, s.pc[e.p].HoldsPt(), s'.pc[e.p].HoldsPt())
  {
    if e.Go? {
      if s.pc[e.p].HoldsPt() {
      } else if s.pc[e.p].HoldsLk() {
      }
    }
  }

  lemma StepPc(s: State, e: Event)
    requires e.p in s.pc && !(e.Go? && s.pc[e.p].InWakeup?)
    ensures var s' := Step(true, s, e); e.p in s'.pc && s'.pc == s.pc[e.p := s'.pc[e.p]]
  {
    assert s.pc == s.pc[e.p := s.pc[e.p]];
  }

  lemma StepKeepsLocks(s: State, e: Event)
    requires LocksOk(s)
    ensures LocksOk(Step(true, s, e))
  {
    if e.p in s.pc {
      if e.Go? && s.pc[e.p].InWakeup? {
        assert forall q :: q in s.pc ==> WakeAll(s.pc)[q].HoldsLk() == s.pc[q].HoldsLk();
        assert forall q :: q in s.pc && s.pc[q].HoldsPt() ==> q == e.p;
      } else {
        StepMoves(s, e);
        MoveKeepsLocks(s, Step(true, s, e), e.p, Step(true, s, e).pc[e.p]);
      }
    }
  }

  /** A step that neither runs `wakeup1` nor raises the counter keeps what is owed. */
  lemma StepKeepsOwed(s: State, e: Event)
    requires Inv(s) && Owed(s) && !(e.Go? && e.p in s.pc && s.pc[e.p].InWakeup?)
    ensures Owed(Step(true, s, e))
  {
    var p :| p in s.pc && s.pc[p].OwesWakeup();
    if e.p in s.pc {
      StepMoves(s, e);
    }
    assert p in Step(true, s, e).pc && Step(true, s, e).pc[p].OwesWakeup();
  }

  /** After `wakeup1` nobody sleeps, and nobody is on the way to sleep holding ptable.lock. */
  lemma WakeupKeepsInv(s: State, p: Pid, choice: bool)
    requires Inv(s) && p in s.pc && s.pc[p].InWakeup?
    ensures Inv(Step(true, s, Go(p, choice)))
  {
    var s' := Step(true, s, Go(p, choice));
    StepKeepsLocks(s, Go(p, choice));
    forall q | q in s'.pc ensures !s'.pc[q].HasPt? && !s'.pc[q].IsSleeping() {
      assert s.pc[q].HoldsPt() ==> q == p;
    }
  }

  lemma StepKeepsInv(s: State, e: Event)
    requires Inv(s)
    ensures Inv(Step(true, s, e))
  {
    if e.p in s.pc {
      if e.Go? && s.pc[e.p].InWakeup? {
        WakeupKeepsInv(s, e.p, e.choice);
      } else {
        MoveKeepsInv(s, e);
      }
    }
  }

  lemma MoveKeepsInv(s: State, e: Event)
    requires Inv(s) && e.p in s.pc && !(e.Go? && s.pc[e.p].InWakeup?)
    ensures Inv(Step(true, s, e))
  {
    var s' := Step(true, s, e);
    StepMoves(s, e);
    StepKeepsLocks(s, e);
    if Owed(s) {
      StepKeepsOwed(s, e);
    }
    MoveCounter(s, e);
    assert s'.pc[e.p].OwesWakeup() ==> Owed(s');
    if s'.value > 0 && s.value == 0 {
      assert forall q :: q in s.pc && s.pc[q].HoldsLk() ==> q == e.p;
    }
  }

  /** What a single step does to the counter and to its own place. */
  lemma MoveCounter(s: State, e: Event)
    requires Inv(s) && e.p in s.pc && !(e.Go? && s.pc[e.p].InWakeup?)
    ensures var s' := Step(true, s, e);
            && e.p in s'.pc
            && (s'.value > s.value ==> s.pc[e.p].HoldsLk() && s'.pc[e.p].OwesWakeup())
            && !s'.pc[e.p].Unlocked?
            && (s'.pc[e.p].WantPt? || s'.pc[e.p].HasBoth? ==> s'.value == 0)
            && (s'.pc[e.p].HasPt? || s'.pc[e.p].IsSleeping() ==>
                  s'.value == s.value && (s.value == 0 || s.pc[e.p].HasPt? || s.pc[e.p].IsSleeping()))
  {
  }

  /** In every interleaving of any number of processes, no wakeup is lost. */
  lemma {:induction false} WakeupNeverLost(procs: set<Pid>, es: seq<Event>)
    ensures Inv(Run(true, procs, es)) && NoLostWakeup(Run(true, procs, es))
  {
    if es != [] {
      WakeupNeverLost(procs, es[..|es| - 1]);
      StepKeepsInv(Run(true, procs, es[..|es| - 1]), es[|es| - 1]);
    }
  }

  /** The order of the two locks is what does it: if `sleep` released lk before taking ptable.lock, a
      producer could run in between, and the consumer would sleep beside a positive counter. */
  lemma WakeupLostOtherwise(c: Pid, p: Pid) returns (es: seq<Event>)
    requires c != p
    ensures !NoLostWakeup(Run(false, {c, p}, es))
  {
    hide Run, NoLostWakeup;
    es := ConsumerLooks(c, p);
    es := ProducerPasses(c, p, es);
    es := Extend(c, p, es, Go(c, true), Two(c, p, 1, Some(p), None, Unlocked, Leave),
                 Two(c, p, 1, Some(p), Some(c), HasPt, Leave));
    es := Extend(c, p, es, Go(c, true), Two(c, p, 1, Some(p), Some(c), HasPt, Leave),
                 Two(c, p, 1, Some(p), Some(c), GoingToSleep, Leave));
    Lost(c, p);
  }

  lemma Lost(c: Pid, p: Pid)
    requires c != p
    ensures !NoLostWakeup(Two(c, p, 1, Some(p), Some(c), GoingToSleep, Leave))
  {
    var s := Two(c, p, 1, Some(p), Some(c), GoingToSleep, Leave);
    assert c in s.pc && s.pc[c].IsSleeping();
  }

  /** The consumer finds the counter zero and has released lk. */
  lemma ConsumerLooks(c: Pid, p: Pid) returns (es: seq<Event>)
    requires c != p
    ensures Run(false, {c, p}, es) == Two(c, p, 0, None, None, Unlocked, Idle)
  {
    assert Run(false, {c, p}, []) == Two(c, p, 0, None, None, Idle, Idle);
    hide Run;
    es := Extend(c, p, [], Go(c, true), Two(c, p, 0, None, None, Idle, Idle), Two(c, p, 0, Some(c), None, Test, Idle));
    es := Extend(c, p, es, Go(c, true), Two(c, p, 0, Some(c), None, Test, Idle),
                 Two(c, p, 0, Some(c), None, WantPt, Idle));
    es := Extend(c, p, es, Go(c, true), Two(c, p, 0, Some(c), None, WantPt, Idle),
                 Two(c, p, 0, None, None, Unlocked, Idle));
  }

  /** A producer raises the counter and finishes `wakeup1`. */
  lemma ProducerPasses(c: Pid, p: Pid, before: seq<Event>) returns (es: seq<Event>)
    requires c != p && Run(false, {c, p}, before) == Two(c, p, 0, None, None, Unlocked, Idle)
    ensures Run(false, {c, p}, es) == Two(c, p, 1, Some(p), None, Unlocked, Leave)
  {
    hide Run;
    es := before;
    es := Extend(c, p, es, Go(p, false), Two(c, p, 0, None, None, Unlocked, Idle),
                 Two(c, p, 0, Some(p), None, Unlocked, Raise));
    es := Extend(c, p, es, Go(p, true), Two(c, p, 0, Some(p), None, Unlocked, Raise),
                 Two(c, p, 1, Some(p), None, Unlocked, Raised));
    es := Extend(c, p, es, Go(p, true), Two(c, p, 1, Some(p), None, Unlocked, Raised),
                 Two(c, p, 1, Some(p), Some(p), Unlocked, InWakeup(true)));
    es := Extend(c, p, es, Go(p, true), Two(c, p, 1, Some(p), Some(p), Unlocked, InWakeup(true)),
                 Two(c, p, 1, Some(p), Some(p), Unlocked, Woke(true)));
    es := Extend(c, p, es, Go(p, true), Two(c, p, 1, Some(p), Some(p), Unlocked, Woke(true)),
                 Two(c, p, 1, Some(p), None, Unlocked, Leave));
  }

  function Two(c: Pid, p: Pid, value: nat, lk: Option<Pid>, pt: Option<Pid>, cpc: Pc, ppc: Pc): State {
    State(value, lk, pt, map[c := cpc, p := ppc])
  }

  lemma Extend(c: Pid, p: Pid, es: seq<Event>, e: Event, s: State, s': State) returns (es': seq<Event>)
    requires Run(false, {c, p}, es) == s && Step(false, s, e) == s'
    ensures Run(false, {c, p}, es') == s'
  {
    es' := es + [e];
    assert es'[..|es|] == es;
  }
}
