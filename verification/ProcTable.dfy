/** The loops of proc.c over the process table, against the events of `ProcTree`. */
module ProcTable {
  import opened ProcTree
  import opened Wrappers

  /** What a pass of `wait` does: return a pid, return -1, or go to sleep. */
  datatype WaitResult = Child(pid: nat) | NoChild | Asleep

  /** The table halfway through the children loop of `exit`. */
  function Handed(woken: seq<Proc>, e: nat, init: nat, n: nat): seq<Proc>
    requires n <= |woken|
  {
    var moved := Reparent(woken, e, init, n);
    if HasZombieChild(woken, e, n) then WakeOn(moved, OfProc(init)) else moved
  }

  lemma HandedNext(woken: seq<Proc>, e: nat, init: nat, n: nat)
    requires n < |woken|
    ensures var now := Handed(woken, e, init, n);
            && |now| == |woken| && now[n].parent == woken[n].parent
            && (now[n].state == ZOMBIE <==> woken[n].state == ZOMBIE)
            && var moved := if now[n].parent == Some(e) then now[n := now[n].(parent := Some(init))] else now;
               Handed(woken, e, init, n + 1)
                 == if IsZombieChild(woken[n], e) then WakeOn(moved, OfProc(init)) else moved
  {
  }

  lemma WakingMakesNoZombie(ps: seq<Proc>, chan: Chan, e: nat)
    ensures var woken := WakeOn(ps, chan);
            |woken| == |ps| && (HasZombieChild(woken, e, |ps|) <==> HasZombieChild(ps, e, |ps|))
  {
    var woken := WakeOn(ps, chan);
    assert forall i :: 0 <= i < |ps| ==> (IsZombieChild(woken[i], e) <==> IsZombieChild(ps[i], e));
  }

  class Processes {
    var procs: array<Proc>
    var nextpid: nat
    const init: nat
    ghost var returned: seq<nat>

    ghost function Abs(): Table
      reads this, procs
    {
      Table(procs[..], nextpid, init, returned)
    }

    constructor (n: nat)
      requires n > 0
      ensures fresh(procs) && Abs() == Start(n)
    {
      procs := new Proc[n](i => if i == 0 then Proc(RUNNABLE, 1, None, None, None, None)
                                else Proc(UNUSED, 0, None, None, None, None));
      nextpid, init, returned := 2, 0, [];
      new;
      assert procs[..] == Start(n).procs;
    }

    /** `wakeup1`. */
    method Wakeup1(c: Chan)
      modifies procs
      ensures procs[..] == WakeOn(old(procs[..]), c)
    {
      for i := 0 to procs.Length
        invariant procs[..i] == WakeOn(old(procs[..]), c)[..i] && procs[i..] == old(procs[..])[i..]
      {
        ghost var rest := procs[i..];
        assert procs[i] == rest[0] == old(procs[..])[i];
        if procs[i].state == SLEEPING && procs[i].chan == Some(c) {
          procs[i] := procs[i].(state := RUNNABLE);
        }
        assert procs[i + 1..] == rest[1..];
      }
      assert procs[..] == procs[..procs.Length];
    }

    /** The locked part of `allocproc`. */
    method AllocProc(me: nat) returns (found: bool, k: nat)
      requires me < procs.Length && procs[me].state == RUNNING
      modifies this`nextpid, procs
      ensures Abs() == AllocStep(old(Abs()), me)
      ensures found <==> exists i :: 0 <= i < procs.Length && old(procs[i].state) == UNUSED
      ensures found ==>
                && k < procs.Length && old(procs[k].state) == UNUSED
                && (forall i :: 0 <= i < k ==> old(procs[i].state) != UNUSED)
                && procs[k].state == EMBRYO && procs[k].pid == old(nextpid) && procs[me].forking == Some(k)
      ensures !found ==> Abs() == old(Abs())
    {
      k := 0;
      while k < procs.Length && procs[k].state != UNUSED
        invariant 0 <= k <= procs.Length && procs[..] == old(procs[..])
        invariant FirstUnused(procs[..], 0) == FirstUnused(procs[..], k)
      {
        k := k + 1;
      }
      found := k < procs.Length;
      if found {
        procs[k] := procs[k].(state := EMBRYO, pid := nextpid, builder := Some(me));
        procs[me] := procs[me].(forking := Some(k));
        nextpid := nextpid + 1;
      }
    }

    /** `exit` under ptable.lock, up to `sched`. */
    method Exit(me: nat)
      requires me < procs.Length && procs[me].parent.Some?
      modifies procs
      ensures procs[..] == ExitOf(old(procs[..]), me, init)
    {
      Wakeup1(OfProc(procs[me].parent.value));
      ghost var woken := procs[..];
      for i := 0 to procs.Length
        invariant procs[..] == Handed(woken, me, init, i)
      {
        ghost var now := procs[..];
        HandedNext(woken, me, init, i);
        if procs[i].parent == Some(me) {
          procs[i] := procs[i].(parent := Some(init));
          assert procs[..] == now[i := now[i].(parent := Some(init))];
          if procs[i].state == ZOMBIE {
            Wakeup1(OfProc(init));
          }
        }
      }
      WakingMakesNoZombie(old(procs[..]), OfProc(old(procs[me]).parent.value), me);
      procs[me] := procs[me].(state := ZOMBIE);
    }

    /** One pass of the loop in `wait`, up to its return or to `sleep`. */
    method Wait(me: nat, killed: bool) returns (r: WaitResult)
      requires me < procs.Length && procs[me].state == RUNNING
      modifies this`returned, procs
      ensures Abs() == WaitStep(old(Abs()), me, killed)
      ensures r.Child? <==> exists i :: 0 <= i < procs.Length && IsZombieChild(old(procs[..])[i], me)
      ensures r.Child? ==>
                exists k: nat :: LowestZombie(old(procs[..]), me, k) && r.pid == old(procs[..])[k].pid
                                 && procs[k].state == UNUSED
      ensures r == Asleep <==> !r.Child? && !killed && HasChild(old(procs[..]), me, procs.Length)
      ensures r == Asleep ==> procs[me].state == SLEEPING && procs[me].chan == Some(OfProc(me))
      ensures r == NoChild ==> Abs() == old(Abs())
    {
      var havekids := false;
      for i := 0 to procs.Length
        invariant procs[..] == old(procs[..]) && returned == old(returned)
        invariant havekids == HasChild(procs[..], me, i)
        invariant FirstZombieChild(procs[..], me, 0) == FirstZombieChild(procs[..], me, i)
      {
        assert procs[..][i] == procs[i];
        if procs[i].parent == Some(me) {
          havekids := true;
          if procs[i].state == ZOMBIE {
            var pid := procs[i].pid;
            assert LowestZombie(old(procs[..]), me, i);
            procs[i] := Reaped(procs[i]);
            returned := returned + [pid];
            return Child(pid);
          }
        }
      }
      if !havekids || killed {
        return NoChild;
      }
      procs[me] := procs[me].(state := SLEEPING, chan := Some(OfProc(me)));
      return Asleep;
    }
  }
}
