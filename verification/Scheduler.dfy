/** One round of `scheduler` (proc.c): collecting the runnable processes, then the lottery.

    `run_p` is cleared once, before the scheduling loop, so entries left by earlier and longer
    rounds take part in later draws. */
module Scheduler {
  import opened Arith
  import opened Lcg
  import opened Lottery

  const NPROC := 64

  datatype ProcState = UNUSED | EMBRYO | SLEEPING | RUNNABLE | RUNNING | ZOMBIE

  /** The fields of `struct proc` the scheduler reads; `name` is the whole 16-byte array. */
  datatype Proc = Proc(pid: int, state: ProcState, name: string)

  /** A pointer into the process table, or 0. */
  datatype Slot = Null | Ptr(i: nat)

  const LOT_CHILD: string := "lot_child\0\0\0\0\0\0\0"

  function Ticket(p: Proc): nat {
    if p.name == LOT_CHILD then 50 else 10
  }

  ghost predicate InTable(run: seq<Slot>, n: nat) {
    forall k :: 0 <= k < |run| && run[k].Ptr? ==> run[k].i < n
  }

  ghost predicate AllPtr(run: seq<Slot>, n: nat) {
    forall k :: 0 <= k < |run| ==> run[k].Ptr? && run[k].i < n
  }

  predicate IsRunnable(table: seq<Proc>, s: Slot) {
    s.Ptr? && s.i < |table| && table[s.i].state == RUNNABLE
  }

  /** Pointers to the RUNNABLE processes among the first `n`, in table order. */
  function Runnables(table: seq<Proc>, n: nat): (r: seq<Slot>)
    requires n <= |table|
    ensures |r| <= n
  {
    if n == 0 then []
    else if table[n - 1].state == RUNNABLE then Runnables(table, n - 1) + [Ptr(n - 1)]
    else Runnables(table, n - 1)
  }

  ghost predicate Ascending(r: seq<Slot>) {
    forall j, k :: 0 <= j < k < |r| ==> r[j].Ptr? && r[k].Ptr? && r[j].i < r[k].i
  }

  lemma {:induction false} RunnablesAreRunnable(table: seq<Proc>, n: nat)
    requires n <= |table|
    ensures forall k :: 0 <= k < |Runnables(table, n)| ==>
              IsRunnable(table, Runnables(table, n)[k]) && Runnables(table, n)[k].i < n
    ensures Ascending(Runnables(table, n))
  {
    if n > 0 {
      RunnablesAreRunnable(table, n - 1);
    }
  }

  /** No RUNNABLE process is left out. */
  lemma {:induction false} EveryRunnableCollected(table: seq<Proc>, n: nat)
    requires n <= |table|
    ensures forall i: nat :: i < n ==> (table[i].state == RUNNABLE <==> Ptr(i) in Runnables(table, n))
  {
    RunnablesAreRunnable(table, n);
    if n > 0 {
      EveryRunnableCollected(table, n - 1);
      RunnablesAreRunnable(table, n - 1);
      forall i: nat | i < n ensures table[i].state == RUNNABLE <==> Ptr(i) in Runnables(table, n) {
        if i < n - 1 {
          assert Ptr(i) in Runnables(table, n) <==> Ptr(i) in Runnables(table, n - 1);
        }
      }
    }
  }

  /** Index of the first null pointer: the draw is over the entries before it. */
  function FirstNull(run: seq<Slot>): (k: nat)
    ensures k <= |run|
  {
    if run == [] || run[0] == Null then 0 else 1 + FirstNull(run[1..])
  }

  function Prefix(run: seq<Slot>): seq<Slot> {
    run[..FirstNull(run)]
  }

  lemma {:induction false} FirstNullAt(run: seq<Slot>)
    ensures FirstNull(run) < |run| ==> run[FirstNull(run)] == Null
    ensures forall k :: 0 <= k < FirstNull(run) ==> run[k] != Null
  {
    if run != [] && run[0] != Null {
      FirstNullAt(run[1..]);
      forall k | 0 <= k < FirstNull(run) ensures run[k] != Null {
        if k > 0 { assert run[k] == run[1..][k - 1]; }
      }
    }
  }

  lemma {:induction false} PrefixOfConcat(r: seq<Slot>, rest: seq<Slot>)
    requires forall k :: 0 <= k < |r| ==> r[k] != Null
    ensures Prefix(r + rest) == r + Prefix(rest)
  {
    if r == [] {
      assert r + rest == rest;
    } else {
      assert (r + rest)[1..] == r[1..] + rest;
      PrefixOfConcat(r[1..], rest);
    }
  }

  /** `run_p` after the collecting loop: this round's processes over the first entries. */
  function Refill(run: seq<Slot>, table: seq<Proc>): seq<Slot>
    requires |run| == |table|
  {
    var r := Runnables(table, |table|);
    r + run[|r|..]
  }

  /** Some entry before `k` names a process with the same pid. */
  predicate Repeats(table: seq<Proc>, run: seq<Slot>, below: nat, k: nat)
    requires below <= k < |run| && (forall j :: 0 <= j <= k ==> run[j].Ptr? && run[j].i < |table|)
  {
    exists i :: 0 <= i < below && table[run[i].i].pid == table[run[k].i].pid
  }

  function Tickets(table: seq<Proc>, l: seq<Slot>): (t: seq<nat>)
    requires AllPtr(l, |table|)
    ensures |t| == |l|
  {
    if l == [] then [] else Tickets(table, l[..|l| - 1]) + [Ticket(table[l[|l| - 1].i])]
  }

  lemma {:induction false} TicketAt(table: seq<Proc>, l: seq<Slot>, k: nat)
    requires AllPtr(l, |table|) && k < |l|
    ensures Tickets(table, l)[k] == Ticket(table[l[k].i])
  {
    if k < |l| - 1 {
      TicketAt(table, l[..|l| - 1], k);
    }
  }

  lemma {:induction false} SumBounds(table: seq<Proc>, l: seq<Slot>, n: nat)
    requires AllPtr(l, |table|) && n <= |l|
    ensures n <= Sum(Tickets(table, l), n) <= 50 * n
  {
    if n > 0 {
      SumBounds(table, l, n - 1);
      TicketAt(table, l, n - 1);
    }
  }

  /** The entry a draw picks. */
  ghost function Winning(table: seq<Proc>, l: seq<Slot>, state: Word): (s: Slot)
    requires l != [] && AllPtr(l, |table|)
    ensures s in l && s.Ptr? && s.i < |table|
  {
    SumBounds(table, l, |l|);
    l[Winner(Tickets(table, l), Next(state))]
  }

  /** The collecting loop (proc.c:321-334). */
  method Collect(table: seq<Proc>, run: array<Slot>) returns (num: nat)
    requires |table| == run.Length
    modifies run
    ensures num == |Runnables(table, |table|)|
    ensures run[..] == Refill(old(run[..]), table)
    ensures forall i: nat :: i < |table| ==> (table[i].state == RUNNABLE <==> Ptr(i) in run[..num])
    ensures Ascending(run[..num]) && run[num..] == old(run[..])[num..]
  {
    RunnablesAreRunnable(table, |table|);
    EveryRunnableCollected(table, |table|);
    num := 0;
    for p := 0 to |table|
      invariant num == |Runnables(table, p)|
      invariant run[..num] == Runnables(table, p) && run[num..] == old(run[..])[num..]
    {
      if table[p].state == RUNNABLE {
        ghost var tail := old(run[..])[num..];
        run[num] := Ptr(p);
        assert run[num + 1..] == tail[1..];
        num := num + 1;
      }
    }
    assert run[..] == run[..num] + run[num..];
  }

  /** The duplicate-removing loops (proc.c:349-356): an entry goes when an earlier one has its pid. */
  method RemoveDuplicates(table: seq<Proc>, run: array<Slot>, num: nat)
    requires num <= run.Length && AllPtr(run[..num], |table|)
    modifies run
    ensures forall k :: num <= k < run.Length ==> run[k] == old(run[k])
    ensures AllPtr(old(run[..num]), |table|)
    ensures forall k :: 0 <= k < num ==>
              run[k] == if Repeats(table, old(run[..num]), k, k) then Null else old(run[k])
  {
    ghost var was := run[..num];
    assert forall k :: 0 <= k < num ==> was[k].Ptr? && was[k].i < |table|;
    for i := 0 to num
      invariant forall k :: num <= k < run.Length ==> run[k] == old(run[k])
      invariant forall k :: 0 <= k < num ==> run[k] == Kept(table, was, if k < i then k else i, k)
    {
      ClearRepeats(table, run, num, i, was);
    }
  }

  /** Entry `k` unless one of the first `n` has its pid. */
  ghost function Kept(table: seq<Proc>, was: seq<Slot>, n: nat, k: nat): Slot
    requires AllPtr(was, |table|) && n <= k < |was|
  {
    if Repeats(table, was, n, k) then Null else was[k]
  }

  /** The inner loop (proc.c:351-355): entries after `i` with its pid go. */
  method ClearRepeats(table: seq<Proc>, run: array<Slot>, num: nat, i: nat, ghost was: seq<Slot>)
    requires i < num <= run.Length && |was| == num && AllPtr(was, |table|)
    requires forall k :: 0 <= k < num ==> run[k] == Kept(table, was, if k < i then k else i, k)
    modifies run
    ensures forall k :: num <= k < run.Length ==> run[k] == old(run[k])
    ensures forall k :: 0 <= k < num ==> run[k] == Kept(table, was, if k < i + 1 then k else i + 1, k)
  {
    for j := i + 1 to num
      invariant forall k :: num <= k < run.Length ==> run[k] == old(run[k])
      invariant forall k :: 0 <= k < j ==> run[k] == Kept(table, was, if k < i + 1 then k else i + 1, k)
      invariant forall k :: j <= k < num ==> run[k] == Kept(table, was, i, k)
    {
      KeptNext(table, was, i, j);
      if run[i].Ptr? && run[j].Ptr? && table[run[i].i].pid == table[run[j].i].pid {
        run[j] := Null;
      }
    }
  }

  lemma KeptNext(table: seq<Proc>, was: seq<Slot>, i: nat, j: nat)
    requires AllPtr(was, |table|) && i < j < |was|
    ensures Kept(table, was, i + 1, j)
         == if Kept(table, was, i, i).Ptr? && table[was[i].i].pid == table[was[j].i].pid then Null
           else Kept(table, was, i, j)
  {
    assert Repeats(table, was, i + 1, j) <==>
           Repeats(table, was, i, j) || table[was[i].i].pid == table[was[j].i].pid;
  }

  ghost predicate DistinctPids(table: seq<Proc>) {
    forall i, j :: 0 <= i < j < |table| && table[i].state == RUNNABLE && table[j].state == RUNNABLE
                   ==> table[i].pid != table[j].pid
  }

  /** Adding up the tickets (proc.c:361-363). */
  method AddTickets(table: seq<Proc>, run: array<Slot>) returns (max: nat)
    requires InTable(run[..], |table|)
    ensures AllPtr(Prefix(run[..]), |table|) && max == Total(Tickets(table, Prefix(run[..])))
  {
    ghost var l := Prefix(run[..]);
    FirstNullAt(run[..]);
    max := 0;
    var i := 0;
    while i < run.Length && run[i] != Null
      invariant 0 <= i <= |l| && max == Sum(Tickets(table, l), i)
    {
      assert run[i] == run[..][i];
      TicketAt(table, l, i);
      max := max + Ticket(table[run[i].i]);
      i := i + 1;
    }
  }

  /** Finding the winner (proc.c:366-372). */
  method FindWinner(table: seq<Proc>, run: array<Slot>, rd: nat) returns (p: Slot)
    requires InTable(run[..], |table|) && AllPtr(Prefix(run[..]), |table|)
    requires 0 < rd <= Total(Tickets(table, Prefix(run[..])))
    ensures exists w: nat :: Holds(Tickets(table, Prefix(run[..])), rd, w) && p == Prefix(run[..])[w]
  {
    ghost var l := Prefix(run[..]);
    ghost var t := Tickets(table, l);
    FirstNullAt(run[..]);
    var i, range := 0, 0;
    while rd > range && i < run.Length && run[i] != Null
      invariant 0 <= i <= |l| && range == Sum(t, i)
      invariant i > 0 ==> Sum(t, i - 1) < rd
    {
      assert run[i] == run[..][i];
      TicketAt(table, l, i);
      range := range + Ticket(table[run[i].i]);
      i := i + 1;
    }
    i := i - 1;
    assert Holds(t, rd, i);
    p := run[i];
  }

  lemma RefillShape(table: seq<Proc>, run: seq<Slot>)
    requires |table| == |run| && InTable(run, |table|)
    ensures InTable(Refill(run, table), |table|) && AllPtr(Prefix(Refill(run, table)), |table|)
    ensures Prefix(Refill(run, table)) == Runnables(table, |table|) + Leftovers(run, table)
  {
    var r, f := Runnables(table, |table|), Refill(run, table);
    RunnablesAreRunnable(table, |table|);
    PrefixOfConcat(r, run[|r|..]);
    FirstNullAt(f);
    forall k | 0 <= k < |f| && f[k].Ptr? ensures f[k].i < |table| {
      if k >= |r| { assert f[k] == run[k]; }
    }
  }

  /** The leftovers that take part: the entries between this round's and the first null. */
  function Leftovers(run: seq<Slot>, table: seq<Proc>): seq<Slot>
    requires |run| == |table|
  {
    Prefix(run[|Runnables(table, |table|)|..])
  }

  /** The whole choice (proc.c:320-384): nothing runnable, one runnable, or a draw over the entries
      of `run_p` before its first null. */
  method Choose(table: seq<Proc>, run: array<Slot>, randstate: Word) returns (p: Slot, state: Word)
    requires |table| == NPROC == run.Length && InTable(run[..], NPROC) && DistinctPids(table)
    modifies run
    ensures run[..] == Refill(old(run[..]), table) && AllPtr(Prefix(run[..]), |table|)
    ensures var r := Runnables(table, NPROC);
            if |r| == 0 then p == Null && state == randstate
            else if |r| == 1 then p == r[0] && state == randstate
            else Prefix(run[..]) != [] && p == Winning(table, Prefix(run[..]), randstate) && state == Next(randstate)
    ensures p == Null <==> forall i :: 0 <= i < NPROC ==> table[i].state != RUNNABLE
    ensures forall i: nat :: i < NPROC && table[i].state == RUNNABLE ==> Ptr(i) in Prefix(run[..])
  {
    RefillShape(table, run[..]);
    EveryRunnableCollected(table, NPROC);
    var num := Collect(table, run);
    ghost var r := Runnables(table, NPROC);
    ghost var f := run[..];
    if num == 0 {
      return Null, randstate;
    }
    if num == 1 {
      assert run[0] == run[..][0] == r[0];
      return run[0], randstate;
    }
    assert run[..num] == r;
    NoRepeats(table);
    RemoveDuplicates(table, run, num);
    assert run[..] == f;
    p, state := DrawAmong(table, run, randstate);
  }

  lemma NoRepeats(table: seq<Proc>)
    requires DistinctPids(table)
    ensures var r := Runnables(table, |table|);
            AllPtr(r, |table|) && forall k :: 0 <= k < |r| ==> !Repeats(table, r, k, k)
  {
    RunnablesAreRunnable(table, |table|);
  }

  /** The draw itself (proc.c:358-372). */
  method DrawAmong(table: seq<Proc>, run: array<Slot>, randstate: Word) returns (p: Slot, state: Word)
    requires InTable(run[..], |table|) && Prefix(run[..]) != []
    ensures AllPtr(Prefix(run[..]), |table|)
    ensures p == Winning(table, Prefix(run[..]), randstate) && state == Next(randstate)
  {
    var max := AddTickets(table, run);
    ghost var l := Prefix(run[..]);
    ghost var t := Tickets(table, l);
    SumBounds(table, l, |l|);
    state := Next(randstate);
    p := FindWinner(table, run, Draw(state, max));
    ghost var w: nat :| Holds(t, Draw(state, max), w) && p == l[w];
    HolderUnique(t, Draw(state, max), w, Winner(t, state));
  }

  // ---- How often does a process win? ----

  ghost function LotChildren(table: seq<Proc>, l: seq<Slot>): nat
    requires AllPtr(l, |table|)
  {
    |set k | 0 <= k < |l| && table[l[k].i].name == LOT_CHILD|
  }

  lemma OneMoreLot(table: seq<Proc>, l: seq<Slot>)
    requires AllPtr(l, |table|) && l != []
    ensures LotChildren(table, l) ==
            LotChildren(table, l[..|l| - 1]) + if table[l[|l| - 1].i].name == LOT_CHILD then 1 else 0
  {
    var last, rest := |l| - 1, l[..|l| - 1];
    var lots := set k | 0 <= k < |l| && table[l[k].i].name == LOT_CHILD;
    var before := set k | 0 <= k < |rest| && table[rest[k].i].name == LOT_CHILD;
    assert lots == before + if table[l[last].i].name == LOT_CHILD then {last} else {};
  }

  lemma {:induction false} TicketTotal(table: seq<Proc>, l: seq<Slot>)
    requires AllPtr(l, |table|)
    ensures Total(Tickets(table, l)) == 10 * |l| + 40 * LotChildren(table, l)
  {
    var lots := set k | 0 <= k < |l| && table[l[k].i].name == LOT_CHILD;
    if l == [] {
      assert lots == {};
    } else {
      hide LotChildren;
      TicketTotal(table, l[..|l| - 1]);
      OneMoreLot(table, l);
      SumOfPrefix(Tickets(table, l), Tickets(table, l[..|l| - 1]), |l| - 1);
    }
  }

  lemma {:induction false} SumOfPrefix(t: seq<nat>, u: seq<nat>, n: nat)
    requires n <= |u| <= |t| && t[..|u|] == u
    ensures Sum(t, n) == Sum(u, n)
  {
    if n > 0 {
      SumOfPrefix(t, u, n - 1);
      assert t[n - 1] == t[..|u|][n - 1];
    }
  }

  /** With the same processes runnable for a whole period of the generator, each of them wins in proportion to its
      tickets: 50 for a process named lot_child, 10 for any other. */
  lemma RoundFairness(table: seq<Proc>, run: seq<Slot>, seed: Word, i: nat) returns (w: nat)
    requires |table| == NPROC == |run| && InTable(run, NPROC) && i < NPROC && table[i].state == RUNNABLE
    ensures var l := Prefix(Refill(run, table));
            && w < |l| && l[w] == Ptr(i) && AllPtr(l, |table|)
            && var t, max, mine := Tickets(table, l), 10 * |l| + 40 * LotChildren(table, l),
                                   if table[i].name == LOT_CHILD then 50 else 10;
               && Total(t) == max > 0
               && mine * (MOD / max) <= |Wins(t, seed, w)| <= mine * Ceil(MOD, max)
  {
    RefillShape(table, run);
    EveryRunnableCollected(table, NPROC);
    var l := Prefix(Refill(run, table));
    assert Ptr(i) in l;
    w :| 0 <= w < |l| && l[w] == Ptr(i);
    TicketTotal(table, l);
    TicketAt(table, l, w);
    Fairness(Tickets(table, l), seed, w);
  }

  // ---- Is the winner runnable? ----

  /** Every entry of the list can win, for some state of the generator. */
  lemma EveryoneCanWin(table: seq<Proc>, l: seq<Slot>, w: nat) returns (state: Word)
    requires w < |l| <= NPROC && AllPtr(l, |table|)
    ensures Winning(table, l, state) == l[w]
  {
    var t := Tickets(table, l);
    SumBounds(table, l, |l|);
    SumMonotone(t, w + 1, |l|);
    TicketAt(table, l, w);
    var v: Word := Sum(t, w);
    state := Predecessor(v);
    DivModUnique(v, Total(t), 0, v);
    assert Draw(v, Total(t)) == Sum(t, w) + 1;
    HolderUnique(t, Draw(v, Total(t)), w, Winner(t, v));
  }

  /** A draw picks a RUNNABLE process whatever the generator's state exactly when every leftover
      entry of `run_p` is itself RUNNABLE. */
  lemma WinnerRunnableExactly(table: seq<Proc>, run: seq<Slot>)
    requires |table| == NPROC == |run| && InTable(run, NPROC) && |Runnables(table, NPROC)| >= 2
    ensures var l := Prefix(Refill(run, table));
            && l != [] && AllPtr(l, |table|)
            && ((forall s: Word :: IsRunnable(table, Winning(table, l, s)))
                <==> (forall x :: x in Leftovers(run, table) ==> IsRunnable(table, x)))
  {
    RefillShape(table, run);
    RunnablesAreRunnable(table, NPROC);
    var r, rest := Runnables(table, NPROC), Leftovers(run, table);
    var l := Prefix(Refill(run, table));
    if forall s: Word :: IsRunnable(table, Winning(table, l, s)) {
      forall x | x in rest ensures IsRunnable(table, x) {
        var k :| 0 <= k < |rest| && rest[k] == x;
        var s := EveryoneCanWin(table, l, |r| + k);
        assert IsRunnable(table, Winning(table, l, s));
      }
    }
    if forall x :: x in rest ==> IsRunnable(table, x) {
      assert forall x :: x in l ==> IsRunnable(table, x);
    }
  }

  /** Two rounds from the cleared `run_p`: in the first, processes 0, 1 and 2 are runnable; by the second, the third has
      gone to sleep.  Its entry is still there, and takes part in the draw. */
  method TwoRounds(first: seq<Proc>, second: seq<Proc>, seed: Word) returns (p: Slot)
    requires |first| == NPROC == |second| && DistinctPids(first) && DistinctPids(second)
    requires forall i :: 0 <= i < NPROC ==> (first[i].state == RUNNABLE <==> i < 3)
    requires forall i :: 0 <= i < NPROC ==> (second[i].state == RUNNABLE <==> i < 2)
    ensures p == Winning(second, [Ptr(0), Ptr(1), Ptr(2)], Next(seed))
  {
    var run := new Slot[NPROC](_ => Null);
    RunnableUpTo(first, 3, NPROC);
    RunnableUpTo(second, 2, NPROC);
    var q, state := Choose(first, run, seed);
    assert run[..][2] == Ptr(2) && run[..][3] == Null;
    assert Runnables(second, NPROC) == [Ptr(0), Ptr(1)];
    LeftOver(run[..], second);
    p, state := Choose(second, run, state);
  }

  lemma LeftOver(run: seq<Slot>, table: seq<Proc>)
    requires |run| == NPROC == |table| && run[2] == Ptr(2) && run[3] == Null
    requires Runnables(table, NPROC) == [Ptr(0), Ptr(1)]
    ensures Prefix(Refill(run, table)) == [Ptr(0), Ptr(1), Ptr(2)]
  {
    PrefixOfConcat([Ptr(0), Ptr(1)], run[2..]);
    PrefixOfConcat([Ptr(2)], run[3..]);
    assert run[2..] == [Ptr(2)] + run[3..] && run[3..][0] == Null;
  }

  lemma {:induction false} RunnableUpTo(table: seq<Proc>, k: nat, n: nat)
    requires k <= n <= |table| && forall i :: 0 <= i < n ==> (table[i].state == RUNNABLE <==> i < k)
    ensures |Runnables(table, n)| == k && forall i: nat :: i < k ==> Runnables(table, n)[i] == Ptr(i)
  {
    if n > k {
      RunnableUpTo(table, k, n - 1);
    } else if k > 0 {
      RunnableUpTo(table, k - 1, n - 1);
    }
  }

  /** For some seed, the second of those rounds picks the process that is asleep. */
  lemma SleepingWinner(second: seq<Proc>) returns (seed: Word)
    requires |second| == NPROC && second[2].state == SLEEPING
    ensures var p := Winning(second, [Ptr(0), Ptr(1), Ptr(2)], Next(seed)); p == Ptr(2) && !IsRunnable(second, p)
  {
    var state := EveryoneCanWin(second, [Ptr(0), Ptr(1), Ptr(2)], 2);
    seed := Predecessor(state);
  }
}
