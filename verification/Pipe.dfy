/** Pipes (pipe.c): a 512-byte ring addressed by two free-running 32-bit counters.

    A call that blocks gives up the pipe lock only in `sleep`, so it is modelled as the stretches
    of code between taking the lock and giving it up.  Any interleaving of readers, writers and
    closes is then a sequence of such stretches (`Event`s).  The ring refines an unbounded queue. */
module Pipe {
  import opened Arith
  import opened Bytes

  const PIPESIZE := 512

  /** How a stretch ended: the call returned, it went to sleep, or it returned -1. */
  datatype Status = Done | Asleep | Failed

  /** The abstract pipe.  `readers` and `writers` are the processes asleep on &nread and &nwrite. */
  datatype Queue = Queue(
    accepted: seq<Byte>, delivered: seq<Byte>, readOpen: bool, writeOpen: bool,
    readers: set<nat>, writers: set<nat>)
  {
    ghost predicate Fifo() {
      delivered <= accepted && |accepted| - |delivered| <= PIPESIZE
    }

    function Pending(): seq<Byte>
      requires |delivered| <= |accepted|
    {
      accepted[|delivered|..]
    }
  }

  /** One stretch of `pipewrite` by process `me`, resuming at source index `from`. */
  function WriteStretch(q: Queue, src: seq<Byte>, from: nat, killed: bool, me: nat): (r: (Queue, nat, Status))
    requires q.Fifo() && from <= |src|
    ensures r.0.Fifo() && from <= r.1 <= |src|
  {
    var room := PIPESIZE - |q.Pending()|;
    if |src| - from <= room then
      (q.(accepted := q.accepted + src[from..], readers := {}), |src|, Done)
    else
      var full := q.(accepted := q.accepted + src[from..from + room]);
      if !q.readOpen || killed then (full, from + room, Failed)
      else (full.(readers := {}, writers := q.writers + {me}), from + room, Asleep)
  }

  /** One stretch of `piperead` by process `me` asking for at most `n` bytes. */
  function ReadStretch(q: Queue, n: nat, killed: bool, me: nat): (r: (Queue, seq<Byte>, Status))
    requires q.Fifo()
    ensures r.0.Fifo()
  {
    if q.Pending() == [] && q.writeOpen then
      if killed then (q, [], Failed) else (q.(readers := q.readers + {me}), [], Asleep)
    else
      var k := if n <= |q.Pending()| then n else |q.Pending()|;
      var out := q.Pending()[..k];
      (q.(delivered := q.delivered + out, writers := {}), out, Done)
  }

  function CloseStretch(q: Queue, writable: bool): Queue {
    if writable then q.(writeOpen := false, readers := {}) else q.(readOpen := false, writers := {})
  }

  /** Counting modulo 2^32 is exact for numbers at most 512 apart, and keeps the ring position. */
  lemma WrappedCounters(a: nat, d: nat)
    requires d <= a <= d + PIPESIZE
    ensures a % WORD == (d % WORD + PIPESIZE) % WORD <==> a == d + PIPESIZE
    ensures a % WORD == d % WORD <==> a == d
  {
    ModAfterMod(d, PIPESIZE);
    if a < d + PIPESIZE {
      RemaindersDiffer(d + PIPESIZE, a, WORD);
    }
    if d < a {
      RemaindersDiffer(a, d, WORD);
    }
  }

  lemma ModAfterMod(d: nat, x: nat)
    ensures (d % WORD + x) % WORD == (d + x) % WORD
    ensures d % WORD % PIPESIZE == d % PIPESIZE
  {
    ModAdd(d, x, WORD);
    ModMod(d, WORD / PIPESIZE, PIPESIZE);
  }

  lemma OneMore(before: seq<Byte>, s: seq<Byte>, i: nat)
    requires i < |s|
    ensures s[..i] + [s[i]] == s[..i + 1] && before + s[..i] + [s[i]] == before + s[..i + 1]
  {
  }

  /** `struct pipe`, with the whole history of bytes as ghost state. */
  class Ring {
    var data: array<Byte>
    var nread: nat
    var nwrite: nat
    var readopen: bool
    var writeopen: bool
    var readers: set<nat>
    var writers: set<nat>
    ghost var accepted: seq<Byte>
    ghost var delivered: seq<Byte>

    ghost function Abs(): Queue
      reads this
    {
      Queue(accepted, delivered, readopen, writeopen, readers, writers)
    }

    ghost predicate Valid()
      reads this, data
    {
      && data.Length == PIPESIZE
      && Abs().Fifo()
      && nread == |delivered| % WORD
      && nwrite == |accepted| % WORD
      && forall k :: |delivered| <= k < |accepted| ==> data[k % PIPESIZE] == accepted[k]
    }

    constructor ()
      ensures Valid() && fresh(data)
      ensures Abs() == Queue([], [], true, true, {}, {})
    {
      data := new Byte[PIPESIZE](_ => 0);
      nread, nwrite, readopen, writeopen := 0, 0, true, true;
      readers, writers, accepted, delivered := {}, {}, [], [];
    }

    /** The full test compares wrapped counters; it is exact because at most 512 bytes are pending. */
    lemma FullTest()
      requires Valid()
      ensures nwrite == (nread + PIPESIZE) % WORD <==> |accepted| == |delivered| + PIPESIZE
      ensures nwrite == nread <==> |accepted| == |delivered|
      ensures nwrite % PIPESIZE == |accepted| % PIPESIZE
      ensures nread % PIPESIZE == |delivered| % PIPESIZE
    {
      WrappedCounters(|accepted|, |delivered|);
      ModAfterMod(|accepted|, 1);
      ModAfterMod(|delivered|, 1);
    }

    /** `p->data[p->nwrite++ % PIPESIZE] = c`. */
    method Put(c: Byte)
      requires Valid() && |accepted| < |delivered| + PIPESIZE
      modifies this`nwrite, this`accepted, data
      ensures Valid() && Abs() == old(Abs()).(accepted := old(accepted) + [c])
    {
      FullTest();
      ModAfterMod(|accepted|, 1);
      forall k | |delivered| <= k < |accepted|
        ensures k % PIPESIZE != |accepted| % PIPESIZE
      {
        RemaindersDiffer(|accepted|, k, PIPESIZE);
      }
      data[nwrite % PIPESIZE] := c;
      nwrite := (nwrite + 1) % WORD;
      accepted := accepted + [c];
    }

    /** `p->data[p->nread++ % PIPESIZE]`. */
    method Take() returns (c: Byte)
      requires Valid() && |delivered| < |accepted|
      modifies this`nread, this`delivered
      ensures Valid() && c == accepted[|old(delivered)|]
      ensures Abs() == old(Abs()).(delivered := old(delivered) + [c])
    {
      FullTest();
      ModAfterMod(|delivered|, 1);
      c := data[nread % PIPESIZE];
      nread := (nread + 1) % WORD;
      delivered := delivered + [c];
    }

    method Write(src: seq<Byte>, from: nat, killed: bool, me: nat) returns (upto: nat, status: Status)
      requires Valid() && from <= |src|
      modifies this, data
      ensures Valid() && data == old(data)
      ensures (Abs(), upto, status) == WriteStretch(old(Abs()), src, from, killed, me)
      ensures from <= upto <= |src| && Abs().accepted == old(Abs()).accepted + src[from..upto]
      ensures status == Done ==> upto == |src|
      ensures status != Done ==> upto < |src| && |Abs().Pending()| == PIPESIZE
      ensures status != Done ==> (status == Failed <==> killed || !old(readopen))
    {
      var i := from;
      while i < |src|
        invariant from <= i <= |src| && Valid() && data == old(data)
        invariant Abs() == old(Abs()).(accepted := old(accepted) + src[from..i])
      {
        FullTest();
        if nwrite == (nread + PIPESIZE) % WORD {
          if !readopen || killed {
            return i, Failed;
          }
          readers := {};
          writers := writers + {me};
          return i, Asleep;
        }
        Put(src[i]);
        i := i + 1;
      }
      readers := {};
      assert src[from..i] == src[from..];
      return i, Done;
    }

    /** The loop of piperead. */
    method Drain(n: nat) returns (out: seq<Byte>)
      requires Valid()
      modifies this`nread, this`delivered
      ensures Valid() && Abs() == old(Abs()).(delivered := old(delivered) + out)
      ensures var pending := old(Abs().Pending()); out == pending[..if n <= |pending| then n else |pending|]
    {
      ghost var pending := Abs().Pending();
      out := [];
      var i := 0;
      while i < n
        invariant 0 <= i <= n && i <= |pending| && Valid() && out == pending[..i]
        invariant delivered == old(delivered) + out
      {
        FullTest();
        if nread == nwrite {
          break;
        }
        var c := Take();
        OneMore(old(delivered), pending, i);
        out := out + [c];
        i := i + 1;
      }
      assert i == if n <= |pending| then n else |pending|;
    }

    method Read(n: nat, killed: bool, me: nat) returns (out: seq<Byte>, status: Status)
      requires Valid()
      modifies this, data
      ensures Valid() && data == old(data)
      ensures (Abs(), out, status) == ReadStretch(old(Abs()), n, killed, me)
    {
      FullTest();
      out := [];
      if nread == nwrite && writeopen {
        if killed {
          return out, Failed;
        }
        readers := readers + {me};
        return out, Asleep;
      }
      out := Drain(n);
      writers := {};
      return out, Done;
    }

    method Close(writable: bool)
      requires Valid()
      modifies this`readopen, this`writeopen, this`readers, this`writers
      ensures Valid() && Abs() == CloseStretch(old(Abs()), writable)
    {
      if writable {
        writeopen := false;
        readers := {};
      } else {
        readopen := false;
        writers := {};
      }
    }
  }

  // ---- Every interleaving ----

  datatype Event =
    | EWrite(src: seq<Byte>, from: nat, killed: bool, me: nat)
    | ERead(n: nat, killed: bool, me: nat)
    | EClose(writable: bool)

  function Step(q: Queue, e: Event): (q': Queue)
    requires q.Fifo() && (e.EWrite? ==> e.from <= |e.src|)
    ensures q'.Fifo()
  {
    match e
    case EWrite(src, from, killed, me) => WriteStretch(q, src, from, killed, me).0
    case ERead(n, killed, me) => ReadStretch(q, n, killed, me).0
    case EClose(writable) => CloseStretch(q, writable)
  }

  ghost predicate Wellformed(es: seq<Event>) {
    forall i :: 0 <= i < |es| && es[i].EWrite? ==> es[i].from <= |es[i].src|
  }

  function Run(es: seq<Event>): (q: Queue)
    requires Wellformed(es)
    ensures q.Fifo()
  {
    if es == [] then Queue([], [], true, true, {}, {})
    else Step(Run(es[..|es| - 1]), es[|es| - 1])
  }

  /** What an event's reader was given, and what its writer put in. */
  function Got(q: Queue, e: Event): seq<Byte>
    requires q.Fifo()
  {
    if e.ERead? then ReadStretch(q, e.n, e.killed, e.me).1 else []
  }

  function Wrote(q: Queue, e: Event): seq<Byte>
    requires q.Fifo() && (e.EWrite? ==> e.from <= |e.src|)
  {
    if e.EWrite? then e.src[e.from..WriteStretch(q, e.src, e.from, e.killed, e.me).1] else []
  }

  function Given(es: seq<Event>): seq<Byte>
    requires Wellformed(es)
  {
    if es == [] then [] else Given(es[..|es| - 1]) + Got(Run(es[..|es| - 1]), es[|es| - 1])
  }

  function Sent(es: seq<Event>): seq<Byte>
    requires Wellformed(es)
  {
    if es == [] then [] else Sent(es[..|es| - 1]) + Wrote(Run(es[..|es| - 1]), es[|es| - 1])
  }

  lemma StepAccounts(q: Queue, e: Event)
    requires q.Fifo() && (e.EWrite? ==> e.from <= |e.src|)
    ensures Step(q, e).accepted == q.accepted + Wrote(q, e)
    ensures Step(q, e).delivered == q.delivered + Got(q, e)
  {
    if e.EWrite? {
      assert e.src[e.from..|e.src|] == e.src[e.from..];
    }
  }

  /** First in, first out, at most 512 bytes in flight: over every interleaving, what readers got is
      a prefix of what writers put in. */
  lemma {:induction false} DeliveryIsFifo(es: seq<Event>)
    requires Wellformed(es)
    ensures Run(es).accepted == Sent(es) && Run(es).delivered == Given(es)
    ensures Given(es) <= Sent(es) && |Sent(es)| - |Given(es)| <= PIPESIZE
  {
    if es != [] {
      DeliveryIsFifo(es[..|es| - 1]);
      StepAccounts(Run(es[..|es| - 1]), es[|es| - 1]);
    }
    assert Run(es).Fifo();
  }

  /** Nothing is read only at end of file: a returning read of n > 0 bytes that got none found the
      pipe empty with its write end closed, and otherwise got as much as was there. */
  lemma ReadReturns(q: Queue, n: nat, killed: bool, me: nat)
    requires q.Fifo()
    ensures var (q', out, status) := ReadStretch(q, n, killed, me);
            && q'.accepted == q.accepted && q'.delivered == q.delivered + out && out <= q.Pending()
            && (status.Done? && n > 0 ==> (out == [] <==> q.Pending() == [] && !q.writeOpen))
            && (status.Done? ==> |out| == if n <= |q.Pending()| then n else |q.Pending()|)
            && (!status.Done? <==> q.Pending() == [] && q.writeOpen)
            && (!status.Done? ==> out == [] && (status.Failed? <==> killed))
            && q'.readers == (if status.Asleep? then q.readers + {me} else q.readers)
            && (q'.writers == if status.Done? then {} else q.writers)
  {
  }

  /** A stretch of a write stores the rest of the source if that fits, and otherwise fills the pipe; then the call
      fails exactly if the writer is killed or the read end closed, and else sleeps. */
  lemma WriteReturns(q: Queue, src: seq<Byte>, from: nat, killed: bool, me: nat)
    requires q.Fifo() && from <= |src|
    ensures var room, (q', upto, status) := PIPESIZE - |q.Pending()|, WriteStretch(q, src, from, killed, me);
            && q'.accepted == q.accepted + src[from..upto] && q'.delivered == q.delivered
            && (status.Done? <==> |src| - from <= room)
            && (status.Done? ==> upto == |src|)
            && (!status.Done? ==> upto == from + room && |q'.Pending()| == PIPESIZE)
            && (!status.Done? ==> (status.Failed? <==> killed || !q.readOpen))
            && q'.writers == (if status.Asleep? then q.writers + {me} else q.writers)
            && (q'.readers == if status.Failed? then q.readers else {})
  {
    assert src[from..|src|] == src[from..];
  }

  // ---- Calls that take several stretches ----

  /** The result of the stretch at index `i` of a run. */
  function ResultAt(es: seq<Event>, i: nat): (nat, Status)
    requires Wellformed(es) && i < |es| && es[i].EWrite?
  {
    var r := WriteStretch(Run(es[..i]), es[i].src, es[i].from, es[i].killed, es[i].me);
    (r.1, r.2)
  }

  /** The stretches at the indices `at` are one call of `pipewrite`: it starts at the first byte, and goes on where it
      went to sleep. */
  ghost predicate IsCall(es: seq<Event>, at: seq<nat>, src: seq<Byte>) {
    Wellformed(es) && at != [] && forall k :: 0 <= k < |at| ==> StretchAt(es, at, src, k)
  }

  ghost predicate StretchAt(es: seq<Event>, at: seq<nat>, src: seq<Byte>, k: nat)
    requires Wellformed(es) && k < |at|
  {
    && at[k] < |es| && es[at[k]].EWrite? && es[at[k]].src == src
    && if k == 0 then es[at[k]].from == 0
       else at[k - 1] < at[k] && es[at[k - 1]].EWrite? && ResultAt(es, at[k - 1]) == (es[at[k]].from, Asleep)
  }

  /** What the first `n` stretches of a call put in. */
  ghost function PutIn(es: seq<Event>, at: seq<nat>, n: nat): seq<Byte>
    requires Wellformed(es) && n <= |at| && forall k :: 0 <= k < n ==> at[k] < |es|
  {
    if n == 0 then [] else PutIn(es, at, n - 1) + Wrote(Run(es[..at[n - 1]]), es[at[n - 1]])
  }

  lemma OneStretch(es: seq<Event>, at: seq<nat>, src: seq<Byte>, k: nat)
    requires Wellformed(es) && k < |at| && StretchAt(es, at, src, k)
    ensures var from, (upto, status) := es[at[k]].from, ResultAt(es, at[k]);
            && from <= upto <= |src| && Wrote(Run(es[..at[k]]), es[at[k]]) == src[from..upto]
            && (status.Done? ==> upto == |src|)
  {
    hide Run, WriteStretch;
    var e := es[at[k]];
    WriteReturns(Run(es[..at[k]]), src, e.from, e.killed, e.me);
  }

  /** In every interleaving, a call has put in its source up to where its last stretch ended, nothing twice and nothing
      out of order. */
  lemma {:induction false} CallPutsIn(es: seq<Event>, at: seq<nat>, src: seq<Byte>, n: nat)
    requires IsCall(es, at, src) && 0 < n <= |at|
    ensures StretchAt(es, at, src, n - 1) && forall k :: 0 <= k < n ==> at[k] < |es|
    ensures ResultAt(es, at[n - 1]).0 <= |src| && PutIn(es, at, n) == src[..ResultAt(es, at[n - 1]).0]
    decreases n
  {
    hide Run, ResultAt, Wrote;
    assert StretchAt(es, at, src, n - 1);
    forall k | 0 <= k < n ensures at[k] < |es| {
      assert StretchAt(es, at, src, k);
    }
    OneStretch(es, at, src, n - 1);
    var from, upto := es[at[n - 1]].from, ResultAt(es, at[n - 1]).0;
    if n > 1 {
      CallPutsIn(es, at, src, n - 1);
    } else {
      assert PutIn(es, at, 0) == [];
    }
    assert src[..from] + src[from..upto] == src[..upto];
  }

  /** A call that returns has put in all of its source. */
  lemma CallIsWhole(es: seq<Event>, at: seq<nat>, src: seq<Byte>)
    requires IsCall(es, at, src) && StretchAt(es, at, src, |at| - 1) && ResultAt(es, at[|at| - 1]).1.Done?
    ensures (forall k :: 0 <= k < |at| ==> at[k] < |es|) && PutIn(es, at, |at|) == src
  {
    hide Run, ResultAt;
    CallPutsIn(es, at, src, |at|);
    OneStretch(es, at, src, |at| - 1);
    assert src[..|src|] == src;
  }

  lemma OnlyCloseCloses(q: Queue, e: Event)
    requires q.Fifo() && (e.EWrite? ==> e.from <= |e.src|)
    ensures Step(q, e).writeOpen <==> q.writeOpen && e != EClose(true)
    ensures Step(q, e).readOpen <==> q.readOpen && e != EClose(false)
  {
  }

  /** An end is open exactly as long as nobody has closed it. */
  lemma {:induction false} OpenUntilClosed(es: seq<Event>)
    requires Wellformed(es)
    ensures Run(es).writeOpen <==> EClose(true) !in es
    ensures Run(es).readOpen <==> EClose(false) !in es
  {
    if es != [] {
      var rest, e := es[..|es| - 1], es[|es| - 1];
      OpenUntilClosed(rest);
      hide Step;
      OnlyCloseCloses(Run(rest), e);
      assert es == rest + [e];
    }
  }

  // ---- Who may be asleep ----

  /** No writer sleeps unless the pipe is full with a reader; no reader unless empty with a writer. */
  ghost predicate WritersSleepSoundly(q: Queue) {
    q.writers != {} ==> |q.accepted| - |q.delivered| == PIPESIZE && q.readOpen
  }

  ghost predicate ReadersSleepSoundly(q: Queue) {
    q.readers != {} ==> |q.accepted| == |q.delivered| && q.writeOpen
  }

  lemma {:induction false} WritersNeverStranded(es: seq<Event>)
    requires Wellformed(es)
    ensures WritersSleepSoundly(Run(es))
  {
    if es != [] {
      WritersNeverStranded(es[..|es| - 1]);
      var q, e := Run(es[..|es| - 1]), es[|es| - 1];
      assert Run(es) == Step(q, e);
    }
  }

  /** The one step that can strand a sleeping reader beside unread bytes: `pipewrite` fills a pipe it
      found empty, then returns -1 without the wakeup that its other exits make. */
  ghost predicate Strands(q: Queue, e: Event) {
    e.EWrite? && (e.killed || !q.readOpen) && |e.src| - e.from > PIPESIZE && q.readers != {}
  }

  lemma ReadersStrandedExactly(q: Queue, e: Event)
    requires q.Fifo() && (e.EWrite? ==> e.from <= |e.src|) && ReadersSleepSoundly(q)
    ensures ReadersSleepSoundly(Step(q, e)) <==> !Strands(q, e)
  {
  }

  /** A run in which that happens: a reader sleeps on an empty pipe and a killed process writes 513 bytes. */
  lemma ReaderStranded()
    ensures var es := [ERead(1, false, 7), EWrite(seq(513, _ => 0), 0, true, 8)];
            Wellformed(es) && !ReadersSleepSoundly(Run(es)) && Run(es).writeOpen
  {
    var r, w := ERead(1, false, 7), EWrite(seq(513, _ => 0), 0, true, 8);
    var es := [r, w];
    assert es[..1] == [r] && [r][..0] == [];
    assert Run([r]) == Step(Run([]), r);
    assert Strands(Run([r]), w);
    ReadersStrandedExactly(Run([r]), w);
    assert Run(es) == Step(Run(es[..1]), w);
  }
}
