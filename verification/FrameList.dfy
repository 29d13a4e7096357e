/** The list of free frames (kalloc.c).  Frames are numbered by physical address / 4096; 0 is the null pointer. */
module FrameList {
  import opened Paging
  import opened Sets

  // ---- The free list ----

  function NextAddr(free: seq<nat>, k: nat): nat
    requires k < |free|
  {
    PGSIZE * (if k + 1 < |free| then free[k + 1] else 0)
  }

  /** A freed frame: filled with ones, its first word the address of the next free frame. */
  function Junk(next: nat): Frame {
    seq<nat>(ENTRIES, k => if k == 0 then PGSIZE * next else 0x0101_0101)
  }

  ghost predicate LinkAt(mem: Memory, first: nat, free: seq<nat>, k: nat)
    requires k < |free|
  {
    first <= free[k] < |mem| && mem[free[k]][0] == NextAddr(free, k)
  }

  ghost predicate ListOk(mem: Memory, first: nat, head: nat, free: seq<nat>) {
    && 0 < first <= |mem| && head == (if free == [] then 0 else free[0]) && NoRepeats(free)
    && forall k :: 0 <= k < |free| ==> LinkAt(mem, first, free, k)
  }

  /** The list is kept by writes to other frames. */
  lemma ListKept(mem: Memory, mem': Memory, first: nat, head: nat, free: seq<nat>)
    requires ListOk(mem, first, head, free) && |mem'| == |mem|
    requires forall a :: a in free && a < |mem| ==> mem'[a] == mem[a]
    ensures ListOk(mem', first, head, free)
  {
    forall k | 0 <= k < |free| ensures LinkAt(mem', first, free, k) {
      assert LinkAt(mem, first, free, k);
    }
  }

  lemma ListPush(mem: Memory, first: nat, head: nat, free: seq<nat>, f: nat)
    requires ListOk(mem, first, head, free) && first <= f < |mem| && f !in free
    ensures ListOk(mem[f := Junk(head)], first, f, [f] + free)
  {
    var mem', free' := mem[f := Junk(head)], [f] + free;
    forall k | 0 <= k < |free'| ensures LinkAt(mem', first, free', k) {
      if k > 0 {
        assert LinkAt(mem, first, free, k - 1) && free'[k] == free[k - 1];
      }
    }
  }

  lemma ListPop(mem: Memory, first: nat, head: nat, free: seq<nat>)
    requires ListOk(mem, first, head, free) && free != []
    ensures first <= head < |mem| && head !in free[1..]
    ensures ListOk(mem, first, mem[head][0] / PGSIZE, free[1..])
  {
    assert LinkAt(mem, first, free, 0);
    forall k | 0 <= k < |free| - 1 ensures LinkAt(mem, first, free[1..], k) {
      assert LinkAt(mem, first, free, k + 1);
    }
  }

  /** Every frame from `first` on is free, owned by an address space, or out for some other use; never two of these. */
  ghost predicate Partition(first: nat, n: nat, free: seq<nat>, owner: Owners, out: set<nat>) {
    && (forall f: nat :: f in free || f in owner || f in out <==> first <= f < n)
    && (forall f :: f in free ==> f !in owner && f !in out)
    && (forall f :: f in owner ==> f !in out)
  }

  lemma PartitionPop(first: nat, n: nat, free: seq<nat>, owner: Owners, out: set<nat>)
    requires Partition(first, n, free, owner, out) && free != [] && free[0] !in free[1..]
    ensures Partition(first, n, free[1..], owner, out + {free[0]})
  {
    forall f: nat ensures f in free <==> f == free[0] || f in free[1..] {
      assert free == [free[0]] + free[1..];
    }
  }

  /** The number of free, owned and otherwise used frames together never changes. */
  lemma FramesConserved(mem: Memory, first: nat, head: nat, free: seq<nat>, owner: Owners, out: set<nat>)
    requires ListOk(mem, first, head, free) && Partition(first, |mem|, free, owner, out)
    ensures |free| + |owner| + |out| == |mem| - first
  {
    ElementsSize(free);
    hide ListOk;
    var f, held := Elements(free), owner.Keys;
    assert f !! held && (f + held) !! out;
    assert |f + held| == |f| + |held|;
    ThreeParts(f + held, out, first, |mem|);
    assert |owner| == |held|;
  }
}
