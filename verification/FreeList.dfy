/** The free list of umalloc.c as a value: blocks in address order, the static `base` first.
    Addresses and sizes are in units of `Header`. */
module FreeList {

  datatype Block = Block(addr: int, size: nat) {
    function End(): int { addr + size }
  }

  ghost predicate Apart(a: Block, b: Block) {
    a.End() <= b.addr || b.End() <= a.addr
  }

  /** Address-ordered and non-overlapping. */
  ghost predicate Ordered(f: seq<Block>) {
    forall i, j :: 0 <= i < j < |f| ==> f[i].addr < f[j].addr && f[i].End() <= f[j].addr
  }

  /** Block `i` does not touch the block after it. */
  ghost predicate Gap(f: seq<Block>, i: nat) {
    i + 1 < |f| ==> f[i].End() < f[i + 1].addr
  }

  ghost predicate Positive(f: seq<Block>) {
    forall i :: 0 < i < |f| ==> f[i].size > 0
  }

  /** What the allocator keeps: `base` of size 0 first, then non-empty blocks, ordered and coalesced. */
  ghost predicate WellFormed(f: seq<Block>, base: int) {
    && |f| > 0 && f[0] == Block(base, 0) && Positive(f)
    && Ordered(f)
    && forall i :: 0 <= i < |f| ==> Gap(f, i)
  }

  function Units(f: seq<Block>): nat {
    if f == [] then 0 else Units(f[..|f| - 1]) + f[|f| - 1].size
  }

  lemma {:induction false} UnitsConcat(f: seq<Block>, g: seq<Block>)
    ensures Units(f + g) == Units(f) + Units(g)
  {
    if g == [] {
      assert f + g == f;
    } else {
      assert (f + g)[..|f + g| - 1] == f + g[..|g| - 1];
      UnitsConcat(f, g[..|g| - 1]);
    }
  }

  lemma UnitsSnoc(f: seq<Block>, b: Block)
    ensures Units(f + [b]) == Units(f) + b.size
  {
  }

  /** `b` belongs directly after index `t`. */
  ghost predicate Belongs(f: seq<Block>, t: nat, b: Block) {
    t < |f| && f[t].addr < b.addr && (t + 1 < |f| ==> b.addr < f[t + 1].addr)
  }

  lemma BelongsUnique(f: seq<Block>, t: nat, u: nat, b: Block)
    requires Ordered(f) && Belongs(f, t, b) && Belongs(f, u, b)
    ensures t == u
  {
  }

  // ---- Insertion with coalescing ----

  function Splice(f: seq<Block>, t: nat, b: Block): seq<Block>
    requires t < |f|
  {
    f[..t + 1] + [b] + f[t + 1..]
  }

  function Merge(f: seq<Block>, i: nat): seq<Block>
    requires i + 1 < |f|
  {
    f[..i] + [Block(f[i].addr, f[i].size + f[i + 1].size)] + f[i + 2..]
  }

  predicate Touches(f: seq<Block>, i: nat) {
    i + 1 < |f| && f[i].End() == f[i + 1].addr
  }

  function Join(f: seq<Block>, i: nat): seq<Block> {
    if Touches(f, i) then Merge(f, i) else f
  }

  /** The list after `free` of `b`, which belongs after index `t`: join it upward, then downward. */
  function Insert(f: seq<Block>, t: nat, b: Block): seq<Block>
    requires t < |f|
  {
    Join(Join(Splice(f, t, b), t + 1), t)
  }

  lemma SpliceIs(f: seq<Block>, t: nat, b: Block)
    requires t < |f|
    ensures |Splice(f, t, b)| == |f| + 1
    ensures forall k :: 0 <= k <= |f| ==>
              Splice(f, t, b)[k] == if k <= t then f[k] else if k == t + 1 then b else f[k - 1]
  {
  }

  lemma MergeIs(f: seq<Block>, i: nat)
    requires i + 1 < |f|
    ensures |Merge(f, i)| == |f| - 1
    ensures forall k :: 0 <= k < |f| - 1 ==>
              Merge(f, i)[k] == if k < i then f[k]
                                else if k == i then Block(f[i].addr, f[i].size + f[i + 1].size) else f[k + 1]
  {
  }

  lemma SpliceOrdered(f: seq<Block>, t: nat, b: Block)
    requires Ordered(f) && Belongs(f, t, b) && (forall i :: 0 <= i < |f| ==> Apart(f[i], b)) && b.size > 0
    requires forall i :: 0 <= i < |f| ==> Gap(f, i)
    ensures Ordered(Splice(f, t, b))
    ensures forall i :: 0 <= i < |f| + 1 && i != t && i != t + 1 ==> Gap(Splice(f, t, b), i)
  {
    SpliceGaps(f, t, b);
    SpliceIs(f, t, b);
    hide Splice, Gap;
    var g := Splice(f, t, b);
    forall i, j | 0 <= i < j < |g| ensures g[i].addr < g[j].addr && g[i].End() <= g[j].addr {
      if j == t + 1 {
        assert f[i].addr <= f[t].addr && Apart(f[i], b);
      } else if i == t + 1 {
        assert f[t + 1].addr <= f[j - 1].addr && Apart(f[j - 1], b);
      }
    }
  }

  lemma SpliceGaps(f: seq<Block>, t: nat, b: Block)
    requires t < |f| && forall i :: 0 <= i < |f| ==> Gap(f, i)
    ensures forall i :: 0 <= i < |f| + 1 && i != t && i != t + 1 ==> Gap(Splice(f, t, b), i)
  {
    var g := Splice(f, t, b);
    forall i | 0 <= i < |g| && i != t && i != t + 1 ensures Gap(g, i) {
      if i < t { assert Gap(f, i); } else { assert Gap(f, i - 1); }
    }
  }

  lemma JoinOrdered(f: seq<Block>, i: nat)
    requires Ordered(f) && i < |f|
    ensures Ordered(Join(f, i))
    ensures forall k :: 0 <= k < i && Gap(f, k) ==> Gap(Join(f, i), k)
    ensures if Touches(f, i) then forall k :: i <= k && Gap(f, k + 1) ==> Gap(Join(f, i), k) else Gap(f, i)
  {
    if Touches(f, i) {
      MergeOrdered(f, i);
    } else if i + 1 < |f| {
      assert f[i].End() <= f[i + 1].addr;
    }
  }

  /** Joining the inserted block with the next leaves it after index `t`. */
  lemma JoinedUp(f: seq<Block>, t: nat, b: Block)
    requires t < |f| && Ordered(Splice(f, t, b))
    ensures var h := Join(Splice(f, t, b), t + 1);
            t + 1 < |h| && Ordered(h) && h[t] == f[t] && h[t + 1].addr == b.addr
  {
    SpliceIs(f, t, b);
    var g := Splice(f, t, b);
    hide Splice;
    JoinOrdered(g, t + 1);
    if Touches(g, t + 1) {
      MergeIs(g, t + 1);
    }
  }

  lemma MergeOrdered(f: seq<Block>, i: nat)
    requires Ordered(f) && Touches(f, i)
    ensures Ordered(Merge(f, i))
    ensures forall k :: 0 <= k < i && Gap(f, k) ==> Gap(Merge(f, i), k)
    ensures forall k :: i <= k && Gap(f, k + 1) ==> Gap(Merge(f, i), k)
  {
    MergeIs(f, i);
    hide Merge;
    var g := Merge(f, i);
    forall j, k | 0 <= j < k < |g| ensures g[j].addr < g[k].addr && g[j].End() <= g[k].addr {
      MergePair(f, i, j, k);
    }
  }

  lemma MergePair(f: seq<Block>, i: nat, j: nat, k: nat)
    requires Ordered(f) && Touches(f, i) && j < k < |f| - 1
    ensures var g := Merge(f, i); |g| == |f| - 1 && g[j].addr < g[k].addr && g[j].End() <= g[k].addr
  {
    MergeIs(f, i);
    hide Merge;
    var j', k' := if j < i then j else j + 1, if k <= i then k else k + 1;
    assert f[j'].addr < f[k'].addr && f[j'].End() <= f[k'].addr;
    assert f[i].addr < f[i + 1].addr;
  }

  lemma {:induction false} MergeUnits(f: seq<Block>, i: nat)
    requires i + 1 < |f|
    ensures Units(Merge(f, i)) == Units(f)
  {
    var g, n := Merge(f, i), |f| - 1;
    if i + 2 == |f| {
      assert g[..|g| - 1] == f[..i] == f[..n][..n - 1];
    } else {
      MergeUnits(f[..n], i);
      assert g[..|g| - 1] == Merge(f[..n], i);
    }
  }

  lemma SpliceUnits(f: seq<Block>, t: nat, b: Block)
    requires t < |f|
    ensures Units(Splice(f, t, b)) == Units(f) + b.size
  {
    assert f == f[..t + 1] + f[t + 1..];
    UnitsConcat(f[..t + 1], f[t + 1..]);
    UnitsConcat(f[..t + 1] + [b], f[t + 1..]);
    UnitsSnoc(f[..t + 1], b);
  }

  lemma InsertUnits(f: seq<Block>, t: nat, b: Block)
    requires t < |f|
    ensures Units(Insert(f, t, b)) == Units(f) + b.size
  {
    var g := Splice(f, t, b);
    SpliceUnits(f, t, b);
    if Touches(g, t + 1) { MergeUnits(g, t + 1); }
    var h := Join(g, t + 1);
    if Touches(h, t) { MergeUnits(h, t); }
  }

  lemma InsertOrdered(f: seq<Block>, t: nat, b: Block)
    requires Ordered(f) && Belongs(f, t, b) && (forall i :: 0 <= i < |f| ==> Apart(f[i], b)) && b.size > 0
    requires forall i :: 0 <= i < |f| ==> Gap(f, i)
    ensures Ordered(Insert(f, t, b))
    ensures forall i :: 0 <= i < |Insert(f, t, b)| ==> Gap(Insert(f, t, b), i)
  {
    var g := Splice(f, t, b);
    SpliceOrdered(f, t, b);
    assert |g| == |f| + 1;
    JoinOrdered(g, t + 1);
    var h := Join(g, t + 1);
    assert |h| == if Touches(g, t + 1) then |g| - 1 else |g|;
    hide Splice, Ordered, Apart, Gap, Merge;
    forall k | 0 <= k < |h| && k != t ensures Gap(h, k) {
      if k > t && Touches(g, t + 1) { assert Gap(g, k + 1); } else { assert Gap(g, k); }
    }
    JoinOrdered(h, t);
    var r := Join(h, t);
    forall k | 0 <= k < |r| ensures Gap(r, k) {
      if k >= t && Touches(h, t) { assert Gap(h, k + 1); } else { assert Gap(h, k); }
    }
  }

  /** Insertion keeps the list ordered and fully coalesced. */
  lemma InsertWellFormed(f: seq<Block>, base: int, t: nat, b: Block)
    requires WellFormed(f, base) && Belongs(f, t, b) && b.size > 0
    requires forall i :: 0 <= i < |f| ==> Apart(f[i], b)
    ensures WellFormed(Insert(f, t, b), base)
  {
    InsertOrdered(f, t, b);
    var g := Splice(f, t, b);
    var h := Join(g, t + 1);
    assert Positive(g) && g[0] == f[0] && g[t] == f[t];
    JoinPositive(g, t + 1);
    assert h[t] == f[t] && h[t + 1].addr == b.addr;
    JoinPositive(h, t);
  }

  lemma JoinPositive(f: seq<Block>, i: nat)
    requires Positive(f) && |f| > 0
    ensures Positive(Join(f, i))
    ensures |Join(f, i)| > 0 && (i > 0 || !Touches(f, i) ==> Join(f, i)[0] == f[0])
  {
  }

  /** A block disjoint from `b` and from every block of `f` is disjoint from every block of the result. */
  lemma InsertKeepsApart(f: seq<Block>, t: nat, b: Block, x: Block)
    requires t < |f| && Apart(b, x) && x.size > 0 && (forall i :: 0 <= i < |f| ==> Apart(f[i], x))
    ensures forall i :: 0 <= i < |Insert(f, t, b)| ==> Apart(Insert(f, t, b)[i], x)
  {
    var g := Splice(f, t, b);
    assert forall i :: 0 <= i < |g| ==> Apart(g[i], x);
    JoinKeepsApart(g, t + 1, x);
    JoinKeepsApart(Join(g, t + 1), t, x);
  }

  lemma JoinKeepsApart(f: seq<Block>, i: nat, x: Block)
    requires x.size > 0 && (forall k :: 0 <= k < |f| ==> Apart(f[k], x))
    ensures forall k :: 0 <= k < |Join(f, i)| ==> Apart(Join(f, i)[k], x)
  {
  }

  /** Some block of the result is at least as large as the inserted one. */
  lemma InsertHasRoom(f: seq<Block>, t: nat, b: Block)
    requires t < |f|
    ensures exists i :: 0 <= i < |Insert(f, t, b)| && Insert(f, t, b)[i].size >= b.size
  {
    var h := Join(Splice(f, t, b), t + 1);
    assert h[t + 1].size >= b.size;
    var i := if Touches(h, t) then t else t + 1;
    assert Insert(f, t, b)[i].size >= b.size;
  }

  // ---- Taking from a block ----

  /** The list after `n` units are taken from the end of block `i`. */
  function Take(f: seq<Block>, i: nat, n: nat): seq<Block>
    requires i < |f| && n <= f[i].size
  {
    if f[i].size == n then f[..i] + f[i + 1..] else f[i := Block(f[i].addr, f[i].size - n)]
  }

  function Taken(f: seq<Block>, i: nat, n: nat): Block
    requires i < |f| && n <= f[i].size
  {
    Block(f[i].End() - n, n)
  }

  lemma TakeWellFormed(f: seq<Block>, base: int, i: nat, n: nat)
    requires WellFormed(f, base) && 0 < i < |f| && n <= f[i].size
    ensures WellFormed(Take(f, i, n), base)
  {
    var g := Take(f, i, n);
    if f[i].size == n {
      assert forall k :: 0 <= k < i ==> g[k] == f[k];
      assert forall k :: i <= k < |g| ==> g[k] == f[k + 1];
      forall k | 0 <= k < |g| ensures Gap(g, k) {
        if k >= i { assert Gap(f, k + 1); } else { assert Gap(f, k); }
      }
    } else {
      forall k | 0 <= k < |g| ensures Gap(g, k) {
        assert Gap(f, k);
      }
    }
  }

  lemma {:induction false} TakeUnits(f: seq<Block>, i: nat, n: nat)
    requires i < |f| && n <= f[i].size
    ensures Units(Take(f, i, n)) == Units(f) - n
  {
    var g, last := Take(f, i, n), |f| - 1;
    if i == last {
      if f[i].size == n {
        assert g == f[..last];
      } else {
        assert g[..last] == f[..last];
      }
    } else {
      TakeUnits(f[..last], i, n);
      assert g[..|g| - 1] == Take(f[..last], i, n);
    }
  }
}
