/** The user heap allocator (umalloc.c): a circular, address-ordered, coalesced free list.

    Headers live at addresses counted in units of `Header` (8 bytes); address 0 is the null pointer.
    `sbrk` is a parameter of `Malloc`: what the system call would answer if it is made. */
module Malloc {
  import Bytes
  import opened FreeList
  import opened Sets

  const HEADER := 8
  const NALLOC := 4096

  /** `(nbytes + sizeof(Header) - 1)/sizeof(Header) + 1` in 32-bit arithmetic. */
  function Nunits(nbytes: nat): (n: nat)
    ensures n >= 1
  {
    (nbytes + HEADER - 1) % Bytes.WORD / HEADER + 1
  }

  /** The block behind the header holds the request exactly when the sum above does not wrap, and then wastes less than
      one unit. */
  lemma LargeEnoughExactly(nbytes: nat)
    requires nbytes < Bytes.WORD
    ensures (Nunits(nbytes) - 1) * HEADER >= nbytes <==> nbytes + HEADER - 1 < Bytes.WORD
    ensures nbytes + HEADER - 1 < Bytes.WORD ==> (Nunits(nbytes) - 1) * HEADER < nbytes + HEADER
  {
  }

  /** A request for 2^32 - 1 bytes is given a block of no bytes at all. */
  lemma WrappedRequest()
    ensures Nunits(Bytes.WORD - 1) == 1
  {
  }

  function After(i: nat, n: nat): nat {
    if i + 1 < n then i + 1 else 0
  }

  ghost predicate LinkAt(ptr: map<int, int>, size: map<int, nat>, f: seq<Block>, i: nat)
    requires i < |f|
  {
    && f[i].addr in ptr && ptr[f[i].addr] == f[After(i, |f|)].addr
    && f[i].addr in size && size[f[i].addr] == f[i].size
  }

  /** The headers in memory link exactly the blocks of `f`, in order and back to the first. */
  ghost predicate Links(ptr: map<int, int>, size: map<int, nat>, f: seq<Block>) {
    forall i :: 0 <= i < |f| ==> LinkAt(ptr, size, f, i)
  }

  lemma SpliceLinkAt(ptr: map<int, int>, size: map<int, nat>, f: seq<Block>, t: nat, b: Block, i: nat)
    requires Ordered(f) && Belongs(f, t, b) && b.addr in size && size[b.addr] == b.size && i <= |f|
    requires LinkAt(ptr, size, f, t)
    requires i != t + 1 ==> LinkAt(ptr, size, f, if i <= t then i else i - 1)
    ensures LinkAt(ptr[b.addr := ptr[f[t].addr]][f[t].addr := b.addr], size, Splice(f, t, b), i)
  {
    SpliceIs(f, t, b);
    hide Splice;
    var g := Splice(f, t, b);
    assert g[0] == f[0] && g[i] == if i <= t then f[i] else if i == t + 1 then b else f[i - 1];
  }

  lemma SpliceLinks(ptr: map<int, int>, size: map<int, nat>, f: seq<Block>, t: nat, b: Block)
    requires Ordered(f) && Belongs(f, t, b) && b.addr in size && size[b.addr] == b.size
    requires Links(ptr, size, f)
    ensures LinkAt(ptr, size, f, t)
    ensures Links(ptr[b.addr := ptr[f[t].addr]][f[t].addr := b.addr], size, Splice(f, t, b))
  {
    assert LinkAt(ptr, size, f, t);
    var ptr', g := ptr[b.addr := ptr[f[t].addr]][f[t].addr := b.addr], Splice(f, t, b);
    forall i | 0 <= i < |g| ensures LinkAt(ptr', size, g, i) {
      SpliceLinkAt(ptr, size, f, t, b, i);
    }
  }

  lemma MergeLinkAt(ptr: map<int, int>, size: map<int, nat>, f: seq<Block>, i: nat, k: nat)
    requires Ordered(f) && i + 1 < |f| && k + 1 < |f|
    requires LinkAt(ptr, size, f, i + 1) && LinkAt(ptr, size, f, if k <= i then k else k + 1)
    ensures LinkAt(ptr[f[i].addr := ptr[f[i + 1].addr]],
                   size[f[i].addr := f[i].size + f[i + 1].size], Merge(f, i), k)
  {
    MergeIs(f, i);
    hide Merge;
    var g := Merge(f, i);
    assert g[0].addr == f[0].addr && g[k].addr == f[if k <= i then k else k + 1].addr;
  }

  lemma MergeLinks(ptr: map<int, int>, size: map<int, nat>, f: seq<Block>, i: nat)
    requires Ordered(f) && i + 1 < |f| && Links(ptr, size, f)
    ensures LinkAt(ptr, size, f, i + 1)
    ensures Links(ptr[f[i].addr := ptr[f[i + 1].addr]],
                  size[f[i].addr := f[i].size + f[i + 1].size], Merge(f, i))
  {
    assert LinkAt(ptr, size, f, i + 1);
    var ptr', g := ptr[f[i].addr := ptr[f[i + 1].addr]], Merge(f, i);
    var size' := size[f[i].addr := f[i].size + f[i + 1].size];
    forall k | 0 <= k < |g| ensures LinkAt(ptr', size', g, k) {
      assert LinkAt(ptr, size, f, if k <= i then k else k + 1);
      MergeLinkAt(ptr, size, f, i, k);
    }
  }

  lemma RemoveLinkAt(ptr: map<int, int>, size: map<int, nat>, f: seq<Block>, i: nat, k: nat)
    requires Ordered(f) && 0 < i < |f| && k + 1 < |f|
    requires LinkAt(ptr, size, f, i) && LinkAt(ptr, size, f, if k < i then k else k + 1)
    ensures LinkAt(ptr[f[i - 1].addr := ptr[f[i].addr]], size, f[..i] + f[i + 1..], k)
  {
  }

  lemma RemoveLinks(ptr: map<int, int>, size: map<int, nat>, f: seq<Block>, i: nat)
    requires Ordered(f) && 0 < i < |f| && Links(ptr, size, f)
    ensures LinkAt(ptr, size, f, i)
    ensures Links(ptr[f[i - 1].addr := ptr[f[i].addr]], size, f[..i] + f[i + 1..])
  {
    assert LinkAt(ptr, size, f, i);
    var ptr', g := ptr[f[i - 1].addr := ptr[f[i].addr]], f[..i] + f[i + 1..];
    forall k | 0 <= k < |g| ensures LinkAt(ptr', size, g, k) {
      assert LinkAt(ptr, size, f, if k < i then k else k + 1);
      RemoveLinkAt(ptr, size, f, i, k);
    }
  }

  lemma PlaceExists(f: seq<Block>, bp: int) returns (t: nat)
    requires Ordered(f) && |f| > 0 && f[0].addr < bp && (forall i :: 0 <= i < |f| ==> f[i].addr != bp)
    ensures t < |f| && f[t].addr < bp && (t + 1 < |f| ==> bp < f[t + 1].addr)
  {
    t := 0;
    while t + 1 < |f| && f[t + 1].addr < bp
      invariant t < |f| && f[t].addr < bp
    {
      t := t + 1;
    }
  }

  /** Live blocks are sized as their headers say and overlap neither each other nor free blocks. */
  ghost predicate LiveOk(base: int, top: int, size: map<int, nat>, free: seq<Block>, live: map<int, nat>) {
    && (forall a :: a in live ==>
          base < a && live[a] > 0 && a + live[a] <= top && a in size && size[a] == live[a])
    && (forall a, i :: a in live && 0 <= i < |free| ==> Apart(free[i], Block(a, live[a])))
    && (forall a, b :: a in live && b in live && a != b ==> Apart(Block(a, live[a]), Block(b, live[b])))
  }

  ghost predicate ListOk(base: int, top: int, ptr: map<int, int>, size: map<int, nat>, freep: int, free: seq<Block>) {
    && WellFormed(free, base)
    && Links(ptr, size, free)
    && Below(free, top)
    && exists i :: 0 <= i < |free| && free[i].addr == freep
  }

  ghost predicate Below(f: seq<Block>, top: int) {
    forall i :: 0 <= i < |f| ==> f[i].End() <= top
  }

  lemma BaseAlone(base: int, top: int, ptr: map<int, int>, size: map<int, nat>)
    requires base < top
    ensures ListOk(base, top, ptr[base := base], size[base := 0], base, [Block(base, 0)])
    ensures LiveOk(base, top, size[base := 0], [Block(base, 0)], map[])
    ensures Units([]) == 0 && Units([Block(base, 0)]) == 0
  {
    var f := [Block(base, 0)];
    assert f[0].addr == base && LinkAt(ptr[base := base], size[base := 0], f, 0);
    assert f[..0] == [];
  }

  lemma FreeNotLive(base: int, top: int, size: map<int, nat>, free: seq<Block>, live: map<int, nat>, bp: int)
    requires LiveOk(base, top, size, free, live) && WellFormed(free, base) && bp in live
    ensures forall i :: 0 <= i < |free| ==> Apart(free[i], Block(bp, live[bp])) && free[i].addr != bp
    ensures base < bp && live[bp] > 0 && bp in size && size[bp] == live[bp]
  {
  }

  lemma InsertBelow(f: seq<Block>, t: nat, b: Block, top: int)
    requires t < |f| && Below(f, top) && b.End() <= top
    ensures Below(Insert(f, t, b), top)
  {
  }

  /** Moving a block from live to free keeps the live blocks in order. */
  lemma FreeKeepsLive(base: int, top: int, size: map<int, nat>, size': map<int, nat>,
                      free: seq<Block>, live: map<int, nat>, t: nat, b: Block)
    requires LiveOk(base, top, size, free, live) && WellFormed(free, base)
    requires b.addr in live && b.size == live[b.addr] && Belongs(free, t, b)
    requires forall a :: a in size && a != b.addr && a != free[t].addr ==> a in size' && size'[a] == size[a]
    ensures LiveOk(base, top, size', Insert(free, t, b), live - {b.addr})
  {
    var live' := live - {b.addr};
    FreeNotLiveAny(base, top, size, free, live);
    forall a | a in live'
      ensures forall i :: 0 <= i < |Insert(free, t, b)| ==> Apart(Insert(free, t, b)[i], Block(a, live'[a]))
    {
      InsertKeepsApart(free, t, b, Block(a, live[a]));
    }
  }

  /** The block before the inserted one is still a block of the list. */
  lemma InsertKeepsPlace(f: seq<Block>, t: nat, b: Block)
    requires t < |f|
    ensures t < |Insert(f, t, b)| && Insert(f, t, b)[t].addr == f[t].addr
  {
  }

  lemma AfterFree(base: int, top: int, ptr: map<int, int>, size: map<int, nat>, size': map<int, nat>,
                  free: seq<Block>, live: map<int, nat>, t: nat, b: Block)
    requires WellFormed(free, base) && Below(free, top) && LiveOk(base, top, size, free, live)
    requires b.addr in live && b.size == live[b.addr] && Belongs(free, t, b)
    requires forall a :: a in size && a != b.addr && a != free[t].addr ==> a in size' && size'[a] == size[a]
    requires Links(ptr, size', Insert(free, t, b))
    ensures ListOk(base, top, ptr, size', free[t].addr, Insert(free, t, b))
    ensures LiveOk(base, top, size', Insert(free, t, b), live - {b.addr})
    ensures Units(Insert(free, t, b)) + MapSum(live - {b.addr}) == Units(free) + MapSum(live)
  {
    FreeNotLive(base, top, size, free, live, b.addr);
    InsertWellFormed(free, base, t, b);
    InsertUnits(free, t, b);
    InsertBelow(free, t, b, top);
    FreeKeepsLive(base, top, size, size', free, live, t, b);
    InsertKeepsPlace(free, t, b);
    MapSumRemove(live, b.addr);
  }

  lemma ExtendLinks(ptr: map<int, int>, size: map<int, nat>, f: seq<Block>, a: int, n: nat)
    requires Links(ptr, size, f) && (forall i :: 0 <= i < |f| ==> f[i].addr != a)
    ensures Links(ptr, size[a := n], f)
  {
    var size' := size[a := n];
    forall i | 0 <= i < |f| ensures LinkAt(ptr, size', f, i) {
      assert LinkAt(ptr, size, f, i);
    }
  }

  /** A chunk from `sbrk` is beyond everything, so it may be counted as live. */
  lemma AddChunk(base: int, top: int, ptr: map<int, int>, size: map<int, nat>, freep: int,
                 free: seq<Block>, live: map<int, nat>, chunk: int, nu: nat)
    requires ListOk(base, top, ptr, size, freep, free) && LiveOk(base, top, size, free, live)
    requires base < top <= chunk && nu > 0
    ensures chunk !in live && MapSum(live[chunk := nu]) == MapSum(live) + nu
    ensures live[chunk := nu] - {chunk} == live
    ensures ListOk(base, chunk + nu, ptr, size[chunk := nu], freep, free)
    ensures LiveOk(base, chunk + nu, size[chunk := nu], free, live[chunk := nu])
  {
    hide Links;
    MapSumInsert(live, chunk, nu);
    assert forall i :: 0 <= i < |free| ==> free[i].addr != chunk by {
      assert forall i :: 0 < i < |free| ==> free[i].End() > free[i].addr;
    }
    ExtendLinks(ptr, size, free, chunk, nu);
  }

  lemma ShrinkLinks(ptr: map<int, int>, size: map<int, nat>, f: seq<Block>, i: nat, n: nat)
    requires Ordered(f) && i < |f| && 0 < n < f[i].size && Links(ptr, size, f)
    ensures Links(ptr, size[f[i].addr := f[i].size - n][f[i].End() - n := n], Take(f, i, n))
  {
    var g := Take(f, i, n);
    var size' := size[f[i].addr := f[i].size - n][f[i].End() - n := n];
    forall k | 0 <= k < |g| ensures LinkAt(ptr, size', g, k) {
      assert LinkAt(ptr, size, f, k);
      assert k != i ==> f[k].addr != f[i].addr;
      assert f[k].addr != f[i].End() - n;
      assert g[After(k, |g|)].addr == f[After(k, |f|)].addr;
    }
  }

  /** Moving units from free to live keeps everything in order. */
  lemma AfterTake(base: int, top: int, ptr: map<int, int>, size: map<int, nat>, size': map<int, nat>,
                  free: seq<Block>, live: map<int, nat>, i: nat, n: nat)
    requires WellFormed(free, base) && Below(free, top) && LiveOk(base, top, size, free, live) && base < top
    requires 0 < i < |free| && 0 < n <= free[i].size
    requires forall a :: a in size && a != free[i].addr && a != Taken(free, i, n).addr ==>
               a in size' && size'[a] == size[a]
    requires Taken(free, i, n).addr in size' && size'[Taken(free, i, n).addr] == n
    requires Links(ptr, size', Take(free, i, n))
    ensures ListOk(base, top, ptr, size', free[i - 1].addr, Take(free, i, n))
    ensures Taken(free, i, n).addr !in live
    ensures LiveOk(base, top, size', Take(free, i, n), live[Taken(free, i, n).addr := n])
    ensures Units(Take(free, i, n)) + MapSum(live[Taken(free, i, n).addr := n]) == Units(free) + MapSum(live)
  {
    var x, g := Taken(free, i, n), Take(free, i, n);
    assert forall a :: a in live ==> Apart(free[i], Block(a, live[a]));
    assert x.addr !in live;
    TakeWellFormed(free, base, i, n);
    TakeUnits(free, i, n);
    MapSumInsert(live, x.addr, n);
    assert g[i - 1] == free[i - 1];
    assert Below(g, top);
    FreeNotLiveAny(base, top, size, free, live);
    TakeKeepsLive(base, top, size, size', free, live, i, n);
  }

  lemma TakeKeepsLive(base: int, top: int, size: map<int, nat>, size': map<int, nat>,
                      free: seq<Block>, live: map<int, nat>, i: nat, n: nat)
    requires WellFormed(free, base) && Below(free, top) && LiveOk(base, top, size, free, live) && base < top
    requires 0 < i < |free| && 0 < n <= free[i].size && Taken(free, i, n).addr !in live
    requires forall a :: a in live ==> a != free[i].addr
    requires forall a :: a in size && a != free[i].addr && a != Taken(free, i, n).addr ==>
               a in size' && size'[a] == size[a]
    requires Taken(free, i, n).addr in size' && size'[Taken(free, i, n).addr] == n
    ensures LiveOk(base, top, size', Take(free, i, n), live[Taken(free, i, n).addr := n])
  {
  }

  lemma FreeNotLiveAny(base: int, top: int, size: map<int, nat>, free: seq<Block>, live: map<int, nat>)
    requires LiveOk(base, top, size, free, live) && WellFormed(free, base)
    ensures forall a, i :: a in live && 0 <= i < |free| ==> free[i].addr != a
  {
  }

  /** Index reached from `f` in `k` steps around a ring of `n`, at most one round. */
  function Round(f: nat, k: nat, n: nat): (i: nat)
    requires f < n && k <= n
    ensures i < n && (k == n ==> i == f)
  {
    if f + k < n then f + k else f + k - n
  }

  ghost predicate Fits(f: seq<Block>, n: nat) {
    exists i :: 0 <= i < |f| && f[i].size >= n
  }

  /** A full round visits every block. */
  lemma NoneFit(free: seq<Block>, f: nat, n: nat)
    requires f < |free| && forall j :: 1 <= j <= |free| ==> free[Round(f, j, |free|)].size < n
    ensures !Fits(free, n)
  {
    forall i | 0 <= i < |free| ensures free[i].size < n {
      var j := if i > f then i - f else i - f + |free|;
      assert Round(f, j, |free|) == i;
    }
  }

  /** One step along the ring. */
  lemma StepRing(ptr: map<int, int>, size: map<int, nat>, free: seq<Block>, f: nat, k: nat)
    requires Links(ptr, size, free) && f < |free| && k < |free|
    ensures var a := free[Round(f, k, |free|)].addr;
            && a in ptr && ptr[a] == free[Round(f, k + 1, |free|)].addr
            && a in size && size[a] == free[Round(f, k, |free|)].size
  {
    assert LinkAt(ptr, size, free, Round(f, k, |free|));
  }

  lemma AddrsDistinct(f: seq<Block>, base: int, i: nat, j: nat)
    requires WellFormed(f, base) && i < |f| && j < |f|
    ensures f[i].addr == f[j].addr ==> i == j
    ensures f[i].size > 0 ==> i > 0
  {
  }

  class Allocator {
    const base: int
    var ptr: map<int, int>
    var size: map<int, nat>
    var freep: int
    ghost var free: seq<Block>
    ghost var live: map<int, nat>
    ghost var units: nat
    ghost var top: int

    ghost predicate Valid()
      reads this
    {
      && 0 < base < top
      && (if freep == 0 then free == [] && live == map[] else ListOk(base, top, ptr, size, freep, free))
      && LiveOk(base, top, size, free, live)
      && Units(free) + MapSum(live) == units
    }

    constructor (b: int)
      requires b > 0
      ensures Valid() && base == b && freep == 0 && live == map[] && units == 0
    {
      base := b;
      ptr, size, freep := map[], map[], 0;
      free, live, units, top := [], map[], 0, b + 1;
    }

    /** The search loop of `free`: it stops, and at the one place the block belongs. */
    method FindPlace(bp: int) returns (p: int, ghost t: nat)
      requires Valid() && freep != 0 && base < bp && (forall i :: 0 <= i < |free| ==> free[i].addr != bp)
      ensures t < |free| && p == free[t].addr && Belongs(free, t, Block(bp, 0))
    {
      t := PlaceExists(free, bp);
      p := freep;
      ghost var i :| 0 <= i < |free| && free[i].addr == freep;
      assert LinkAt(ptr, size, free, i);
      while !(bp > p && bp < ptr[p])
        invariant 0 <= i < |free| && p == free[i].addr && LinkAt(ptr, size, free, i)
        decreases if i <= t then t - i else t - i + |free|
      {
        assert LinkAt(ptr, size, free, i);
        if p >= ptr[p] && (bp > p || bp < ptr[p]) {
          assert i + 1 == |free|;
          break;
        }
        p := ptr[p];
        i := After(i, |free|);
        assert LinkAt(ptr, size, free, i);
      }
      BelongsUnique(free, t, i, Block(bp, 0));
    }

    /** Relinking in `free`: `bp` takes over from the block after it, or points to it (umalloc.c:33-37). */
    method RelinkUp(bp: int, p: int, ghost t: nat, ghost b: Block)
      requires Ordered(free) && Links(ptr, size, free) && Belongs(free, t, b) && b.size > 0
      requires Ordered(Splice(free, t, b))
      requires p == free[t].addr && bp == b.addr && bp in size && size[bp] == b.size && p in ptr
      modifies this`ptr, this`size
      ensures bp in ptr && Links(ptr[p := bp], size, Join(Splice(free, t, b), t + 1))
      ensures forall a :: a in old(size) ==> a in size && (a != bp ==> size[a] == old(size)[a])
    {
      ghost var g := Splice(free, t, b);
      ghost var ptr0 := ptr[bp := ptr[p]][p := bp];
      SpliceLinks(ptr, size, free, t, b);
      SpliceIs(free, t, b);
      hide Splice, Merge;
      var q := ptr[p];
      assert After(t, |free|) == 0 ==> q == free[0].addr <= p;
      if bp + size[bp] == q {
        assert LinkAt(ptr0, size, g, t + 2);
        hide Links, Ordered;
        MergeLinks(ptr0, size, g, t + 1);
        assert ptr0[bp := ptr0[q]] == ptr[bp := ptr[q]][p := bp];
        size := size[bp := size[bp] + size[q]];
        ptr := ptr[bp := ptr[q]];
      } else {
        assert ptr0 == ptr[bp := q][p := bp];
        ptr := ptr[bp := q];
      }
    }

    /** And the block before it takes it over, or points to it (umalloc.c:38-42). */
    method RelinkDown(bp: int, p: int, ghost t: nat, ghost h: seq<Block>)
      requires t + 1 < |h| && Ordered(h) && h[t].addr == p && h[t + 1].addr == bp
      requires bp in ptr && p in size && bp in size && Links(ptr[p := bp], size, h)
      modifies this`ptr, this`size
      ensures Links(ptr, size, Join(h, t))
      ensures forall a :: a in old(size) && a != p ==> a in size && size[a] == old(size)[a]
    {
      assert LinkAt(ptr[p := bp], size, h, t) && LinkAt(ptr[p := bp], size, h, t + 1);
      hide Links, Merge, Ordered;
      if p + size[p] == bp {
        MergeLinks(ptr[p := bp], size, h, t);
        assert ptr[p := bp][p := ptr[bp]] == ptr[p := ptr[bp]];
        size := size[p := size[p] + size[bp]];
        ptr := ptr[p := ptr[bp]];
      } else {
        ptr := ptr[p := bp];
      }
    }

    /** All of the pointer work of `free`, once the place is known. */
    method Relink(bp: int, p: int, ghost t: nat, ghost b: Block)
      requires WellFormed(free, base) && Links(ptr, size, free) && Belongs(free, t, b) && b.size > 0
      requires forall i :: 0 <= i < |free| ==> Apart(free[i], b)
      requires p == free[t].addr && bp == b.addr && bp in size && size[bp] == b.size
      modifies this`ptr, this`size
      ensures Links(ptr, size, Insert(free, t, b))
      ensures forall a :: a in old(size) && a != bp && a != p ==> a in size && size[a] == old(size)[a]
    {
      SpliceOrdered(free, t, b);
      JoinedUp(free, t, b);
      assert LinkAt(ptr, size, free, t);
      hide Splice, Join, Links, Gap, Apart;
      RelinkUp(bp, p, t, b);
      RelinkDown(bp, p, t, Join(Splice(free, t, b), t + 1));
    }

    /** `free`. */
    method Free(bp: int) returns (ghost t: nat)
      requires Valid() && bp in live
      modifies this`ptr, this`size, this`freep, this`free, this`live
      ensures Valid() && freep != 0
      ensures live == old(live) - {bp}
      ensures Belongs(old(free), t, Block(bp, old(live)[bp])) && free == Insert(old(free), t, Block(bp, old(live)[bp]))
    {
      hide Links, LiveOk, Units, Insert;
      ghost var b := Block(bp, live[bp]);
      FreeNotLive(base, top, size, free, live, bp);
      var p;
      p, t := FindPlace(bp);
      assert Belongs(free, t, b);
      Relink(bp, p, t, b);
      AfterFree(base, top, ptr, old(size), size, free, live, t, b);
      freep := p;
      free := Insert(free, t, b);
      live := live - {bp};
    }

    /** `morecore`: at least 4096 units from `sbrk`, handed to `free`. */
    method MoreCore(nunits: nat, sbrk: int) returns (p: int)
      requires Valid() && freep != 0 && nunits >= 1
      requires sbrk == -1 || sbrk >= top
      modifies this
      ensures Valid() && freep != 0 && live == old(live)
      ensures p == 0 <==> sbrk == -1
      ensures sbrk == -1 ==> units == old(units) && top == old(top) && free == old(free) && freep == old(freep)
      ensures sbrk != -1 ==>
                && p == freep && units == old(units) + (if nunits < NALLOC then NALLOC else nunits)
                && exists i :: 0 <= i < |free| && free[i].size >= nunits
    {
      hide Links, ListOk, LiveOk, Units, Insert, MapSum;
      var nu := if nunits < NALLOC then NALLOC else nunits;
      if sbrk == -1 {
        return 0;
      }
      AddChunk(base, top, ptr, size, freep, free, live, sbrk, nu);
      size := size[sbrk := nu];
      live, units, top := live[sbrk := nu], units + nu, sbrk + nu;
      ghost var t := Free(sbrk);
      InsertHasRoom(old(free), t, Block(sbrk, nu));
      assert live == old(live);
      p := freep;
    }

    /** Unlinking or shrinking the chosen block (umalloc.c:76-82). */
    method Unlink(prevp: int, p: int, nunits: nat, ghost i: nat) returns (a: int)
      requires WellFormed(free, base) && Links(ptr, size, free)
      requires 0 < i < |free| && 0 < nunits <= free[i].size
      requires prevp == free[i - 1].addr && p == free[i].addr
      modifies this`ptr, this`size
      ensures a == Taken(free, i, nunits).addr && Links(ptr, size, Take(free, i, nunits))
      ensures a in size && size[a] == nunits
      ensures forall x :: x in old(size) && x != p && x != a ==> x in size && size[x] == old(size)[x]
    {
      assert LinkAt(ptr, size, free, i) && LinkAt(ptr, size, free, i - 1);
      a := p;
      if size[p] == nunits {
        RemoveLinks(ptr, size, free, i);
        ptr := ptr[prevp := ptr[p]];
      } else {
        ShrinkLinks(ptr, size, free, i, nunits);
        size := size[p := size[p] - nunits];
        a := p + size[p];
        size := size[a := nunits];
      }
    }

    method TakeUnits(prevp: int, p: int, nunits: nat, ghost i: nat) returns (a: int)
      requires Valid() && freep != 0 && 0 < i < |free| && 0 < nunits <= free[i].size
      requires prevp == free[i - 1].addr && p == free[i].addr
      modifies this
      ensures Valid() && freep != 0
      ensures a == Taken(old(free), i, nunits).addr > base && free == Take(old(free), i, nunits)
      ensures a !in old(live) && live == old(live)[a := nunits] && units == old(units) && top == old(top)
    {
      hide Links, LiveOk, Take, Units;
      a := Unlink(prevp, p, nunits, i);
      AfterTake(base, top, ptr, old(size), size, free, live, i, nunits);
      assert base <= prevp < p <= a;
      freep := prevp;
      free := Take(free, i, nunits);
      live := live[a := nunits];
    }

    /** First use: `base` is the whole ring (umalloc.c:70-73). */
    method InitBase()
      requires Valid() && freep == 0
      modifies this
      ensures Valid() && freep != 0 && free == [Block(base, 0)]
      ensures live == old(live) && units == old(units) && top == old(top)
    {
      BaseAlone(base, top, ptr, size);
      hide ListOk, LiveOk, Units;
      ptr, size, freep := ptr[base := base], size[base := 0], base;
      free := [Block(base, 0)];
    }

    /** The loop of `malloc` (umalloc.c:74-89).  It goes once around the ring; if nothing fits,
        `morecore` runs, and the second round must succeed, so `sbrk` is asked at most once. */
    method Search(nunits: nat, sbrk: int) returns (r: int)
      requires Valid() && freep != 0 && nunits >= 1
      requires sbrk == -1 || sbrk >= top
      modifies this
      ensures Valid() && freep != 0
      ensures r == 0 ==> sbrk == -1 && live == old(live)
      ensures r != 0 ==> r - 1 !in old(live) && live == old(live)[r - 1 := nunits]
      ensures units == if r == 0 || Fits(old(free), nunits) then old(units)
                       else old(units) + (if nunits < NALLOC then NALLOC else nunits)
      ensures Fits(old(free), nunits) ==> r != 0
    {
      hide Links, LiveOk, Units, WellFormed, Below, Take, Taken;
      ghost var grown := false;
      ghost var f :| 0 <= f < |free| && free[f].addr == freep;
      ghost var k := 0;
      StepRing(ptr, size, free, f, 0);
      var prevp := freep;
      var p := ptr[prevp];
      while true
        invariant Valid() && freep != 0 && live == old(live)
        invariant 0 <= f < |free| && free[f].addr == freep && 0 <= k < |free|
        invariant prevp == free[Round(f, k, |free|)].addr && p == free[Round(f, k + 1, |free|)].addr
        invariant forall j :: 1 <= j <= k ==> free[Round(f, j, |free|)].size < nunits
        invariant if grown then
                    && Fits(free, nunits) && !Fits(old(free), nunits)
                    && units == old(units) + (if nunits < NALLOC then NALLOC else nunits)
                  else free == old(free) && units == old(units) && top == old(top)
        decreases !grown, |free| - k
      {
        ghost var i := Round(f, k + 1, |free|);
        StepRing(ptr, size, free, i, 0);
        AddrsDistinct(free, base, i, f);
        if size[p] >= nunits {
          var a := TakeUnits(prevp, p, nunits, i);
          return a + 1;
        }
        k := k + 1;
        if p == freep {
          NoneFit(free, f, nunits);
          p := MoreCore(nunits, sbrk);
          if p == 0 {
            return 0;
          }
          grown := true;
          f :| 0 <= f < |free| && free[f].addr == freep;
          k := 0;
        }
        StepRing(ptr, size, free, f, k);
        prevp := p;
        p := ptr[p];
      }
    }

    /** `malloc`.  The result is the address after the header, or 0. */
    method Malloc(nbytes: nat, sbrk: int) returns (r: int)
      requires Valid() && nbytes < Bytes.WORD
      requires sbrk == -1 || sbrk >= top
      modifies this
      ensures Valid()
      ensures r == 0 ==> sbrk == -1 && live == old(live)
      ensures r != 0 ==> r - 1 !in old(live) && live == old(live)[r - 1 := Nunits(nbytes)]
      ensures units == if r == 0 || Fits(old(free), Nunits(nbytes)) then old(units)
                       else old(units) + (if Nunits(nbytes) < NALLOC then NALLOC else Nunits(nbytes))
      ensures Fits(old(free), Nunits(nbytes)) ==> r != 0
    {
      var nunits := Nunits(nbytes);
      if freep == 0 {
        InitBase();
      }
      r := Search(nunits, sbrk);
    }
  }
}
