/** Freeing user pages (deallocuvm) and whole address spaces (freevm). */
module Unmapping {
  import opened AddressSpace
  import opened FrameList
  import opened Paging

  /** Pages the loop of deallocuvm, started at page `lo`, jumps over although their table is present: with no table at
      `lo` it advances 1024 pages at a time and so enters the next table in the middle. */
  ghost predicate Skipped(mem: Memory, d: nat, lo: nat, u: nat)
    requires d < |mem| && lo < PAGES
  {
    && mem[d][lo / ENTRIES] == 0 && u % ENTRIES < lo % ENTRIES && lo / ENTRIES < u / ENTRIES
    && forall i :: lo / ENTRIES < i < u / ENTRIES && i < ENTRIES ==> mem[d][i] == 0
  }

  ghost predicate Gone(mem: Memory, d: nat, lo: nat, hi: nat, u: nat)
    requires d < |mem| && lo < PAGES
  {
    lo <= u < hi && !Skipped(mem, d, lo, u)
  }

  ghost predicate GoneFrame(s: State, d: nat, lo: nat, hi: nat, a: nat)
    requires d < |s.mem| && lo < PAGES
  {
    a in s.owner && s.owner[a].Page? && s.owner[a].dir == d && Gone(s.mem, d, lo, hi, s.owner[a].v)
  }

  /** From `s0` to `s`, the pages lo..hi of directory `d` have been unmapped and their frames freed, except skipped
      ones. */
  ghost predicate Swept(s0: State, s: State, d: nat, lo: nat, hi: nat)
    requires d < |s0.mem| && lo < PAGES
  {
    && |s.mem| == |s0.mem| && s.out == s0.out
    && (forall e: nat :: IsDir(s0.mem, s0.owner, e) ==> IsDir(s.mem, s.owner, e) && s.mem[e] == s0.mem[e])
    && (forall e, u :: IsDir(s0.mem, s0.owner, e) && 0 <= u < PAGES ==>
          Pte(s.mem, e, u) == if e == d && Gone(s0.mem, d, lo, hi, u) then 0 else Pte(s0.mem, e, u))
    && (forall a :: a in s.owner <==> a in s0.owner && !GoneFrame(s0, d, lo, hi, a))
    && (forall a :: a in s.owner ==> s.owner[a] == s0.owner[a])
    && (forall a :: (a in s.out || (a in s.owner && s.owner[a].Page?)) && a < |s.mem| ==> s.mem[a] == s0.mem[a])
  }

  lemma SweepNothing(s: State, d: nat, lo: nat)
    requires d < |s.mem| && lo < PAGES
    ensures Swept(s, s, d, lo, lo)
  {
    hide Pte, Skipped;
  }

  /** Passing over pages that are not mapped, or skipped. */
  lemma SweepPast(first: nat, s0: State, s: State, d: nat, lo: nat, v: nat, v': nat)
    requires Inv(first, s0) && Space(s0, d) && lo <= v <= v' <= USER && lo < PAGES && Swept(s0, s, d, lo, v)
    requires forall u :: v <= u < v' ==> Pte(s0.mem, d, u) == 0 || Skipped(s0.mem, d, lo, u)
    ensures Swept(s0, s, d, lo, v')
  {
    hide Pte, Skipped, ListOk, Partition;
  }

  /** Freeing the next page. */
  lemma SweepPage(first: nat, s0: State, s: State, d: nat, lo: nat, v: nat)
    requires Inv(first, s0) && Inv(first, s) && Space(s0, d) && Space(s, d) && lo <= v < USER && lo < PAGES
    requires Swept(s0, s, d, lo, v) && Pte(s.mem, d, v) != 0 && !Skipped(s0.mem, d, lo, v)
    ensures FrameOf(s.mem[d][v / ENTRIES]) < |s.mem| && FrameOf(Pte(s.mem, d, v)) < |s.mem|
    ensures Swept(s0, WithoutPage(s, d, v), d, lo, v + 1)
  {
    FreePageKeeps(first, s, d, v);
    var f, s' := FrameOf(Pte(s.mem, d, v)), WithoutPage(s, d, v);
    assert s'.out == s.out && s'.owner == s.owner - {f} && f !in s.out;
    hide Pte, Skipped, ListOk, WithoutPage, Gone, GoneFrame, PteChange, Swept, SameDataBut;
    SweepJoin(s0, s, s', d, lo, v, f);
  }

  lemma SweepJoin(s0: State, s: State, s': State, d: nat, lo: nat, v: nat, f: nat)
    requires d < |s0.mem| && d < |s.mem| && lo <= v < USER && Swept(s0, s, d, lo, v) && !Skipped(s0.mem, d, lo, v)
    requires Owned(s.mem, s.owner) && f == FrameOf(Pte(s.mem, d, v)) && f in s.owner && s.owner[f] == Page(d, v)
    requires s'.out == s.out && s'.owner == s.owner - {f} && f !in s.out
    requires PteChange(s.mem, s'.mem, s.owner, d, v, 0) && SameDataBut(s, s', f)
    ensures Swept(s0, s', d, lo, v + 1)
  {
    SweepPtes(s0, s, s', d, lo, v);
    SweepOwner(s0, s, f, d, lo, v);
    hide Pte, Skipped, Gone, GoneFrame, Owned, PteChange;
  }

  lemma SweepPtes(s0: State, s: State, s': State, d: nat, lo: nat, v: nat)
    requires d < |s0.mem| && lo <= v < USER && Swept(s0, s, d, lo, v) && !Skipped(s0.mem, d, lo, v)
    requires PteChange(s.mem, s'.mem, s.owner, d, v, 0)
    ensures forall e, u :: IsDir(s0.mem, s0.owner, e) && 0 <= u < PAGES ==>
              Pte(s'.mem, e, u) == if e == d && Gone(s0.mem, d, lo, v + 1, u) then 0 else Pte(s0.mem, e, u)
    ensures forall e: nat :: IsDir(s0.mem, s0.owner, e) ==> s'.mem[e] == s0.mem[e]
  {
    hide Pte, Skipped;
  }

  lemma SweepOwner(s0: State, s: State, f: nat, d: nat, lo: nat, v: nat)
    requires Owned(s.mem, s.owner) && d < |s0.mem| && d < |s.mem| && lo <= v < USER && Swept(s0, s, d, lo, v)
    requires !Skipped(s0.mem, d, lo, v) && f == FrameOf(Pte(s.mem, d, v)) && f in s.owner && s.owner[f] == Page(d, v)
    ensures forall a :: a in s.owner - {f} <==> a in s0.owner && !GoneFrame(s0, d, lo, v + 1, a)
  {
    hide Pte, Skipped;
  }

  /** The skip-ahead loop does what a page-by-page loop does exactly when no mapped page of the range is skipped. */
  lemma SkipAheadExact(first: nat, s0: State, s: State, d: nat, lo: nat, hi: nat)
    requires Inv(first, s0) && Space(s0, d) && lo < PAGES && hi <= USER && Swept(s0, s, d, lo, hi)
    ensures (forall u :: lo <= u < hi ==> Pte(s.mem, d, u) == 0)
       <==> forall u :: lo <= u < hi && Pte(s0.mem, d, u) != 0 ==> !Skipped(s0.mem, d, lo, u)
  {
    hide Pte, Skipped, Inv;
  }

  /** Pages 0..n mapped and no others. */
  ghost predicate Contiguous(mem: Memory, d: nat, n: nat)
    requires d < |mem|
  {
    n <= USER && forall u :: 0 <= u < USER ==> (Pte(mem, d, u) != 0 <==> u < n)
  }

  /** User memory that is contiguous from 0 has no mapped page behind an absent table. */
  lemma ContiguousNotSkipped(mem: Memory, d: nat, n: nat, lo: nat, u: nat)
    requires d < |mem| && Contiguous(mem, d, n) && lo <= u < USER && Pte(mem, d, u) != 0
    ensures !Skipped(mem, d, lo, u)
  {
    assert lo < n && Pte(mem, d, lo) != 0;
  }

  /** A directory with one page, the first of its second table: the loop started at page 5 skips it. */
  lemma SomePageSkipped()
    ensures var mem := [ZeroFrame(), ZeroFrame()[1 := Entry(2, 7)], ZeroFrame()[0 := Entry(3, 7)], ZeroFrame()];
            var owner := map[1 := Dir, 2 := Tab(1, 1), 3 := Page(1, 1024)];
            && Inv(1, State(mem, 0, [], owner, {})) && Space(State(mem, 0, [], owner, {}), 1)
            && Pte(mem, 1, 1024) != 0 && Skipped(mem, 1, 5, 1024)
  {
  }

  /** Where the loop can be: no table met yet, or nothing ahead will be skipped. */
  ghost predicate Ahead(mem: Memory, d: nat, lo: nat, v: nat)
    requires d < |mem| && lo < PAGES
  {
    || (v % ENTRIES == lo % ENTRIES && lo <= v
        && forall i :: lo / ENTRIES <= i < v / ENTRIES && i < ENTRIES ==> mem[d][i] == 0)
    || ((forall u :: u >= v ==> !Skipped(mem, d, lo, u))
        && (v % ENTRIES == 0 || (v < PAGES && mem[d][v / ENTRIES] != 0)))
  }

  lemma StepPage(mem: Memory, d: nat, lo: nat, v: nat)
    requires d < |mem| && lo <= v < USER && Ahead(mem, d, lo, v) && mem[d][v / ENTRIES] != 0
    ensures !Skipped(mem, d, lo, v) && Ahead(mem, d, lo, v + 1)
  {
  }

  lemma StepTable(mem: Memory, d: nat, lo: nat, v: nat)
    requires d < |mem| && lo <= v < USER && Ahead(mem, d, lo, v) && mem[d][v / ENTRIES] == 0
    ensures forall u :: v <= u < v + ENTRIES && u < USER ==> Pte(mem, d, u) == 0 || Skipped(mem, d, lo, u)
    ensures Ahead(mem, d, lo, v + ENTRIES)
  {
  }

  lemma AheadAtStart(mem: Memory, d: nat, lo: nat)
    requires d < |mem| && lo < PAGES
    ensures Ahead(mem, d, lo, lo)
  {
  }

  /** The entry the loop finds at `v` is the original one. */
  lemma SweptHere(first: nat, s0: State, s: State, d: nat, lo: nat, v: nat)
    requires Inv(first, s0) && Inv(first, s) && Space(s0, d) && Space(s, d) && lo <= v < USER && Swept(s0, s, d, lo, v)
    ensures Pte(s.mem, d, v) == Pte(s0.mem, d, v) && s.mem[d] == s0.mem[d] && ListOk(s.mem, first, s.head, s.free)
    ensures Pte(s.mem, d, v) == 0 || Present(Pte(s.mem, d, v))
    ensures Present(s.mem[d][v / ENTRIES]) && FrameOf(s.mem[d][v / ENTRIES]) < |s.mem| ==>
              Pte(s.mem, d, v) == s.mem[FrameOf(s.mem[d][v / ENTRIES])][v % ENTRIES]
  {
    assert PageAt(s.mem, s.owner, d, v);
  }

  /** PGROUNDUP, in pages. */
  function Pages(sz: nat): nat { (sz + PGSIZE - 1) / PGSIZE }

  // ---- Giving up an address space ----

  ghost predicate DroppedTab(owner: Owners, d: nat, i: nat, a: nat) {
    a in owner && owner[a].Tab? && owner[a].dir == d && owner[a].i < i
  }

  /** From `s1` to `s`, the first `i` tables of `d` have been freed. */
  ghost predicate Dropping(first: nat, s1: State, s: State, d: nat, i: nat) {
    && |s.mem| == |s1.mem| && s.out == s1.out
    && ListOk(s.mem, first, s.head, s.free) && Partition(first, |s.mem|, s.free, s.owner, s.out)
    && (forall a :: a in s.owner <==> a in s1.owner && !DroppedTab(s1.owner, d, i, a))
    && (forall a :: a in s.owner ==> s.owner[a] == s1.owner[a])
    && (forall a :: (a in s.out || a in s.owner) && a < |s.mem| ==> s.mem[a] == s1.mem[a])
  }

  ghost function Pushed(s: State, f: nat): State
    requires f < |s.mem|
  {
    State(s.mem[f := Junk(s.head)], f, [f] + s.free, s.owner - {f}, s.out)
  }

  lemma PushKeeps(first: nat, s: State, f: nat)
    requires ListOk(s.mem, first, s.head, s.free) && Partition(first, |s.mem|, s.free, s.owner, s.out) && f in s.owner
    ensures first <= f < |s.mem| && f !in s.free && f !in s.out
    ensures var s' := Pushed(s, f);
            ListOk(s'.mem, first, s'.head, s'.free) && Partition(first, |s'.mem|, s'.free, s'.owner, s'.out)
  {
    ListPush(s.mem, first, s.head, s.free, f);
    PartitionPush(first, |s.mem|, s.free, s.owner, s.out, f);
  }

  lemma DropTable(first: nat, s1: State, s: State, d: nat, i: nat)
    requires Inv(first, s1) && Space(s1, d) && i < ENTRIES && Dropping(first, s1, s, d, i)
    ensures d in s.owner && d < |s.mem| && s.mem[d] == s1.mem[d]
    ensures ListOk(s.mem, first, s.head, s.free) && Partition(first, |s.mem|, s.free, s.owner, s.out)
    ensures Present(s.mem[d][i]) <==> s.mem[d][i] != 0
    ensures s.mem[d][i] == 0 ==> Dropping(first, s1, s, d, i + 1)
    ensures s.mem[d][i] != 0 ==>
              var t := FrameOf(s.mem[d][i]);
              && Present(s.mem[d][i]) && t in s.owner && t < |s.mem| && Dropping(first, s1, Pushed(s, t), d, i + 1)
  {
    hide Pte, ListOk, Partition, Pushed;
    assert TabAt(s1.mem, s1.owner, d, i);
    forall a | a in s1.owner && s1.owner[a] == Tab(d, i) ensures s1.mem[d][i] != 0 && a == FrameOf(s1.mem[d][i]) {
      assert RoleAt(s1.mem, s1.owner, a);
    }
    if s.mem[d][i] != 0 {
      var t := FrameOf(s.mem[d][i]);
      assert t in s.owner;
      PushKeeps(first, s, t);
      PushedIs(s, t);
    }
  }

  lemma PushedIs(s: State, f: nat)
    requires f < |s.mem|
    ensures var s' := Pushed(s, f);
            && |s'.mem| == |s.mem| && s'.out == s.out && s'.owner == s.owner - {f}
            && forall a: nat :: a < |s.mem| && a != f ==> s'.mem[a] == s.mem[a]
  {
  }

  /** deallocuvm from KERNBASE down to 0 skips nothing, so no user page is left. */
  lemma DropStart(first: nat, s0: State, s1: State, d: nat)
    requires Inv(first, s0) && Inv(first, s1) && Space(s0, d) && Space(s1, d) && Swept(s0, s1, d, 0, USER)
    ensures Dropping(first, s1, s1, d, 0)
    ensures forall a :: a in s1.owner <==> a in s0.owner && !(s0.owner[a].Page? && s0.owner[a].dir == d)
  {
    hide Pte, ListOk, Partition;
  }

  /** All frames of address space `d` are free now; the other address spaces are as they were. */
  ghost predicate GaveUp(s0: State, s: State, d: nat) {
    && |s.mem| == |s0.mem| && s.out == s0.out && s.owner == WithoutSpace(s0.owner, d)
    && (forall a :: InSpace(s0.owner, d, a) ==> a in s.free)
    && (forall e, u :: IsDir(s0.mem, s0.owner, e) && e != d && 0 <= u < PAGES ==> Pte(s.mem, e, u) == Pte(s0.mem, e, u))
    && (forall a :: (a in s.out || (a in s.owner && s.owner[a].Page?)) && a < |s.mem| ==> s.mem[a] == s0.mem[a])
  }

  lemma DropEnd(first: nat, s0: State, s1: State, s2: State, d: nat)
    requires Inv(first, s0) && Inv(first, s1) && Space(s0, d) && Space(s1, d) && Swept(s0, s1, d, 0, USER)
    requires Dropping(first, s1, s2, d, ENTRIES)
    ensures ListOk(s2.mem, first, s2.head, s2.free) && Partition(first, |s2.mem|, s2.free, s2.owner, s2.out)
    ensures d in s2.owner && d < |s2.mem| && Inv(first, Pushed(s2, d)) && GaveUp(s0, Pushed(s2, d), d)
  {
    DropOwner(first, s0, s1, s2, d);
    PushKeeps(first, s2, d);
    DropData(first, s0, s1, s2, d);
    DropOwners(first, s0, s1, s2, d);
    var s := Pushed(s2, d);
    hide Pushed, Skipped, Pte, ListOk, Partition, Owned, WithoutSpace, InSpace, Swept, Dropping;
    DropSpace(s1.mem, s.mem, s1.owner, d);
    DropPtes(s0, s1, s, d);
    AllFreed(first, s0, s, d);
  }

  lemma DropOwners(first: nat, s0: State, s1: State, s2: State, d: nat)
    requires Inv(first, s0) && Inv(first, s1) && Space(s0, d) && Space(s1, d) && Swept(s0, s1, d, 0, USER)
    requires Dropping(first, s1, s2, d, ENTRIES) && d in s2.owner && d < |s2.mem|
    ensures Pushed(s2, d).owner == WithoutSpace(s0.owner, d) == WithoutSpace(s1.owner, d)
  {
    hide Skipped, Pte, ListOk, Partition;
    DropOwner(first, s0, s1, s2, d);
  }

  lemma DropData(first: nat, s0: State, s1: State, s2: State, d: nat)
    requires d < |s0.mem| && Swept(s0, s1, d, 0, USER) && Dropping(first, s1, s2, d, ENTRIES) && d in s2.owner
             && d !in s2.out
    ensures var s := Pushed(s2, d);
            && |s.mem| == |s1.mem| == |s0.mem| && s.out == s0.out && SameTables(s1.mem, s.mem, s.owner)
            && (forall a :: (a in s.out || (a in s.owner && s.owner[a].Page?)) && a < |s.mem| ==> s.mem[a] == s0.mem[a])
  {
    hide Pte, ListOk, Partition, Skipped, Junk;
    PushedIs(s2, d);
    hide Pushed;
  }

  lemma DropPtes(s0: State, s1: State, s: State, d: nat)
    requires d < |s0.mem| && Swept(s0, s1, d, 0, USER) && |s.mem| == |s1.mem|
    requires forall e, v :: IsDir(s1.mem, s1.owner, e) && e != d && 0 <= v < PAGES ==>
               Pte(s.mem, e, v) == Pte(s1.mem, e, v)
    ensures forall e, u :: IsDir(s0.mem, s0.owner, e) && e != d && 0 <= u < PAGES ==>
              Pte(s.mem, e, u) == Pte(s0.mem, e, u)
  {
    hide Pte, Skipped;
  }

  lemma DropOwner(first: nat, s0: State, s1: State, s2: State, d: nat)
    requires Inv(first, s0) && Inv(first, s1) && Space(s0, d) && Space(s1, d) && Swept(s0, s1, d, 0, USER)
    requires Dropping(first, s1, s2, d, ENTRIES)
    ensures d in s2.owner && s2.owner - {d} == WithoutSpace(s0.owner, d) == WithoutSpace(s1.owner, d)
  {
    DropStart(first, s0, s1, d);
    forall a | a in s1.owner && s1.owner[a].Tab? ensures s1.owner[a].i < ENTRIES {
      TabInRange(s1, a);
    }
    assert d in s1.owner && s1.owner[d] == Dir;
    assert forall a :: a in s1.owner ==> s1.owner[a] == s0.owner[a];
    hide Pte, ListOk, Partition, Skipped, Owned, Swept, IsDir;
    PagesFirst(s0.owner, s1.owner, d);
    TablesNext(s1.owner, s2.owner, d);
  }

  lemma PagesFirst(owner0: Owners, owner1: Owners, d: nat)
    requires forall a :: a in owner1 <==> a in owner0 && !(owner0[a].Page? && owner0[a].dir == d)
    requires forall a :: a in owner1 ==> owner1[a] == owner0[a]
    ensures WithoutSpace(owner1, d) == WithoutSpace(owner0, d)
  {
  }

  lemma TablesNext(owner1: Owners, owner2: Owners, d: nat)
    requires d in owner1 && owner1[d] == Dir
    requires forall a :: a in owner1 ==>
               !(owner1[a].Page? && owner1[a].dir == d) && (owner1[a].Tab? ==> owner1[a].i < ENTRIES)
    requires forall a :: a in owner2 <==> a in owner1 && !DroppedTab(owner1, d, ENTRIES, a)
    requires forall a :: a in owner2 ==> owner2[a] == owner1[a]
    ensures d in owner2 && owner2 - {d} == WithoutSpace(owner1, d)
  {
  }

  lemma TabInRange(s: State, a: nat)
    requires Owned(s.mem, s.owner) && a in s.owner && s.owner[a].Tab?
    ensures s.owner[a].i < ENTRIES
  {
  }

  lemma AllFreed(first: nat, s0: State, s: State, d: nat)
    requires Partition(first, |s0.mem|, s0.free, s0.owner, s0.out) && Partition(first, |s.mem|, s.free, s.owner, s.out)
    requires |s.mem| == |s0.mem| && s.out == s0.out && s.owner == WithoutSpace(s0.owner, d)
    ensures forall a :: InSpace(s0.owner, d, a) ==> a in s.free
  {
  }
}
