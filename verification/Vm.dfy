/** Physical frames (kalloc.c) and address spaces (vm.c).  Pointers are frame numbers; 0 is the null pointer. */
module Vm {
  import opened AddressSpace
  import opened CopySpace
  import opened FrameList
  import opened GrowSpace
  import opened KernelSpace
  import opened Paging
  import opened Sets
  import opened Unmapping

  class Machine {
    const first: nat
    var mem: Memory
    var freelist: nat
    ghost var free: seq<nat>
    ghost var owner: Owners
    ghost var out: set<nat>

    ghost function Now(): State
      reads this
    {
      State(mem, freelist, free, owner, out)
    }

    ghost predicate Valid()
      reads this
    {
      Inv(first, Now())
    }

    /** Before any frame has been given to the allocator. */
    constructor (first: nat, mem: Memory)
      requires 0 < first <= |mem|
      ensures Valid() && this.first == first && this.mem == mem && free == [] && owner == map[]
    {
      this.first, this.mem, freelist := first, mem, 0;
      free, owner, out := [], map[], Range(|mem|) - Range(first);
    }

    /** Panics (false) outside the allocator's range. */
    method Kfree(f: nat) returns (ok: bool)
      requires ListOk(mem, first, freelist, free) && f !in free
      modifies this`mem, this`freelist, this`free
      ensures ok <==> first <= f < |mem|
      ensures !ok ==> unchanged(this)
      ensures ok ==> |mem| == |old(mem)| && mem == old(mem)[f := Junk(old(freelist))] && free == [f] + old(free)
      ensures ListOk(mem, first, freelist, free)
    {
      if f < first || f >= |mem| {
        return false;
      }
      ListPush(mem, first, freelist, free, f);
      mem := mem[f := Junk(freelist)];
      freelist := f;
      free := [f] + free;
      return true;
    }

    method Kalloc() returns (f: nat)
      requires Valid()
      modifies this`freelist, this`free, this`out
      ensures Valid() && (f == 0 <==> old(free) == [])
      ensures f == 0 ==> unchanged(this)
      ensures f != 0 ==> f == old(free)[0] && Now() == Popped(old(Now())) && f in out && f < |mem|
    {
      if free != [] {
        PopKeeps(first, Now());
      }
      f := freelist;
      if f != 0 {
        freelist := mem[f][0] / PGSIZE;
        free := free[1..];
        out := out + {f};
      }
    }

    method FreeRange(lo: nat, hi: nat)
      requires Valid() && first <= lo && hi <= |mem| && forall f: nat :: lo <= f < hi ==> f in out
      modifies this
      ensures Valid() && owner == old(owner)
      ensures forall f: nat :: f in out <==> f in old(out) && !(lo <= f < hi)
      ensures forall f: nat :: f in free <==> f in old(free) || lo <= f < hi
    {
      var p := lo;
      while p < hi
        invariant lo <= p && (p == lo || p <= hi) && Valid() && owner == old(owner) && |mem| == |old(mem)|
        invariant forall f: nat :: f in out <==> f in old(out) && !(lo <= f < p)
        invariant forall f: nat :: f in free <==> f in old(free) || lo <= f < p
      {
        ghost var mem1 := mem;
        var ok := Kfree(p);
        assert ok;
        out := out - {p};
        TablesKept(mem1, mem, owner);
        p := p + 1;
      }
    }

    /** The frame of the table that covers page `v`, made if `alloc`; 0 if there is none. */
    method WalkPgdir(d: nat, v: nat, alloc: bool) returns (t: nat)
      requires Valid() && Space(Now(), d) && v < PAGES
      modifies this
      ensures Valid() && Space(Now(), d) && SamePtes(old(Now()), Now())
      ensures t == 0 ==> unchanged(this) && mem[d][v / ENTRIES] == 0 && (alloc ==> free == [])
      ensures t != 0 ==> HasTable(mem, d, v) && FrameOf(mem[d][v / ENTRIES]) == t < |mem|
      ensures old(mem[d][v / ENTRIES]) != 0 ==> t != 0 && unchanged(this)
      ensures t != 0 && old(mem[d][v / ENTRIES]) == 0 ==>
                && alloc && old(free) != [] && t == old(free)[0]
                && Now() == WithTable(Popped(old(Now())), d, v / ENTRIES, t)
    {
      var pde := mem[d][v / ENTRIES];
      if pde != 0 {
        TableOf(mem, owner, d, v);
      }
      hide Pte, Owned;
      if Present(pde) {
        Apart(first, Now(), FrameOf(pde));
        return FrameOf(pde);
      }
      if !alloc {
        return 0;
      }
      t := Kalloc();
      if t == 0 {
        return;
      }
      TableKeeps(first, Now(), d, v / ENTRIES, t);
      mem := mem[t := ZeroFrame()];
      mem := mem[d := mem[d][v / ENTRIES := Entry(t, 7)]];
      owner := owner[t := Tab(d, v / ENTRIES)];
      out := out - {t};
    }

    /** Frees the frame of user page `v`, whose entry is in table `t`, and clears the entry. */
    method FreeUserPage(d: nat, v: nat, t: nat)
      requires Valid() && Space(Now(), d) && v < USER && HasTable(mem, d, v)
               && FrameOf(mem[d][v / ENTRIES]) == t < |mem|
      requires Pte(mem, d, v) != 0
      modifies this
      ensures Valid() && Space(Now(), d)
      ensures FrameOf(Pte(old(mem), d, v)) < |old(mem)| && Now() == WithoutPage(old(Now()), d, v)
    {
      ghost var s := Now();
      FreePageKeeps(first, s, d, v);
      var f := FrameOf(mem[t][v % ENTRIES]);
      hide Owned, Partition;
      var ok := Kfree(f);
      assert ok;
      mem := mem[t := mem[t][v % ENTRIES := 0]];
      owner := owner - {f};
    }

    /** Frees the user pages from newsz up to oldsz; the new size is returned. */
    method DeallocUvm(d: nat, oldsz: nat, newsz: nat) returns (r: nat)
      requires Valid() && Space(Now(), d) && oldsz <= USER * PGSIZE
      modifies this
      ensures newsz >= oldsz ==> unchanged(this) && r == oldsz
      ensures newsz < oldsz ==>
                r == newsz && Valid() && Space(Now(), d) && Swept(old(Now()), Now(), d, Pages(newsz), Pages(oldsz))
    {
      hide Pte, Inv, Swept, Ahead, Skipped;
      if newsz >= oldsz {
        return oldsz;
      }
      ghost var lo, hi, s0 := Pages(newsz), Pages(oldsz), Now();
      SweepNothing(s0, d, lo);
      var a := Pages(newsz) * PGSIZE;
      AheadAtStart(mem, d, lo);
      while a < oldsz
        invariant a % PGSIZE == 0 && lo <= a / PGSIZE && Valid() && Space(Now(), d)
        invariant Swept(s0, Now(), d, lo, if a / PGSIZE < hi then a / PGSIZE else hi)
        invariant Ahead(s0.mem, d, lo, a / PGSIZE)
      {
        var v := a / PGSIZE;
        ghost var s := Now();
        SweptHere(first, s0, s, d, lo, v);
        var t := WalkPgdir(d, v, false);
        if t == 0 {
          StepTable(s0.mem, d, lo, v);
          SweepPast(first, s0, s, d, lo, v, if v + ENTRIES < hi then v + ENTRIES else hi);
          a := a + (ENTRIES - 1) * PGSIZE;
        } else {
          StepPage(s0.mem, d, lo, v);
          var pte := mem[t][v % ENTRIES];
          if Present(pte) {
            SweepPage(first, s0, s, d, lo, v);
            FreeUserPage(d, v, t);
          } else {
            SweepPast(first, s0, s, d, lo, v, v + 1);
          }
        }
        a := a + PGSIZE;
      }
      return newsz;
    }

    method FreeOwned(f: nat)
      requires ListOk(mem, first, freelist, free) && Partition(first, |mem|, free, owner, out) && f in owner
               && f < |mem|
      modifies this
      ensures Now() == Pushed(old(Now()), f)
    {
      PushKeeps(first, Now(), f);
      var ok := Kfree(f);
      assert ok;
      owner := owner - {f};
    }

    method FreeTables(d: nat)
      requires Valid() && Space(Now(), d) && Dropping(first, Now(), Now(), d, 0)
      modifies this
      ensures Dropping(first, old(Now()), Now(), d, ENTRIES)
    {
      hide Pte, Inv, Dropping, ListOk, Partition, Pushed, FrameOf, Present;
      for i := 0 to ENTRIES
        invariant Dropping(first, old(Now()), Now(), d, i)
      {
        DropTable(first, old(Now()), Now(), d, i);
        if Present(mem[d][i]) {
          FreeOwned(FrameOf(mem[d][i]));
        }
      }
    }

    /** Gives back every frame of the address space. */
    method FreeVm(d: nat)
      requires Valid() && Space(Now(), d)
      modifies this
      ensures Valid() && GaveUp(old(Now()), Now(), d)
    {
      hide Pte, Inv, Dropping, Swept, ListOk, Partition, GaveUp, Pushed;
      var r := DeallocUvm(d, USER * PGSIZE, 0);
      ghost var s1 := Now();
      DropStart(first, old(Now()), s1, d);
      FreeTables(d);
      DropEnd(first, old(Now()), s1, Now(), d);
      FreeOwned(d);
    }

    /** One page of mappages: the entry of page `v` is set to frame `f`. */
    method MapPage(d: nat, v: nat, f: nat, perm: nat) returns (r: Mapping)
      requires Valid() && Space(Now(), d) && v < PAGES && perm < PGSIZE && (v < USER ==> f in out)
      modifies this
      ensures Valid() && Space(Now(), d)
      ensures r == NoTable <==> old(mem)[d][v / ENTRIES] == 0 && old(free) == []
      ensures r == Remap <==> Present(Pte(old(mem), d, v))
      ensures r != Mapped ==> unchanged(this)
      ensures r == Mapped ==> CanEnter(old(Now()), d, v) && Now() == Enter(old(Now()), d, v, Entry(f, OrPresent(perm)))
    {
      ghost var s := Now();
      if mem[d][v / ENTRIES] != 0 || free != [] {
        TabledKeeps(first, s, d, v);
      }
      hide Inv, Owned;
      var t := WalkPgdir(d, v, true);
      if t == 0 {
        return NoTable;
      }
      assert Now() == Tabled(s, d, v / ENTRIES);
      assert Pte(mem, d, v) == mem[t][v % ENTRIES] == Pte(s.mem, d, v);
      if Present(mem[t][v % ENTRIES]) {
        return Remap;
      }
      UserEntry(first, Now(), d, v);
      var w := Entry(f, OrPresent(perm));
      hide Pte, Tabled, GetsTable;
      EntryKeeps(first, Now(), d, v, w);
      ghost var mem2 := mem;
      mem := mem[t := mem[t][v % ENTRIES := w]];
      owner := Reowned(mem2, owner, d, v, w);
      out := if v < USER then out - {f} else out;
      return Mapped;
    }

    /** A frame is allocated, filled with `data` and mapped at user page `v`.  When mapping fails for want of a page for
        the table, the frame is lost: allocuvm and copyuvm do not give it back. */
    method PageIn(d: nat, v: nat, data: Frame, perm: nat) returns (r: Entered)
      requires Valid() && Space(Now(), d) && v < USER && Pte(mem, d, v) == 0 && perm < PGSIZE
      modifies this
      ensures Valid() && Space(Now(), d)
      ensures r == NoFrame <==> old(free) == []
      ensures r == NoFrame ==> unchanged(this)
      ensures r == Lost <==> |old(free)| == 1 && old(mem)[d][v / ENTRIES] == 0
      ensures r == Lost ==>
                && free == [] && out == old(out) + {old(free)[0]} && owner == old(owner)
                && SamePtes(old(Now()), Now()) && SameData(old(Now()), Now()) && mem[d] == old(mem)[d]
      ensures r == Entered ==> MapsFresh(old(Now()), Now(), d, v, old(free)[0], data, OrPresent(perm))
    {
      ghost var s := Now();
      if free != [] {
        FreshFrame(first, s, data);
      }
      hide Inv, MapsFresh, Pte, CanEnter, Enter, OrPresent, Entry, SameData;
      var f := Kalloc();
      if f == 0 {
        return NoFrame;
      }
      mem := mem[f := data];
      assert Now() == Filled(Popped(s), f, data);
      assert Pte(mem, d, v) == 0;
      var m := MapPage(d, v, f, perm);
      if m == NoTable {
        return Lost;
      }
      assert m == Mapped;
      FreshSteps(first, s, d, v, data, OrPresent(perm));
      return Entered;
    }

    /** Grows the user memory from oldsz to newsz bytes, which need not be page-aligned; 0 on failure. */
    method AllocUvm(d: nat, oldsz: nat, newsz: nat) returns (r: nat)
      requires Valid() && Space(Now(), d) && Contiguous(mem, d, Pages(oldsz))
      modifies this
      ensures Valid() && Space(Now(), d)
      ensures newsz >= USER * PGSIZE ==> r == 0 && unchanged(this)
      ensures newsz < USER * PGSIZE && newsz < oldsz ==> r == oldsz && unchanged(this)
      ensures newsz < USER * PGSIZE && newsz >= oldsz ==>
                Outcome(old(Now()), Now(), d, Pages(oldsz), Pages(newsz), newsz, r)
    {
      hide Pte, Inv, MapsFresh, Growing, Outcome, Contiguous;
      if newsz >= USER * PGSIZE {
        return 0;
      }
      if newsz < oldsz {
        return oldsz;
      }
      ghost var s0, lo, hi, lost := Now(), Pages(oldsz), Pages(newsz), false;
      GrowingStart(s0, d, lo);
      var a := Pages(oldsz) * PGSIZE;
      while a < newsz
        invariant a % PGSIZE == 0 && lo <= a / PGSIZE <= hi && Valid() && Space(Now(), d)
        invariant Growing(s0, Now(), d, lo, a / PGSIZE, lost)
      {
        var v := a / PGSIZE;
        ghost var s := Now();
        GrowingHere(first, s0, s, d, lo, v, lost);
        var e := PageIn(d, v, ZeroFrame(), 6);
        if e == NoFrame {
          var n := DeallocUvm(d, newsz, oldsz);
          GrowingFails(first, s0, s, Now(), d, lo, v, hi, newsz, lost);
          return 0;
        }
        LostIsLast(s0, s, d, lo, v, lost);
        if e == Lost {
          GrowingLost(first, s0, s, Now(), d, lo, v);
          lost := true;
        } else {
          GrowingStep(first, s0, s, Now(), d, lo, v, s.free[0]);
        }
        a := a + PGSIZE;
      }
      GrowingEnd(s0, Now(), d, lo, hi, newsz, lost);
      return newsz;
    }

    /** Maps the kernel addresses va..va+size to physical addresses from pa on. */
    method MapPages(d: nat, va: nat, size: nat, pa: nat, perm: nat) returns (r: Mapping)
      requires Valid() && Space(Now(), d) && perm < PGSIZE && pa % PGSIZE == 0
      requires va >= USER * PGSIZE && size > 0 && va + size <= PAGES * PGSIZE
      modifies this
      ensures Valid() && Space(Now(), d) && OnlyAdds(old(Now()), Now(), d)
      ensures r == Mapped ==>
                Laid(old(Now()), Now(), d, va / PGSIZE, (va + size - 1) / PGSIZE + 1, pa / PGSIZE, OrPresent(perm))
      ensures r == NoTable ==> RanOut(old(Now()), Now(), d, Span(va / PGSIZE, (va + size - 1) / PGSIZE + 1))
      ensures r == Remap ==>
                exists u :: va / PGSIZE <= u <= (va + size - 1) / PGSIZE && Present(Pte(old(mem), d, u))
    {
      hide Pte, Inv, Laid, OrPresent, OnlyAdds, RanOut;
      r := MapRun(d, va / PGSIZE, (va + size - 1) / PGSIZE, pa / PGSIZE, perm);
    }

    method LayOne(d: nat, ghost s0: State, ghost lo: nat, a: nat, ghost last: nat, ghost frame: nat, f: nat, perm: nat)
      returns (r: Mapping)
      requires Valid() && Space(Now(), d) && Space(s0, d) && perm < PGSIZE && USER <= lo <= a <= last < PAGES
      requires Laid(s0, Now(), d, lo, a, frame, OrPresent(perm)) && f == frame + (a - lo)
      modifies this
      ensures Valid() && Space(Now(), d) && OnlyAdds(s0, Now(), d)
      ensures r == Mapped ==> Laid(s0, Now(), d, lo, a + 1, frame, OrPresent(perm))
      ensures r == NoTable ==> RanOut(s0, Now(), d, Span(lo, last + 1))
      ensures r == Remap ==> Present(Pte(s0.mem, d, a))
    {
      hide Pte, Inv, Laid, Enter, CanEnter, Entry, OrPresent, OnlyAdds, Present, RanOut;
      ghost var s := Now();
      LaidHere(s0, s, d, lo, a, frame, OrPresent(perm));
      if mem[d][a / ENTRIES] != 0 || free != [] {
        LaidStep(first, s0, s, d, lo, a, frame, OrPresent(perm));
      } else {
        LaidShort(s0, s, d, lo, a, last + 1, frame, OrPresent(perm));
      }
      r := MapPage(d, a, f, perm);
      if r == Mapped {
        LaidHere(s0, Now(), d, lo, a + 1, frame, OrPresent(perm));
      }
    }

    /** The loop of mappages: pages a..last. */
    method MapRun(d: nat, lo: nat, last: nat, frame: nat, perm: nat) returns (r: Mapping)
      requires Valid() && Space(Now(), d) && perm < PGSIZE && USER <= lo <= last < PAGES
      modifies this
      ensures Valid() && Space(Now(), d) && OnlyAdds(old(Now()), Now(), d)
      ensures r == Mapped ==> Laid(old(Now()), Now(), d, lo, last + 1, frame, OrPresent(perm))
      ensures r == NoTable ==> RanOut(old(Now()), Now(), d, Span(lo, last + 1))
      ensures r == Remap ==> exists u :: lo <= u <= last && Present(Pte(old(mem), d, u))
    {
      hide Pte, Inv, Laid, OrPresent, OnlyAdds, Present, RanOut, Span;
      ghost var s0, flags := Now(), OrPresent(perm);
      LaidNothing(s0, d, lo, frame, flags);
      LaidHere(s0, s0, d, lo, lo, frame, flags);
      var a, f := lo, frame;
      while true
        invariant lo <= a <= last && f == frame + (a - lo) && Valid() && Space(Now(), d)
        invariant Laid(s0, Now(), d, lo, a, frame, flags)
        decreases last - a
      {
        r := LayOne(d, s0, lo, a, last, frame, f, perm);
        if r != Mapped {
          return;
        }
        if a == last {
          return;
        }
        a := a + 1;
        f := f + 1;
      }
    }

    /** A directory with the kernel's mappings, or 0.  On failure after the directory was allocated, it and its tables
        stay behind. */
    method SetupKvm(data: nat) returns (d: nat)
      requires Valid() && data % PGSIZE == 0 && KERNBASE + EXTMEM < data < KERNBASE + PHYSTOP
      modifies this
      ensures Valid() && (d == 0 <==> |old(free)| <= KERNEL_TABLES)
      ensures d == 0 ==> OldKept(old(Now()), Now()) && free == []
      ensures d != 0 ==> SetUp(old(Now()), Now(), d, KernelMap(data))
    {
      ghost var s0 := Now();
      KernelTabsMeans(data);
      if free != [] {
        DirKeeps(first, s0);
      }
      KernelMapOk(data);
      hide Pte, Inv, SetUp, KmapOk, OldKept, KernelMap;
      d := Kalloc();
      if d == 0 {
        OldKeptRefl(s0);
        return;
      }
      mem := mem[d := ZeroFrame()];
      owner := owner[d := Dir];
      out := out - {d};
      assert Now() == WithDir(s0);
      var r := MapKernel(d, KernelMap(data), s0);
      if r == NoTable {
        return 0;
      }
    }

    /** The loop of setupkvm. */
    method MapKernel(d: nat, ks: seq<Kmap>, ghost s0: State) returns (r: Mapping)
      requires Valid() && KmapOk(ks) && SetUp(s0, Now(), d, [])
      modifies this
      ensures Valid() && (r == Mapped || r == NoTable)
      ensures r == Mapped ==> SetUp(s0, Now(), d, ks)
      ensures r == NoTable ==> OldKept(s0, Now()) && free == [] && |s0.free| <= |KernelTabs(ks)|
    {
      hide Pte, Inv, SetUp, KmapOk, OldKept, OnlyAdds, Laid;
      for k := 0 to |ks|
        invariant Valid() && SetUp(s0, Now(), d, ks[..k])
      {
        ghost var s := Now();
        SetUpHere(s0, s, d, ks, k);
        r := MapRow(d, ks[k]);
        if r == NoTable {
          SetUpFails(s0, s, Now(), d, ks, k);
          return;
        }
        SetUpStep(s0, s, Now(), d, ks[..k], ks[k]);
        assert ks[..k] + [ks[k]] == ks[..k + 1];
      }
      assert ks[..|ks|] == ks;
      r := Mapped;
    }

    method MapRow(d: nat, k: Kmap) returns (r: Mapping)
      requires Valid() && Space(Now(), d) && k.Ok() && k.Hi() == (k.virt + k.Size() - 1) / PGSIZE + 1
      requires forall u :: k.Lo() <= u < k.Hi() ==> u < PAGES && Pte(mem, d, u) == 0
      modifies this
      ensures Valid() && OnlyAdds(old(Now()), Now(), d) && (r == Mapped || r == NoTable)
      ensures r == Mapped ==> Laid(old(Now()), Now(), d, k.Lo(), k.Hi(), k.start / PGSIZE, OrPresent(k.perm))
      ensures r == NoTable ==> RanOut(old(Now()), Now(), d, Span(k.Lo(), k.Hi()))
    {
      hide Pte, Inv, OnlyAdds, Laid, RanOut;
      r := MapPages(d, k.virt, k.Size(), k.start, k.perm);
    }

    /** A new address space with copies of the first `sz` bytes of `d0`'s user memory. */
    method CopyUvm(d0: nat, sz: nat, data: nat) returns (r: Copy)
      requires Valid() && Space(Now(), d0) && sz <= USER * PGSIZE
      requires data % PGSIZE == 0 && KERNBASE + EXTMEM < data < KERNBASE + PHYSTOP
      modifies this
      ensures var m := Reach(old(mem), d0, Pages(sz));
              && (r == Failed <==> |old(free)| < CopyCost(m))
              && (r == Panicked <==> |old(free)| >= CopyCost(m) && m < Pages(sz))
      ensures r != Panicked ==> Valid()
      ensures r.Copied? ==> Copying(old(Now()), Now(), d0, r.d, Pages(sz), KernelMap(data))
      ensures r == Failed ==> Undone(old(Now()), Now(), Reach(old(mem), d0, Pages(sz)))
    {
      hide Pte, Inv, SetUp, KernelMap, KernelPte, KernelTabs, Copying, MapsFresh, OldKept, Undone, CopyCost, Reach,
           Span;
      KernelTabsMeans(data);
      ghost var s0, m := Now(), Reach(mem, d0, Pages(sz));
      var d := SetupKvm(data);
      if d == 0 {
        CopyNever(s0, Now(), m);
        return Failed;
      }
      ghost var ks := KernelMap(data);
      CopyStart(s0, Now(), d0, d, ks);
      var i := 0;
      while i < sz
        invariant i % PGSIZE == 0 && i / PGSIZE <= m && Valid() && Copying(s0, Now(), d0, d, i / PGSIZE, ks)
      {
        var v := i / PGSIZE;
        KernelMapMeans(data, v);
        var ok := CopyPage(d0, d, v, s0, ks, m, Pages(sz));
        if ok != Copied(d) {
          return ok;
        }
        i := i + PGSIZE;
      }
      CopyPaid(s0, Now(), d0, d, i / PGSIZE, ks);
      return Copied(d);
    }

    /** One pass of copyuvm's loop. */
    method CopyPage(d0: nat, d: nat, v: nat, ghost s0: State, ghost ks: seq<Kmap>, ghost m: nat, ghost n: nat)
      returns (r: Copy)
      requires Valid() && Inv(first, s0) && Space(s0, d0) && v < n <= USER && Copying(s0, Now(), d0, d, v, ks)
      requires KernelPte(ks, v) == 0 && m == Reach(s0.mem, d0, n) && v <= m
      modifies this
      ensures r.Copied? ==> r.d == d
      ensures r != Panicked ==> Valid()
      ensures r == Copied(d) ==> v < m && Copying(s0, Now(), d0, d, v + 1, ks)
      ensures r == Failed ==> |s0.free| < CopyCost(m) && Undone(s0, Now(), m)
      ensures r == Panicked ==> v == m && |s0.free| >= CopyCost(m)
    {
      ghost var s := Now();
      CopyHere(first, s0, s, d0, d, v, ks);
      CopyPaid(s0, s, d0, d, v, ks);
      var t := WalkPgdir(d0, v, false);
      if t == 0 {
        return Panicked;
      }
      var pte := mem[t][v % ENTRIES];
      assert pte == Pte(s0.mem, d0, v);
      if !Present(pte) {
        return Panicked;
      }
      r := CopyInto(d0, d, v, mem[FrameOf(pte)], Flags(pte), s0, ks, m);
    }

    method CopyInto(ghost d0: nat, d: nat, v: nat, page: Frame, flags: nat, ghost s0: State, ghost ks: seq<Kmap>,
                    ghost m: nat)
      returns (r: Copy)
      requires Valid() && Inv(first, s0) && Space(s0, d0) && v < USER && v < m && Copying(s0, Now(), d0, d, v, ks)
      requires KernelPte(ks, v) == 0 && Space(Now(), d) && Pte(mem, d, v) == 0
      requires var w0 := Pte(s0.mem, d0, v);
               Present(w0) && FrameOf(w0) < |s0.mem| && page == s0.mem[FrameOf(w0)] && flags == Flags(w0)
      modifies this
      ensures Valid() && (r == Copied(d) || r == Failed)
      ensures r == Copied(d) ==> Copying(s0, Now(), d0, d, v + 1, ks)
      ensures r == Failed ==> |s0.free| < CopyCost(m) && Undone(s0, Now(), m)
    {
      ghost var s := Now();
      hide Pte, Inv, KernelPte, Copying, MapsFresh, OldKept, Undone, GaveUp, SameData, SamePtes, CopyCost;
      var e := PageIn(d, v, page, flags);
      if e == Entered {
        CopyStep(first, s0, s, Now(), d0, d, v, ks, s.free[0]);
        return Copied(d);
      }
      ghost var s1 := Now();
      if e == NoFrame {
        SameRefl(s);
      }
      FreeVm(d);
      CopyFails(first, s0, s, s1, Now(), d0, d, v, ks, m);
      return Failed;
    }
  }
}
