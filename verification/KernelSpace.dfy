/** The kernel part of an address space (mappages, setupkvm). */
module KernelSpace {
  import opened AddressSpace
  import opened Bytes
  import opened FrameList
  import opened Paging
  import opened Sets

  /** What setting up part of an address space leaves alone: everything in use, all other address spaces. */
  ghost predicate OnlyAdds(s0: State, s: State, d: nat) {
    && |s.mem| == |s0.mem| && SameData(s0, s) && s.out == s0.out
    && (forall e :: IsDir(s0.mem, s0.owner, e) ==> IsDir(s.mem, s.owner, e))
    && (forall a :: a in s0.owner ==> a in s.owner && s.owner[a] == s0.owner[a])
    && (forall a :: a in s.owner && a !in s0.owner ==> s.owner[a].Tab? && s.owner[a].dir == d)
    && (forall e, u :: IsDir(s0.mem, s0.owner, e) && e != d && 0 <= u < PAGES ==> Pte(s.mem, e, u) == Pte(s0.mem, e, u))
  }

  /** From `s0` to `s`, the tables `added` came to those of `d`, each made from a free frame. */
  ghost predicate TabsGrew(s0: State, s: State, d: nat, added: set<nat>) {
    && d < |s0.mem| == |s.mem| && Tabs(s.mem, d) == Tabs(s0.mem, d) + added
    && |s.free| + |Tabs(s.mem, d)| == |s0.free| + |Tabs(s0.mem, d)|
  }

  /** The frames ran out before `d` had all the tables of `added`. */
  ghost predicate RanOut(s0: State, s: State, d: nat, added: set<nat>) {
    && d < |s0.mem| == |s.mem| && s.free == [] && Tabs(s.mem, d) < Tabs(s0.mem, d) + added
    && |Tabs(s.mem, d)| == |s0.free| + |Tabs(s0.mem, d)|
  }

  /** From `s0` to `s`, the kernel pages lo..v of `d` got frames f, f+1, ... with `flags`; no other entry changed. */
  ghost predicate Laid(s0: State, s: State, d: nat, lo: nat, v: nat, f: nat, flags: nat)
    requires flags < PGSIZE
  {
    && OnlyAdds(s0, s, d) && TabsGrew(s0, s, d, Span(lo, v))
    && forall e, u :: IsDir(s0.mem, s0.owner, e) && 0 <= u < PAGES ==>
         Pte(s.mem, e, u) == if e == d && lo <= u < v then Entry(f + (u - lo), flags) else Pte(s0.mem, e, u)
  }

  lemma LaidStep(first: nat, s0: State, s: State, d: nat, lo: nat, v: nat, f: nat, flags: nat)
    requires Inv(first, s) && Space(s0, d) && Space(s, d) && USER <= lo <= v < PAGES && flags < PGSIZE
    requires Laid(s0, s, d, lo, v, f, flags) && (s.mem[d][v / ENTRIES] == 0 ==> s.free != [])
    ensures CanEnter(s, d, v) && Laid(s0, Enter(s, d, v, Entry(f + (v - lo), flags)), d, lo, v + 1, f, flags)
  {
    TabledKeeps(first, s, d, v);
    var s2, w := Tabled(s, d, v / ENTRIES), Entry(f + (v - lo), flags);
    EntryKeeps(first, s2, d, v, w);
    var s' := Enter(s, d, v, w);
    assert s'.owner == s2.owner && s'.out == s2.out && s'.free == s2.free;
    hide Inv, Pte, Tabled, WithEntry, Enter, Entry, Laid, GetsTable, PteChange, SameData;
    LaidCompose(s0, s, s2, s', d, lo, v, f, flags);
  }

  lemma LaidTable(s0: State, s: State, s2: State, s': State, d: nat, lo: nat, v: nat, f: nat, flags: nat)
    requires Space(s0, d) && lo <= v < PAGES && flags < PGSIZE && Laid(s0, s, d, lo, v, f, flags)
    requires GetsTable(s, s2, d, v / ENTRIES) && s'.free == s2.free
    requires PteChange(s2.mem, s'.mem, s2.owner, d, v, Entry(f + (v - lo), flags))
    ensures TabsGrew(s0, s', d, Span(lo, v + 1))
  {
    hide Pte, Entry;
    assert IsDir(s.mem, s.owner, d) && IsDir(s2.mem, s2.owner, d);
    SpanNext(lo, v);
    TabsGain(s.mem, s'.mem, d, v / ENTRIES);
    hide Tabs, Span;
  }

  lemma LaidCompose(s0: State, s: State, s2: State, s': State, d: nat, lo: nat, v: nat, f: nat, flags: nat)
    requires Space(s0, d) && lo <= v < PAGES && flags < PGSIZE && Laid(s0, s, d, lo, v, f, flags)
    requires GetsTable(s, s2, d, v / ENTRIES)
    requires PteChange(s2.mem, s'.mem, s2.owner, d, v, Entry(f + (v - lo), flags)) && SameData(s2, s')
    requires s'.owner == s2.owner && s'.out == s2.out && s'.free == s2.free
    ensures Laid(s0, s', d, lo, v + 1, f, flags)
  {
    hide Pte, Entry;
    LaidTable(s0, s, s2, s', d, lo, v, f, flags);
    hide TabsGrew, Span;
    var w := Entry(f + (v - lo), flags);
    forall e, u: nat | IsDir(s0.mem, s0.owner, e) && 0 <= u < PAGES
      ensures Pte(s'.mem, e, u) == if e == d && lo <= u < v + 1 then Entry(f + (u - lo), flags) else Pte(s0.mem, e, u)
    {
      assert IsDir(s.mem, s.owner, e) && IsDir(s2.mem, s2.owner, e);
      assert Pte(s2.mem, e, u) == Pte(s.mem, e, u);
      assert Pte(s'.mem, e, u) == if e == d && u == v then w else Pte(s2.mem, e, u);
    }
  }

  lemma LaidNothing(s: State, d: nat, lo: nat, f: nat, flags: nat)
    requires flags < PGSIZE && d < |s.mem|
    ensures Laid(s, s, d, lo, lo, f, flags)
  {
    hide Pte, Entry;
  }

  const KERNBASE := 0x8000_0000
  const EXTMEM := 0x10_0000
  const PHYSTOP := 0xE00_0000
  const DEVSPACE := 0xFE00_0000

  /** A row of the kernel's memory map, in bytes. */
  datatype Kmap = Kmap(virt: nat, start: nat, end: nat, perm: nat)
  {
    /** `phys_end - phys_start` as unsigned 32-bit; the last row's end is 0. */
    function Size(): nat { (end - start) % WORD }
    function Lo(): nat { virt / PGSIZE }
    function Hi(): nat { Lo() + Size() / PGSIZE }

    ghost predicate Ok() {
      && virt % PGSIZE == 0 && start % PGSIZE == 0 && end % PGSIZE == 0 && Size() > 0 && perm < PGSIZE
      && virt >= KERNBASE && virt + Size() <= WORD
    }
  }

  /** `data` is the address of the kernel's data section. */
  function KernelMap(data: nat): seq<Kmap>
    requires data >= KERNBASE
  {
    [Kmap(KERNBASE, 0, EXTMEM, 2), Kmap(KERNBASE + EXTMEM, EXTMEM, data - KERNBASE, 0),
     Kmap(data, data - KERNBASE, PHYSTOP, 2), Kmap(DEVSPACE, DEVSPACE, 0, 2)]
  }

  ghost predicate KmapOk(ks: seq<Kmap>) {
    && (forall k :: 0 <= k < |ks| ==> ks[k].Ok())
    && forall j, k :: 0 <= j < k < |ks| ==> ks[j].Hi() <= ks[k].Lo()
  }

  /** The entry a kernel map gives page `u`. */
  ghost function KernelPte(ks: seq<Kmap>, u: nat): nat {
    if ks == [] then 0
    else
      var k := ks[|ks| - 1];
      if k.Lo() <= u < k.Hi() && k.perm < PGSIZE then Entry(k.start / PGSIZE + (u - k.Lo()), OrPresent(k.perm))
      else KernelPte(ks[..|ks| - 1], u)
  }

  /** The tables a kernel map needs. */
  ghost function KernelTabs(ks: seq<Kmap>): set<nat> {
    if ks == [] then {} else KernelTabs(ks[..|ks| - 1]) + Span(ks[|ks| - 1].Lo(), ks[|ks| - 1].Hi())
  }

  lemma {:induction false} KernelTabsGrow(ks: seq<Kmap>, k: nat)
    requires k <= |ks|
    ensures KernelTabs(ks[..k]) <= KernelTabs(ks)
  {
    if k < |ks| {
      KernelTabsGrow(ks[..|ks| - 1], k);
      assert ks[..|ks| - 1][..k] == ks[..k];
    } else {
      assert ks[..k] == ks;
    }
  }

  const KERNEL_TABLES := 64

  lemma SpanJoin(a: nat, b: nat, c: nat)
    requires a < b < c
    ensures Span(a, b) + Span(b, c) == Span(a, c)
  {
  }

  lemma {:induction false} SpanSize(lo: nat, v: nat)
    requires lo <= v <= PAGES
    ensures |Span(lo, v)| == if lo < v then (v - 1) / ENTRIES - lo / ENTRIES + 1 else 0
  {
    if lo < v {
      SpanSize(lo, v - 1);
      SpanNext(lo, v - 1);
      if (v - 1) / ENTRIES in Span(lo, v - 1) {
        assert Span(lo, v - 1) + {(v - 1) / ENTRIES} == Span(lo, v - 1);
      }
    } else {
      assert Span(lo, v) == {};
    }
  }

  /** Wherever the data section starts. */
  lemma KernelTabsMeans(data: nat)
    requires data % PGSIZE == 0 && KERNBASE + EXTMEM < data < KERNBASE + PHYSTOP
    ensures KernelTabs(KernelMap(data)) == Span(USER, 0x8_E000) + Span(0xF_E000, PAGES)
    ensures |KernelTabs(KernelMap(data))| == KERNEL_TABLES
    ensures forall i :: i in KernelTabs(KernelMap(data)) ==> i >= USER / ENTRIES
  {
    KernelRows(data);
    var ks := KernelMap(data);
    hide KernelMap, Kmap.Lo, Kmap.Hi, Kmap.Ok, KernelTabs, Span;
    KernelTabsStep(ks, 0);
    assert KernelTabs(ks[..1]) == Span(USER, USER + 256);
    KernelTabsStep(ks, 1);
    SpanJoin(USER, USER + 256, data / PGSIZE);
    assert KernelTabs(ks[..2]) == Span(USER, data / PGSIZE);
    KernelTabsStep(ks, 2);
    SpanJoin(USER, data / PGSIZE, 0x8_E000);
    assert KernelTabs(ks[..3]) == Span(USER, 0x8_E000);
    KernelTabsStep(ks, 3);
    assert ks[..4] == ks;
    SpanSize(USER, 0x8_E000);
    SpanSize(0xF_E000, PAGES);
    SpansApart();
    assert forall i :: i in Span(USER, 0x8_E000) + Span(0xF_E000, PAGES) ==> i >= USER / ENTRIES;
  }

  lemma SpansApart()
    ensures Span(USER, 0x8_E000) !! Span(0xF_E000, PAGES)
    ensures forall i :: i in Span(USER, 0x8_E000) || i in Span(0xF_E000, PAGES) ==> i >= USER / ENTRIES
  {
  }

  lemma KernelTabsStep(ks: seq<Kmap>, k: nat)
    requires k < |ks|
    ensures KernelTabs(ks[..0]) == {}
    ensures KernelTabs(ks[..k + 1]) == KernelTabs(ks[..k]) + Span(ks[k].Lo(), ks[k].Hi())
  {
    assert ks[..k + 1][..k] == ks[..k];
  }

  /** The rows in pages. */
  lemma KernelRows(data: nat)
    requires data % PGSIZE == 0 && KERNBASE + EXTMEM < data < KERNBASE + PHYSTOP
    ensures var ks := KernelMap(data);
            && |ks| == 4 && ks[0].Ok() && ks[1].Ok() && ks[2].Ok() && ks[3].Ok()
            && ks[0].Lo() == USER && ks[0].Hi() == USER + 256 && ks[1].Lo() == USER + 256 && ks[1].Hi() == data / PGSIZE
            && ks[2].Lo() == data / PGSIZE && ks[2].Hi() == 0x8_E000 && ks[3].Lo() == 0xF_E000 && ks[3].Hi() == PAGES
            && ks[0].start == 0 && ks[1].start == EXTMEM && ks[2].start / PGSIZE == data / PGSIZE - USER
            && ks[3].start == DEVSPACE
            && ks[0].perm == ks[2].perm == ks[3].perm == 2 && ks[1].perm == 0
            && USER + 256 < data / PGSIZE < 0x8_E000
  {
  }

  lemma KernelMapOk(data: nat)
    requires data % PGSIZE == 0 && KERNBASE + EXTMEM < data < KERNBASE + PHYSTOP
    ensures KmapOk(KernelMap(data))
  {
    KernelRows(data);
    hide KernelMap, Kmap.Lo, Kmap.Hi, Kmap.Ok;
  }

  /** The kernel part of every address space: physical memory at KERNBASE, its text read-only, and the devices. */
  lemma KernelMapMeans(data: nat, u: nat)
    requires data % PGSIZE == 0 && KERNBASE + EXTMEM < data < KERNBASE + PHYSTOP && u < PAGES
    ensures var w := KernelPte(KernelMap(data), u);
            if USER <= u < USER + PHYSTOP / PGSIZE
              then w == Entry(u - USER, if (KERNBASE + EXTMEM) / PGSIZE <= u < data / PGSIZE then 1 else 3)
            else if u >= DEVSPACE / PGSIZE then w == Entry(u, 3)
            else w == 0
  {
    KernelRows(data);
    var ks := KernelMap(data);
    hide Entry, KernelPte, KernelMap, Kmap.Lo, Kmap.Hi, Kmap.Ok;
    KernelPteStep(ks, 0, u);
    KernelPteStep(ks, 1, u);
    KernelPteStep(ks, 2, u);
    KernelPteStep(ks, 3, u);
    assert ks[..4] == ks;
  }

  lemma KernelPteStep(ks: seq<Kmap>, k: nat, u: nat)
    requires k < |ks| && ks[k].perm < PGSIZE
    ensures KernelPte(ks[..0], u) == 0
    ensures KernelPte(ks[..k + 1], u) == if ks[k].Lo() <= u < ks[k].Hi()
                                         then Entry(ks[k].start / PGSIZE + (u - ks[k].Lo()), OrPresent(ks[k].perm))
                                         else KernelPte(ks[..k], u)
  {
    hide Entry, OrPresent;
    assert ks[..k + 1][..k] == ks[..k];
  }

  lemma {:induction false} KernelPteBelow(ks: seq<Kmap>, u: nat)
    requires forall k :: 0 <= k < |ks| ==> !(ks[k].Lo() <= u < ks[k].Hi())
    ensures KernelPte(ks, u) == 0
  {
    if ks != [] {
      KernelPteBelow(ks[..|ks| - 1], u);
    }
  }

  lemma LaidHere(s0: State, s: State, d: nat, lo: nat, v: nat, f: nat, flags: nat)
    requires Space(s0, d) && flags < PGSIZE && Laid(s0, s, d, lo, v, f, flags) && v <= PAGES
    ensures OnlyAdds(s0, s, d) && Space(s, d)
    ensures v < PAGES ==> Pte(s.mem, d, v) == Pte(s0.mem, d, v)
  {
    hide Pte, Entry;
  }

  // ---- A new address space ----

  /** Nothing in use before has changed. */
  ghost predicate OldKept(s0: State, s: State) {
    && |s.mem| == |s0.mem| && SameData(s0, s) && s.out == s0.out && SamePtes(s0, s)
    && forall a :: a in s0.owner ==> a in s.owner && s.owner[a] == s0.owner[a]
  }

  /** From `s0` to `s`, directory `d` is new; its mapping is that of the kernel map `ks`. */
  ghost predicate SetUp(s0: State, s: State, d: nat, ks: seq<Kmap>) {
    && OldKept(s0, s) && d !in s0.owner && IsDir(s.mem, s.owner, d)
    && Tabs(s.mem, d) == KernelTabs(ks) && |s.free| + |Tabs(s.mem, d)| + 1 == |s0.free|
    && (forall u :: 0 <= u < PAGES ==> Pte(s.mem, d, u) == KernelPte(ks, u))
    && forall a :: a in s.owner && a !in s0.owner ==> a == d || (s.owner[a].Tab? && s.owner[a].dir == d)
  }

  ghost function WithDir(s: State): State
    requires s.free != [] && s.free[0] < |s.mem|
  {
    var f := s.free[0];
    var s1 := Filled(Popped(s), f, ZeroFrame());
    s1.(owner := s1.owner[f := Dir], out := s1.out - {f})
  }

  lemma DirKeeps(first: nat, s: State)
    requires Inv(first, s) && s.free != []
    ensures 0 < s.free[0] < |s.mem| && Inv(first, WithDir(s)) && SetUp(s, WithDir(s), s.free[0], [])
  {
    FreshFrame(first, s, ZeroFrame());
    var f, s1, s' := s.free[0], Filled(Popped(s), s.free[0], ZeroFrame()), WithDir(s);
    AddDir(s.mem, s'.mem, s.owner, f);
    hide Owned, Pte, ListOk;
    assert s'.owner == s.owner[f := Dir] && s'.mem == s1.mem && s'.out == s.out;
  }

  lemma SetUpStep(s0: State, s: State, s': State, d: nat, ks: seq<Kmap>, k: Kmap)
    requires SetUp(s0, s, d, ks) && k.Ok() && Laid(s, s', d, k.Lo(), k.Hi(), k.start / PGSIZE, OrPresent(k.perm))
    ensures SetUp(s0, s', d, ks + [k])
  {
    hide Pte, Entry, OrPresent;
  }

  /** The rows do not overlap, so the next one finds its pages unmapped. */
  lemma SetUpHere(s0: State, s: State, d: nat, ks: seq<Kmap>, k: nat)
    requires k < |ks| && KmapOk(ks) && SetUp(s0, s, d, ks[..k])
    ensures Space(s, d) && ks[k].Ok() && ks[k].Hi() == (ks[k].virt + ks[k].Size() - 1) / PGSIZE + 1
    ensures forall u :: ks[k].Lo() <= u < ks[k].Hi() ==> u < PAGES && Pte(s.mem, d, u) == 0
  {
    hide Pte, Entry;
    var m := ks[k];
    assert m.Ok();
    assert m.Size() % PGSIZE == 0;
    forall u: nat | m.Lo() <= u < m.Hi() ensures u < PAGES && Pte(s.mem, d, u) == 0 {
      KernelPteBelow(ks[..k], u);
    }
  }

  lemma SetUpFails(s0: State, s: State, s': State, d: nat, ks: seq<Kmap>, k: nat)
    requires k < |ks| && SetUp(s0, s, d, ks[..k]) && OnlyAdds(s, s', d)
             && RanOut(s, s', d, Span(ks[k].Lo(), ks[k].Hi()))
    ensures OldKept(s0, s') && |s0.free| <= |KernelTabs(ks)|
  {
    hide Pte, KernelPte, Span;
    KernelTabsStep(ks, k);
    KernelTabsGrow(ks, k + 1);
    hide KernelTabs;
    SubsetSize(Tabs(s'.mem, d), KernelTabs(ks));
  }

  /** The frames ran out at page `v`. */
  lemma LaidShort(s0: State, s: State, d: nat, lo: nat, v: nat, hi: nat, f: nat, flags: nat)
    requires lo <= v < hi <= PAGES && flags < PGSIZE && Laid(s0, s, d, lo, v, f, flags)
    requires s.free == [] && s.mem[d][v / ENTRIES] == 0
    ensures RanOut(s0, s, d, Span(lo, hi))
  {
    hide Pte, Entry;
    assert InSpan(lo, hi, v / ENTRIES) && v / ENTRIES in Span(lo, hi) && v / ENTRIES !in Tabs(s.mem, d);
  }

  lemma OldKeptRefl(s: State)
    ensures OldKept(s, s)
  {
    hide Pte;
  }
}
