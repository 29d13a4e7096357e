/** Address spaces over the frames in use, and what the steps of vm.c keep and change. */
module AddressSpace {
  import opened FrameList
  import opened Paging

  datatype State = State(mem: Memory, head: nat, free: seq<nat>, owner: Owners, out: set<nat>)

  ghost predicate Inv(first: nat, s: State) {
    && ListOk(s.mem, first, s.head, s.free) && Partition(first, |s.mem|, s.free, s.owner, s.out)
    && Owned(s.mem, s.owner)
  }

  ghost predicate Space(s: State, d: nat) {
    IsDir(s.mem, s.owner, d)
  }

  /** No mapping of any address space differs. */
  ghost predicate SamePtes(s: State, s': State) {
    && |s'.mem| == |s.mem|
    && (forall e :: IsDir(s.mem, s.owner, e) ==> IsDir(s'.mem, s'.owner, e))
    && forall e, u :: IsDir(s.mem, s.owner, e) && 0 <= u < PAGES ==> Pte(s'.mem, e, u) == Pte(s.mem, e, u)
  }

  /** Nor does the contents of any user page, or of any frame that is out. */
  ghost predicate SameData(s: State, s': State) {
    && |s'.mem| == |s.mem|
    && forall a :: (a in s.out || (a in s.owner && s.owner[a].Page?)) && a < |s.mem| ==> s'.mem[a] == s.mem[a]
  }

  /** One free frame is out now. */
  ghost predicate LostOne(s0: State, s: State) {
    exists f :: f in s0.free && s.out == s0.out + {f}
  }

  /** Frames are never in two places. */
  lemma Apart(first: nat, s: State, a: nat)
    requires Inv(first, s)
    ensures a in s.owner || a in s.free || a in s.out ==> 0 < a < |s.mem|
    ensures a in s.free ==> a !in s.owner && a !in s.out
    ensures a in s.owner ==> a !in s.out
  {
  }

  /** The first free frame handed out. */
  ghost function Popped(s: State): State
    requires s.free != []
  {
    var f := s.free[0];
    s.(head := if |s.free| > 1 then s.free[1] else 0, free := s.free[1..], out := s.out + {f})
  }

  lemma PopKeeps(first: nat, s: State)
    requires Inv(first, s) && s.free != []
    ensures Inv(first, Popped(s)) && 0 < s.head == s.free[0] < |s.mem| && s.mem[s.head][0] / PGSIZE == Popped(s).head
  {
    ListPop(s.mem, first, s.head, s.free);
    PartitionPop(first, |s.mem|, s.free, s.owner, s.out);
    assert LinkAt(s.mem, first, s.free, 0);
  }

  /** Frame `t`, out until now, cleared and entered as table `i` of directory `d`. */
  ghost function WithTable(s: State, d: nat, i: nat, t: nat): State
    requires d < |s.mem| && t < |s.mem| && i < ENTRIES
  {
    s.(mem := s.mem[t := ZeroFrame()][d := s.mem[d][i := Entry(t, 7)]],
       owner := s.owner[t := Tab(d, i)], out := s.out - {t})
  }

  lemma TableKeeps(first: nat, s: State, d: nat, i: nat, t: nat)
    requires Inv(first, s) && Space(s, d) && i < ENTRIES && t in s.out && t < |s.mem| && s.mem[d][i] == 0
    ensures var s' := WithTable(s, d, i, t);
            && Inv(first, s') && SamePtes(s, s') && Space(s', d)
            && (forall a :: a in s.out && a != t && a < |s.mem| ==> s'.mem[a] == s.mem[a])
            && forall a :: a in s.owner && a != d && a < |s.mem| ==> s'.mem[a] == s.mem[a]
  {
    var s' := WithTable(s, d, i, t);
    AddTable(s.mem, s'.mem, s.owner, d, i, t);
    ListKept(s.mem, s'.mem, first, s.head, s.free);
  }

  /** The table entry of page `v` of directory `d` set to `w`; a user page's frame goes from out to owned. */
  ghost function WithEntry(s: State, d: nat, v: nat, w: nat): State
    requires d < |s.mem| && v < PAGES && FrameOf(s.mem[d][v / ENTRIES]) < |s.mem|
  {
    var t := FrameOf(s.mem[d][v / ENTRIES]);
    s.(mem := s.mem[t := s.mem[t][v % ENTRIES := w]], owner := Reowned(s.mem, s.owner, d, v, w),
       out := if v < USER then s.out - {FrameOf(w)} else s.out)
  }

  lemma EntryKeeps(first: nat, s: State, d: nat, v: nat, w: nat)
    requires Inv(first, s) && Space(s, d) && v < PAGES && s.mem[d][v / ENTRIES] != 0
    requires v < USER ==> w != 0 && Pte(s.mem, d, v) == 0 && Present(w) && FrameOf(w) in s.out
    ensures FrameOf(s.mem[d][v / ENTRIES]) < |s.mem|
    ensures var s' := WithEntry(s, d, v, w);
            Inv(first, s') && PteChange(s.mem, s'.mem, s.owner, d, v, w) && SameData(s, s') && Space(s', d)
  {
    TableOf(s.mem, s.owner, d, v);
    var t, s' := FrameOf(s.mem[d][v / ENTRIES]), WithEntry(s, d, v, w);
    SetPte(s.mem, s'.mem, s.owner, d, v, w);
    ListKept(s.mem, s'.mem, first, s.head, s.free);
    hide Owned, Pte, PteChange;
  }

  /** User page `v` freed and its entry cleared. */
  ghost function WithoutPage(s: State, d: nat, v: nat): State
    requires d < |s.mem| && v < USER && FrameOf(s.mem[d][v / ENTRIES]) < |s.mem| && FrameOf(Pte(s.mem, d, v)) < |s.mem|
  {
    var t, f := FrameOf(s.mem[d][v / ENTRIES]), FrameOf(Pte(s.mem, d, v));
    var mem1 := s.mem[f := Junk(s.head)];
    State(mem1[t := mem1[t][v % ENTRIES := 0]], f, [f] + s.free, s.owner - {f}, s.out)
  }

  /** Data of all frames but `f`. */
  ghost predicate SameDataBut(s: State, s': State, f: nat) {
    && |s'.mem| == |s.mem|
    && forall a :: a != f && (a in s.out || (a in s.owner && s.owner[a].Page?)) && a < |s.mem| ==> s'.mem[a] == s.mem[a]
  }

  lemma FreePageKeeps(first: nat, s: State, d: nat, v: nat)
    requires Inv(first, s) && Space(s, d) && v < USER && Pte(s.mem, d, v) != 0
    ensures FrameOf(s.mem[d][v / ENTRIES]) < |s.mem| && first <= FrameOf(Pte(s.mem, d, v)) < |s.mem|
    ensures FrameOf(Pte(s.mem, d, v)) in s.owner && s.owner[FrameOf(Pte(s.mem, d, v))] == Page(d, v)
    ensures FrameOf(Pte(s.mem, d, v)) !in s.free && FrameOf(Pte(s.mem, d, v)) != FrameOf(s.mem[d][v / ENTRIES])
    ensures var s' := WithoutPage(s, d, v);
            && Inv(first, s') && PteChange(s.mem, s'.mem, s.owner, d, v, 0) && Space(s', d)
            && SameDataBut(s, s', FrameOf(Pte(s.mem, d, v)))
  {
    TableOf(s.mem, s.owner, d, v);
    assert PageAt(s.mem, s.owner, d, v);
    assert RoleAt(s.mem, s.owner, FrameOf(Pte(s.mem, d, v)));
    var t, f, s' := FrameOf(s.mem[d][v / ENTRIES]), FrameOf(Pte(s.mem, d, v)), WithoutPage(s, d, v);
    SetPte(s.mem, s'.mem, s.owner, d, v, 0);
    ListPush(s.mem, first, s.head, s.free, f);
    ListKept(s.mem[f := Junk(s.head)], s'.mem, first, f, s'.free);
    hide Owned, Pte, PteChange, ListOk;
    PartitionPush(first, |s.mem|, s.free, s.owner, s.out, f);
  }

  lemma PartitionPush(first: nat, n: nat, free: seq<nat>, owner: Owners, out: set<nat>, f: nat)
    requires Partition(first, n, free, owner, out) && f in owner
    ensures Partition(first, n, [f] + free, owner - {f}, out)
  {
  }

  // ---- Mapping pages ----

  /** `perm | PTE_P`. */
  function OrPresent(perm: nat): (r: nat)
    ensures r % 2 == 1 && (perm < PGSIZE ==> r < PGSIZE) && (perm % 2 == 1 ==> r == perm)
  {
    perm - perm % 2 + 1
  }

  datatype Mapping = Mapped | NoTable | Remap
  datatype Entered = Entered | NoFrame | Lost

  /** With a table for directory entry `i`: as it was, or made from the first free frame. */
  ghost function Tabled(s: State, d: nat, i: nat): State
    requires d < |s.mem| && i < ENTRIES && (s.mem[d][i] == 0 ==> s.free != [] && s.free[0] < |s.mem|)
  {
    if s.mem[d][i] != 0 then s else WithTable(Popped(s), d, i, s.free[0])
  }

  /** A frame that is out, filled. */
  ghost function Filled(s: State, f: nat, data: Frame): State
    requires f < |s.mem|
  {
    s.(mem := s.mem[f := data])
  }

  lemma FillKeeps(first: nat, s: State, f: nat, data: Frame)
    requires Inv(first, s) && f in s.out && f < |s.mem|
    ensures var s' := Filled(s, f, data);
            Inv(first, s') && SamePtes(s, s') && SameDataBut(s, s', f) && s'.mem[f] == data
    ensures forall e: nat :: IsDir(s.mem, s.owner, e) ==> Filled(s, f, data).mem[e] == s.mem[e]
  {
    var s' := Filled(s, f, data);
    TablesKept(s.mem, s'.mem, s.owner);
    ListKept(s.mem, s'.mem, first, s.head, s.free);
  }

  /** From `s` to `s'`, page `v` of `d` has been mapped to the free frame `f`, now holding `data`; a table was taken too
      if there was none; no other mapping, page or frame in use has changed. */
  ghost predicate MapsFresh(s: State, s': State, d: nat, v: nat, f: nat, data: Frame, flags: nat)
    requires d < |s.mem| && v < USER && flags < PGSIZE
  {
    && |s'.mem| == |s.mem| && f in s.free && f < |s.mem| && s'.mem[f] == data && SameData(s, s') && s'.out == s.out
    && (forall e :: IsDir(s.mem, s.owner, e) ==> IsDir(s'.mem, s'.owner, e))
    && (forall e, u :: IsDir(s.mem, s.owner, e) && 0 <= u < PAGES ==>
          Pte(s'.mem, e, u) == if e == d && u == v then Entry(f, flags) else Pte(s.mem, e, u))
    && (forall a :: a in s.owner ==> a in s'.owner && s'.owner[a] == s.owner[a])
    && (forall a :: a in s'.owner && a !in s.owner ==>
          a in s.free && s'.owner[a] == if a == f then Page(d, v) else Tab(d, v / ENTRIES))
    && (forall i :: 0 <= i < ENTRIES ==> (s'.mem[d][i] != 0 <==> s.mem[d][i] != 0 || i == v / ENTRIES))
    && |s'.free| == |s.free| - (if s.mem[d][v / ENTRIES] == 0 then 2 else 1)
  }

  /** Taking and filling a frame. */
  lemma FreshFrame(first: nat, s: State, data: Frame)
    requires Inv(first, s) && s.free != []
    ensures var f := s.free[0];
            && 0 < f < |s.mem| && f !in s.owner && f !in s.out
            && var s1 := Filled(Popped(s), f, data);
            && Inv(first, s1) && SamePtes(s, s1) && SameData(s, s1) && s1.mem[f] == data
            && (forall e: nat :: IsDir(s.mem, s.owner, e) ==> s1.mem[e] == s.mem[e])
  {
    PopKeeps(first, s);
    FillKeeps(first, Popped(s), s.free[0], data);
    hide Owned, Pte, ListOk;
    assert s.free[0] in s.free;
  }

  /** From `s` to `s2`, there is a table for directory entry `i`, and nothing else has changed. */
  ghost predicate GetsTable(s: State, s2: State, d: nat, i: nat)
    requires d < |s.mem|
  {
    && SamePtes(s, s2) && SameData(s, s2) && s2.out == s.out
    && (forall a :: a in s.owner ==> a in s2.owner && s2.owner[a] == s.owner[a])
    && (forall a :: a in s2.owner && a !in s.owner ==> a in s.free && s2.owner[a] == Tab(d, i))
    && (forall j :: 0 <= j < ENTRIES ==> (s2.mem[d][j] != 0 <==> s.mem[d][j] != 0 || j == i))
    && |s2.free| == |s.free| - (if 0 <= i < ENTRIES && s.mem[d][i] == 0 then 1 else 0)
  }

  lemma TabledKeeps(first: nat, s: State, d: nat, v: nat)
    requires Inv(first, s) && Space(s, d) && v < PAGES && (s.mem[d][v / ENTRIES] == 0 ==> s.free != [])
    ensures s.mem[d][v / ENTRIES] == 0 ==> 0 < s.free[0] < |s.mem|
    ensures var s2 := Tabled(s, d, v / ENTRIES);
            && Inv(first, s2) && Space(s2, d) && GetsTable(s, s2, d, v / ENTRIES)
            && Present(s2.mem[d][v / ENTRIES]) && FrameOf(s2.mem[d][v / ENTRIES]) < |s2.mem|
  {
    if s.mem[d][v / ENTRIES] == 0 {
      PopKeeps(first, s);
      var t, sp := s.free[0], Popped(s);
      TableKeeps(first, sp, d, v / ENTRIES, t);
      assert t in s.free;
      hide Owned, Pte, ListOk;
    } else {
      TableOf(s.mem, s.owner, d, v);
      hide Owned, Pte, ListOk;
    }
  }

  ghost predicate CanEnter(s: State, d: nat, v: nat) {
    && d < |s.mem| && v < PAGES && (s.mem[d][v / ENTRIES] == 0 ==> s.free != [] && s.free[0] < |s.mem|)
    && FrameOf(Tabled(s, d, v / ENTRIES).mem[d][v / ENTRIES]) < |s.mem|
  }

  /** What mapping page `v` with entry `w` makes of a state. */
  ghost function Enter(s: State, d: nat, v: nat, w: nat): State
    requires CanEnter(s, d, v)
  {
    WithEntry(Tabled(s, d, v / ENTRIES), d, v, w)
  }

  /** The tables of an address space. */
  ghost function Tabs(mem: Memory, d: nat): set<nat>
    requires d < |mem|
  {
    set i: nat | i < ENTRIES && mem[d][i] != 0
  }

  predicate InSpan(lo: nat, v: nat, i: nat) {
    lo < v && lo / ENTRIES <= i <= (v - 1) / ENTRIES
  }

  /** The tables that pages lo..v-1 need. */
  ghost function Span(lo: nat, v: nat): set<nat> {
    set i: nat | i < ENTRIES && InSpan(lo, v, i)
  }

  lemma TabsGain(mem: Memory, mem': Memory, d: nat, i: nat)
    requires d < |mem| && d < |mem'| && i < ENTRIES
    requires forall j :: 0 <= j < ENTRIES ==> (mem'[d][j] != 0 <==> mem[d][j] != 0 || j == i)
    ensures Tabs(mem', d) == Tabs(mem, d) + {i}
    ensures |Tabs(mem', d)| == |Tabs(mem, d)| + (if mem[d][i] == 0 then 1 else 0)
  {
    if mem[d][i] != 0 {
      assert Tabs(mem, d) + {i} == Tabs(mem, d);
    }
  }

  lemma SpanNext(lo: nat, v: nat)
    requires lo <= v < PAGES
    ensures v / ENTRIES < ENTRIES && Span(lo, v + 1) == Span(lo, v) + {v / ENTRIES}
  {
  }

  /** The steps of mapping a fresh page, one after the other. */
  lemma FreshSteps(first: nat, s: State, d: nat, v: nat, data: Frame, flags: nat)
    requires Inv(first, s) && Space(s, d) && v < USER && Pte(s.mem, d, v) == 0 && flags < PGSIZE && flags % 2 == 1
    requires s.free != [] && 0 < s.free[0] < |s.mem|
    requires CanEnter(Filled(Popped(s), s.free[0], data), d, v)
    ensures var s' := Enter(Filled(Popped(s), s.free[0], data), d, v, Entry(s.free[0], flags));
            Inv(first, s') && Space(s', d) && MapsFresh(s, s', d, v, s.free[0], data, flags)
  {
    var f := s.free[0];
    FreshFrame(first, s, data);
    var s1 := Filled(Popped(s), f, data);
    TabledKeeps(first, s1, d, v);
    var s2 := Tabled(s1, d, v / ENTRIES);
    assert s1.out == s.out + {f} && s1.owner == s.owner && s1.free == s.free[1..];
    EntryKeeps(first, s2, d, v, Entry(f, flags));
    var s' := WithEntry(s2, d, v, Entry(f, flags));
    assert s'.out == s2.out - {f} && s'.free == s2.free && s'.owner == s2.owner[f := Page(d, v)];
    hide Inv, Pte, Tabled, WithEntry, Filled, Entry;
    FreshCompose(s, s1, s2, s', d, v, f, data, flags);
  }

  lemma FreshCompose(s: State, s1: State, s2: State, s': State, d: nat, v: nat, f: nat, data: Frame, flags: nat)
    requires Space(s, d) && v < USER && flags < PGSIZE && f in s.free && f !in s.owner && f !in s.out && f < |s.mem|
    requires SamePtes(s, s1) && SameData(s, s1) && s1.mem[d] == s.mem[d] && s1.mem[f] == data
    requires s1.out == s.out + {f} && s1.owner == s.owner && s1.free == s.free[1..]
    requires GetsTable(s1, s2, d, v / ENTRIES)
    requires PteChange(s2.mem, s'.mem, s2.owner, d, v, Entry(f, flags)) && SameData(s2, s') && Space(s', d)
    requires s'.out == s2.out - {f} && s'.free == s2.free && s'.owner == s2.owner[f := Page(d, v)]
    requires s2.owner.Keys !! s2.out
    ensures MapsFresh(s, s', d, v, f, data, flags)
  {
    hide Pte, Entry;
  }

  lemma UserEntry(first: nat, s: State, d: nat, v: nat)
    requires Inv(first, s) && Space(s, d) && v < PAGES
    ensures v < USER ==> Pte(s.mem, d, v) == 0 || Present(Pte(s.mem, d, v))
  {
    if v < USER {
      assert PageAt(s.mem, s.owner, d, v);
    }
  }

  lemma SameRefl(s: State)
    ensures SamePtes(s, s) && SameData(s, s)
  {
    hide Pte;
  }
}
