/** Growing user memory (allocuvm). */
module GrowSpace {
  import opened AddressSpace
  import opened FrameList
  import opened Paging
  import opened Unmapping

  ghost predicate FreshZero(s0: State, s: State, d: nat, u: nat)
    requires d < |s.mem| && u < PAGES
  {
    var w := Pte(s.mem, d, u);
    Flags(w) == 7 && FrameOf(w) in s0.free && FrameOf(w) < |s.mem| && s.mem[FrameOf(w)] == ZeroFrame()
  }

  /** From `s0` to `s`, the pages lo..v of `d` were mapped to frames that were free and are zero now; nothing that was
      in use has changed, but for tables added to `d`. */
  ghost predicate Grew(s0: State, s: State, d: nat, lo: nat, v: nat)
    requires d < |s0.mem|
  {
    && |s.mem| == |s0.mem| && SameData(s0, s) && s0.out <= s.out
    && (forall e :: IsDir(s0.mem, s0.owner, e) ==> IsDir(s.mem, s.owner, e))
    && (forall e, u :: IsDir(s0.mem, s0.owner, e) && 0 <= u < PAGES && !(e == d && lo <= u < v) ==>
          Pte(s.mem, e, u) == Pte(s0.mem, e, u))
    && (forall u :: lo <= u < v && u < PAGES ==> FreshZero(s0, s, d, u))
    && (forall a :: a in s0.owner ==> a in s.owner && s.owner[a] == s0.owner[a])
    && (forall a :: a in s.owner && a !in s0.owner ==>
          || (s.owner[a].Page? && s.owner[a].dir == d && lo <= s.owner[a].v < v)
          || (s.owner[a].Tab? && s.owner[a].dir == d))
    && (forall i :: 0 <= i < ENTRIES ==>
          (s.mem[d][i] != 0 <==> s0.mem[d][i] != 0 || (lo < v && lo / ENTRIES <= i <= (v - 1) / ENTRIES)))
  }

  lemma GrewStep(first: nat, s0: State, s: State, s': State, d: nat, lo: nat, v: nat, f: nat)
    requires Inv(first, s0) && Inv(first, s) && Inv(first, s') && Space(s0, d) && lo <= v < USER
             && Grew(s0, s, d, lo, v)
    requires MapsFresh(s, s', d, v, f, ZeroFrame(), 7)
    ensures Grew(s0, s', d, lo, v + 1)
  {
    hide Pte, ListOk, Entry, Inv;
    assert IsDir(s.mem, s.owner, d);
    forall u: nat | lo <= u < v + 1 && u < PAGES ensures FreshZero(s0, s', d, u) {
      if u < v {
        StillFresh(first, s0, s, s', d, lo, v, f, u);
      } else {
        NewFresh(first, s0, s, s', d, lo, v, f);
      }
    }
    forall e, u: nat | IsDir(s0.mem, s0.owner, e) && 0 <= u < PAGES && !(e == d && lo <= u < v + 1)
      ensures Pte(s'.mem, e, u) == Pte(s0.mem, e, u)
    {
      assert IsDir(s.mem, s.owner, e) && Pte(s.mem, e, u) == Pte(s0.mem, e, u);
    }
    forall i: nat | i < ENTRIES
      ensures s'.mem[d][i] != 0 <==> s0.mem[d][i] != 0 || (lo < v + 1 && lo / ENTRIES <= i <= v / ENTRIES)
    {
      if lo == v {
        assert v / ENTRIES == lo / ENTRIES;
      } else {
        assert v / ENTRIES == (v - 1) / ENTRIES || v / ENTRIES == (v - 1) / ENTRIES + 1;
      }
    }
  }

  lemma StillFresh(first: nat, s0: State, s: State, s': State, d: nat, lo: nat, v: nat, f: nat, u: nat)
    requires Inv(first, s) && Space(s0, d) && lo <= u < v < USER && Grew(s0, s, d, lo, v)
    requires MapsFresh(s, s', d, v, f, ZeroFrame(), 7)
    ensures FreshZero(s0, s', d, u)
  {
    hide Pte, ListOk, Partition, Entry;
    assert IsDir(s.mem, s.owner, d) && FreshZero(s0, s, d, u);
    assert PageAt(s.mem, s.owner, d, u);
    assert Pte(s'.mem, d, u) == Pte(s.mem, d, u);
  }

  lemma NewFresh(first: nat, s0: State, s: State, s': State, d: nat, lo: nat, v: nat, f: nat)
    requires Inv(first, s0) && Inv(first, s) && Space(s0, d) && lo <= v < USER && Grew(s0, s, d, lo, v)
    requires MapsFresh(s, s', d, v, f, ZeroFrame(), 7)
    ensures FreshZero(s0, s', d, v)
  {
    hide Pte, ListOk, Owned, Entry;
  }

  lemma GrewContiguous(s0: State, s: State, d: nat, lo: nat, v: nat)
    requires Space(s0, d) && Contiguous(s0.mem, d, lo) && lo <= v <= USER && Grew(s0, s, d, lo, v)
    ensures d < |s.mem| && Contiguous(s.mem, d, v)
  {
    hide Pte;
    forall u: nat | u < USER ensures Pte(s.mem, d, u) != 0 <==> u < v {
      assert lo <= u < v ==> FreshZero(s0, s, d, u);
      assert !(lo <= u < v) ==> Pte(s.mem, d, u) == Pte(s0.mem, d, u);
    }
  }

  /** A frame lost on the way changes nothing in use. */
  lemma GrewLost(s0: State, s: State, s': State, d: nat, lo: nat, v: nat)
    requires Space(s0, d) && lo <= v <= USER && Grew(s0, s, d, lo, v)
    requires SamePtes(s, s') && SameData(s, s') && s'.mem[d] == s.mem[d] && s'.owner == s.owner && s.out <= s'.out
    requires forall u :: lo <= u < v ==> PageAt(s.mem, s.owner, d, u)
    ensures Grew(s0, s', d, lo, v)
  {
    hide Pte;
    forall u: nat | lo <= u < v && u < PAGES ensures FreshZero(s0, s', d, u) {
      assert IsDir(s.mem, s.owner, d) && FreshZero(s0, s, d, u) && PageAt(s.mem, s.owner, d, u);
      assert Pte(s'.mem, d, u) == Pte(s.mem, d, u);
    }
    forall e, u: nat | IsDir(s0.mem, s0.owner, e) && 0 <= u < PAGES && !(e == d && lo <= u < v)
      ensures Pte(s'.mem, e, u) == Pte(s0.mem, e, u)
    {
      assert IsDir(s.mem, s.owner, e) && Pte(s.mem, e, u) == Pte(s0.mem, e, u);
    }
  }

  /** The old mapping again, but for tables added to `d`. */
  ghost predicate Restored(s0: State, s: State, d: nat) {
    && SamePtes(s0, s) && SameData(s0, s)
    && (forall a :: a in s0.owner ==> a in s.owner && s.owner[a] == s0.owner[a])
    && (forall a :: a in s.owner && a !in s0.owner ==> s.owner[a].Tab? && s.owner[a].dir == d)
  }

  lemma GrewThenSwept(first: nat, s0: State, s: State, s': State, d: nat, lo: nat, v: nat, hi: nat)
    requires Inv(first, s0) && Inv(first, s) && Space(s0, d) && Space(s, d) && Contiguous(s0.mem, d, lo)
    requires lo <= v <= hi <= USER && Grew(s0, s, d, lo, v) && Swept(s, s', d, lo, hi)
    ensures Restored(s0, s', d) && s'.out == s.out
  {
    GrewContiguous(s0, s, d, lo, v);
    RestoredPtes(s0, s, s', d, lo, v, hi);
    RestoredOwner(s0, s, s', d, lo, v, hi);
    hide Pte, Contiguous, Skipped, Inv, GoneFrame;
  }

  lemma RestoredOwner(s0: State, s: State, s': State, d: nat, lo: nat, v: nat, hi: nat)
    requires Owned(s0.mem, s0.owner) && Owned(s.mem, s.owner) && Space(s0, d) && Space(s, d)
    requires Contiguous(s0.mem, d, lo) && Contiguous(s.mem, d, v)
    requires lo <= v <= hi <= USER && Grew(s0, s, d, lo, v) && Swept(s, s', d, lo, hi)
    ensures forall a :: a in s0.owner ==> a in s'.owner && s'.owner[a] == s0.owner[a]
    ensures forall a :: a in s'.owner && a !in s0.owner ==> s'.owner[a].Tab? && s'.owner[a].dir == d
  {
    hide Pte, Contiguous, Skipped;
    forall a | a in s0.owner ensures a in s'.owner {
      assert RoleAt(s0.mem, s0.owner, a);
      UnmappedAbove(s0.mem, d, lo, a, s0.owner);
    }
    forall a | a in s'.owner && a !in s0.owner ensures s'.owner[a].Tab? && s'.owner[a].dir == d {
      if s.owner[a].Page? {
        assert RoleAt(s.mem, s.owner, a);
        ContiguousNotSkipped(s.mem, d, v, lo, s.owner[a].v);
      }
    }
  }

  lemma UnmappedAbove(mem: Memory, d: nat, n: nat, a: nat, owner: Owners)
    requires d < |mem| && Contiguous(mem, d, n) && a in owner && RoleAt(mem, owner, a)
    ensures owner[a].Page? && owner[a].dir == d ==> owner[a].v < n
  {
  }

  lemma RestoredPtes(s0: State, s: State, s': State, d: nat, lo: nat, v: nat, hi: nat)
    requires Space(s0, d) && Space(s, d) && Contiguous(s0.mem, d, lo) && Contiguous(s.mem, d, v)
    requires lo <= v <= hi <= USER && Grew(s0, s, d, lo, v) && Swept(s, s', d, lo, hi)
    ensures SamePtes(s0, s')
  {
    hide Pte, Skipped;
    forall e, u: nat | IsDir(s0.mem, s0.owner, e) && 0 <= u < PAGES ensures Pte(s'.mem, e, u) == Pte(s0.mem, e, u) {
      assert IsDir(s.mem, s.owner, e);
      assert Pte(s'.mem, e, u) == if e == d && Gone(s.mem, d, lo, hi, u) then 0 else Pte(s.mem, e, u);
      if e == d && lo <= u < v {
        ContiguousNotSkipped(s.mem, d, v, lo, u);
      }
    }
  }

  // ---- What growing costs ----

  /** Page `u`, mapped after lo..u, is the first of its table, and the table is missing. */
  predicate NeedsTable(mem: Memory, d: nat, lo: nat, u: nat)
    requires d < |mem| && u < PAGES
  {
    mem[d][u / ENTRIES] == 0 && (u == lo || u % ENTRIES == 0)
  }

  /** Frames taken by mapping pages lo..v, tables included. */
  function Cost(mem: Memory, d: nat, lo: nat, v: nat): nat
    requires d < |mem| && v <= PAGES
  {
    if v <= lo then 0 else Cost(mem, d, lo, v - 1) + (if NeedsTable(mem, d, lo, v - 1) then 2 else 1)
  }

  lemma {:induction false} CostGrows(mem: Memory, d: nat, lo: nat, u: nat, v: nat)
    requires d < |mem| && lo <= u < v <= PAGES
    ensures Cost(mem, d, lo, v) >= Cost(mem, d, lo, u) + (if NeedsTable(mem, d, lo, u) then 2 else 1)
  {
    if u < v - 1 {
      CostGrows(mem, d, lo, u, v - 1);
    }
  }

  /** Just when page `u` comes, one frame is left and two are needed. */
  ghost predicate LosesAt(s: State, d: nat, lo: nat, u: nat)
    requires d < |s.mem| && u < PAGES
  {
    NeedsTable(s.mem, d, lo, u) && |s.free| == Cost(s.mem, d, lo, u) + 1
  }

  /** An empty address space and one free frame: growing by a page loses that frame. */
  lemma SomeFrameLost()
    ensures var s := State([ZeroFrame(), ZeroFrame(), Junk(0)], 2, [2], map[1 := Dir], {});
            Inv(1, s) && Space(s, 1) && Contiguous(s.mem, 1, 0) && LosesAt(s, 1, 0, 0)
  {
    var mem: Memory := [ZeroFrame(), ZeroFrame(), Junk(0)];
    assert LinkAt(mem, 1, [2], 0);
    assert Owned(mem, map[1 := Dir]);
  }

  /** Nothing is lost before `v` when there was enough for lo..v, nor later when the frames end at `v`. */
  lemma NothingLost(s: State, d: nat, lo: nat, v: nat, hi: nat)
    requires d < |s.mem| && lo <= v <= hi <= PAGES && |s.free| >= Cost(s.mem, d, lo, v)
    requires v < hi ==> |s.free| == Cost(s.mem, d, lo, v)
    ensures forall u :: lo <= u < hi ==> !LosesAt(s, d, lo, u)
    ensures v < hi ==> |s.free| < Cost(s.mem, d, lo, hi)
  {
  }

  lemma TableNeed(s0: State, s: State, d: nat, lo: nat, v: nat)
    requires Space(s0, d) && lo <= v < USER && Grew(s0, s, d, lo, v)
    ensures s.mem[d][v / ENTRIES] == 0 <==> NeedsTable(s0.mem, d, lo, v)
  {
    hide Pte;
  }

  /** What allocuvm makes of a request for pages lo..hi, by the number of free frames alone. */
  ghost predicate Outcome(s0: State, s: State, d: nat, lo: nat, hi: nat, newsz: nat, r: nat)
    requires d < |s0.mem| && hi <= PAGES
  {
    if |s0.free| >= Cost(s0.mem, d, lo, hi) then r == newsz && s.out == s0.out && Grew(s0, s, d, lo, hi)
    else if lo < hi && LosesAt(s0, d, lo, hi - 1) then r == newsz && LostOne(s0, s) && Grew(s0, s, d, lo, hi - 1)
    else r == 0 && Restored(s0, s, d)
         && if exists u :: lo <= u < hi && LosesAt(s0, d, lo, u) then LostOne(s0, s) else s.out == s0.out
  }

  /** The state of allocuvm's loop before page `v`. */
  ghost predicate Growing(s0: State, s: State, d: nat, lo: nat, v: nat, lost: bool)
    requires d < |s0.mem| && v <= PAGES
  {
    if lost then
      && lo < v && s.free == [] && Grew(s0, s, d, lo, v - 1) && LosesAt(s0, d, lo, v - 1) && LostOne(s0, s)
    else
      s.out == s0.out && Grew(s0, s, d, lo, v) && |s.free| + Cost(s0.mem, d, lo, v) == |s0.free|
  }

  lemma GrowingStart(s: State, d: nat, lo: nat)
    requires d < |s.mem| && lo <= PAGES
    ensures Growing(s, s, d, lo, lo, false)
  {
  }

  lemma GrowingHere(first: nat, s0: State, s: State, d: nat, lo: nat, v: nat, lost: bool)
    requires Inv(first, s0) && Space(s0, d) && Contiguous(s0.mem, d, lo) && lo <= v < USER
             && Growing(s0, s, d, lo, v, lost)
    ensures d < |s.mem| && Pte(s.mem, d, v) == 0
  {
    hide Pte, Inv, Grew;
    GrewContiguous(s0, s, d, lo, if lost then v - 1 else v);
  }

  lemma LostIsLast(s0: State, s: State, d: nat, lo: nat, v: nat, lost: bool)
    requires d < |s0.mem| && v <= PAGES && Growing(s0, s, d, lo, v, lost) && s.free != []
    ensures !lost
  {
  }

  lemma GrowingStep(first: nat, s0: State, s: State, s': State, d: nat, lo: nat, v: nat, f: nat)
    requires Inv(first, s0) && Inv(first, s) && Inv(first, s') && Space(s0, d) && lo <= v < USER
    requires Growing(s0, s, d, lo, v, false) && MapsFresh(s, s', d, v, f, ZeroFrame(), 7)
    ensures Growing(s0, s', d, lo, v + 1, false)
  {
    TableNeed(s0, s, d, lo, v);
    GrewStep(first, s0, s, s', d, lo, v, f);
    hide Pte, Inv, Grew, Entry;
  }

  lemma GrowingLost(first: nat, s0: State, s: State, s': State, d: nat, lo: nat, v: nat)
    requires Inv(first, s0) && Inv(first, s) && Space(s0, d) && lo <= v < USER
    requires Growing(s0, s, d, lo, v, false) && |s.free| == 1 && s.mem[d][v / ENTRIES] == 0
    requires s'.free == [] && s'.out == s.out + {s.free[0]} && s'.owner == s.owner
    requires SamePtes(s, s') && SameData(s, s') && s'.mem[d] == s.mem[d]
    ensures Growing(s0, s', d, lo, v + 1, true)
  {
    TableNeed(s0, s, d, lo, v);
    hide Pte, Entry, ListOk;
    assert IsDir(s.mem, s.owner, d);
    GrewLost(s0, s, s', d, lo, v);
    assert s.free[0] in s.free && s.free[0] !in s.owner && s.free[0] !in s.out;
    assert s.free[0] in s0.free;
  }

  lemma GrowingEnd(s0: State, s: State, d: nat, lo: nat, hi: nat, newsz: nat, lost: bool)
    requires d < |s0.mem| && lo <= hi <= PAGES && Growing(s0, s, d, lo, hi, lost)
    ensures Outcome(s0, s, d, lo, hi, newsz, newsz)
  {
    hide Grew, Pte;
  }

  lemma GrowingFails(first: nat, s0: State, s: State, s': State, d: nat, lo: nat, v: nat, hi: nat, newsz: nat,
                     lost: bool)
    requires Inv(first, s0) && Inv(first, s) && Space(s0, d) && Space(s, d) && Contiguous(s0.mem, d, lo)
    requires lo <= v < hi <= USER && Growing(s0, s, d, lo, v, lost) && s.free == [] && Swept(s, s', d, lo, hi)
    ensures Outcome(s0, s', d, lo, hi, newsz, 0)
  {
    hide Inv, Grew, Pte, Swept, Restored, Cost, Contiguous, NeedsTable;
    GrewThenSwept(first, s0, s, s', d, lo, if lost then v - 1 else v, hi);
    if lost {
      CostGrows(s0.mem, d, lo, v - 1, hi);
      CostGrows(s0.mem, d, lo, v - 1, hi - 1);
    } else {
      NothingLost(s0, d, lo, v, hi);
    }
  }
}
