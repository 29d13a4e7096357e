/** Two-level page tables in physical frames, and who uses which frame.

    Frames are numbered by physical address / 4096 and hold 1024 words.  Virtual pages are numbered the same way,
    so page `v` is entry `v % 1024` of the table in directory entry `v / 1024`. */
module Paging {

  const ENTRIES := 1024
  const PGSIZE := 4096
  const PAGES := 0x10_0000      // pages of a 32-bit address space
  const USER := 0x8_0000        // pages below KERNBASE

  type Frame = f: seq<nat> | |f| == ENTRIES witness seq(ENTRIES, _ => 0)
  type Memory = seq<Frame>

  // ---- Entries ----

  predicate Present(w: nat) { w % 2 == 1 }

  function FrameOf(w: nat): nat { w / PGSIZE }

  function Flags(w: nat): nat { w % PGSIZE }

  /** `pa | flags`. */
  function Entry(f: nat, flags: nat): (w: nat)
    requires flags < PGSIZE
    ensures FrameOf(w) == f && Flags(w) == flags && (Present(w) <==> flags % 2 == 1)
  {
    PGSIZE * f + flags
  }

  function ZeroFrame(): (f: Frame)
    ensures forall k :: 0 <= k < ENTRIES ==> f[k] == 0
  {
    seq<nat>(ENTRIES, k => 0)
  }

  predicate HasTable(mem: Memory, d: nat, v: nat)
    requires d < |mem| && v < PAGES
  {
    Present(mem[d][v / ENTRIES])
  }

  /** The page-table entry of page `v` in directory `d`; 0 if there is no table. */
  function Pte(mem: Memory, d: nat, v: nat): nat
    requires d < |mem| && v < PAGES
  {
    if HasTable(mem, d, v) && FrameOf(mem[d][v / ENTRIES]) < |mem|
    then mem[FrameOf(mem[d][v / ENTRIES])][v % ENTRIES] else 0
  }

  // ---- Ownership ----

  /** A page directory, table `i` of directory `dir`, or user page `v` of directory `dir`. */
  datatype Role = Dir | Tab(dir: nat, i: nat) | Page(dir: nat, v: nat)

  type Owners = map<nat, Role>

  ghost predicate IsDir(mem: Memory, owner: Owners, d: nat) {
    d < |mem| && d in owner && owner[d] == Dir
  }

  ghost predicate TabAt(mem: Memory, owner: Owners, d: nat, i: nat)
    requires d < |mem| && i < ENTRIES
  {
    mem[d][i] != 0 ==>
      Present(mem[d][i]) && FrameOf(mem[d][i]) in owner && owner[FrameOf(mem[d][i])] == Tab(d, i)
  }

  ghost predicate PageAt(mem: Memory, owner: Owners, d: nat, v: nat)
    requires d < |mem| && v < USER
  {
    Pte(mem, d, v) != 0 ==>
      Present(Pte(mem, d, v)) && FrameOf(Pte(mem, d, v)) in owner && owner[FrameOf(Pte(mem, d, v))] == Page(d, v)
  }

  ghost predicate RoleAt(mem: Memory, owner: Owners, a: nat) {
    a in owner ==>
      && a < |mem|
      && match owner[a] {
        case Dir => true
        case Tab(d, i) => IsDir(mem, owner, d) && i < ENTRIES && mem[d][i] != 0 && FrameOf(mem[d][i]) == a
        case Page(d, v) => IsDir(mem, owner, d) && v < USER && Pte(mem, d, v) != 0 && FrameOf(Pte(mem, d, v)) == a
      }
  }

  /** Every table and every user page is entered in one place only, and every owned frame is entered there. */
  ghost predicate Owned(mem: Memory, owner: Owners) {
    && (forall a :: a in owner ==> RoleAt(mem, owner, a))
    && (forall d, i :: IsDir(mem, owner, d) && 0 <= i < ENTRIES ==> TabAt(mem, owner, d, i))
    && (forall d, v :: IsDir(mem, owner, d) && 0 <= v < USER ==> PageAt(mem, owner, d, v))
  }

  /** Where a table is. */
  lemma TableOf(mem: Memory, owner: Owners, d: nat, v: nat)
    requires Owned(mem, owner) && IsDir(mem, owner, d) && v < PAGES && mem[d][v / ENTRIES] != 0
    ensures HasTable(mem, d, v) && FrameOf(mem[d][v / ENTRIES]) < |mem|
    ensures FrameOf(mem[d][v / ENTRIES]) in owner && owner[FrameOf(mem[d][v / ENTRIES])] == Tab(d, v / ENTRIES)
  {
    assert TabAt(mem, owner, d, v / ENTRIES);
    assert RoleAt(mem, owner, FrameOf(mem[d][v / ENTRIES]));
  }

  /** Directories and tables of `owner` unchanged. */
  ghost predicate SameTables(mem: Memory, mem': Memory, owner: Owners) {
    |mem'| == |mem| && forall a :: a in owner && !owner[a].Page? && a < |mem| ==> mem'[a] == mem[a]
  }

  lemma PteSame(mem: Memory, mem': Memory, owner: Owners, d: nat, v: nat)
    requires Owned(mem, owner) && SameTables(mem, mem', owner) && IsDir(mem, owner, d) && v < PAGES
    ensures Pte(mem', d, v) == Pte(mem, d, v)
  {
    if mem[d][v / ENTRIES] != 0 {
      TableOf(mem, owner, d, v);
    }
  }

  /** Writing frames that are no tables changes no mapping. */
  lemma TablesKept(mem: Memory, mem': Memory, owner: Owners)
    requires Owned(mem, owner) && SameTables(mem, mem', owner)
    ensures Owned(mem', owner)
    ensures forall d, v :: IsDir(mem, owner, d) && 0 <= v < PAGES ==> Pte(mem', d, v) == Pte(mem, d, v)
  {
    hide Pte;
    forall d: nat, v: nat | IsDir(mem, owner, d) && 0 <= v < PAGES ensures Pte(mem', d, v) == Pte(mem, d, v) {
      PteSame(mem, mem', owner, d, v);
    }
    forall a | a in owner ensures RoleAt(mem', owner, a) {
      assert RoleAt(mem, owner, a);
    }
    forall d: nat, i: nat | IsDir(mem', owner, d) && 0 <= i < ENTRIES ensures TabAt(mem', owner, d, i) {
      assert IsDir(mem, owner, d) && TabAt(mem, owner, d, i);
    }
    forall d: nat, v: nat | IsDir(mem', owner, d) && 0 <= v < USER ensures PageAt(mem', owner, d, v) {
      assert IsDir(mem, owner, d) && PageAt(mem, owner, d, v);
    }
  }

  // ---- Steps ----

  /** A new, zeroed table `t` in entry `i` of directory `d`. */
  ghost predicate AddsTable(mem: Memory, mem': Memory, owner: Owners, d: nat, i: nat, t: nat) {
    && |mem'| == |mem| && d < |mem| && i < ENTRIES && t < |mem| && mem'[t] == ZeroFrame()
    && mem'[d] == mem[d][i := Entry(t, 7)]
    && forall a :: a in owner && a != d && a < |mem| ==> mem'[a] == mem[a]
  }

  lemma AddTable(mem: Memory, mem': Memory, owner: Owners, d: nat, i: nat, t: nat)
    requires Owned(mem, owner) && IsDir(mem, owner, d) && AddsTable(mem, mem', owner, d, i, t)
    requires mem[d][i] == 0 && t !in owner
    ensures Owned(mem', owner[t := Tab(d, i)])
    ensures forall e, v :: IsDir(mem, owner, e) && 0 <= v < PAGES ==> Pte(mem', e, v) == Pte(mem, e, v)
  {
    var owner' := owner[t := Tab(d, i)];
    forall e: nat, v: nat | IsDir(mem, owner, e) && 0 <= v < PAGES ensures Pte(mem', e, v) == Pte(mem, e, v) {
      if mem[e][v / ENTRIES] != 0 {
        TableOf(mem, owner, e, v);
      }
    }
    hide Pte, Entry;
    forall a | a in owner' ensures RoleAt(mem', owner', a) {
      assert a != t ==> RoleAt(mem, owner, a);
    }
    forall e: nat, j: nat | IsDir(mem', owner', e) && 0 <= j < ENTRIES ensures TabAt(mem', owner', e, j) {
      assert IsDir(mem, owner, e) && TabAt(mem, owner, e, j);
    }
    forall e: nat, v: nat | IsDir(mem', owner', e) && 0 <= v < USER ensures PageAt(mem', owner', e, v) {
      assert IsDir(mem, owner, e) && PageAt(mem, owner, e, v);
    }
  }

  /** Entry of page `v` of directory `d` set to `w`; no other table changed. */
  ghost predicate SetsPte(mem: Memory, mem': Memory, owner: Owners, d: nat, v: nat, w: nat) {
    && |mem'| == |mem| && d < |mem| && v < PAGES && HasTable(mem, d, v) && FrameOf(mem[d][v / ENTRIES]) < |mem|
    && var t := FrameOf(mem[d][v / ENTRIES]);
       && mem'[t] == mem[t][v % ENTRIES := w]
       && forall a :: a in owner && !owner[a].Page? && a != t && a < |mem| ==> mem'[a] == mem[a]
  }

  lemma PteSet(mem: Memory, mem': Memory, owner: Owners, d: nat, v: nat, w: nat, e: nat, u: nat)
    requires Owned(mem, owner) && IsDir(mem, owner, d) && SetsPte(mem, mem', owner, d, v, w)
    requires IsDir(mem, owner, e) && u < PAGES
    ensures mem'[e] == mem[e]
    ensures Pte(mem', e, u) == if e == d && u == v then w else Pte(mem, e, u)
  {
    TableOf(mem, owner, d, v);
    if mem[e][u / ENTRIES] != 0 {
      TableOf(mem, owner, e, u);
      if u / ENTRIES == v / ENTRIES && u % ENTRIES == v % ENTRIES {
        assert u == u / ENTRIES * ENTRIES + u % ENTRIES && v == v / ENTRIES * ENTRIES + v % ENTRIES;
      }
    }
  }

  /** Who owns what after page `v` of `d` got entry `w`. */
  ghost function Reowned(mem: Memory, owner: Owners, d: nat, v: nat, w: nat): Owners
    requires d < |mem| && v < PAGES
  {
    if v >= USER then owner
    else if w != 0 then owner[FrameOf(w) := Page(d, v)]
    else if Pte(mem, d, v) != 0 then owner - {FrameOf(Pte(mem, d, v))}
    else owner
  }

  ghost predicate PteChange(mem: Memory, mem': Memory, owner: Owners, d: nat, v: nat, w: nat) {
    && |mem'| == |mem|
    && (forall e, u :: IsDir(mem, owner, e) && 0 <= u < PAGES ==>
          Pte(mem', e, u) == if e == d && u == v then w else Pte(mem, e, u))
    && forall e: nat :: IsDir(mem, owner, e) ==> mem'[e] == mem[e]
  }

  lemma PtesSet(mem: Memory, mem': Memory, owner: Owners, d: nat, v: nat, w: nat)
    requires Owned(mem, owner) && IsDir(mem, owner, d) && SetsPte(mem, mem', owner, d, v, w)
    ensures PteChange(mem, mem', owner, d, v, w)
  {
    hide Pte, Owned;
    forall e: nat, u: nat | IsDir(mem, owner, e) && u < PAGES
      ensures Pte(mem', e, u) == if e == d && u == v then w else Pte(mem, e, u)
    {
      PteSet(mem, mem', owner, d, v, w, e, u);
    }
    forall e: nat | IsDir(mem, owner, e) ensures mem'[e] == mem[e] {
      PteSet(mem, mem', owner, d, v, w, e, 0);
    }
  }

  /** Entering an unowned frame in an empty user entry, emptying a user entry, and any change to a kernel entry. */
  lemma SetPte(mem: Memory, mem': Memory, owner: Owners, d: nat, v: nat, w: nat)
    requires Owned(mem, owner) && IsDir(mem, owner, d) && SetsPte(mem, mem', owner, d, v, w)
    requires v < USER && w != 0 ==> Pte(mem, d, v) == 0 && Present(w) && FrameOf(w) !in owner && FrameOf(w) < |mem|
    ensures Owned(mem', Reowned(mem, owner, d, v, w)) && PteChange(mem, mem', owner, d, v, w)
  {
    PtesSet(mem, mem', owner, d, v, w);
    var owner' := Reowned(mem, owner, d, v, w);
    if v < USER {
      assert PageAt(mem, owner, d, v);
    }
    hide SetsPte, Pte;
    forall e: nat ensures IsDir(mem', owner', e) <==> IsDir(mem, owner, e) {
    }
    hide PteChange, TabAt, RoleAt, Reowned;
    forall a | a in owner' ensures RoleAt(mem', owner', a) {
      assert a in owner ==> RoleAt(mem, owner, a);
      RoleKept(mem, mem', owner, d, v, w, a);
    }
    forall e: nat, j: nat | IsDir(mem', owner', e) && j < ENTRIES ensures TabAt(mem', owner', e, j) {
      assert IsDir(mem, owner, e) && TabAt(mem, owner, e, j);
      TabKept(mem, mem', owner, d, v, w, e, j);
    }
    forall e: nat, u: nat | IsDir(mem', owner', e) && u < USER ensures PageAt(mem', owner', e, u) {
      assert IsDir(mem, owner, e) && PageAt(mem, owner, e, u);
      PageKept(mem, mem', owner, d, v, w, e, u);
    }
  }

  lemma TabKept(mem: Memory, mem': Memory, owner: Owners, d: nat, v: nat, w: nat, e: nat, j: nat)
    requires d < |mem| && v < PAGES && PteChange(mem, mem', owner, d, v, w)
    requires v < USER ==> PageAt(mem, owner, d, v)
    requires v < USER && w != 0 ==> FrameOf(w) !in owner
    requires IsDir(mem, owner, e) && j < ENTRIES && TabAt(mem, owner, e, j)
    ensures TabAt(mem', Reowned(mem, owner, d, v, w), e, j)
  {
    hide Pte;
  }

  lemma PageKept(mem: Memory, mem': Memory, owner: Owners, d: nat, v: nat, w: nat, e: nat, u: nat)
    requires IsDir(mem, owner, d) && v < PAGES && PteChange(mem, mem', owner, d, v, w)
    requires v < USER ==> PageAt(mem, owner, d, v)
    requires v < USER && w != 0 ==> Pte(mem, d, v) == 0 && Present(w) && FrameOf(w) !in owner
    requires IsDir(mem, owner, e) && u < USER && PageAt(mem, owner, e, u)
    ensures PageAt(mem', Reowned(mem, owner, d, v, w), e, u)
  {
    hide Pte;
    assert Pte(mem', e, u) == if e == d && u == v then w else Pte(mem, e, u);
  }

  lemma RoleKept(mem: Memory, mem': Memory, owner: Owners, d: nat, v: nat, w: nat, a: nat)
    requires d < |mem| && v < PAGES && IsDir(mem, owner, d) && PteChange(mem, mem', owner, d, v, w)
    requires v < USER ==> PageAt(mem, owner, d, v)
    requires v < USER && w != 0 ==> Pte(mem, d, v) == 0 && FrameOf(w) !in owner && FrameOf(w) < |mem|
    requires a in owner ==> RoleAt(mem, owner, a)
    ensures RoleAt(mem', Reowned(mem, owner, d, v, w), a)
  {
    hide Pte;
  }

  /** A new, empty directory. */
  lemma AddDir(mem: Memory, mem': Memory, owner: Owners, d: nat)
    requires Owned(mem, owner) && SameTables(mem, mem', owner) && d < |mem| && d !in owner && mem'[d] == ZeroFrame()
    ensures Owned(mem', owner[d := Dir])
    ensures forall e, v :: IsDir(mem, owner, e) && 0 <= v < PAGES ==> Pte(mem', e, v) == Pte(mem, e, v)
    ensures forall v :: 0 <= v < PAGES ==> Pte(mem', d, v) == 0
  {
    var owner' := owner[d := Dir];
    TablesKept(mem, mem', owner);
    assert forall v :: 0 <= v < PAGES ==> Pte(mem', d, v) == 0;
    hide Pte;
    forall a | a in owner' ensures RoleAt(mem', owner', a) {
      assert a != d ==> RoleAt(mem', owner, a);
    }
    forall e: nat, j: nat | IsDir(mem', owner', e) && 0 <= j < ENTRIES ensures TabAt(mem', owner', e, j) {
      assert e != d ==> IsDir(mem', owner, e) && TabAt(mem', owner, e, j);
    }
    forall e: nat, u: nat | IsDir(mem', owner', e) && 0 <= u < USER ensures PageAt(mem', owner', e, u) {
      assert e != d ==> IsDir(mem', owner, e) && PageAt(mem', owner, e, u);
    }
  }

  // ---- Giving up an address space ----

  ghost predicate InSpace(owner: Owners, d: nat, a: nat) {
    a in owner && (a == d || (owner[a].Tab? && owner[a].dir == d) || (owner[a].Page? && owner[a].dir == d))
  }

  ghost function WithoutSpace(owner: Owners, d: nat): Owners {
    map a | a in owner && !InSpace(owner, d, a) :: owner[a]
  }

  lemma DropSpace(mem: Memory, mem': Memory, owner: Owners, d: nat)
    requires Owned(mem, owner) && IsDir(mem, owner, d) && SameTables(mem, mem', WithoutSpace(owner, d))
    ensures Owned(mem', WithoutSpace(owner, d))
    ensures forall e, v :: IsDir(mem, owner, e) && e != d && 0 <= v < PAGES ==> Pte(mem', e, v) == Pte(mem, e, v)
  {
    var owner' := WithoutSpace(owner, d);
    forall e: nat, v: nat | IsDir(mem, owner, e) && e != d && 0 <= v < PAGES ensures Pte(mem', e, v) == Pte(mem, e, v) {
      assert e in owner';
      if mem[e][v / ENTRIES] != 0 {
        TableOf(mem, owner, e, v);
        assert FrameOf(mem[e][v / ENTRIES]) in owner';
      }
    }
    hide Pte;
    assert forall e :: IsDir(mem', owner', e) <==> IsDir(mem, owner, e) && e != d;
    forall a | a in owner' ensures RoleAt(mem', owner', a) {
      assert RoleAt(mem, owner, a);
    }
    forall e: nat, j: nat | IsDir(mem', owner', e) && 0 <= j < ENTRIES ensures TabAt(mem', owner', e, j) {
      assert TabAt(mem, owner, e, j);
    }
    forall e: nat, u: nat | IsDir(mem', owner', e) && 0 <= u < USER ensures PageAt(mem', owner', e, u) {
      assert PageAt(mem, owner, e, u);
    }
  }
}
