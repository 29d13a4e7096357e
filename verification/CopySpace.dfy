/** Copying an address space (copyuvm). */
module CopySpace {
  import opened AddressSpace
  import opened FrameList
  import opened KernelSpace
  import opened Paging
  import opened Unmapping

  datatype Copy = Copied(d: nat) | Failed | Panicked

  /** The number of pages before the first unmapped one, among the first `n`. */
  ghost function Reach(mem: Memory, d: nat, n: nat): (r: nat)
    requires d < |mem| && n <= PAGES
    ensures r <= n && (r < n ==> Pte(mem, d, r) == 0) && forall u :: 0 <= u < r ==> Pte(mem, d, u) != 0
  {
    if n == 0 then 0
    else
      var r := Reach(mem, d, n - 1);
      if r == n - 1 && Pte(mem, d, r) != 0 then n else r
  }

  /** Frames for a copy of the first `n` pages: the directory, the kernel's tables, the pages and their tables. */
  function CopyCost(n: nat): nat {
    1 + KERNEL_TABLES + n + (n + ENTRIES - 1) / ENTRIES
  }

  lemma CopyCostNext(u: nat, v: nat)
    requires u < v
    ensures CopyCost(u + 1) == CopyCost(u) + (if u % ENTRIES == 0 then 2 else 1) <= CopyCost(v)
  {
  }

  /** Just when page `u` comes, one frame is left and two are needed. */
  ghost predicate CopyLoses(s0: State, u: nat) {
    u % ENTRIES == 0 && |s0.free| == CopyCost(u) + 1
  }

  /** Page `u` of `d` holds what page `u` of `d0` held, with the same flags, in a frame that was free. */
  ghost predicate CopyAt(s0: State, s: State, d0: nat, d: nat, u: nat)
    requires d0 < |s0.mem| && d < |s.mem| && u < PAGES
  {
    var w0, w := Pte(s0.mem, d0, u), Pte(s.mem, d, u);
    && w0 != 0 && Flags(w) == Flags(w0) && FrameOf(w) in s0.free
    && FrameOf(w) < |s.mem| && FrameOf(w0) < |s0.mem| && s.mem[FrameOf(w)] == s0.mem[FrameOf(w0)]
  }

  /** From `s0` to `s`, directory `d` is new and holds the kernel map and copies of the pages of `d0` below `v`. */
  ghost predicate Copying(s0: State, s: State, d0: nat, d: nat, v: nat, ks: seq<Kmap>)
    requires d0 < |s0.mem| && v <= USER
  {
    && OldKept(s0, s) && d !in s0.owner && IsDir(s.mem, s.owner, d) && |s.free| + CopyCost(v) == |s0.free|
    && (forall i :: 0 <= i < USER / ENTRIES ==> (s.mem[d][i] != 0 <==> InSpan(0, v, i)))
    && (forall u :: 0 <= u < v ==> CopyAt(s0, s, d0, d, u))
    && (forall u :: v <= u < PAGES ==> Pte(s.mem, d, u) == KernelPte(ks, u))
    && forall a :: a in s.owner && a !in s0.owner ==> a == d || (!s.owner[a].Dir? && s.owner[a].dir == d)
  }

  lemma CopyStart(s0: State, s: State, d0: nat, d: nat, ks: seq<Kmap>)
    requires d0 < |s0.mem| && SetUp(s0, s, d, ks)
    requires |KernelTabs(ks)| == KERNEL_TABLES && forall i :: i in KernelTabs(ks) ==> i >= USER / ENTRIES
    ensures Copying(s0, s, d0, d, 0, ks)
  {
    hide Pte, KernelPte, KernelTabs;
    forall i: nat | i < USER / ENTRIES ensures s.mem[d][i] == 0 {
      assert i !in Tabs(s.mem, d);
    }
  }

  /** What the loop finds in the source, and in the copy. */
  lemma CopyHere(first: nat, s0: State, s: State, d0: nat, d: nat, v: nat, ks: seq<Kmap>)
    requires Inv(first, s0) && Space(s0, d0) && v < USER && Copying(s0, s, d0, d, v, ks) && KernelPte(ks, v) == 0
    ensures Space(s, d0) && Space(s, d) && Pte(s.mem, d0, v) == Pte(s0.mem, d0, v) && Pte(s.mem, d, v) == 0
    ensures var w0 := Pte(s0.mem, d0, v);
            w0 != 0 ==> Present(w0) && FrameOf(w0) < |s0.mem| && s.mem[FrameOf(w0)] == s0.mem[FrameOf(w0)]
  {
    assert PageAt(s0.mem, s0.owner, d0, v);
    hide Pte, KernelPte;
    if Pte(s0.mem, d0, v) != 0 {
      assert RoleAt(s0.mem, s0.owner, FrameOf(Pte(s0.mem, d0, v)));
    }
  }

  lemma CopyStep(first: nat, s0: State, s: State, s': State, d0: nat, d: nat, v: nat, ks: seq<Kmap>, f: nat)
    requires Inv(first, s0) && Inv(first, s) && Inv(first, s') && Space(s0, d0) && v < USER
    requires Copying(s0, s, d0, d, v, ks) && KernelPte(ks, v) == 0
    requires var w0 := Pte(s0.mem, d0, v);
             && w0 != 0 && FrameOf(w0) < |s0.mem| && d < |s.mem|
             && MapsFresh(s, s', d, v, f, s0.mem[FrameOf(w0)], Flags(w0))
    ensures Copying(s0, s', d0, d, v + 1, ks)
  {
    hide Pte, KernelPte, ListOk, Entry, Inv;
    forall u: nat | u < v + 1 ensures CopyAt(s0, s', d0, d, u) {
      if u < v {
        CopyStays(first, s0, s, s', d0, d, v, ks, f, u);
      } else {
        CopyNew(first, s0, s, s', d0, d, v, ks, f);
      }
    }
    CopyOld(s0, s, s', d0, d, v, ks, f);
    CopyTables(s0, s, s', d0, d, v, ks, f);
  }

  lemma CopyTables(s0: State, s: State, s': State, d0: nat, d: nat, v: nat, ks: seq<Kmap>, f: nat)
    requires d0 < |s0.mem| && v < USER && Copying(s0, s, d0, d, v, ks) && d < |s.mem|
    requires var w0 := Pte(s0.mem, d0, v);
             FrameOf(w0) < |s0.mem| && MapsFresh(s, s', d, v, f, s0.mem[FrameOf(w0)], Flags(w0))
    ensures |s'.free| + CopyCost(v + 1) == |s0.free|
    ensures forall i :: 0 <= i < USER / ENTRIES ==> (s'.mem[d][i] != 0 <==> InSpan(0, v + 1, i))
  {
    hide Pte, KernelPte, Entry, CopyAt, OldKept, SameData;
    CopyCostNext(v, v + 1);
    assert s.mem[d][v / ENTRIES] == 0 <==> v % ENTRIES == 0;
  }

  lemma CopyOld(s0: State, s: State, s': State, d0: nat, d: nat, v: nat, ks: seq<Kmap>, f: nat)
    requires d0 < |s0.mem| && v < USER && Copying(s0, s, d0, d, v, ks) && d < |s.mem|
    requires var w0 := Pte(s0.mem, d0, v);
             FrameOf(w0) < |s0.mem| && MapsFresh(s, s', d, v, f, s0.mem[FrameOf(w0)], Flags(w0))
    ensures OldKept(s0, s')
  {
    hide Pte, KernelPte, Entry;
  }

  lemma CopyStays(first: nat, s0: State, s: State, s': State, d0: nat, d: nat, v: nat, ks: seq<Kmap>, f: nat, u: nat)
    requires Inv(first, s0) && Inv(first, s) && d0 < |s0.mem| && u < v < USER && Copying(s0, s, d0, d, v, ks)
             && d < |s.mem|
    requires var w0 := Pte(s0.mem, d0, v);
             FrameOf(w0) < |s0.mem| && MapsFresh(s, s', d, v, f, s0.mem[FrameOf(w0)], Flags(w0))
    ensures CopyAt(s0, s', d0, d, u)
  {
    hide Pte, KernelPte, Entry, ListOk, Partition;
    assert IsDir(s.mem, s.owner, d) && CopyAt(s0, s, d0, d, u) && PageAt(s.mem, s.owner, d, u);
    assert Pte(s'.mem, d, u) == Pte(s.mem, d, u);
    FrameZero(first, s0);
  }

  lemma FrameZero(first: nat, s: State)
    requires Inv(first, s)
    ensures 0 !in s.owner && 0 !in s.free
  {
  }

  lemma CopyNew(first: nat, s0: State, s: State, s': State, d0: nat, d: nat, v: nat, ks: seq<Kmap>, f: nat)
    requires Inv(first, s0) && Inv(first, s) && d0 < |s0.mem| && v < USER && Copying(s0, s, d0, d, v, ks) && d < |s.mem|
    requires var w0 := Pte(s0.mem, d0, v);
             w0 != 0 && FrameOf(w0) < |s0.mem| && MapsFresh(s, s', d, v, f, s0.mem[FrameOf(w0)], Flags(w0))
    ensures CopyAt(s0, s', d0, d, v)
  {
    hide Pte, KernelPte, Entry, ListOk, Owned;
  }

  /** Giving up the copy of the first `m` pages leaves the source and all else as it was, but for what the kernel part
      had taken, and for a lost frame. */
  ghost predicate Undone(s0: State, s: State, m: nat) {
    && |s.mem| == |s0.mem| && SamePtes(s0, s) && SameData(s0, s)
    && (if |s0.free| <= KERNEL_TABLES then s.free == [] else s.owner == s0.owner)
    && LossAsTold(s0, s.out, m)
  }

  /** Whether a free frame is out afterwards. */
  ghost predicate LossAsTold(s0: State, out: set<nat>, m: nat) {
    if exists u: nat :: u < m && CopyLoses(s0, u) then exists f :: f in s0.free && out == s0.out + {f}
    else out == s0.out
  }

  lemma CopyFails(first: nat, s0: State, s: State, s1: State, s': State, d0: nat, d: nat, v: nat, ks: seq<Kmap>, m: nat)
    requires Inv(first, s0) && Inv(first, s) && d0 < |s0.mem| && v < USER && Copying(s0, s, d0, d, v, ks) && v < m
    requires SamePtes(s, s1) && SameData(s, s1) && s1.owner == s.owner && GaveUp(s1, s', d)
    requires if s1 == s then s.free == []
             else |s.free| == 1 && s.mem[d][v / ENTRIES] == 0 && s1.out == s.out + {s.free[0]}
    ensures |s0.free| < CopyCost(m) && Undone(s0, s', m)
  {
    CopyShort(first, s0, s, s1, d0, d, v, ks, m);
    CopyOwners(first, s0, s, d0, d, v, ks);
    hide Pte, KernelPte, Inv, CopyCost, LossAsTold, WithoutSpace, CopyAt;
  }

  /** Without the copy's frames the owners are the old ones. */
  lemma CopyOwners(first: nat, s0: State, s: State, d0: nat, d: nat, v: nat, ks: seq<Kmap>)
    requires Inv(first, s0) && d0 < |s0.mem| && v <= USER && Copying(s0, s, d0, d, v, ks)
    ensures WithoutSpace(s.owner, d) == s0.owner
  {
    hide Pte, KernelPte, ListOk, Partition, CopyAt, CopyCost;
  }

  /** Where the frames ran out decides whether one was lost. */
  lemma CopyShort(first: nat, s0: State, s: State, s1: State, d0: nat, d: nat, v: nat, ks: seq<Kmap>, m: nat)
    requires Inv(first, s0) && Inv(first, s) && d0 < |s0.mem| && v < USER && Copying(s0, s, d0, d, v, ks) && v < m
    requires if s1 == s then s.free == []
             else |s.free| == 1 && s.mem[d][v / ENTRIES] == 0 && s1.out == s.out + {s.free[0]}
    ensures KERNEL_TABLES < |s0.free| < CopyCost(m)
    ensures LossAsTold(s0, s1.out, m)
  {
    CopyCostNext(v, m);
    if s1 == s {
      forall u: nat ensures !CopyLoses(s0, u) {
        CopyNotLost(s0, u, v);
      }
    } else {
      assert CopyLoses(s0, v);
      hide Pte, KernelPte, ListOk, Owned;
      assert s.free[0] in s.free && s.free[0] !in s.owner && s.free[0] !in s.out;
      assert s.free[0] in s0.free;
    }
  }

  lemma CopyNotLost(s0: State, u: nat, v: nat)
    requires |s0.free| == CopyCost(v)
    ensures !CopyLoses(s0, u)
  {
    if u < v {
      CopyCostNext(u, v);
    } else if v < u {
      CopyCostNext(v, u);
    }
  }

  lemma CopyPaid(s0: State, s: State, d0: nat, d: nat, v: nat, ks: seq<Kmap>)
    requires d0 < |s0.mem| && v <= USER && Copying(s0, s, d0, d, v, ks)
    ensures |s0.free| >= CopyCost(v)
  {
  }

  lemma CopyNever(s0: State, s: State, m: nat)
    requires OldKept(s0, s) && s.free == [] && |s0.free| <= KERNEL_TABLES
    ensures Undone(s0, s, m) && |s0.free| < CopyCost(m)
  {
    hide Pte;
  }
}
