/** The lottery draw of `scheduler` (proc.c) and its fairness over one period of the generator. */
module Lottery {
  import opened Arith
  import opened Lcg
  import opened Sets

  // ---- The draw ----

  /** Sum of the first `n` tickets. */
  function Sum(t: seq<nat>, n: nat): nat
    requires n <= |t|
  {
    if n == 0 then 0 else Sum(t, n - 1) + t[n - 1]
  }

  function Total(t: seq<nat>): nat {
    Sum(t, |t|)
  }

  /** `rand(max)` after the state moved to `state`: 1 to max. */
  function Draw(state: Word, max: nat): nat
    requires max > 0
  {
    state % max + 1
  }

  /** Index `w` holds the draw: its interval of the running sums contains it. */
  predicate Holds(t: seq<nat>, rd: nat, w: nat) {
    w < |t| && Sum(t, w) < rd <= Sum(t, w + 1)
  }

  lemma {:induction false} SumMonotone(t: seq<nat>, i: nat, j: nat)
    requires i <= j <= |t|
    ensures Sum(t, i) <= Sum(t, j)
  {
    if i < j {
      SumMonotone(t, i, j - 1);
    }
  }

  lemma HolderUnique(t: seq<nat>, rd: nat, v: nat, w: nat)
    requires Holds(t, rd, v) && Holds(t, rd, w)
    ensures v == w
  {
    if v < w { SumMonotone(t, v + 1, w); }
    if w < v { SumMonotone(t, w + 1, v); }
  }

  /** The winner as a function of the state, for counting. */
  ghost function Winner(t: seq<nat>, state: Word): (w: nat)
    requires Total(t) > 0
    ensures Holds(t, Draw(state, Total(t)), w)
  {
    HolderExists(t, Draw(state, Total(t)));
    var w :| Holds(t, Draw(state, Total(t)), w);
    w
  }

  lemma HolderExists(t: seq<nat>, rd: nat)
    requires 0 < rd <= Total(t)
    ensures exists w :: Holds(t, rd, w)
  {
    var i := |t|;
    while Sum(t, i - 1) >= rd
      invariant 0 < i <= |t| && rd <= Sum(t, i)
      decreases i
    {
      i := i - 1;
    }
    assert Holds(t, rd, i - 1);
  }

  // ---- Counting ----

  /** An injective image has as many elements. */
  lemma {:induction false} ImageSize(s: set<int>, f: int -> int)
    requires forall x, y :: x in s && y in s && f(x) == f(y) ==> x == y
    ensures |set x | x in s :: f(x)| == |s|
  {
    if s == {} {
      assert (set x | x in s :: f(x)) == {};
    } else {
      var a := Pick(s);
      ImageSize(s - {a}, f);
      assert (set x | x in s :: f(x)) == (set x | x in s - {a} :: f(x)) + {f(a)};
    }
  }

  /** An injection of 0..n into itself reaches everything. */
  lemma Pigeonhole(n: nat, f: int -> int, v: int)
    requires forall x :: 0 <= x < n ==> 0 <= f(x) < n
    requires forall x, y :: 0 <= x < n && 0 <= y < n && f(x) == f(y) ==> x == y
    requires 0 <= v < n
    ensures exists x :: 0 <= x < n && f(x) == v
  {
    var dom := Range(n);
    var img := set x | x in dom :: f(x);
    ImageSize(dom, f);
    if v !in img {
      SubsetSize(img + {v}, dom);
      assert false;
    }
  }

  /** Numbers below `n` whose remainder modulo `m` is in lo..hi. */
  ghost function Residues(n: nat, m: nat, lo: nat, hi: nat): set<int>
    requires m > 0
  {
    set v | 0 <= v < n && lo <= v % m < hi
  }

  lemma {:induction false} OneResidue(n: nat, m: nat, r: nat)
    requires r < m
    ensures |Residues(n, m, r, r + 1)| == n / m + (if r < n % m then 1 else 0)
  {
    if n == 0 {
      DivModUnique(0, m, 0, 0);
    } else {
      OneResidue(n - 1, m, r);
      var before := Residues(n - 1, m, r, r + 1);
      assert Residues(n, m, r, r + 1) == if (n - 1) % m == r then before + {n - 1} else before;
      Increment(n, m);
    }
  }

  lemma Increment(n: nat, m: nat)
    requires n > 0 && m > 0
    ensures if (n - 1) % m == m - 1 then n / m == (n - 1) / m + 1 && n % m == 0
            else n / m == (n - 1) / m && n % m == (n - 1) % m + 1
  {
    var q := (n - 1) / m;
    assert n - 1 == q * m + (n - 1) % m;
    if (n - 1) % m == m - 1 {
      assert (q + 1) * m == q * m + m;
      DivModUnique(n, m, q + 1, 0);
    } else {
      DivModUnique(n, m, q, (n - 1) % m + 1);
    }
  }

  function Ceil(n: nat, m: nat): nat
    requires m > 0
  {
    n / m + (if n % m == 0 then 0 else 1)
  }

  lemma {:induction false} ManyResidues(n: nat, m: nat, lo: nat, hi: nat)
    requires lo <= hi <= m && m > 0
    ensures (hi - lo) * (n / m) <= |Residues(n, m, lo, hi)| <= (hi - lo) * Ceil(n, m)
    decreases hi
  {
    if lo == hi {
      assert Residues(n, m, lo, hi) == {};
    } else {
      ManyResidues(n, m, lo, hi - 1);
      OneResidue(n, m, hi - 1);
      var a, b := Residues(n, m, lo, hi - 1), Residues(n, m, hi - 1, hi);
      assert Residues(n, m, lo, hi) == a + b && a !! b;
      assert (hi - lo) * (n / m) == (hi - 1 - lo) * (n / m) + n / m;
      assert (hi - lo) * Ceil(n, m) == (hi - 1 - lo) * Ceil(n, m) + Ceil(n, m);
    }
  }

  // ---- Fairness ----

  /** The state that the (k+1)st draw after `seed` uses. */
  ghost function StateAt(seed: Word, k: int): int {
    if k >= 0 then Iter(k + 1, seed) else k
  }

  /** The draws, out of the 2^32 that follow `seed`, that `w` wins. */
  ghost function Wins(t: seq<nat>, seed: Word, w: nat): set<int>
    requires Total(t) > 0
  {
    set k | 0 <= k < MOD && Winner(t, StateAt(seed, k)) == w
  }

  lemma WonStates(t: seq<nat>, seed: Word, w: nat)
    requires Total(t) > 0 && w < |t|
    ensures |Wins(t, seed, w)| == |Residues(MOD, Total(t), Sum(t, w), Sum(t, w + 1))|
  {
    var f := k => StateAt(seed, k);
    var wins, states := Wins(t, seed, w), Residues(MOD, Total(t), Sum(t, w), Sum(t, w + 1));
    forall x, y | 0 <= x < MOD && 0 <= y < MOD && f(x) == f(y) ensures x == y {
      if x < y { FullPeriod(seed, x + 1, y + 1); }
      if y < x { FullPeriod(seed, y + 1, x + 1); }
    }
    ImageSize(wins, f);
    var img := set k | k in wins :: f(k);
    forall v | v in states ensures v in img {
      Pigeonhole(MOD, f, v);
      var k :| 0 <= k < MOD && f(k) == v;
      HolderUnique(t, Draw(v, Total(t)), w, Winner(t, v));
      assert k in wins;
    }
    forall v | v in img ensures v in states {
      var k :| k in wins && f(k) == v;
      assert Holds(t, Draw(v, Total(t)), w);
    }
    assert img == states;
  }

  /** Fairness: over one period, whatever the seed, a process with t of max tickets wins between
      t * floor(2^32 / max) and t * ceil(2^32 / max) draws. */
  lemma Fairness(t: seq<nat>, seed: Word, w: nat)
    requires Total(t) > 0 && w < |t|
    ensures t[w] * (MOD / Total(t)) <= |Wins(t, seed, w)| <= t[w] * Ceil(MOD, Total(t))
  {
    WonStates(t, seed, w);
    SumMonotone(t, w + 1, |t|);
    ManyResidues(MOD, Total(t), Sum(t, w), Sum(t, w + 1));
  }
}
