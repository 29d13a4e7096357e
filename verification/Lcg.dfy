/** The scheduler's 32-bit linear congruential generator (proc.c): it has full period. */
module Lcg {
  import opened Arith

  const MOD := 0x1_0000_0000
  const HALF := 0x8000_0000

  type Word = x: int | 0 <= x < MOD

  /** `randstate = randstate * 1664525 + 1013904223` on a 32-bit unsigned long. */
  function Next(x: Word): Word {
    (x * 1664525 + 1013904223) % MOD
  }

  function Iter(k: nat, x: Word): Word {
    if k == 0 then x else Next(Iter(k - 1, x))
  }

  lemma {:induction false} IterAdd(j: nat, k: nat, x: Word)
    ensures Iter(j + k, x) == Iter(j, Iter(k, x))
  {
    if j > 0 {
      IterAdd(j - 1, k, x);
    }
  }

  /** Multiplier and increment of 2^j steps taken at once, by repeated squaring. */
  function Jump(j: nat): (nat, nat) {
    if j == 0 then (1664525, 1013904223)
    else
      var (a, c) := Jump(j - 1);
      (a * a, a * c + c)
  }

  lemma AffineTwice(a: nat, c: nat, x: Word)
    ensures (a * ((a * x + c) % MOD) + c) % MOD == (a * a * x + (a * c + c)) % MOD
  {
    var t := a * x + c;
    var q := t / MOD;
    assert a * t + c == a * (t % MOD) + c + (a * q) * MOD by {
      assert t == q * MOD + t % MOD;
      assert a * t == a * (q * MOD) + a * (t % MOD);
      assert a * (q * MOD) == (a * q) * MOD;
    }
    AddMultiple(a * (t % MOD) + c, a * q, MOD);
    assert a * t + c == a * a * x + (a * c + c) by {
      assert a * t == a * (a * x) + a * c;
      assert a * (a * x) == a * a * x;
    }
  }

  lemma {:induction false} JumpIsIter(j: nat, x: Word)
    ensures Iter(Pow2(j), x) == (Jump(j).0 * x + Jump(j).1) % MOD
  {
    if j == 0 {
      assert Pow2(0) == 1 && Iter(1, x) == Next(Iter(0, x));
    } else {
      JumpIsIter(j - 1, x);
      JumpIsIter(j - 1, Iter(Pow2(j - 1), x));
      AffineTwice(Jump(j - 1).0, Jump(j - 1).1, x);
      assert Pow2(j) == Pow2(j - 1) + Pow2(j - 1);
      IterAdd(Pow2(j - 1), Pow2(j - 1), x);
    }
  }

  /** The Hull-Dobell conditions carried through squaring: the multiplier stays 1 modulo 4 * 2^j
      and the increment stays an odd multiple of 2^j. */
  lemma {:induction false} JumpShape(j: nat) returns (u: nat, v: nat)
    ensures Jump(j).0 == 1 + 4 * Pow2(j) * u
    ensures Jump(j).1 == Pow2(j) * (2 * v + 1)
  {
    if j == 0 {
      u, v := 416131, 506952111;
    } else {
      u, v := JumpShape(j - 1);
      var (a, c) := Jump(j - 1);
      var p, w := Pow2(j - 1), Pow2(j - 1) * u;
      SquareMultiplier(p, u, w, a);
      SquareIncrement(p, v, w, a, c);
      u, v := u + 2 * (w * u), v + (2 * v + 1) * w;
      assert Jump(j) == (a * a, a * c + c) && Pow2(j) == 2 * p;
    }
  }

  lemma SquareMultiplier(p: nat, u: nat, w: nat, a: nat)
    requires w == p * u && a == 1 + 4 * p * u
    ensures a * a == 1 + 4 * (2 * p) * (u + 2 * (w * u))
    ensures a == 1 + 4 * w
  {
  }

  lemma SquareIncrement(p: nat, v: nat, w: nat, a: nat, c: nat)
    requires a == 1 + 4 * w && c == p * (2 * v + 1)
    ensures a * c + c == 2 * p * (2 * (v + (2 * v + 1) * w) + 1)
  {
  }

  /** 2^31 steps add 2^31, so 2^32 steps return to the start. */
  lemma HalfPeriod(x: Word)
    ensures Iter(HALF, x) == (x + HALF) % MOD
    ensures Iter(MOD, x) == x
  {
    hide Iter, Pow2;
    Pow2Values();
    JumpBy(31, x, HALF);
    JumpBy(31, Iter(HALF, x), HALF);
    IterAdd(HALF, HALF, x);
    ModAdd(x + HALF, HALF, MOD);
    AddMultiple(x, 1, MOD);
  }

  lemma JumpBy(j: nat, x: Word, p: nat)
    requires p == Pow2(j) && 2 * p == MOD
    ensures Iter(p, x) == (x + p) % MOD
  {
    JumpIsIter(j, x);
    var u, v := JumpShape(j);
    var k := 2 * (u * x) + v;
    LinearForm(p, u, v, x);
    AddMultiple(x + p, k, MOD);
  }

  lemma LinearForm(p: nat, u: nat, v: nat, x: nat)
    ensures (1 + 4 * p * u) * x + p * (2 * v + 1) == x + p + (2 * (u * x) + v) * (2 * p)
  {
  }

  lemma Pow2Values()
    ensures Pow2(31) == HALF && Pow2(32) == MOD
  {
    assert Pow2(8) == 256;
    assert Pow2(16) == 65536;
    assert Pow2(24) == 16777216;
  }

  lemma {:induction false} ManyHalves(k: nat, x: Word)
    ensures Iter(HALF * k, x) == (x + HALF * k) % MOD
  {
    if k > 0 {
      hide Next;
      ManyHalves(k - 1, x);
      IterAdd(HALF, HALF * (k - 1), x);
      HalfPeriod(Iter(HALF * (k - 1), x));
      ModAdd(x + HALF * (k - 1), HALF, MOD);
    }
  }

  lemma {:induction false} Cycle(d: nat, k: nat, y: Word)
    requires Iter(d, y) == y
    ensures Iter(d * k, y) == y
  {
    if k > 0 {
      Cycle(d, k - 1, y);
      IterAdd(d, d * (k - 1), y);
      assert d * k == d + d * (k - 1);
    }
  }

  lemma {:induction false} OddPart(d: nat) returns (e: nat, o: nat)
    requires d > 0
    ensures d == Pow2(e) * (2 * o + 1)
  {
    if d % 2 == 1 {
      e, o := 0, d / 2;
    } else {
      e, o := OddPart(d / 2);
      e := e + 1;
    }
  }

  lemma {:induction false} Pow2Add(i: nat, j: nat)
    ensures Pow2(i + j) == Pow2(i) * Pow2(j)
  {
    if i > 0 {
      Pow2Add(i - 1, j);
    }
  }

  /** A number below 2^32 divides an odd multiple of 2^31. */
  lemma OddMultipleOfHalf(d: nat) returns (k: nat, o: nat)
    requires 0 < d < MOD
    ensures d * k == HALF * (2 * o + 1)
  {
    var e;
    e, o := OddPart(d);
    Pow2Values();
    MulAtLeast(2 * o + 1, Pow2(e));
    if e >= 32 {
      Pow2Add(e - 32, 32);
      assert false;
    }
    k := Pow2(31 - e);
    Pow2Add(e, 31 - e);
    Regroup(Pow2(e), 2 * o + 1, k);
  }

  lemma Regroup(x: nat, y: nat, z: nat)
    ensures x * y * z == x * z * y
  {
  }

  /** No cycle is shorter than 2^32 steps. */
  lemma NoShortCycle(d: nat, y: Word)
    requires 0 < d < MOD
    ensures Iter(d, y) != y
  {
    var k, o := OddMultipleOfHalf(d);
    ManyHalves(2 * o + 1, y);
    AddMultiple(y + HALF, o, MOD);
    if Iter(d, y) == y {
      Cycle(d, k, y);
    }
  }

  /** Full period: from every seed, 2^32 consecutive states are pairwise different. */
  lemma FullPeriod(seed: Word, i: nat, j: nat)
    requires i < j < i + MOD
    ensures Iter(i, seed) != Iter(j, seed)
  {
    IterAdd(j - i, i, seed);
    NoShortCycle(j - i, Iter(i, seed));
  }

  /** Every state has a predecessor. */
  lemma Predecessor(v: Word) returns (s: Word)
    ensures Next(s) == v
  {
    s := Iter(MOD - 1, v);
    HalfPeriod(v);
  }
}
