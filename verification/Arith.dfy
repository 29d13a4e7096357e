/** Division and remainder facts shared by the other modules. */
module Arith {

  function Pow2(j: nat): (r: nat)
    ensures r > 0
  {
    if j == 0 then 1 else 2 * Pow2(j - 1)
  }

  lemma MulAtLeast(k: int, m: nat)
    requires k >= 1
    ensures k * m >= m
  {
  }

  /** Quotient and remainder are the only ones. */
  lemma DivModUnique(a: int, m: nat, q: int, r: nat)
    requires r < m && a == q * m + r
    ensures a / m == q && a % m == r
  {
    var d := q - a / m;
    assert d * m == a % m - r by {
      assert q * m - a / m * m == d * m;
    }
    if d >= 1 {
      MulAtLeast(d, m);
      assert false;
    }
    if d <= -1 {
      MulAtLeast(-d, m);
      assert false;
    }
  }

  /** Adding multiples of `m` shifts the quotient and keeps the remainder. */
  lemma AddMultiple(a: int, q: int, m: nat)
    requires m > 0
    ensures (a + q * m) / m == a / m + q && (a + q * m) % m == a % m
  {
    assert a + q * m == (a / m + q) * m + a % m by {
      assert a == a / m * m + a % m;
      assert (a / m + q) * m == a / m * m + q * m;
    }
    DivModUnique(a + q * m, m, a / m + q, a % m);
  }

  /** Numbers less than `m` apart have different remainders. */
  lemma RemaindersDiffer(a: nat, b: nat, m: nat)
    requires b < a < b + m
    ensures a % m != b % m
  {
    var d := a / m - b / m;
    assert d * m == a - b - (a % m - b % m) by {
      assert d * m == a / m * m - b / m * m;
    }
    if d >= 1 {
      MulAtLeast(d, m);
    } else {
      MulAtLeast(1 - d, m);
    }
  }

  /** Remainders modulo `m` may be taken before adding. */
  lemma ModAdd(a: int, b: int, m: nat)
    requires m > 0
    ensures (a % m + b) % m == (a + b) % m
  {
    assert a == a / m * m + a % m;
    AddMultiple(a % m + b, a / m, m);
  }

  /** A remainder modulo a multiple of `m` determines the remainder modulo `m`. */
  lemma ModMod(a: int, k: nat, m: nat)
    requires m > 0 && k > 0
    ensures k * m > 0 && a % (k * m) % m == a % m
  {
    MulAtLeast(k, m);
    var big := k * m;
    assert a == a / big * big + a % big;
    assert a / big * big == (a / big * k) * m;
    AddMultiple(a % big, a / big * k, m);
  }
}
