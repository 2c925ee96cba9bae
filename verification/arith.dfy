/** Integer facts shared by the anchor table and the anchor layout:
    powers of two, and the uniqueness of Euclidean division, which is how
    a slot splits into (aspect ratio, scale ratio) and an anchor index
    into (cell, slot). */
module Arith {

  /** 2 raised to e. */
  function Pow2(e: nat): (r: nat)
    ensures r >= 1
  {
    if e == 0 then 1 else 2 * Pow2(e - 1)
  }

  /** Pow2 doubles with each step of the exponent. */
  lemma Pow2Step(e: nat)
    ensures Pow2(e + 1) == 2 * Pow2(e)
  {
  }

  /** Division by a positive divisor has exactly one quotient and remainder:
      if q = d * n + m with 0 <= m < n then q / n = d and q % n = m. */
  lemma DivModUnique(q: int, n: int, d: int, m: int)
    requires n > 0 && 0 <= m < n && q == d * n + m
    ensures q / n == d && q % n == m
  {
    var d', m' := q / n, q % n;
    assert q == d' * n + m';
    assert (d' - d) * n == m - m' by {
      assert (d' - d) * n == d' * n - d * n;
    }
    if d' > d {
      MulAtLeast(d' - d, n);
      assert false;
    } else if d' < d {
      MulAtLeast(d - d', n);
      assert false;
    }
  }

  /** A positive multiple of a positive n is at least n. */
  lemma MulAtLeast(x: int, n: int)
    requires x >= 1 && n > 0
    ensures x * n >= n
  {
    assert x * n == (x - 1) * n + n;
  }

  /** Position i * p + r with r < p of a two-deep nested loop. */
  lemma Decompose2(i: nat, r: nat, p: nat)
    requires r < p
    ensures (i * p + r) / p == i && (i * p + r) % p == r
  {
    DivModUnique(i * p + r, p, i, r);
  }

  /** A block of p items starting at i * p fits inside n blocks when i < n. */
  lemma BlockInside(i: nat, n: nat, p: nat)
    requires i < n
    ensures i * p + p <= n * p
  {
    var e := n - i - 1;
    assert n * p == (i + 1 + e) * p;
    assert (i + 1 + e) * p == i * p + p + e * p;
    assert e * p >= 0;
  }

  /** A quotient of something below m * p by p is below m. */
  lemma DivBelow(k: nat, p: nat, m: nat)
    requires p > 0 && k < m * p
    ensures k / p < m
  {
    DivModUnique(k, p, k / p, k % p);
    if k / p >= m {
      MulAtLeast(k / p - m + 1, p);
      assert false;
    }
  }

  /** Multiplying by a positive number keeps the order of integers. */
  lemma MulLeCancel(a: int, b: int, d: int)
    requires d > 0 && a * d <= b * d
    ensures a <= b
  {
    if a > b {
      MulAtLeast(a - b, d);
      assert false;
    }
  }

  /** Multiplying by a positive real keeps strict order. */
  lemma RealMulLess(x: real, y: real, d: real)
    requires x < y && d > 0.0
    ensures x * d < y * d
  {
    assert y * d - x * d == (y - x) * d;
  }

  /** Rounding down a quotient of reals that are integers agrees with
      integer division. */
  lemma FloorDiv(a: int, d: int)
    requires a >= 0 && d > 0
    ensures ((a as real) / (d as real)).Floor == a / d
  {
    var q := a / d;
    var y := (a as real) / (d as real);
    DivModUnique(a, d, q, a % d);
    assert y * (d as real) == a as real;
    assert (q as real) * (d as real) <= a as real by {
      assert q * d <= a;
    }
    assert a as real < ((q + 1) as real) * (d as real) by {
      assert a < (q + 1) * d;
    }
    if y < q as real {
      RealMulLess(y, q as real, d as real);
      assert false;
    }
    if y >= (q + 1) as real {
      if y > (q + 1) as real {
        RealMulLess((q + 1) as real, y, d as real);
      }
      assert false;
    }
  }
}
