/** Bucket alignment: rounding a timestamp up to a multiple of the interval. */
module Alignment {
  import opened Samples

  lemma MulAtLeast(m: nat, d: int)
    requires d >= 1
    ensures m * d >= m
    decreases d
  {
    if d > 1 {
      MulAtLeast(m, d - 1);
      assert m * d == m * (d - 1) + m;
    }
  }

  lemma MulLess(i: nat, j: nat, m: nat)
    requires i < j && m > 0
    ensures i * m < j * m
  {
    MulAtLeast(m, j - i);
    assert j * m - i * m == m * (j - i);
  }

  /** Euclidean division is unique: quotient and remainder are determined by `x` and `m`. */
  lemma DivModUnique(x: int, m: int, q: int, r: int)
    requires m > 0 && 0 <= r < m && x == m * q + r
    ensures x / m == q && x % m == r
  {
    var q', r' := x / m, x % m;
    assert x == m * q' + r';
    if q > q' {
      assert m * (q - q') == m * q - m * q';
      MulAtLeast(m, q - q');
    } else if q < q' {
      assert m * (q' - q) == m * q' - m * q;
      MulAtLeast(m, q' - q);
    }
  }

  /** `m * k` is a multiple of `m`. */
  lemma MultipleMod(m: nat, k: int)
    requires m > 0
    ensures (m * k) % m == 0
  {
    DivModUnique(m * k, m, k, 0);
  }

  /** Adding whole steps to a multiple of `m` gives a multiple of `m`. */
  lemma MultipleStep(lo: nat, j: nat, m: nat)
    requires m > 0 && lo % m == 0
    ensures (lo + j * m) % m == 0
  {
    assert lo == m * (lo / m);
    assert lo + j * m == m * (lo / m + j);
    MultipleMod(m, lo / m + j);
  }

  /** Stepping `x` up by `m` adds one to its quotient and keeps its remainder. */
  lemma DivModStep(x: int, m: int)
    requires m > 0
    ensures (x + m) / m == x / m + 1 && (x + m) % m == x % m
  {
    DivModUnique(x + m, m, x / m + 1, x % m);
  }

  /**
   * Rounds `n` up to the nearest multiple of `m`: `n` itself when it is a
   * multiple, otherwise the next one above it.
   */
  function FindClosestMultiple(n: nat, m: nat): (r: nat)
    requires m > 0
    ensures r % m == 0
    ensures n <= r < n + m
    ensures n % m == 0 ==> r == n
  {
    if n % m == 0 then n
    else
      var q := n / m;
      assert n == m * q + n % m;
      MultipleMod(m, q + 1);
      m * (q + 1)
  }

  /** The result is the least multiple of `m` that is not below `n`. */
  lemma FindClosestMultipleIsLeast(n: nat, m: nat, k: nat)
    requires m > 0 && k % m == 0 && n <= k
    ensures FindClosestMultiple(n, m) <= k
  {
    var r := FindClosestMultiple(n, m);
    if k < r {
      MultiplesApart(k, r, m);
    }
  }

  /** Two different multiples of `m` are at least `m` apart. */
  lemma MultiplesApart(x: nat, y: nat, m: nat)
    requires m > 0 && x % m == 0 && y % m == 0 && x < y
    ensures y - x >= m
  {
    var a, b := x / m, y / m;
    assert x == m * a && y == m * b;
    if b < a {
      MulLess(b, a, m);
    }
    assert y - x == m * (b - a);
    MulAtLeast(m, b - a);
  }

  /** Aligning an aligned timestamp changes nothing. */
  lemma FindClosestMultipleIdempotent(n: nat, m: nat)
    requires m > 0
    ensures FindClosestMultiple(FindClosestMultiple(n, m), m) == FindClosestMultiple(n, m)
  {
  }

  /**
   * The source's computation as written, in uint32 arithmetic: the product
   * `m * (quotient + 1)` is taken modulo 2^32. It agrees with
   * `FindClosestMultiple` whenever the rounded-up value fits in 32 bits.
   */
  function FindClosestMultipleU32(n: nat, m: nat): (r: nat)
    requires 0 < m < U32Limit && n < U32Limit
    ensures r < U32Limit
    ensures FindClosestMultiple(n, m) < U32Limit ==> r == FindClosestMultiple(n, m)
  {
    if n % m == 0 then n else (m * (n / m + 1)) % U32Limit
  }

  /** Near the top of the uint32 range the product wraps and the result lands far below `n`. */
  lemma FindClosestMultipleU32Wraps()
    ensures FindClosestMultipleU32(0xFFFF_FFFF, 10) == 4
    ensures FindClosestMultiple(0xFFFF_FFFF, 10) == 0x1_0000_0004
  {
    assert 0xFFFF_FFFF / 10 == 429496729 && 0xFFFF_FFFF % 10 == 5;
    assert 10 * (429496729 + 1) == 0x1_0000_0004;
  }

  /** When the interval divides 2^32, a timestamp within one interval of 2^32 wraps to 0. */
  lemma FindClosestMultipleU32WrapsToZero()
    ensures FindClosestMultipleU32(0xFFFF_FFFF, 16) == 0
    ensures FindClosestMultiple(0xFFFF_FFFF, 16) == 0x1_0000_0000
  {
    assert 0xFFFF_FFFF / 16 == 268435455 && 0xFFFF_FFFF % 16 == 15;
    assert 16 * (268435455 + 1) == 0x1_0000_0000;
  }
}
