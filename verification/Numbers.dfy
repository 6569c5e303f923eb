// Arithmetic shared by the formats and the version algebra.

module Numbers {
  function Max(a: nat, b: nat): nat { if a < b then b else a }

  function Pow(f: nat, n: nat): nat { if n == 0 then 1 else f * Pow(f, n - 1) }

  function Times(a: nat, b: nat): nat { a * b }

  /** Bit `bit` of a number, least significant first. */
  predicate TestBit(b: nat, bit: nat)
    decreases bit
  {
    if bit == 0 then b % 2 == 1 else TestBit(b / 2, bit - 1)
  }

  // -------------------------------------------------------------- quotients

  lemma QuotientIs(b: int, w: int, q: int, r: int)
    requires w > 0 && b == q * w + r && 0 <= r < w
    ensures b / w == q && b % w == r
  {
    var d := b / w;
    assert d * w <= b < (d + 1) * w;
    if d < q {
      Scaled(d + 1, q, w);
    } else if d > q {
      Scaled(q + 1, d, w);
    }
  }

  lemma Scaled(a: int, b: int, w: int)
    requires a <= b && w > 0
    ensures a * w <= b * w
  {
  }

  /** Adding before or after taking the remainder. */
  lemma RemainderOfSum(a: nat, step: nat, m: nat)
    requires m > 0
    ensures (a + step) % m == (a % m + step) % m
  {
    var q, r := a / m, a % m + step;
    assert a + step == q * m + r && r == r / m * m + r % m;
    assert (q + r / m) * m == q * m + r / m * m;
    QuotientIs(a + step, m, q + r / m, r % m);
  }
}
