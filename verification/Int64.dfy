/** Two's-complement 64-bit arithmetic as Go's `int64` (and so `time.Duration`) performs it. */
module Int64 {
  /** `time.Second`, in nanoseconds. */
  const SECOND: int := 1_000_000_000

  const TWO_63: int := 0x8000_0000_0000_0000
  const TWO_64: int := 0x1_0000_0000_0000_0000

  function Pow2(k: nat): (p: nat)
    ensures p >= 1
  {
    if k == 0 then 1 else 2 * Pow2(k - 1)
  }

  /** The int64 with the same low 64 bits as x. */
  function Wrap(x: int): (w: int)
    ensures -TWO_63 <= w < TWO_63 && (x - w) % TWO_64 == 0
  {
    var r := x % TWO_64;
    if r < TWO_63 then r else r - TWO_64
  }

  /** Go's `x << k` on an int64; shift counts of 64 and more yield 0. */
  function Shl(x: int, k: nat): (w: int) {
    Wrap(x * Pow2(k))
  }

  lemma {:induction false} Pow2Add(j: nat, k: nat)
    ensures Pow2(j + k) == Pow2(j) * Pow2(k)
    decreases k
  {
    if k > 0 {
      Pow2Add(j, k - 1);
      assert Pow2(j) * Pow2(k) == 2 * (Pow2(j) * Pow2(k - 1));
    }
  }

  lemma {:induction false} Pow2Monotone(j: nat, k: nat)
    requires j <= k
    ensures Pow2(j) <= Pow2(k)
    decreases k
  {
    if j < k {
      Pow2Monotone(j, k - 1);
    }
  }

  lemma Pow2Of64()
    ensures Pow2(4) == 16 && Pow2(64) == TWO_64 == 2 * TWO_63
  {
    Pow2Add(16, 16);
    Pow2Add(32, 32);
    assert Pow2(8) == 0x100;
    Pow2Add(8, 8);
  }

  /** A multiple of d stays a multiple of d modulo any multiple of d. */
  lemma MultipleMod(x: int, d: int, m: int)
    requires d > 0 && m > 0
    requires x % d == 0 && m % d == 0
    ensures (x % m) % d == 0
  {
    var a, b, q := x / d, m / d, x / m;
    assert x % m == x - q * m;
    assert x == d * a && m == d * b;
    assert q * m == d * (q * b) by { assert q * (d * b) == d * (q * b); }
    assert x % m == d * (a - q * b);
    ModOfProduct(a - q * b, d);
  }

  lemma ModOfProduct(c: int, d: int)
    requires d > 0
    ensures (d * c) % d == 0
  {
    var q := (d * c) / d;
    assert 0 <= d * c - d * q < d;
    MultipleAwayFromZero(d, c - q);
  }

  lemma MultipleAwayFromZero(d: int, x: int)
    requires d > 0
    ensures x >= 1 ==> d * x >= d
    ensures x <= -1 ==> d * x <= -d
  {
  }
}
