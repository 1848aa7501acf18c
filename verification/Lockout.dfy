/** The escalating lockout length of the login limiter, computed with a shift that wraps. */
module Lockout {
  import opened Int64

  /** Durations a limiter can be built with so that the 16-fold cap itself does not wrap. */
  predicate Representable(base: int) {
    0 < base && 16 * base < TWO_63
  }

  /** The shift, the cap and the guard against overflow, at backoff level `level`. */
  function Duration(base: int, level: nat): (d: int)
    requires level >= 1
  {
    var shifted := Shl(base, level - 1);
    var cap := Wrap(base * 16);
    if shifted > cap || shifted <= 0 then cap else shifted
  }

  /** What the limiter documents: base, 2*base, 4*base, ... capped at 16*base. */
  function Documented(base: int, level: nat): (d: int)
    requires level >= 1
  {
    if level <= 4 then base * Pow2(level - 1) else 16 * base
  }

  /** The wrapped product at shift count k is a small positive number the guard cannot see. */
  predicate SlipsThrough(base: int, k: nat) {
    k >= 4 && 0 < (base * Pow2(k)) % TWO_64 < 16 * base
  }

  /** No shift count makes the product slip past the overflow guard. */
  ghost predicate Saturates(base: int) {
    forall k: nat :: !SlipsThrough(base, k)
  }

  lemma DocumentedIsMin(base: int, level: nat)
    requires base > 0 && level >= 1
    ensures Documented(base, level) <= base * Pow2(level - 1)
    ensures base <= Documented(base, level) <= 16 * base
    ensures Documented(base, level) == base * Pow2(level - 1) || Documented(base, level) == 16 * base
    ensures level >= 5 ==> Documented(base, level) == 16 * base
  {
    Pow2Of64();
    if level >= 5 {
      Pow2Monotone(4, level - 1);
      assert base * Pow2(level - 1) >= base * 16;
    } else {
      Pow2Monotone(level - 1, 4);
      assert base * 1 <= base * Pow2(level - 1) <= base * 16;
    }
  }

  /** Whatever the shift does, a lockout is positive and never above the cap. */
  lemma DurationBounds(base: int, level: nat)
    requires Representable(base) && level >= 1
    ensures 0 < Duration(base, level) <= 16 * base
  {
  }

  /** The computed lockout is the documented one exactly when the product does not slip through. */
  lemma DurationExact(base: int, level: nat)
    requires Representable(base) && level >= 1
    ensures Duration(base, level) == Documented(base, level) <==> !SlipsThrough(base, level - 1)
  {
    var k := level - 1;
    var product := base * Pow2(k);
    if level <= 4 {
      assert Pow2(0) == 1 && Pow2(1) == 2 && Pow2(2) == 4 && Pow2(3) == 8;
      assert 0 < product <= 8 * base < TWO_63;
    }
  }

  /** All levels are right iff no shift count slips through, and only counts below 64 can. */
  lemma AllLevelsExact(base: int)
    requires Representable(base)
    ensures Saturates(base) <==> forall level: nat :: level >= 1 ==> Duration(base, level) == Documented(base, level)
    ensures Saturates(base) <==> forall k: nat :: k < 64 ==> !SlipsThrough(base, k)
  {
    forall level: nat | level >= 1
      ensures Duration(base, level) == Documented(base, level) <==> !SlipsThrough(base, level - 1)
    {
      DurationExact(base, level);
    }
    forall k: nat ensures !SlipsThrough(base, k) <==> Duration(base, k + 1) == Documented(base, k + 1) {
      DurationExact(base, k + 1);
    }
    forall k: nat | k >= 64 ensures !SlipsThrough(base, k) {
      LongShiftIsZero(base, k);
    }
  }

  lemma LongShiftIsZero(base: int, k: nat)
    requires k >= 64
    ensures (base * Pow2(k)) % TWO_64 == 0
  {
    Pow2Of64();
    Pow2Add(64, k - 64);
    assert base * Pow2(k) == TWO_64 * (base * Pow2(k - 64));
    ModOfProduct(base * Pow2(k - 64), TWO_64);
  }

  /** A sufficient test: 2^a divides base, products below shift count `first` do not overflow,
      and 2^(first + a) exceeds the cap. */
  lemma EnoughTrailingZeros(base: int, a: nat, first: nat)
    requires Representable(base)
    requires base % Pow2(a) == 0
    requires forall k: nat :: k < first ==> base * Pow2(k) < TWO_64
    requires Pow2(first + a) > 16 * base
    ensures Saturates(base)
  {
    forall k: nat ensures !SlipsThrough(base, k) {
      if k >= 64 {
        LongShiftIsZero(base, k);
      } else if 4 <= k < first {
        ExactIsLarge(base, k);
      } else if k >= 4 {
        WrappedIsZeroOrLarge(base, a, first, k);
      }
    }
  }

  lemma ExactIsLarge(base: int, k: nat)
    requires base > 0 && k >= 4 && base * Pow2(k) < TWO_64
    ensures !SlipsThrough(base, k)
  {
    Pow2Of64();
    Pow2Monotone(4, k);
    TimesMonotone(base, 16, Pow2(k));
    SmallMod(base * Pow2(k), TWO_64);
  }

  lemma TimesMonotone(b: int, x: int, y: int)
    requires b >= 0 && x <= y
    ensures b * x <= b * y
  {
  }

  lemma SmallMod(x: int, m: int)
    requires 0 <= x < m
    ensures x % m == x
  {
  }

  lemma WrappedIsZeroOrLarge(base: int, a: nat, first: nat, k: nat)
    requires Representable(base) && base % Pow2(a) == 0 && first <= k
    requires Pow2(first + a) > 16 * base
    ensures !SlipsThrough(base, k)
  {
    ProductKeepsZeros(base, a, k);
    if k + a < 64 {
      ResidueKeepsZeros(base * Pow2(k), k + a);
      Pow2Monotone(first + a, k + a);
      SmallResidueIsZero((base * Pow2(k)) % TWO_64, Pow2(k + a), 16 * base);
    }
  }

  /** Multiplying by 2^k adds k trailing zeros; with 64 of them the low 64 bits vanish. */
  lemma ProductKeepsZeros(base: int, a: nat, k: nat)
    requires base % Pow2(a) == 0
    ensures (base * Pow2(k)) % Pow2(k + a) == 0
    ensures k + a >= 64 ==> (base * Pow2(k)) % TWO_64 == 0
  {
    var odd := base / Pow2(a);
    Pow2Add(k, a);
    assert base * Pow2(k) == Pow2(k + a) * odd by {
      assert base == Pow2(a) * odd;
      assert (Pow2(a) * odd) * Pow2(k) == (Pow2(k) * Pow2(a)) * odd;
    }
    ModOfProduct(odd, Pow2(k + a));
    if k + a >= 64 {
      LongShiftIsZero(odd, k + a);
    }
  }

  lemma ResidueKeepsZeros(x: int, j: nat)
    requires j < 64 && x % Pow2(j) == 0
    ensures (x % TWO_64) % Pow2(j) == 0
  {
    Pow2Of64();
    Pow2Add(j, 64 - j);
    ModOfProduct(Pow2(64 - j), Pow2(j));
    MultipleMod(x, Pow2(j), TWO_64);
  }

  lemma SmallResidueIsZero(r: int, d: int, bound: int)
    requires 0 <= r && d > bound && d > 0 && r % d == 0
    ensures !(0 < r < bound)
  {
  }

  /** The default base of one minute (in nanoseconds) is safe at every level. */
  lemma OneMinuteSaturates()
    ensures Representable(60_000_000_000) && Saturates(60_000_000_000)
  {
    Pow2Of64();
    assert Pow2(8) == 0x100;
    Pow2Add(8, 3);
    Pow2Add(8, 8);
    Pow2Add(16, 12); Pow2Add(8, 4);
    Pow2Add(32, 8); Pow2Add(16, 16);
    assert Pow2(11) == 2048 && Pow2(28) == 0x1000_0000 && Pow2(40) == 0x100_0000_0000;
    forall k: nat | k < 29 ensures 60_000_000_000 * Pow2(k) < TWO_64 {
      Pow2Monotone(k, 28);
    }
    EnoughTrailingZeros(60_000_000_000, 11, 29);
  }

  /** The side condition is needed: with base 2^40 + 1 the 25th lockout lasts 2^24 ns, below base. */
  lemma WrapCounterexample()
    ensures var base := 0x100_0000_0001;
            && Representable(base) && SlipsThrough(base, 24)
            && Duration(base, 25) == 0x100_0000 < base
  {
    assert Pow2(8) == 0x100;
    Pow2Add(8, 8);
    Pow2Add(16, 8);
  }
}
