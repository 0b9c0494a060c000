/** Bitwise conjunction on naturals, and the power-of-two masks the queues and the order index rely on. */
module Bits {

  const TWO_32: int := 0x1_0000_0000
  const TWO_64: int := 0x1_0000_0000_0000_0000

  /** `x & y` in C++ terms. */
  function And(x: nat, y: nat): nat
  {
    if x == 0 || y == 0 then 0 else 2 * And(x / 2, y / 2) + (if x % 2 == 1 && y % 2 == 1 then 1 else 0)
  }

  /** The constraint `Capacity > 0 && (Capacity & (Capacity - 1)) == 0`. */
  predicate IsPowerOfTwo(c: nat)
  {
    c > 0 && And(c, c - 1) == 0
  }

  lemma {:induction false} AndSelf(x: nat)
    ensures And(x, x) == x
  {
    if x == 0 {
    } else {
      AndSelf(x / 2);
    }
  }

  /** A power of two is 1 or twice a power of two. */
  lemma PowerOfTwoHalves(c: nat)
    requires IsPowerOfTwo(c)
    ensures c == 1 || (c % 2 == 0 && IsPowerOfTwo(c / 2))
  {
    if c % 2 == 1 {
      AndSelf(c / 2);
    }
  }

  lemma RemainderByDouble(x: nat, m: nat)
    requires m > 0
    ensures x % (2 * m) == 2 * ((x / 2) % m) + x % 2
  {
    var q, r := (x / 2) / m, (x / 2) % m;
    assert x == q * (2 * m) + (2 * r + x % 2);
    QuotientUnique(x, 2 * m, q, 2 * r + x % 2);
  }

  lemma TimesAtLeast(k: int, d: int)
    requires d > 0
    ensures k >= 1 ==> k * d >= d
    ensures k <= -1 ==> k * d <= -d
  {
  }

  lemma QuotientUnique(x: int, d: int, q: int, r: int)
    requires d > 0 && 0 <= r < d && x == q * d + r
    ensures x % d == r && x / d == q
  {
    var q', r' := x / d, x % d;
    assert (q - q') * d == r' - r;
    TimesAtLeast(q - q', d);
  }

  /** Masking with `c - 1` is the remainder by `c`, for every power of two. */
  lemma {:induction false} MaskIsRemainder(x: nat, c: nat)
    requires IsPowerOfTwo(c)
    ensures And(x, c - 1) == x % c
    decreases c
  {
    PowerOfTwoHalves(c);
    if c > 1 {
      MaskIsRemainder(x / 2, c / 2);
      RemainderByDouble(x, c / 2);
      assert (c - 1) / 2 == c / 2 - 1 && (c - 1) % 2 == 1;
    }
  }

  function Pow2(k: nat): (r: nat)
    ensures r > 0
  {
    if k == 0 then 1 else 2 * Pow2(k - 1)
  }

  /** The bit test recognises exactly the powers of two. */
  lemma {:induction false} PowerOfTwoIff(c: nat)
    ensures IsPowerOfTwo(c) <==> exists k: nat :: c == Pow2(k)
  {
    if IsPowerOfTwo(c) {
      var k := Exponent(c);
    }
    if k: nat :| c == Pow2(k) {
      Pow2IsPowerOfTwo(k);
    }
  }

  lemma {:induction false} Exponent(c: nat) returns (k: nat)
    requires IsPowerOfTwo(c)
    ensures c == Pow2(k)
    decreases c
  {
    PowerOfTwoHalves(c);
    if c == 1 {
      k := 0;
    } else {
      k := Exponent(c / 2);
      k := k + 1;
    }
  }

  lemma {:induction false} Pow2IsPowerOfTwo(k: nat)
    ensures IsPowerOfTwo(Pow2(k))
  {
    if k == 0 {
    } else {
      Pow2IsPowerOfTwo(k - 1);
      var c := Pow2(k);
      assert c / 2 == Pow2(k - 1) && (c - 1) / 2 == Pow2(k - 1) - 1;
    }
  }

  /** A power of two no larger than another divides it. */
  lemma {:induction false} PowerOfTwoDivides(c: nat, k: nat)
    requires IsPowerOfTwo(c) && c <= Pow2(k)
    ensures Pow2(k) % c == 0
    decreases c
  {
    PowerOfTwoHalves(c);
    if c > 1 {
      PowerOfTwoDivides(c / 2, k - 1);
      RemainderByDouble(Pow2(k), c / 2);
    }
  }

  lemma TwoTo64()
    ensures Pow2(64) == TWO_64
  {
    assert Pow2(8) == 256;
    Pow2Adds(8, 8);
    Pow2Adds(16, 16);
    Pow2Adds(32, 32);
  }

  lemma {:induction false} Pow2Adds(a: nat, b: nat)
    ensures Pow2(a + b) == Pow2(a) * Pow2(b)
  {
    if a == 0 {
    } else {
      Pow2Adds(a - 1, b);
    }
  }

  /** The 64-bit difference `(h - t) & (c - 1)` of two ring positions. */
  function MaskedDifference(h: nat, t: nat, c: nat): nat
    requires c > 0 && h < TWO_64 && t < TWO_64
  {
    And((h - t + TWO_64) % TWO_64, c - 1)
  }

  lemma BackOneLap(d: nat, c: nat, w: nat)
    requires 0 < d < c <= w && w % c == 0
    ensures (w - d) % c == c - d
  {
    var k := w / c;
    assert w == k * c;
    assert w - d == (k - 1) * c + (c - d);
    QuotientUnique(w - d, c, k - 1, c - d);
  }

  lemma DistanceModulo(h: nat, t: nat, c: nat, w: nat)
    requires h < c && t < c <= w && w % c == 0
    ensures ((h - t + w) % w) % c == (if t <= h then h - t else h - t + c)
  {
    if t <= h {
      QuotientUnique(h - t + w, w, 1, h - t);
      QuotientUnique(h - t, c, 0, h - t);
    } else {
      QuotientUnique(h - t + w, w, 0, h - t + w);
      BackOneLap(t - h, c, w);
    }
  }

  /** It is the forward distance from `t` to `h` around a ring of `c` places. */
  lemma MaskedDifferenceIsDistance(h: nat, t: nat, c: nat)
    requires IsPowerOfTwo(c) && c <= TWO_64 && h < c && t < c
    ensures MaskedDifference(h, t, c) == (if t <= h then h - t else h - t + c)
  {
    TwoTo64();
    PowerOfTwoDivides(c, 64);
    DistanceModulo(h, t, c, TWO_64);
    MaskIsRemainder((h - t + TWO_64) % TWO_64, c);
  }
}
