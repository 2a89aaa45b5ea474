/** Powers of two, rounding and bitwise operations on natural numbers.

    The C code works with shifts and masks on unsigned words. A shift by k is a
    multiplication or division by Pow2(k); BitAnd and BitOr are the bitwise
    operations themselves, and the lemmas say when they are div/mod arithmetic. */
module Arith {

  function Pow2(n: nat): (p: nat)
    ensures p > 0
  {
    if n == 0 then 1 else 2 * Pow2(n - 1)
  }

  lemma {:induction false} Pow2Add(a: nat, b: nat)
    ensures Pow2(a + b) == Pow2(a) * Pow2(b)
  {
    if a == 0 {
    } else {
      Pow2Add(a - 1, b);
      assert Pow2(a + b) == 2 * Pow2(a - 1 + b);
    }
  }

  lemma {:induction false} Pow2Monotone(a: nat, b: nat)
    requires a <= b
    ensures Pow2(a) <= Pow2(b)
    decreases b - a
  {
    if a < b {
      Pow2Monotone(a, b - 1);
    }
  }

  lemma Pow2Values()
    ensures Pow2(9) == 512
    ensures Pow2(12) == 4096
    ensures Pow2(30) == 0x4000_0000
    ensures Pow2(32) == 0x1_0000_0000
    ensures Pow2(63) == 0x8000_0000_0000_0000
  {
    assert Pow2(4) == 16;
    assert Pow2(8) == 256;
    assert Pow2(9) == 512;
    assert Pow2(12) == 4096;
    assert Pow2(15) == 32768;
    Pow2Add(15, 15);
    Pow2Add(30, 2);
    assert Pow2(2) == 4;
    Pow2Add(32, 30);
    assert Pow2(63) == 2 * Pow2(62);
  }

  lemma NonzeroMultiple(e: int, d: int)
    requires d > 0 && e != 0
    ensures e * d >= d || e * d <= -d
  {
    if e >= 1 {
      assert (e - 1) * d >= 0;
    } else {
      assert (-1 - e) * d >= 0;
    }
  }

  lemma DivModUnique(x: int, d: nat, q: int, r: int)
    requires d > 0 && 0 <= r < d && x == q * d + r
    ensures x / d == q && x % d == r
  {
    var q', r' := x / d, x % d;
    assert x == q' * d + r';
    var e := q - q';
    assert e * d == q * d - q' * d;
    if e != 0 {
      NonzeroMultiple(e, d);
    }
  }

  lemma DivModFacts(x: nat, d: nat)
    requires d > 0
    ensures x == x / d * d + x % d && 0 <= x % d < d && x / d >= 0
  {}

  lemma SmallMod(x: nat, p: nat)
    requires x < p
    ensures x % p == x
  {}

  lemma DivDiv(x: nat, a: nat, b: nat)
    requires a > 0 && b > 0
    ensures a * b > 0
    ensures x / a / b == x / (a * b)
  {
    DivModFacts(x, a);
    DivModFacts(x / a, b);
    DivDivDigits(x, a, b, x / a, x / a / b, x / a % b, x % a);
  }

  lemma DivDivDigits(x: nat, a: nat, b: nat, q: nat, p: nat, s: nat, r: nat)
    requires r < a && s < b
    requires x == q * a + r && q == p * b + s
    ensures a * b > 0
    ensures x / (a * b) == p
  {
    MixedRadix(a, b, p, s, r);
    DivModUnique(x, a * b, p, s * a + r);
  }

  /** Three-digit mixed-radix numerals: the low two digits stay below a * b. */
  lemma MixedRadix(a: nat, b: nat, p: nat, s: nat, r: nat)
    requires r < a && s < b
    ensures s * a + r < a * b
    ensures (p * b + s) * a + r == p * (a * b) + (s * a + r)
  {
    MulMonotone(s, b - 1, a);
    assert (b - 1) * a == a * b - a;
    assert (p * b + s) * a == p * b * a + s * a;
    assert p * b * a == p * (a * b);
  }

  lemma MulMonotone(a: nat, b: nat, d: nat)
    requires a <= b
    ensures a * d <= b * d
  {}

  /** n * d as a sum, for bounds that only need its linear laws. */
  function Times(n: nat, d: nat): nat
  {
    if n == 0 then 0 else d + Times(n - 1, d)
  }

  lemma {:induction false} TimesIsProduct(n: nat, d: nat)
    ensures Times(n, d) == n * d
  {
    if n == 0 {
    } else {
      TimesIsProduct(n - 1, d);
      assert (n - 1) * d + d == n * d;
    }
  }

  lemma {:induction false} TimesSplits(n: nat, m: nat, d: nat)
    requires m <= n
    ensures Times(n, d) == Times(m, d) + Times(n - m, d)
  {
    if m == 0 {
    } else {
      TimesSplits(n - 1, m - 1, d);
    }
  }

  /** (x + d - 1) & ~(d - 1) for d a power of two: the next multiple of d. */
  function RoundUp(x: nat, d: nat): (r: nat)
    requires d > 0
    ensures x <= r < x + d
    ensures r % d == 0
  {
    var t := x + d - 1;
    assert t == t / d * d + t % d;
    DivModUnique(t - t % d, d, t / d, 0);
    t - t % d
  }

  /** x >> k for an unsigned word, one bit at a time. */
  function Shr(x: nat, k: nat): nat
  {
    if k == 0 then x else Shr(x / 2, k - 1)
  }

  lemma {:induction false} ShrIsDiv(x: nat, k: nat)
    ensures Shr(x, k) == x / Pow2(k)
  {
    if k == 0 {
    } else {
      ShrIsDiv(x / 2, k - 1);
      DivDiv(x, 2, Pow2(k - 1));
    }
  }

  // ---------------------------------------------------------------- bitwise

  function BitAnd(a: nat, b: nat): nat
  {
    if a == 0 || b == 0 then 0
    else 2 * BitAnd(a / 2, b / 2) + (if a % 2 == 1 && b % 2 == 1 then 1 else 0)
  }

  function BitOr(a: nat, b: nat): nat
    decreases a + b
  {
    if a == 0 then b
    else if b == 0 then a
    else 2 * BitOr(a / 2, b / 2) + (if a % 2 == 1 || b % 2 == 1 then 1 else 0)
  }

  /** Masking with 2^k - 1 keeps the remainder modulo 2^k. */
  lemma {:induction false} BitAndMask(x: nat, k: nat)
    ensures BitAnd(x, Pow2(k) - 1) == x % Pow2(k)
  {
    if k == 0 {
    } else {
      var p, m := Pow2(k - 1), Pow2(k) - 1;
      assert Pow2(k) == 2 * p;
      assert m / 2 == p - 1 && m % 2 == 1;
      BitAndMask(x / 2, k - 1);
      HalfMod(x, p);
    }
  }

  lemma HalfMod(x: nat, p: nat)
    requires p > 0
    ensures x % (2 * p) == 2 * (x / 2 % p) + x % 2
  {
    var h := x / 2;
    var q, r := h / p, h % p;
    assert h == q * p + r;
    assert q * (2 * p) == 2 * (q * p);
    DivModUnique(x, 2 * p, q, 2 * r + x % 2);
  }

  /** Or-ing in bits below a multiple of 2^k is addition. */
  lemma {:induction false} BitOrDisjoint(h: nat, k: nat, l: nat)
    requires l < Pow2(k)
    ensures BitOr(h * Pow2(k), l) == h * Pow2(k) + l
  {
    if k == 0 {
    } else {
      var p := Pow2(k - 1);
      assert Pow2(k) == 2 * p;
      assert h * (2 * p) == 2 * (h * p);
      DivModUnique(h * (2 * p), 2, h * p, 0);
      if h * (2 * p) != 0 && l != 0 {
        BitOrDisjoint(h, k - 1, l / 2);
      }
    }
  }

  lemma {:induction false} BitOrCommutes(a: nat, b: nat)
    ensures BitOr(a, b) == BitOr(b, a)
    decreases a + b
  {
    if a != 0 && b != 0 {
      BitOrCommutes(a / 2, b / 2);
    }
  }

  /** Three fields in separate bits: a one at bit k + m, an m-bit field above a
      k-bit field. Or-ing them is adding them, and masks take them apart again. */
  lemma PackFields(k: nat, m: nat, low: nat, mid: nat)
    requires low < Pow2(k) && mid < Pow2(m)
    ensures BitOr(low, BitOr(Pow2(k + m), mid * Pow2(k))) == (Pow2(m) + mid) * Pow2(k) + low
    ensures (Pow2(m) + mid) * Pow2(k) + low < 2 * Pow2(k + m)
    ensures Pow2(k + m) <= (Pow2(m) + mid) * Pow2(k) + low
  {
    hide BitOr, Pow2;
    var p, q := Pow2(k), Pow2(m);
    Pow2Add(k, m);
    FieldsFit(p, q, low, mid);
    BitOrDisjoint(1, k + m, mid * p);
    BitOrDisjoint(q + mid, k, low);
    BitOrCommutes(low, (q + mid) * p);
  }

  lemma FieldsFit(p: nat, q: nat, low: nat, mid: nat)
    requires low < p && mid < q
    ensures mid * p < p * q
    ensures (q + mid) * p == p * q + mid * p
    ensures mid * p + low < p * q
  {
    MulMonotone(mid, q - 1, p);
    assert (q - 1) * p == q * p - p;
  }

  lemma UnpackFields(k: nat, m: nat, low: nat, mid: nat)
    requires low < Pow2(k) && mid < Pow2(m)
    ensures var w := (Pow2(m) + mid) * Pow2(k) + low;
            w % Pow2(k) == low && w / Pow2(k) % Pow2(m) == mid
  {
    DivModUnique((Pow2(m) + mid) * Pow2(k) + low, Pow2(k), Pow2(m) + mid, low);
    DivModUnique(Pow2(m) + mid, Pow2(m), 1, mid);
  }
}
