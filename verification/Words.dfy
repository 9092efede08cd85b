/**
 Python's unbounded non-negative integers under the bit operations the hash uses:
 exclusive or, and rotation within 64 bits. `x & (2^64 - 1)` is written `x % M`.
 */
module Words {
  const M := 0x1_0000_0000_0000_0000

  type word = w: int | 0 <= w < M

  function Pow2(k: nat): (p: nat)
    ensures p > 0
  {
    if k == 0 then 1 else 2 * Pow2(k - 1)
  }

  /** `a ^ b`. */
  function Xor(a: nat, b: nat): nat {
    if a == 0 && b == 0 then 0
    else (if a % 2 == b % 2 then 0 else 1) + 2 * Xor(a / 2, b / 2)
  }

  /** `a | b`. */
  function Or(a: nat, b: nat): nat {
    if a == 0 && b == 0 then 0
    else (if a % 2 == 0 && b % 2 == 0 then 0 else 1) + 2 * Or(a / 2, b / 2)
  }

  /** `x << s`. */
  function Shl(x: nat, s: nat): nat {
    if s == 0 then x else 2 * Shl(x, s - 1)
  }

  /** `x >> s`. */
  function Shr(x: nat, s: nat): nat {
    if s == 0 then x else Shr(x / 2, s - 1)
  }

  /** The low s bits of x. */
  function Low(x: nat, s: nat): nat {
    if s == 0 then 0 else x % 2 + 2 * Low(x / 2, s - 1)
  }

  /** `_rotl`: the two shifted copies or-ed together and masked. */
  function Rotl(x: word, r: nat): word
    requires r <= 64
  {
    Or(Shl(x, r), Shr(x, 64 - r)) % M
  }

  // ------------------------------------------------------------ powers

  lemma Pow2Values()
    ensures Pow2(64) == M
  {
    assert Pow2(8) == 256;
    Pow2Sum(8, 8);
    assert Pow2(16) == 0x1_0000;
    Pow2Sum(16, 16);
    assert Pow2(32) == 0x1_0000_0000;
    Pow2Sum(32, 32);
  }

  lemma {:induction false} Pow2Sum(a: nat, b: nat)
    ensures Pow2(a + b) == Pow2(a) * Pow2(b)
  {
    if a > 0 {
      Pow2Sum(a - 1, b);
    }
  }

  lemma {:induction false} Pow2Monotone(a: nat, b: nat)
    requires a <= b
    ensures Pow2(a) <= Pow2(b)
  {
    if a < b {
      Pow2Monotone(a, b - 1);
    }
  }

  // ------------------------------------------------------------ exclusive or

  lemma {:induction false} XorBound(a: nat, b: nat, k: nat)
    requires a < Pow2(k) && b < Pow2(k)
    ensures Xor(a, b) < Pow2(k)
  {
    if a != 0 || b != 0 {
      XorBound(a / 2, b / 2, k - 1);
    }
  }

  /** Exclusive or with the same value twice is nothing. */
  lemma {:induction false} XorCancel(a: nat, b: nat)
    ensures Xor(Xor(a, b), b) == a
  {
    if a != 0 || b != 0 {
      XorCancel(a / 2, b / 2);
    }
  }

  lemma {:induction false} XorZero(a: nat)
    ensures Xor(a, 0) == a
  {
    if a != 0 {
      XorZero(a / 2);
    }
  }

  /** Shifting right commutes with exclusive or. */
  lemma {:induction false} XorShift(a: nat, b: nat, s: nat)
    ensures Shr(Xor(a, b), s) == Xor(Shr(a, s), Shr(b, s))
  {
    if s > 0 {
      XorShift(a / 2, b / 2, s - 1);
    }
  }

  /** x ^ (x >> s) determines x: the top s bits are bare, and each s bits give the next. */
  lemma {:induction false} XorShiftInjective(x: nat, y: nat, s: nat, bits: nat)
    requires 0 < s
    requires x < Pow2(bits) && y < Pow2(bits)
    requires Xor(x, Shr(x, s)) == Xor(y, Shr(y, s))
    ensures x == y
    decreases bits
  {
    ShrBound(x, s, bits);
    ShrBound(y, s, bits);
    if bits <= s {
      XorZero(x);
      XorZero(y);
    } else {
      XorShift(x, Shr(x, s), s);
      XorShift(y, Shr(y, s), s);
      XorShiftInjective(Shr(x, s), Shr(y, s), s, bits - s);
      XorCancel(x, Shr(x, s));
      XorCancel(y, Shr(y, s));
    }
  }

  lemma {:induction false} ShrBound(x: nat, s: nat, bits: nat)
    requires x < Pow2(bits)
    ensures Shr(x, s) < Pow2(if s <= bits then bits - s else 0)
  {
    if bits == 0 {
      ShrZero(s);
    } else if s > 0 {
      ShrBound(x / 2, s - 1, bits - 1);
    }
  }

  lemma {:induction false} ShrZero(s: nat)
    ensures Shr(0, s) == 0
  {
    if s > 0 {
      ShrZero(s - 1);
    }
  }

  // ------------------------------------------------------------ rotation

  /** Bits that do not overlap: or is addition. */
  lemma {:induction false} OrDisjoint(a: nat, b: nat, r: nat)
    requires b < Pow2(r)
    ensures Or(Shl(a, r), b) == Shl(a, r) + b
  {
    if r == 0 {
      OrZero(a);
    } else if Shl(a, r) != 0 || b != 0 {
      OrDisjoint(a, b / 2, r - 1);
    }
  }

  lemma {:induction false} OrZero(a: nat)
    ensures Or(a, 0) == a
  {
    if a != 0 {
      OrZero(a / 2);
    }
  }

  lemma {:induction false} ShlSum(a: nat, b: nat, s: nat)
    ensures Shl(a + b, s) == Shl(a, s) + Shl(b, s)
  {
    if s > 0 {
      ShlSum(a, b, s - 1);
    }
  }

  lemma {:induction false} ShlTwice(a: nat, s: nat, t: nat)
    ensures Shl(Shl(a, s), t) == Shl(a, s + t)
  {
    if t > 0 {
      ShlTwice(a, s, t - 1);
    }
  }

  lemma {:induction false} ShlIsProduct(a: nat, s: nat)
    ensures Shl(a, s) == a * Pow2(s)
  {
    if s > 0 {
      ShlIsProduct(a, s - 1);
    }
  }

  /** A number is its high part shifted back and its low part. */
  lemma {:induction false} SplitAt(x: nat, s: nat)
    ensures x == Shl(Shr(x, s), s) + Low(x, s)
    ensures Low(x, s) < Pow2(s)
  {
    if s > 0 {
      SplitAt(x / 2, s - 1);
    }
  }

  /** The parts are the only ones that add up. */
  lemma {:induction false} PartsUnique(a: nat, b: nat, s: nat)
    requires b < Pow2(s)
    ensures Shr(Shl(a, s) + b, s) == a
    ensures Low(Shl(a, s) + b, s) == b
  {
    if s > 0 {
      PartsUnique(a, b / 2, s - 1);
      assert (Shl(a, s) + b) / 2 == Shl(a, s - 1) + b / 2;
    }
  }

  /** A rotation moves the top r bits below the rest. */
  lemma RotlSplits(x: word, r: nat)
    requires r <= 64
    ensures Rotl(x, r) == Shl(Low(x, 64 - r), r) + Shr(x, 64 - r)
    ensures Shr(x, 64 - r) < Pow2(r)
  {
    var hi, lo := Shr(x, 64 - r), Low(x, 64 - r);
    Pow2Values();
    SplitAt(x, 64 - r);
    ShrBound(x, 64 - r, 64);
    OrDisjoint(x, hi, r);
    ShlSum(Shl(hi, 64 - r), lo, r);
    ShlTwice(hi, 64 - r, r);
    ShlIsProduct(hi, 64);
    ShlBelow(lo, 64 - r, r, hi);
    ModIs(Or(Shl(x, r), hi), hi, Shl(lo, r) + hi);
  }

  lemma {:induction false} ShlBelow(lo: nat, k: nat, r: nat, hi: nat)
    requires lo < Pow2(k) && hi < Pow2(r)
    ensures Shl(lo, r) + hi < Pow2(k + r)
  {
    if r > 0 {
      ShlBelow(lo, k, r - 1, hi / 2);
    }
  }

  lemma ModIs(m: nat, k: nat, rest: nat)
    requires m == k * M + rest && rest < M
    ensures m % M == rest
  {
  }

  lemma RotlInjective(x: word, y: word, r: nat)
    requires r <= 64
    requires Rotl(x, r) == Rotl(y, r)
    ensures x == y
  {
    RotlSplits(x, r);
    RotlSplits(y, r);
    PartsUnique(Low(x, 64 - r), Shr(x, 64 - r), r);
    PartsUnique(Low(y, 64 - r), Shr(y, 64 - r), r);
    SplitAt(x, 64 - r);
    SplitAt(y, 64 - r);
  }

  // ------------------------------------------------------------ multiplication

  /** Multiplying by a unit modulo 2^64 loses nothing. */
  lemma UnitInverse(x: word, p: nat, inv: nat)
    requires (p * inv) % M == 1
    ensures (x * p % M) * inv % M == x
  {
    var k, j := x * p / M, p * inv / M;
    assert x * p % M == x * p - k * M;
    assert p * inv == j * M + 1;
    calc {
      (x * p % M) * inv;
      (x * p - k * M) * inv;
      { DistributeMinus(x * p, k * M, inv); }
      (x * p) * inv - (k * M) * inv;
      { Associate(x, p, inv); Associate(k, M, inv); }
      x * (p * inv) - k * (M * inv);
      { assert x * (j * M + 1) == x * (j * M) + x; Associate(x, j, M); Associate(k, inv, M); }
      (x * j) * M + x - (k * inv) * M;
      { DistributeMinus(x * j, k * inv, M); }
      (x * j - k * inv) * M + x;
    }
    ModShift(x, x * j - k * inv);
  }

  lemma Associate(a: int, b: int, c: int)
    ensures (a * b) * c == a * (b * c)
  {
  }

  lemma DistributeMinus(a: int, b: int, c: int)
    ensures (a - b) * c == a * c - b * c
  {
  }

  lemma ModShift(x: word, t: int)
    ensures (t * M + x) % M == x
  {
  }

  /** Adding a constant modulo 2^64 loses nothing. */
  lemma AddInjective(x: word, y: word, c: int)
    requires (x + c) % M == (y + c) % M
    ensures x == y
  {
  }
}
