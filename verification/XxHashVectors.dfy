/**
 Known answers of XXH64: the two of scripts/test_cc_billing.py, and inputs that run every
 part of it.
 */
module XxHashVectors {
  import opened Bytes
  import opened Words
  import opened XxHash

  // ------------------------------------------------------------ evaluating the bit operations

  lemma {:induction false} LowIsRemainder(x: nat, s: nat)
    ensures Shr(x, s) == x / Pow2(s) && Low(x, s) == x % Pow2(s)
  {
    SplitAt(x, s);
    ShlIsProduct(Shr(x, s), s);
    QuotientIs(x, Pow2(s), Shr(x, s), Low(x, s));
  }

  lemma QuotientIs(x: nat, p: nat, q: nat, r: nat)
    requires x == q * p + r && r < p
    ensures x / p == q && x % p == r
  {
    var q', r' := x / p, x % p;
    assert x == q' * p + r';
    assert (q - q') * p == r' - r;
    if q != q' {
      Apart(q - q', p);
    }
  }

  lemma Apart(d: int, p: int)
    requires d != 0 && p >= 0
    ensures d * p >= p || d * p <= -p
  {
  }

  lemma Powers()
    ensures Pow2(1) == 2 && Pow2(7) == 0x80 && Pow2(11) == 0x800 && Pow2(12) == 0x1000 && Pow2(18) == 0x4_0000
    ensures Pow2(23) == 0x80_0000 && Pow2(27) == 0x800_0000 && Pow2(29) == 0x2000_0000 && Pow2(31) == 0x8000_0000
    ensures Pow2(32) == 0x1_0000_0000 && Pow2(33) == 0x2_0000_0000 && Pow2(37) == 0x20_0000_0000
    ensures Pow2(41) == 0x200_0000_0000 && Pow2(46) == 0x4000_0000_0000 && Pow2(52) == 0x10_0000_0000_0000
    ensures Pow2(53) == 0x20_0000_0000_0000 && Pow2(57) == 0x200_0000_0000_0000 && Pow2(63) == 0x8000_0000_0000_0000
  {
  }

  /** A rotation, given the word as its top r bits and the rest. */
  lemma RotlIs(x: word, r: nat, hi: nat, lo: nat, p: nat, q: nat)
    requires r <= 64 && Pow2(r) == p && Pow2(64 - r) == q && x == hi * q + lo && lo < q
    ensures Rotl(x, r) == lo * p + hi
  {
    RotlSplits(x, r);
    LowIsRemainder(x, 64 - r);
    QuotientIs(x, q, hi, lo);
    ShlIsProduct(lo, r);
  }

  // ------------------------------------------------------------ exclusive or, digit by digit

  /** A hexadecimal digit. */
  datatype Digit = Digit(b3: bool, b2: bool, b1: bool, b0: bool)

  const X0 := Digit(false, false, false, false)
  const X1 := Digit(false, false, false, true)
  const X2 := Digit(false, false, true, false)
  const X3 := Digit(false, false, true, true)
  const X4 := Digit(false, true, false, false)
  const X5 := Digit(false, true, false, true)
  const X6 := Digit(false, true, true, false)
  const X7 := Digit(false, true, true, true)
  const X8 := Digit(true, false, false, false)
  const X9 := Digit(true, false, false, true)
  const XA := Digit(true, false, true, false)
  const XB := Digit(true, false, true, true)
  const XC := Digit(true, true, false, false)
  const XD := Digit(true, true, false, true)
  const XE := Digit(true, true, true, false)
  const XF := Digit(true, true, true, true)

  function Bit(b: bool): nat {
    if b then 1 else 0
  }

  function Value(d: Digit): nat {
    (if d.b3 then 8 else 0) + (if d.b2 then 4 else 0) + (if d.b1 then 2 else 0) + (if d.b0 then 1 else 0)
  }

  function DigitXor(a: Digit, b: Digit): Digit {
    Digit(a.b3 != b.b3, a.b2 != b.b2, a.b1 != b.b1, a.b0 != b.b0)
  }

  /** Four digits, the highest first, and eight. */
  function Four(d3: Digit, d2: Digit, d1: Digit, d0: Digit): nat {
    Value(d0) + 0x10 * Value(d1) + 0x100 * Value(d2) + 0x1000 * Value(d3)
  }

  function Hex(d7: Digit, d6: Digit, d5: Digit, d4: Digit, d3: Digit, d2: Digit, d1: Digit, d0: Digit): nat {
    Four(d3, d2, d1, d0) + 0x1_0000 * Four(d7, d6, d5, d4)
  }

  lemma {:induction false} XorBits(k: nat, a: nat, b: nat, x: nat, y: nat)
    requires a < Pow2(k) && b < Pow2(k)
    ensures Xor(a + Pow2(k) * x, b + Pow2(k) * y) == Xor(a, b) + Pow2(k) * Xor(x, y)
  {
    hide Xor;
    if k == 0 {
      XorUnfolds(0, 0);
    } else {
      var p := Pow2(k - 1);
      Associate(2, p, x);
      Associate(2, p, y);
      Associate(2, p, Xor(x, y));
      XorBits(k - 1, a / 2, b / 2, x, y);
      XorStep(a, b, p * x, p * y, p * Xor(x, y));
    }
  }

  /** One more low bit. */
  lemma XorStep(a: nat, b: nat, x: nat, y: nat, z: nat)
    requires Xor(a / 2 + x, b / 2 + y) == Xor(a / 2, b / 2) + z
    ensures Xor(a + 2 * x, b + 2 * y) == Xor(a, b) + 2 * z
  {
    hide Xor;
    XorUnfolds(a + 2 * x, b + 2 * y);
    XorUnfolds(a, b);
  }

  lemma XorUnfolds(a: nat, b: nat)
    ensures Xor(a, b) == (if a % 2 == b % 2 then 0 else 1) + 2 * Xor(a / 2, b / 2)
  {
  }

  lemma XorBit(a: bool, b: bool, x: nat, y: nat)
    ensures Xor(Bit(a) + 2 * x, Bit(b) + 2 * y) == Bit(a != b) + 2 * Xor(x, y)
  {
    hide Xor;
    XorUnfolds(Bit(a) + 2 * x, Bit(b) + 2 * y);
  }

  lemma ValueIs(d: Digit)
    ensures Value(d) == Bit(d.b0) + 2 * (Bit(d.b1) + 2 * (Bit(d.b2) + 2 * Bit(d.b3)))
  {
  }

  lemma XorDigit(a: Digit, b: Digit, x: nat, y: nat)
    ensures Xor(Value(a) + 16 * x, Value(b) + 16 * y) == Value(DigitXor(a, b)) + 16 * Xor(x, y)
  {
    hide Xor, Bit, Value;
    ValueIs(a);
    ValueIs(b);
    ValueIs(DigitXor(a, b));
    var x3, y3 := Bit(a.b3) + 2 * x, Bit(b.b3) + 2 * y;
    var x2, y2 := Bit(a.b2) + 2 * x3, Bit(b.b2) + 2 * y3;
    var x1, y1 := Bit(a.b1) + 2 * x2, Bit(b.b1) + 2 * y2;
    XorBit(a.b3, b.b3, x, y);
    XorBit(a.b2, b.b2, x3, y3);
    XorBit(a.b1, b.b1, x2, y2);
    XorBit(a.b0, b.b0, x1, y1);
  }

  lemma FourXor(a3: Digit, a2: Digit, a1: Digit, a0: Digit, b3: Digit, b2: Digit, b1: Digit, b0: Digit, x: nat, y: nat)
    ensures Xor(Four(a3, a2, a1, a0) + 0x1_0000 * x, Four(b3, b2, b1, b0) + 0x1_0000 * y) ==
      Four(DigitXor(a3, b3), DigitXor(a2, b2), DigitXor(a1, b1), DigitXor(a0, b0)) + 0x1_0000 * Xor(x, y)
  {
    hide Xor, DigitXor, Value;
    var x3, y3 := Value(a3) + 16 * x, Value(b3) + 16 * y;
    var x2, y2 := Value(a2) + 16 * x3, Value(b2) + 16 * y3;
    var x1, y1 := Value(a1) + 16 * x2, Value(b1) + 16 * y2;
    XorDigit(a3, b3, x, y);
    XorDigit(a2, b2, x3, y3);
    XorDigit(a1, b1, x2, y2);
    XorDigit(a0, b0, x1, y1);
  }

  /** Exclusive or of two halves, given their digits. */
  lemma HexXor(x: nat, y: nat, z: nat,
               a7: Digit, a6: Digit, a5: Digit, a4: Digit, a3: Digit, a2: Digit, a1: Digit, a0: Digit,
               b7: Digit, b6: Digit, b5: Digit, b4: Digit, b3: Digit, b2: Digit, b1: Digit, b0: Digit)
    requires x == Hex(a7, a6, a5, a4, a3, a2, a1, a0) && y == Hex(b7, b6, b5, b4, b3, b2, b1, b0)
    requires z == Hex(DigitXor(a7, b7), DigitXor(a6, b6), DigitXor(a5, b5), DigitXor(a4, b4),
                      DigitXor(a3, b3), DigitXor(a2, b2), DigitXor(a1, b1), DigitXor(a0, b0))
    ensures Xor(x, y) == z
  {
    hide Xor, DigitXor, Four;
    FourXor(a7, a6, a5, a4, b7, b6, b5, b4, 0, 0);
    XorUnfolds(0, 0);
    FourXor(a3, a2, a1, a0, b3, b2, b1, b0, Four(a7, a6, a5, a4), Four(b7, b6, b5, b4));
  }

  /** Exclusive or of two words, given their halves. */
  lemma XorIs(a: word, b: word, x: nat, y: nat, u: nat, v: nat)
    requires a == y + 0x1_0000_0000 * x && b == v + 0x1_0000_0000 * u && y < 0x1_0000_0000 && v < 0x1_0000_0000
    ensures XorWord(a, b) == Xor(y, v) + 0x1_0000_0000 * Xor(x, u)
  {
    hide Xor;
    Powers();
    XorBits(32, y, v, x, u);
  }

  // ------------------------------------------------------------ evaluating the steps

  // a word is given to these as the high and the low part that a rotation or a shift makes of it

  lemma RoundIs(acc: word, lane: word, sum: word, hi: nat, lo: nat, result: word)
    requires (acc + lane * P2) % M == sum == hi * 0x2_0000_0000 + lo && lo < 0x2_0000_0000
    requires (lo * 0x8000_0000 + hi) * P1 % M == result
    ensures Round(acc, lane) == result
  {
    Powers();
    RotlIs(sum, 31, hi, lo, 0x8000_0000, 0x2_0000_0000);
  }

  lemma MergeIs(acc: word, value: word, round: word, mixed: word, result: word)
    requires Round(0, value) == round && XorWord(acc, round) == mixed && (mixed * P1 + P4) % M == result
    ensures Merge(acc, value) == result
  {
  }

  lemma StirEight(x: word, hi: nat, lo: nat, result: word)
    requires x == hi * 0x20_0000_0000 + lo && lo < 0x20_0000_0000 && ((lo * 0x800_0000 + hi) * P1 + P4) % M == result
    ensures Stir(x, 8) == result
  {
    hide Rotl;
    Powers();
    RotlIs(x, 27, hi, lo, 0x800_0000, 0x20_0000_0000);
  }

  lemma StirFour(x: word, hi: nat, lo: nat, result: word)
    requires x == hi * 0x200_0000_0000 + lo && lo < 0x200_0000_0000 && ((lo * 0x80_0000 + hi) * P2 + P3) % M == result
    ensures Stir(x, 4) == result
  {
    hide Rotl;
    Powers();
    RotlIs(x, 23, hi, lo, 0x80_0000, 0x200_0000_0000);
  }

  lemma StirOne(x: word, hi: nat, lo: nat, result: word)
    requires x == hi * 0x20_0000_0000_0000 + lo && lo < 0x20_0000_0000_0000 && (lo * 0x800 + hi) * P1 % M == result
    ensures Stir(x, 1) == result
  {
    hide Rotl;
    Powers();
    RotlIs(x, 11, hi, lo, 0x800, 0x20_0000_0000_0000);
  }

  lemma ShrWordIs(x: word, s: nat, hi: nat, lo: nat, p: nat)
    requires Pow2(s) == p && x == hi * p + lo && lo < p
    ensures ShrWord(x, s) == hi
  {
    LowIsRemainder(x, s);
    QuotientIs(x, p, hi, lo);
  }

  lemma AvalancheIs(h: word, hi: word, lo: nat, x: word, m: word, mHi: word, mLo: nat, y: word,
                    n: word, nHi: word, nLo: nat, result: word)
    requires h == hi * 0x2_0000_0000 + lo && lo < 0x2_0000_0000 && XorWord(h, hi) == x && x * P2 % M == m
    requires m == mHi * 0x2000_0000 + mLo && mLo < 0x2000_0000 && XorWord(m, mHi) == y && y * P3 % M == n
    requires n == nHi * 0x1_0000_0000 + nLo && nLo < 0x1_0000_0000 && XorWord(n, nHi) == result
    ensures Avalanche(h) == result
  {
    hide XorWord, ShrWord;
    Powers();
    ShrWordIs(h, 33, hi, lo, 0x2_0000_0000);
    ShrWordIs(m, 29, mHi, mLo, 0x2000_0000);
    ShrWordIs(n, 32, nHi, nLo, 0x1_0000_0000);
  }

  lemma ConsumeOne(h: word, unit: seq<byte>, units: seq<seq<byte>>, contribution: word, mixed: word, next: word)
    requires Units([unit] + units) && Units(units)
    requires |unit| == 8 || |unit| == 4 || |unit| == 1
    requires Contribution(unit) == contribution && XorWord(h, contribution) == mixed && Stir(mixed, |unit|) == next
    ensures Consume(h, [unit] + units) == Consume(next, units)
  {
    hide XorWord, Stir, Contribution;
    assert ([unit] + units)[1..] == units;
  }

  lemma NoBytes()
    ensures LittleEndian([]) == 0
  {
  }

  lemma FirstByte(bytes: seq<byte>, rest: seq<byte>)
    requires bytes != [] && bytes[1..] == rest
    ensures LittleEndian(bytes) == bytes[0] + 0x100 * LittleEndian(rest)
  {
  }

  lemma LaneOf(b0: byte, b1: byte, b2: byte, b3: byte, b4: byte, b5: byte, b6: byte, b7: byte)
    ensures Lane([b0, b1, b2, b3, b4, b5, b6, b7]) == b0 + 0x100 * b1 + 0x1_0000 * b2 + 0x100_0000 * b3
      + 0x1_0000_0000 * b4 + 0x100_0000_0000 * b5 + 0x1_0000_0000_0000 * b6 + 0x100_0000_0000_0000 * b7
    ensures Lane([b0, b1, b2, b3]) == b0 + 0x100 * b1 + 0x1_0000 * b2 + 0x100_0000 * b3
    ensures Lane([b0]) == b0
  {
    hide LittleEndian;
    NoBytes();
    FirstByte([b0, b1, b2, b3, b4, b5, b6, b7], [b1, b2, b3, b4, b5, b6, b7]);
    FirstByte([b1, b2, b3, b4, b5, b6, b7], [b2, b3, b4, b5, b6, b7]);
    FirstByte([b2, b3, b4, b5, b6, b7], [b3, b4, b5, b6, b7]);
    FirstByte([b3, b4, b5, b6, b7], [b4, b5, b6, b7]);
    FirstByte([b4, b5, b6, b7], [b5, b6, b7]);
    FirstByte([b5, b6, b7], [b6, b7]);
    FirstByte([b6, b7], [b7]);
    FirstByte([b7], []);
    FirstByte([b0, b1, b2, b3], [b1, b2, b3]);
    FirstByte([b1, b2, b3], [b2, b3]);
    FirstByte([b2, b3], [b3]);
    FirstByte([b3], []);
    FirstByte([b0], []);
  }

  // ------------------------------------------------------------ known answers

  lemma EmptyXor1()
    ensures XorWord(0x27d4_eb2f_1656_67c5, 0x13ea_7597) == 0x27d4_eb2f_05bc_1252
  {
    hide Xor, XorWord;
    HexXor(0x27d4_eb2f, 0, 0x27d4_eb2f, X2, X7, XD, X4, XE, XB, X2, XF, X0, X0, X0, X0, X0, X0, X0, X0);
    HexXor(0x1656_67c5, 0x13ea_7597, 0x5bc_1252, X1, X6, X5, X6, X6, X7, XC, X5, X1, X3, XE, XA, X7, X5, X9, X7);
    XorIs(0x27d4_eb2f_1656_67c5, 0x13ea_7597, 0x27d4_eb2f, 0x1656_67c5, 0, 0x13ea_7597);
  }

  lemma EmptyXor2()
    ensures XorWord(0xbeb1_3dda_13c2_ed4e, 0x5_f589_eed0) == 0xbeb1_3ddf_e64b_039e
  {
    hide Xor, XorWord;
    HexXor(0xbeb1_3dda, 5, 0xbeb1_3ddf, XB, XE, XB, X1, X3, XD, XD, XA, X0, X0, X0, X0, X0, X0, X0, X5);
    HexXor(0x13c2_ed4e, 0xf589_eed0, 0xe64b_039e, X1, X3, XC, X2, XE, XD, X4, XE, XF, X5, X8, X9, XE, XE, XD, X0);
    XorIs(0xbeb1_3dda_13c2_ed4e, 0x5_f589_eed0, 0xbeb1_3dda, 0x13c2_ed4e, 5, 0xf589_eed0);
  }

  lemma EmptyXor3()
    ensures XorWord(0xef46_db37_be9e_32ae, 0xef46_db37) == 0xef46_db37_51d8_e999
  {
    hide Xor, XorWord;
    HexXor(0xef46_db37, 0, 0xef46_db37, XE, XF, X4, X6, XD, XB, X3, X7, X0, X0, X0, X0, X0, X0, X0, X0);
    HexXor(0xbe9e_32ae, 0xef46_db37, 0x51d8_e999, XB, XE, X9, XE, X3, X2, XA, XE, XE, XF, X4, X6, XD, XB, X3, X7);
    XorIs(0xef46_db37_be9e_32ae, 0xef46_db37, 0xef46_db37, 0xbe9e_32ae, 0, 0xef46_db37);
  }

  lemma EmptyAvalanche()
    ensures Avalanche(0x27d4_eb2f_1656_67c5) == 0xef46_db37_51d8_e999
  {
    hide XorWord, Avalanche;
    EmptyXor1();
    EmptyXor2();
    EmptyXor3();
    AvalancheIs(0x27d4_eb2f_1656_67c5, 0x13ea_7597, 0x1_1656_67c5, 0x27d4_eb2f_05bc_1252, 0xbeb1_3dda_13c2_ed4e,
                0x5_f589_eed0, 0x13c2_ed4e, 0xbeb1_3ddf_e64b_039e, 0xef46_db37_be9e_32ae, 0xef46_db37, 0xbe9e_32ae,
                0xef46_db37_51d8_e999);
  }

  /** The empty input. */
  lemma EmptyDigest()
    ensures Digest([], 0) == 0xef46_db37_51d8_e999
  {
    hide Avalanche;
    EmptyAvalanche();
  }

  lemma AbcXor1()
    ensures XorWord(0x27d4_eb2f_1656_67c8, 0x17ad_1cd7_76bd_51a5) == 0x3079_f7f8_60eb_366d
  {
    hide Xor, XorWord;
    HexXor(0x27d4_eb2f, 0x17ad_1cd7, 0x3079_f7f8, X2, X7, XD, X4, XE, XB, X2, XF, X1, X7, XA, XD, X1, XC, XD, X7);
    HexXor(0x1656_67c8, 0x76bd_51a5, 0x60eb_366d, X1, X6, X5, X6, X6, X7, XC, X8, X7, X6, XB, XD, X5, X1, XA, X5);
    XorIs(0x27d4_eb2f_1656_67c8, 0x17ad_1cd7_76bd_51a5, 0x27d4_eb2f, 0x1656_67c8, 0x17ad_1cd7, 0x76bd_51a5);
  }

  lemma AbcXor2()
    ensures XorWord(0xe6d_11bd_c91f_0215, 0x3f82_0806_8d13_b96a) == 0x31ef_19bb_440c_bb7f
  {
    hide Xor, XorWord;
    HexXor(0xe6d_11bd, 0x3f82_0806, 0x31ef_19bb, X0, XE, X6, XD, X1, X1, XB, XD, X3, XF, X8, X2, X0, X8, X0, X6);
    HexXor(0xc91f_0215, 0x8d13_b96a, 0x440c_bb7f, XC, X9, X1, XF, X0, X2, X1, X5, X8, XD, X1, X3, XB, X9, X6, XA);
    XorIs(0xe6d_11bd_c91f_0215, 0x3f82_0806_8d13_b96a, 0xe6d_11bd, 0xc91f_0215, 0x3f82_0806, 0x8d13_b96a);
  }

  lemma AbcXor3()
    ensures XorWord(0x7919_83e9_ab30_7069, 0x6756_f335_a36a_212f) == 0x1e4f_70dc_085a_5146
  {
    hide Xor, XorWord;
    HexXor(0x7919_83e9, 0x6756_f335, 0x1e4f_70dc, X7, X9, X1, X9, X8, X3, XE, X9, X6, X7, X5, X6, XF, X3, X3, X5);
    HexXor(0xab30_7069, 0xa36a_212f, 0x85a_5146, XA, XB, X3, X0, X7, X0, X6, X9, XA, X3, X6, XA, X2, X1, X2, XF);
    XorIs(0x7919_83e9_ab30_7069, 0x6756_f335_a36a_212f, 0x7919_83e9, 0xab30_7069, 0x6756_f335, 0xa36a_212f);
  }

  lemma AbcXor4()
    ensures XorWord(0xe87a_46f8_b9a4_c39e, 0x743d_237c) == 0xe87a_46f8_cd99_e0e2
  {
    hide Xor, XorWord;
    HexXor(0xe87a_46f8, 0, 0xe87a_46f8, XE, X8, X7, XA, X4, X6, XF, X8, X0, X0, X0, X0, X0, X0, X0, X0);
    HexXor(0xb9a4_c39e, 0x743d_237c, 0xcd99_e0e2, XB, X9, XA, X4, XC, X3, X9, XE, X7, X4, X3, XD, X2, X3, X7, XC);
    XorIs(0xe87a_46f8_b9a4_c39e, 0x743d_237c, 0xe87a_46f8, 0xb9a4_c39e, 0, 0x743d_237c);
  }

  lemma AbcXor5()
    ensures XorWord(0xdfe7_320e_5d13_dbbe, 0x6_ff39_9072) == 0xdfe7_3208_a22a_4bcc
  {
    hide Xor, XorWord;
    HexXor(0xdfe7_320e, 6, 0xdfe7_3208, XD, XF, XE, X7, X3, X2, X0, XE, X0, X0, X0, X0, X0, X0, X0, X6);
    HexXor(0x5d13_dbbe, 0xff39_9072, 0xa22a_4bcc, X5, XD, X1, X3, XD, XB, XB, XE, XF, XF, X3, X9, X9, X0, X7, X2);
    XorIs(0xdfe7_320e_5d13_dbbe, 0x6_ff39_9072, 0xdfe7_320e, 0x5d13_dbbe, 6, 0xff39_9072);
  }

  lemma AbcXor6()
    ensures XorWord(0x44bc_2cf5_e9cb_256c, 0x44bc_2cf5) == 0x44bc_2cf5_ad77_0999
  {
    hide Xor, XorWord;
    HexXor(0x44bc_2cf5, 0, 0x44bc_2cf5, X4, X4, XB, XC, X2, XC, XF, X5, X0, X0, X0, X0, X0, X0, X0, X0);
    HexXor(0xe9cb_256c, 0x44bc_2cf5, 0xad77_0999, XE, X9, XC, XB, X2, X5, X6, XC, X4, X4, XB, XC, X2, XC, XF, X5);
    XorIs(0x44bc_2cf5_e9cb_256c, 0x44bc_2cf5, 0x44bc_2cf5, 0xe9cb_256c, 0, 0x44bc_2cf5);
  }

  lemma AbcUnit1(units: seq<seq<byte>>)
    requires Units([[97]] + units) && Units(units)
    ensures Consume(0x27d4_eb2f_1656_67c8, [[97]] + units) == Consume(0xe6d_11bd_c91f_0215, units)
  {
    hide Round, Rotl, Stir, XorWord, Lane, Consume;
    LaneOf(97, 0, 0, 0, 0, 0, 0, 0);
    AbcXor1();
    StirOne(0x3079_f7f8_60eb_366d, 0x183, 0x19_f7f8_60eb_366d, 0xe6d_11bd_c91f_0215);
    ConsumeOne(0x27d4_eb2f_1656_67c8, [97], units, 0x17ad_1cd7_76bd_51a5, 0x3079_f7f8_60eb_366d,
               0xe6d_11bd_c91f_0215);
  }

  lemma AbcUnit2(units: seq<seq<byte>>)
    requires Units([[98]] + units) && Units(units)
    ensures Consume(0xe6d_11bd_c91f_0215, [[98]] + units) == Consume(0x7919_83e9_ab30_7069, units)
  {
    hide Round, Rotl, Stir, XorWord, Lane, Consume;
    LaneOf(98, 0, 0, 0, 0, 0, 0, 0);
    AbcXor2();
    StirOne(0x31ef_19bb_440c_bb7f, 0x18f, 0xf_19bb_440c_bb7f, 0x7919_83e9_ab30_7069);
    ConsumeOne(0xe6d_11bd_c91f_0215, [98], units, 0x3f82_0806_8d13_b96a, 0x31ef_19bb_440c_bb7f,
               0x7919_83e9_ab30_7069);
  }

  lemma AbcUnit3(units: seq<seq<byte>>)
    requires Units([[99]] + units) && Units(units)
    ensures Consume(0x7919_83e9_ab30_7069, [[99]] + units) == Consume(0xe87a_46f8_b9a4_c39e, units)
  {
    hide Round, Rotl, Stir, XorWord, Lane, Consume;
    LaneOf(99, 0, 0, 0, 0, 0, 0, 0);
    AbcXor3();
    StirOne(0x1e4f_70dc_085a_5146, 0xf2, 0xf_70dc_085a_5146, 0xe87a_46f8_b9a4_c39e);
    ConsumeOne(0x7919_83e9_ab30_7069, [99], units, 0x6756_f335_a36a_212f, 0x1e4f_70dc_085a_5146,
               0xe87a_46f8_b9a4_c39e);
  }

  lemma AbcAvalanche()
    ensures Avalanche(0xe87a_46f8_b9a4_c39e) == 0x44bc_2cf5_ad77_0999
  {
    hide XorWord, Avalanche;
    AbcXor4();
    AbcXor5();
    AbcXor6();
    AvalancheIs(0xe87a_46f8_b9a4_c39e, 0x743d_237c, 0xb9a4_c39e, 0xe87a_46f8_cd99_e0e2, 0xdfe7_320e_5d13_dbbe,
                0x6_ff39_9072, 0x1d13_dbbe, 0xdfe7_3208_a22a_4bcc, 0x44bc_2cf5_e9cb_256c, 0x44bc_2cf5, 0xe9cb_256c,
                0x44bc_2cf5_ad77_0999);
  }

  lemma AbcConsume()
    ensures Units([[97], [98], [99]]) && Consume(0x27d4_eb2f_1656_67c8, [[97], [98], [99]]) == 0xe87a_46f8_b9a4_c39e
  {
    hide Consume, Units;
    AbcUnits();
    AbcUnit1([[98], [99]]);
    AbcUnit2([[99]]);
    AbcUnit3([]);
    NoUnits(0xe87a_46f8_b9a4_c39e);
    assert [[98]] + [[99]] == [[98], [99]] && [[99]] + [] == [[99]];
  }

  lemma TailOf(data: seq<byte>, unit: seq<byte>, rest: seq<byte>)
    requires data == unit + rest
    requires |unit| == 8 || (|unit| == 4 && |rest| < 4) || (|unit| == 1 && |rest| < 3)
    ensures TailUnits(data) == [unit] + TailUnits(rest)
    ensures TailUnits([]) == []
  {
    assert data[..|unit|] == unit && data[|unit|..] == rest;
  }

  lemma DigestIs(data: seq<byte>, seed: int, rest: seq<byte>, units: seq<seq<byte>>, start: word, mixed: word)
    requires data[TailStart(|data|)..] == rest && TailUnits(rest) == units && Units(units)
    requires BeforeTail(data, seed) == start && Consume(start, units) == mixed
    ensures Digest(data, seed) == Avalanche(mixed)
  {
    hide BeforeTail, Consume, Avalanche, TailUnits, TailStart;
  }

  lemma NoUnits(h: word)
    ensures Units([]) && Consume(h, []) == h
  {
  }

  lemma AbcUnits()
    ensures Units([[97]] + [[98], [99]]) && Units([[98]] + [[99]]) && Units([[99]] + [])
    ensures Units([[98], [99]]) && Units([[99]]) && Units([])
    ensures [[97]] + [[98], [99]] == [[97], [98], [99]]
  {
  }

  lemma AbcTail()
    ensures TailUnits([97, 98, 99]) == [[97], [98], [99]]
  {
    TailOf([97, 98, 99], [97], [98, 99]);
    TailOf([98, 99], [98], [99]);
    TailOf([99], [99], []);
    hide TailUnits;
    assert [[98]] + [[99]] == [[98], [99]] && [[99]] + [] == [[99]];
    assert [[97]] + [[98], [99]] == [[97], [98], [99]];
  }

  /** The bytes of "abc". */
  lemma AbcDigest()
    ensures Digest([97, 98, 99], 0) == 0x44bc_2cf5_ad77_0999
  {
    var data: seq<byte> := [97, 98, 99];
    assert data[0..] == data && BeforeTail(data, 0) == 0x27d4_eb2f_1656_67c8;
    hide BeforeTail, Avalanche, Consume, Units, TailUnits;
    AbcTail();
    AbcConsume();
    AbcAvalanche();
    DigestIs(data, 0, data, [[97], [98], [99]], 0x27d4_eb2f_1656_67c8, 0xe87a_46f8_b9a4_c39e);
  }

  lemma LongXor1()
    ensures XorWord(0xbc2_831a_00b8_ae49, 0x9db4_83a0_f380_f1ba) == 0x9676_00ba_f338_5ff3
  {
    hide Xor, XorWord;
    HexXor(0xbc2_831a, 0x9db4_83a0, 0x9676_00ba, X0, XB, XC, X2, X8, X3, X1, XA, X9, XD, XB, X4, X8, X3, XA, X0);
    HexXor(0xb8_ae49, 0xf380_f1ba, 0xf338_5ff3, X0, X0, XB, X8, XA, XE, X4, X9, XF, X3, X8, X0, XF, X1, XB, XA);
    XorIs(0xbc2_831a_00b8_ae49, 0x9db4_83a0_f380_f1ba, 0xbc2_831a, 0xb8_ae49, 0x9db4_83a0, 0xf380_f1ba);
  }

  lemma LongXor2()
    ensures XorWord(0x2d3c_7194_d434_0588, 0x72e4_1c85_840e_7c3b) == 0x5fd8_6d11_503a_79b3
  {
    hide Xor, XorWord;
    HexXor(0x2d3c_7194, 0x72e4_1c85, 0x5fd8_6d11, X2, XD, X3, XC, X7, X1, X9, X4, X7, X2, XE, X4, X1, XC, X8, X5);
    HexXor(0xd434_0588, 0x840e_7c3b, 0x503a_79b3, XD, X4, X3, X4, X0, X5, X8, X8, X8, X4, X0, XE, X7, XC, X3, XB);
    XorIs(0x2d3c_7194_d434_0588, 0x72e4_1c85_840e_7c3b, 0x2d3c_7194, 0xd434_0588, 0x72e4_1c85, 0x840e_7c3b);
  }

  lemma LongXor3()
    ensures XorWord(0xb018_be91_ebe1_19c8, 0xf117_26a0_510e_e841) == 0x410f_9831_baef_f189
  {
    hide Xor, XorWord;
    HexXor(0xb018_be91, 0xf117_26a0, 0x410f_9831, XB, X0, X1, X8, XB, XE, X9, X1, XF, X1, X1, X7, X2, X6, XA, X0);
    HexXor(0xebe1_19c8, 0x510e_e841, 0xbaef_f189, XE, XB, XE, X1, X1, X9, XC, X8, X5, X1, X0, XE, XE, X8, X4, X1);
    XorIs(0xb018_be91_ebe1_19c8, 0xf117_26a0_510e_e841, 0xb018_be91, 0xebe1_19c8, 0xf117_26a0, 0x510e_e841);
  }

  lemma LongXor4()
    ensures XorWord(0xca80_4daa_9194_27a2, 0x664a_eb3e_b7d8_f2ef) == 0xacca_a694_264c_d54d
  {
    hide Xor, XorWord;
    HexXor(0xca80_4daa, 0x664a_eb3e, 0xacca_a694, XC, XA, X8, X0, X4, XD, XA, XA, X6, X6, X4, XA, XE, XB, X3, XE);
    HexXor(0x9194_27a2, 0xb7d8_f2ef, 0x264c_d54d, X9, X1, X9, X4, X2, X7, XA, X2, XB, X7, XD, X8, XF, X2, XE, XF);
    XorIs(0xca80_4daa_9194_27a2, 0x664a_eb3e_b7d8_f2ef, 0xca80_4daa, 0x9194_27a2, 0x664a_eb3e, 0xb7d8_f2ef);
  }

  lemma LongXor5()
    ensures XorWord(0x939b_7b66_6434_ec2b, 0x8e6d_3b08_ecfe_83ad) == 0x1df6_406e_88ca_6f86
  {
    hide Xor, XorWord;
    HexXor(0x939b_7b66, 0x8e6d_3b08, 0x1df6_406e, X9, X3, X9, XB, X7, XB, X6, X6, X8, XE, X6, XD, X3, XB, X0, X8);
    HexXor(0x6434_ec2b, 0xecfe_83ad, 0x88ca_6f86, X6, X4, X3, X4, XE, XC, X2, XB, XE, XC, XF, XE, X8, X3, XA, XD);
    XorIs(0x939b_7b66_6434_ec2b, 0x8e6d_3b08_ecfe_83ad, 0x939b_7b66, 0x6434_ec2b, 0x8e6d_3b08, 0xecfe_83ad);
  }

  lemma LongXor6()
    ensures XorWord(0xb6d1_c229_ab50_ebf8, 0x63c7_05e3_976d_4418) == 0xd516_c7ca_3c3d_afe0
  {
    hide Xor, XorWord;
    HexXor(0xb6d1_c229, 0x63c7_05e3, 0xd516_c7ca, XB, X6, XD, X1, XC, X2, X2, X9, X6, X3, XC, X7, X0, X5, XE, X3);
    HexXor(0xab50_ebf8, 0x976d_4418, 0x3c3d_afe0, XA, XB, X5, X0, XE, XB, XF, X8, X9, X7, X6, XD, X4, X4, X1, X8);
    XorIs(0xb6d1_c229_ab50_ebf8, 0x63c7_05e3_976d_4418, 0xb6d1_c229, 0xab50_ebf8, 0x63c7_05e3, 0x976d_4418);
  }

  lemma LongXor7()
    ensures XorWord(0x865b_fa15_2008_5e86, 0xd898_6c17_d6d9_d5dc) == 0x5ec3_9602_f6d1_8b5a
  {
    hide Xor, XorWord;
    HexXor(0x865b_fa15, 0xd898_6c17, 0x5ec3_9602, X8, X6, X5, XB, XF, XA, X1, X5, XD, X8, X9, X8, X6, XC, X1, X7);
    HexXor(0x2008_5e86, 0xd6d9_d5dc, 0xf6d1_8b5a, X2, X0, X0, X8, X5, XE, X8, X6, XD, X6, XD, X9, XD, X5, XD, XC);
    XorIs(0x865b_fa15_2008_5e86, 0xd898_6c17_d6d9_d5dc, 0x865b_fa15, 0x2008_5e86, 0xd898_6c17, 0xd6d9_d5dc);
  }

  lemma LongXor8()
    ensures XorWord(0xce6c_b513_242d_5bba, 0x6736_5a89) == 0xce6c_b513_431b_0133
  {
    hide Xor, XorWord;
    HexXor(0xce6c_b513, 0, 0xce6c_b513, XC, XE, X6, XC, XB, X5, X1, X3, X0, X0, X0, X0, X0, X0, X0, X0);
    HexXor(0x242d_5bba, 0x6736_5a89, 0x431b_0133, X2, X4, X2, XD, X5, XB, XB, XA, X6, X7, X3, X6, X5, XA, X8, X9);
    XorIs(0xce6c_b513_242d_5bba, 0x6736_5a89, 0xce6c_b513, 0x242d_5bba, 0, 0x6736_5a89);
  }

  lemma LongXor9()
    ensures XorWord(0x34a7_323e_42ab_2fbd, 0x1_a539_91f2) == 0x34a7_323f_e792_be4f
  {
    hide Xor, XorWord;
    HexXor(0x34a7_323e, 1, 0x34a7_323f, X3, X4, XA, X7, X3, X2, X3, XE, X0, X0, X0, X0, X0, X0, X0, X1);
    HexXor(0x42ab_2fbd, 0xa539_91f2, 0xe792_be4f, X4, X2, XA, XB, X2, XF, XB, XD, XA, X5, X3, X9, X9, X1, XF, X2);
    XorIs(0x34a7_323e_42ab_2fbd, 0x1_a539_91f2, 0x34a7_323e, 0x42ab_2fbd, 1, 0xa539_91f2);
  }

  lemma LongXor10()
    ensures XorWord(0x5998_c437_3ea7_71d7, 0x5998_c437) == 0x5998_c437_673f_b5e0
  {
    hide Xor, XorWord;
    HexXor(0x5998_c437, 0, 0x5998_c437, X5, X9, X9, X8, XC, X4, X3, X7, X0, X0, X0, X0, X0, X0, X0, X0);
    HexXor(0x3ea7_71d7, 0x5998_c437, 0x673f_b5e0, X3, XE, XA, X7, X7, X1, XD, X7, X5, X9, X9, X8, XC, X4, X3, X7);
    XorIs(0x5998_c437_3ea7_71d7, 0x5998_c437, 0x5998_c437, 0x3ea7_71d7, 0, 0x5998_c437);
  }

  // the bytes 0 to 44: one stripe, then units of eight, four and one
  const ROW0: seq<byte> := [0, 1, 2, 3, 4, 5, 6, 7]
  const ROW1: seq<byte> := [8, 9, 10, 11, 12, 13, 14, 15]
  const ROW2: seq<byte> := [16, 17, 18, 19, 20, 21, 22, 23]
  const ROW3: seq<byte> := [24, 25, 26, 27, 28, 29, 30, 31]
  const REST: seq<byte> := [32, 33, 34, 35, 36, 37, 38, 39, 40, 41, 42, 43, 44]

  const UNIT8: seq<byte> := [32, 33, 34, 35, 36, 37, 38, 39]
  const UNIT4: seq<byte> := [40, 41, 42, 43]
  const UNIT1: seq<byte> := [44]

  /** The seed of the client's own requests. */
  const SEED := 0x4d65_9218_e32a_3268

  lemma LongAbsorb()
    ensures Seeded(SEED) ==
      [0xae4f_ba07_90ea_e83e, 0x1018_4056_0aff_1db7, 0x4d65_9218_e32a_3268, 0xaf2e_1867_5d3e_67e1]
    ensures Absorb(Seeded(SEED), ROW0 + ROW1 + ROW2 + ROW3) ==
      [0x976a_c23e_855a_dbed, 0xa392_ecf4_e4b2_a2b5, 0xaae6_61ab_8d90_d293, 0x183b_eb56_f2d4_63e2]
  {
    hide Round, Rotl, Lane;
    LongRows();
    LaneOf(0, 1, 2, 3, 4, 5, 6, 7);
    LaneOf(8, 9, 10, 11, 12, 13, 14, 15);
    LaneOf(16, 17, 18, 19, 20, 21, 22, 23);
    LaneOf(24, 25, 26, 27, 28, 29, 30, 31);
    RoundIs(0xae4f_ba07_90ea_e83e, 0x706_0504_0302_0100, 0xe9b5_fdd7_2974_373e, 0x74da_feeb, 0x1_2974_373e,
            0x976a_c23e_855a_dbed);
    RoundIs(0x1018_4056_0aff_1db7, 0xf0e_0d0c_0b0a_0908, 0xa27_97c7_5c02_3f2f, 0x513_cbe3, 0x1_5c02_3f2f,
            0xa392_ecf4_e4b2_a2b5);
    RoundIs(0x4d65_9218_e32a_3268, 0x1716_1514_1312_1110, 0x61d_fd2b_eca7_2658, 0x30e_fe95, 0x1_eca7_2658,
            0xaae6_61ab_8d90_d293);
    RoundIs(0xaf2e_1867_5d3e_67e1, 0x1f1e_1d1c_1b1a_1918, 0x268f_971c_1f35_2e49, 0x1347_cb8e, 0x1f35_2e49,
            0x183b_eb56_f2d4_63e2);
  }

  lemma LongRows()
    ensures var s := ROW0 + ROW1 + ROW2 + ROW3;
      |s| == 32 && s[..8] == ROW0 && s[8..16] == ROW1 && s[16..24] == ROW2 && s[24..] == ROW3
  {
  }

  lemma LongMerge1()
    ensures Merge(0xbc2_831a_00b8_ae49, 0x976a_c23e_855a_dbed) == 0x2d3c_7194_d434_0588
  {
    hide Round, Rotl, XorWord, Merge;
    RoundIs(0, 0x976a_c23e_855a_dbed, 0x2944_19ed_ca30_6d23, 0x14a2_0cf6, 0x1_ca30_6d23, 0x9db4_83a0_f380_f1ba);
    LongXor1();
    MergeIs(0xbc2_831a_00b8_ae49, 0x976a_c23e_855a_dbed, 0x9db4_83a0_f380_f1ba, 0x9676_00ba_f338_5ff3,
            0x2d3c_7194_d434_0588);
  }

  lemma LongMerge2()
    ensures Merge(0x2d3c_7194_d434_0588, 0xa392_ecf4_e4b2_a2b5) == 0xb018_be91_ebe1_19c8
  {
    hide Round, Rotl, XorWord, Merge;
    RoundIs(0, 0xa392_ecf4_e4b2_a2b5, 0x1882_535b_df60_5cdb, 0xc41_29ad, 0x1_df60_5cdb, 0x72e4_1c85_840e_7c3b);
    LongXor2();
    MergeIs(0x2d3c_7194_d434_0588, 0xa392_ecf4_e4b2_a2b5, 0x72e4_1c85_840e_7c3b, 0x5fd8_6d11_503a_79b3,
            0xb018_be91_ebe1_19c8);
  }

  lemma LongMerge3()
    ensures Merge(0xb018_be91_ebe1_19c8, 0xaae6_61ab_8d90_d293) == 0xca80_4daa_9194_27a2
  {
    hide Round, Rotl, XorWord, Merge;
    RoundIs(0, 0xaae6_61ab_8d90_d293, 0x383b_01ee_67b9_ec5d, 0x1c1d_80f7, 0x67b9_ec5d, 0xf117_26a0_510e_e841);
    LongXor3();
    MergeIs(0xb018_be91_ebe1_19c8, 0xaae6_61ab_8d90_d293, 0xf117_26a0_510e_e841, 0x410f_9831_baef_f189,
            0xca80_4daa_9194_27a2);
  }

  lemma LongMerge4()
    ensures Merge(0xca80_4daa_9194_27a2, 0x183b_eb56_f2d4_63e2) == 0x939b_7b66_6434_ebfe
  {
    hide Round, Rotl, XorWord, Merge;
    RoundIs(0, 0x183b_eb56_f2d4_63e2, 0x8e29_4cb2_0c63_48be, 0x4714_a659, 0xc63_48be, 0x664a_eb3e_b7d8_f2ef);
    LongXor4();
    MergeIs(0xca80_4daa_9194_27a2, 0x183b_eb56_f2d4_63e2, 0x664a_eb3e_b7d8_f2ef, 0xacca_a694_264c_d54d,
            0x939b_7b66_6434_ebfe);
  }

  lemma LongConverge()
    ensures Converge([0x976a_c23e_855a_dbed, 0xa392_ecf4_e4b2_a2b5, 0xaae6_61ab_8d90_d293, 0x183b_eb56_f2d4_63e2]) ==
      0x939b_7b66_6434_ebfe
  {
    hide Rotl, Merge;
    Powers();
    RotlIs(0x976a_c23e_855a_dbed, 1, 1, 0x176a_c23e_855a_dbed, 2, 0x8000_0000_0000_0000);
    RotlIs(0xa392_ecf4_e4b2_a2b5, 7, 0x51, 0x192_ecf4_e4b2_a2b5, 0x80, 0x200_0000_0000_0000);
    RotlIs(0xaae6_61ab_8d90_d293, 12, 0xaae, 0x6_61ab_8d90_d293, 0x1000, 0x10_0000_0000_0000);
    RotlIs(0x183b_eb56_f2d4_63e2, 18, 0x60ef, 0x2b56_f2d4_63e2, 0x4_0000, 0x4000_0000_0000);
    LongMerge1();
    LongMerge2();
    LongMerge3();
    LongMerge4();
  }

  lemma LongUnit1(units: seq<seq<byte>>)
    requires Units([UNIT8] + units) && Units(units)
    ensures Consume(0x939b_7b66_6434_ec2b, [UNIT8] + units) == Consume(0xb6d1_c229_ab50_ebf8, units)
  {
    hide Round, Rotl, Stir, XorWord, Lane, Consume;
    RoundIs(0, 0x2726_2524_2322_2120, 0x360a_9256_7a70_98e0, 0x1b05_492b, 0x7a70_98e0, 0x8e6d_3b08_ecfe_83ad);
    LaneOf(32, 33, 34, 35, 36, 37, 38, 39);
    LongXor5();
    StirEight(0x1df6_406e_88ca_6f86, 0xef_b203, 0xe_88ca_6f86, 0xb6d1_c229_ab50_ebf8);
    ConsumeOne(0x939b_7b66_6434_ec2b, UNIT8, units, 0x8e6d_3b08_ecfe_83ad, 0x1df6_406e_88ca_6f86,
               0xb6d1_c229_ab50_ebf8);
  }

  lemma LongUnit2(units: seq<seq<byte>>)
    requires Units([UNIT4] + units) && Units(units)
    ensures Consume(0xb6d1_c229_ab50_ebf8, [UNIT4] + units) == Consume(0x865b_fa15_2008_5e86, units)
  {
    hide Round, Rotl, Stir, XorWord, Lane, Consume;
    LaneOf(40, 41, 42, 43, 0, 0, 0, 0);
    LongXor6();
    StirFour(0xd516_c7ca_3c3d_afe0, 0x6a_8b63, 0x1ca_3c3d_afe0, 0x865b_fa15_2008_5e86);
    ConsumeOne(0xb6d1_c229_ab50_ebf8, UNIT4, units, 0x63c7_05e3_976d_4418, 0xd516_c7ca_3c3d_afe0,
               0x865b_fa15_2008_5e86);
  }

  lemma LongUnit3(units: seq<seq<byte>>)
    requires Units([UNIT1] + units) && Units(units)
    ensures Consume(0x865b_fa15_2008_5e86, [UNIT1] + units) == Consume(0xce6c_b513_242d_5bba, units)
  {
    hide Round, Rotl, Stir, XorWord, Lane, Consume;
    LaneOf(44, 0, 0, 0, 0, 0, 0, 0);
    LongXor7();
    StirOne(0x5ec3_9602_f6d1_8b5a, 0x2f6, 0x3_9602_f6d1_8b5a, 0xce6c_b513_242d_5bba);
    ConsumeOne(0x865b_fa15_2008_5e86, UNIT1, units, 0xd898_6c17_d6d9_d5dc, 0x5ec3_9602_f6d1_8b5a,
               0xce6c_b513_242d_5bba);
  }

  lemma LongAvalanche()
    ensures Avalanche(0xce6c_b513_242d_5bba) == 0x5998_c437_673f_b5e0
  {
    hide XorWord, Avalanche;
    LongXor8();
    LongXor9();
    LongXor10();
    AvalancheIs(0xce6c_b513_242d_5bba, 0x6736_5a89, 0x1_242d_5bba, 0xce6c_b513_431b_0133, 0x34a7_323e_42ab_2fbd,
                0x1_a539_91f2, 0x2ab_2fbd, 0x34a7_323f_e792_be4f, 0x5998_c437_3ea7_71d7, 0x5998_c437, 0x3ea7_71d7,
                0x5998_c437_673f_b5e0);
  }

  lemma LongTail()
    ensures TailUnits(REST) == [UNIT8, UNIT4, UNIT1]
  {
    TailOf(REST, UNIT8, UNIT4 + UNIT1);
    TailOf(UNIT4 + UNIT1, UNIT4, UNIT1);
    TailOf(UNIT1, UNIT1, []);
    hide TailUnits;
    assert [UNIT4] + [UNIT1] == [UNIT4, UNIT1] && [UNIT1] + [] == [UNIT1];
    assert [UNIT8] + [UNIT4, UNIT1] == [UNIT8, UNIT4, UNIT1];
  }

  lemma LongParts(data: seq<byte>)
    requires data == ROW0 + ROW1 + ROW2 + ROW3 + REST
    ensures |data| == 45 && TailStart(45) == 32 && data[32..] == REST && Stripes(data) == [ROW0 + ROW1 + ROW2 + ROW3]
  {
    assert data[..32] == ROW0 + ROW1 + ROW2 + ROW3;
    assert data[32..] == REST;
  }

  lemma LongState(data: seq<byte>)
    requires data == ROW0 + ROW1 + ROW2 + ROW3 + REST
    ensures BeforeTail(data, SEED) == 0x939b_7b66_6434_ec2b
  {
    hide Absorb, Converge, Seeded, Stripes;
    LongParts(data);
    LongAbsorb();
    LongConverge();
    StripesAreWhole(data);
    OneStripe(Seeded(SEED), ROW0 + ROW1 + ROW2 + ROW3);
  }

  lemma OneStripe(v: Lanes, stripe: seq<byte>)
    requires |stripe| == 32 && Whole([stripe])
    ensures AbsorbAll(v, [stripe]) == Absorb(v, stripe)
  {
    hide Absorb;
    assert [stripe][1..] == [];
  }

  lemma LongUnits()
    ensures Units([UNIT8] + [UNIT4, UNIT1]) && Units([UNIT4] + [UNIT1])
    ensures Units([UNIT1] + []) && Units([UNIT4, UNIT1]) && Units([UNIT1]) && Units([])
    ensures [UNIT8] + [UNIT4, UNIT1] == [UNIT8, UNIT4, UNIT1]
  {
  }

  lemma LongConsume()
    ensures Units([UNIT8, UNIT4, UNIT1])
    ensures Consume(0x939b_7b66_6434_ec2b, [UNIT8, UNIT4, UNIT1]) == 0xce6c_b513_242d_5bba
  {
    hide Consume, Units;
    LongUnits();
    LongUnit1([UNIT4, UNIT1]);
    LongUnit2([UNIT1]);
    LongUnit3([]);
    NoUnits(0xce6c_b513_242d_5bba);
    assert [UNIT4] + [UNIT1] == [UNIT4, UNIT1] && [UNIT1] + [] == [UNIT1];
  }

  /** The bytes 0 to 44 under the client's seed. */
  lemma LongDigest()
    ensures Digest(ROW0 + ROW1 + ROW2 + ROW3 + REST, SEED) == 0x5998_c437_673f_b5e0
  {
    hide Avalanche, Consume, BeforeTail, TailUnits, Units, Stripes;
    var data := ROW0 + ROW1 + ROW2 + ROW3 + REST;
    LongParts(data);
    LongState(data);
    LongTail();
    LongConsume();
    LongAvalanche();
    DigestIs(data, SEED, REST, [UNIT8, UNIT4, UNIT1], 0x939b_7b66_6434_ec2b, 0xce6c_b513_242d_5bba);
  }
}
