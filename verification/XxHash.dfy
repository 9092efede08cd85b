/**
 XXH64 of scripts/cc_billing.py: the loops over the input against the algorithm
 described on its decomposition into stripes and tail units, and what the tail
 cannot hide.
 */
module XxHash {
  import opened Bytes
  import opened Words

  const P1: word := 11400714785074694791
  const P2: word := 14029467366897019727
  const P3: word := 1609587929392839161
  const P4: word := 9650029242287828579
  const P5: word := 2870177450012600261

  // inverses of the odd multipliers modulo 2^64
  const INVERSE1: word := 614540362697595703
  const INVERSE2: word := 839798700976720815
  const INVERSE3: word := 16855272203555305545
  const INVERSE5: word := 14236653164957433613

  function XorWord(a: word, b: word): word {
    Pow2Values();
    XorBound(a, b, 64);
    Xor(a, b)
  }

  function ShrWord(a: word, s: nat): word {
    ShrSmaller(a, s);
    Shr(a, s)
  }

  lemma {:induction false} ShrSmaller(a: nat, s: nat)
    ensures Shr(a, s) <= a
  {
    if s > 0 {
      ShrSmaller(a / 2, s - 1);
    }
  }

  /** `int.from_bytes(..., "little")`. */
  function LittleEndian(bytes: seq<byte>): nat {
    if bytes == [] then 0 else bytes[0] + 256 * LittleEndian(bytes[1..])
  }

  lemma {:induction false} LittleEndianBound(bytes: seq<byte>)
    ensures LittleEndian(bytes) < Pow2(8 * |bytes|)
  {
    if bytes != [] {
      LittleEndianBound(bytes[1..]);
      var k := 8 * |bytes| - 8;
      assert Pow2(k + 8) == 256 * Pow2(k) by {
        Pow2Sum(8, k);
        assert Pow2(8) == 256;
      }
    }
  }

  function Lane(bytes: seq<byte>): word
    requires |bytes| <= 8
  {
    LittleEndianBound(bytes);
    Pow2Monotone(8 * |bytes|, 64);
    Pow2Values();
    LittleEndian(bytes)
  }

  function Round(acc: word, lane: word): word {
    Rotl((acc + lane * P2) % M, 31) * P1 % M
  }

  function Merge(acc: word, value: word): word {
    (XorWord(acc, Round(0, value)) * P1 + P4) % M
  }

  // ------------------------------------------------------------ the algorithm on its parts

  /** The full 32-byte stripes of the input. */
  function Stripes(data: seq<byte>): seq<seq<byte>> {
    if |data| < 32 then [] else [data[..32]] + Stripes(data[32..])
  }

  /** The units after the stripes: eight bytes while they last, then at most one of four,
      then single bytes. */
  function TailUnits(rest: seq<byte>): seq<seq<byte>> {
    if |rest| >= 8 then [rest[..8]] + TailUnits(rest[8..])
    else if |rest| >= 4 then [rest[..4]] + TailUnits(rest[4..])
    else if |rest| >= 1 then [rest[..1]] + TailUnits(rest[1..])
    else []
  }

  function TailStart(n: nat): (at: nat)
    ensures at <= n
  {
    n - n % 32
  }

  type Lanes = v: seq<word> | |v| == 4 witness [0, 0, 0, 0]

  function Seeded(seed: int): Lanes {
    [(seed + P1 + P2) % M, (seed + P2) % M, seed % M, (seed - P1) % M]
  }

  function Absorb(v: Lanes, stripe: seq<byte>): Lanes
    requires |stripe| == 32
  {
    [Round(v[0], Lane(stripe[..8])), Round(v[1], Lane(stripe[8..16])),
     Round(v[2], Lane(stripe[16..24])), Round(v[3], Lane(stripe[24..]))]
  }

  ghost predicate Whole(stripes: seq<seq<byte>>) {
    forall s :: s in stripes ==> |s| == 32
  }

  ghost function AbsorbAll(v: Lanes, stripes: seq<seq<byte>>): Lanes
    requires Whole(stripes)
    decreases |stripes|
  {
    if stripes == [] then v else AbsorbAll(Absorb(v, stripes[0]), stripes[1..])
  }

  function Converge(v: Lanes): word {
    var h := (Rotl(v[0], 1) + Rotl(v[1], 7) + Rotl(v[2], 12) + Rotl(v[3], 18)) % M;
    Merge(Merge(Merge(Merge(h, v[0]), v[1]), v[2]), v[3])
  }

  /** What a tail unit contributes before it is mixed in. */
  function Contribution(unit: seq<byte>): word
    requires |unit| == 8 || |unit| == 4 || |unit| == 1
  {
    if |unit| == 8 then Round(0, Lane(unit))
    else if |unit| == 4 then Lane(unit) * P1 % M
    else Lane(unit) * P5 % M
  }

  function Stir(h: word, size: nat): word {
    if size == 8 then (Rotl(h, 27) * P1 + P4) % M
    else if size == 4 then (Rotl(h, 23) * P2 + P3) % M
    else Rotl(h, 11) * P1 % M
  }

  ghost predicate Units(units: seq<seq<byte>>) {
    forall u :: u in units ==> |u| == 8 || |u| == 4 || |u| == 1
  }

  ghost function Consume(h: word, units: seq<seq<byte>>): word
    requires Units(units)
    decreases |units|
  {
    if units == [] then h
    else Consume(Stir(XorWord(h, Contribution(units[0])), |units[0]|), units[1..])
  }

  function Avalanche(h: word): word {
    var h1 := XorWord(h, ShrWord(h, 33)) * P2 % M;
    var h2 := XorWord(h1, ShrWord(h1, 29)) * P3 % M;
    XorWord(h2, ShrWord(h2, 32))
  }

  lemma {:induction false} StripesAreWhole(data: seq<byte>)
    ensures Whole(Stripes(data))
    ensures Flatten(Stripes(data)) == data[..TailStart(|data|)]
  {
    if |data| >= 32 {
      StripesAreWhole(data[32..]);
      assert data[..32] + data[32..][..TailStart(|data| - 32)] == data[..TailStart(|data|)];
    }
  }

  lemma {:induction false} TailUnitsAreUnits(rest: seq<byte>)
    ensures Units(TailUnits(rest))
    ensures Flatten(TailUnits(rest)) == rest
  {
    if rest != [] {
      var k := |TailUnits(rest)[0]|;
      TailUnitsAreUnits(rest[k..]);
      assert rest == rest[..k] + rest[k..];
    }
  }

  /** The state before the tail. */
  ghost function BeforeTail(data: seq<byte>, seed: int): word {
    StripesAreWhole(data);
    var start := if |data| >= 32 then Converge(AbsorbAll(Seeded(seed), Stripes(data))) else (seed + P5) % M;
    (start + |data|) % M
  }

  /** XXH64. */
  ghost function Digest(data: seq<byte>, seed: int): word {
    var rest := data[TailStart(|data|)..];
    TailUnitsAreUnits(rest);
    Avalanche(Consume(BeforeTail(data, seed), TailUnits(rest)))
  }

  function Flatten(parts: seq<seq<byte>>): seq<byte> {
    if parts == [] then [] else parts[0] + Flatten(parts[1..])
  }

  /** Every input byte is consumed exactly once, in order. */
  lemma EveryByteOnce(data: seq<byte>)
    ensures Flatten(Stripes(data)) + Flatten(TailUnits(data[TailStart(|data|)..])) == data
  {
    hide *;
    var at := TailStart(|data|);
    StripesAreWhole(data);
    TailUnitsAreUnits(data[at..]);
    assert data[..at] + data[at..] == data;
  }

  // ------------------------------------------------------------ the loops

  /** `xxh64`. */
  method Xxh64(data: seq<byte>, seed: int) returns (h: word)
    ensures h == Digest(data, seed)
  {
    hide Rotl, XorWord, ShrWord, Consume, AbsorbAll, Converge, Stripes, TailUnits;
    TailUnitsAreUnits(data[TailStart(|data|)..]);
    var i: nat;
    if |data| >= 32 {
      h, i := HashStripes(data, seed);
    } else {
      h, i := (seed + P5) % M, 0;
    }
    h := (h + |data|) % M;
    h := HashTail(data, h, i);
    h := XorWord(h, ShrWord(h, 33));
    h := h * P2 % M;
    h := XorWord(h, ShrWord(h, 29));
    h := h * P3 % M;
    h := XorWord(h, ShrWord(h, 32));
  }

  /** The loop over full stripes and the convergence of its four lanes. */
  method HashStripes(data: seq<byte>, seed: int) returns (h: word, i: nat)
    requires |data| >= 32
    ensures i == TailStart(|data|)
    ensures Whole(Stripes(data)) && h == Converge(AbsorbAll(Seeded(seed), Stripes(data)))
  {
    hide Rotl, Merge, AbsorbAll, Stripes, Whole;
    var v: Lanes := [(seed + P1 + P2) % M, (seed + P2) % M, seed % M, (seed - P1) % M];
    v, i := AbsorbStripes(data, v);
    h := (Rotl(v[0], 1) + Rotl(v[1], 7) + Rotl(v[2], 12) + Rotl(v[3], 18)) % M;
    h := Merge(h, v[0]);
    h := Merge(h, v[1]);
    h := Merge(h, v[2]);
    h := Merge(h, v[3]);
  }

  method AbsorbStripes(data: seq<byte>, begun: Lanes) returns (v: Lanes, i: nat)
    ensures i == TailStart(|data|)
    ensures Whole(Stripes(data)) && v == AbsorbAll(begun, Stripes(data))
  {
    hide *;
    v, i := begun, 0;
    StripesAreWhole(data);
    assert data[0..] == data;
    while i + 32 <= |data|
      invariant i <= |data| && i % 32 == 0
      invariant Whole(Stripes(data[i..])) && Whole(Stripes(data))
      invariant AbsorbAll(v, Stripes(data[i..])) == AbsorbAll(begun, Stripes(data))
    {
      NextStripe(data, v, i);
      v := [Round(v[0], Lane(data[i..i + 8])), Round(v[1], Lane(data[i + 8..i + 16])),
            Round(v[2], Lane(data[i + 16..i + 24])), Round(v[3], Lane(data[i + 24..i + 32]))];
      i := i + 32;
    }
    NoStripe(data, v, i);
  }

  /** The loops over the tail. */
  method HashTail(data: seq<byte>, begun: word, at: nat) returns (h: word)
    requires at <= |data|
    ensures Units(TailUnits(data[at..])) && h == Consume(begun, TailUnits(data[at..]))
  {
    hide *;
    var i := at;
    h := begun;
    TailUnitsAreUnits(data[at..]);
    while i + 8 <= |data|
      invariant at <= i <= |data|
      invariant Units(TailUnits(data[i..])) && Units(TailUnits(data[at..]))
      invariant Consume(h, TailUnits(data[i..])) == Consume(begun, TailUnits(data[at..]))
    {
      NextEight(data, h, i);
      h := XorWord(h, Round(0, Lane(data[i..i + 8])));
      h := (Rotl(h, 27) * P1 + P4) % M;
      i := i + 8;
    }
    if i + 4 <= |data| {
      NextFour(data, h, i);
      h := XorWord(h, Lane(data[i..i + 4]) * P1 % M);
      h := (Rotl(h, 23) * P2 + P3) % M;
      i := i + 4;
    }
    while i < |data|
      invariant at <= i <= |data| && |data| - i < 4
      invariant Units(TailUnits(data[i..])) && Units(TailUnits(data[at..]))
      invariant Consume(h, TailUnits(data[i..])) == Consume(begun, TailUnits(data[at..]))
    {
      NextByte(data, h, i);
      h := XorWord(h, data[i] * P5 % M);
      h := Rotl(h, 11) * P1 % M;
      i := i + 1;
    }
    NoUnit(data, h, i);
  }

  lemma NextStripe(data: seq<byte>, v: Lanes, i: nat)
    requires i + 32 <= |data|
    ensures Whole(Stripes(data[i..])) && Whole(Stripes(data[i + 32..]))
    ensures AbsorbAll(v, Stripes(data[i..])) ==
            AbsorbAll([Round(v[0], Lane(data[i..i + 8])), Round(v[1], Lane(data[i + 8..i + 16])),
                       Round(v[2], Lane(data[i + 16..i + 24])), Round(v[3], Lane(data[i + 24..i + 32]))],
                      Stripes(data[i + 32..]))
  {
    hide Round, Lane;
    var stripe := data[i..i + 32];
    assert data[i..][..32] == stripe;
    assert data[i..][32..] == data[i + 32..];
    assert stripe[..8] == data[i..i + 8];
    assert stripe[8..16] == data[i + 8..i + 16];
    assert stripe[16..24] == data[i + 16..i + 24];
    assert stripe[24..] == data[i + 24..i + 32];
    StripesAreWhole(data[i..]);
    StripesAreWhole(data[i + 32..]);
  }

  lemma NoStripe(data: seq<byte>, v: Lanes, i: nat)
    requires i <= |data| < i + 32 && i % 32 == 0
    ensures Whole(Stripes(data[i..])) && AbsorbAll(v, Stripes(data[i..])) == v
    ensures i == TailStart(|data|)
  {
  }

  lemma NextUnit(data: seq<byte>, h: word, i: nat, size: nat)
    requires i + size <= |data|
    requires size == 8 || (size == 4 && |data| - i < 8) || (size == 1 && |data| - i < 4)
    ensures Units(TailUnits(data[i..])) && Units(TailUnits(data[i + size..]))
    ensures
      var unit := data[i..i + size];
      Consume(h, TailUnits(data[i..])) ==
      Consume(Stir(XorWord(h, Contribution(unit)), size), TailUnits(data[i + size..]))
  {
    hide Stir, XorWord, Contribution;
    assert data[i..][..size] == data[i..i + size];
    assert data[i..][size..] == data[i + size..];
    TailUnitsAreUnits(data[i..]);
    TailUnitsAreUnits(data[i + size..]);
  }

  lemma NextEight(data: seq<byte>, h: word, i: nat)
    requires i + 8 <= |data|
    ensures Units(TailUnits(data[i..])) && Units(TailUnits(data[i + 8..]))
    ensures Consume(h, TailUnits(data[i..])) ==
            Consume((Rotl(XorWord(h, Round(0, Lane(data[i..i + 8]))), 27) * P1 + P4) % M, TailUnits(data[i + 8..]))
  {
    hide Rotl, XorWord, Round, Lane, TailUnits, Consume;
    NextUnit(data, h, i, 8);
  }

  lemma NextFour(data: seq<byte>, h: word, i: nat)
    requires i + 4 <= |data| < i + 8
    ensures Units(TailUnits(data[i..])) && Units(TailUnits(data[i + 4..]))
    ensures Consume(h, TailUnits(data[i..])) ==
            Consume((Rotl(XorWord(h, Lane(data[i..i + 4]) * P1 % M), 23) * P2 + P3) % M, TailUnits(data[i + 4..]))
  {
    hide Rotl, XorWord, Round, Lane, TailUnits, Consume;
    NextUnit(data, h, i, 4);
  }

  lemma NextByte(data: seq<byte>, h: word, i: nat)
    requires i < |data| < i + 4
    ensures Units(TailUnits(data[i..])) && Units(TailUnits(data[i + 1..]))
    ensures Consume(h, TailUnits(data[i..])) ==
            Consume(Rotl(XorWord(h, data[i] * P5 % M), 11) * P1 % M, TailUnits(data[i + 1..]))
  {
    hide Rotl, XorWord, Round, Lane, TailUnits, Consume;
    NextUnit(data, h, i, 1);
    SingleByte(data, i);
  }

  lemma NoUnit(data: seq<byte>, h: word, i: nat)
    requires i == |data|
    ensures Units(TailUnits(data[i..])) && Consume(h, TailUnits(data[i..])) == h
  {
  }

  lemma SingleByte(data: seq<byte>, i: nat)
    requires i < |data|
    ensures Lane(data[i..i + 1]) == data[i]
  {
    var unit := data[i..i + 1];
    assert unit[1..] == [];
    assert LittleEndian(unit) == unit[0] + 256 * LittleEndian(unit[1..]);
  }

  // ------------------------------------------------------------ what the tail cannot hide

  lemma XorInjective(a: word, b: word, c: word)
    requires XorWord(a, c) == XorWord(b, c)
    ensures a == b
  {
    XorCancel(a, c);
    XorCancel(b, c);
  }

  lemma {:induction false} XorCommutes(a: nat, b: nat)
    ensures Xor(a, b) == Xor(b, a)
  {
    if a != 0 || b != 0 {
      XorCommutes(a / 2, b / 2);
    }
  }

  lemma XorInjectiveRight(c: word, a: word, b: word)
    requires XorWord(c, a) == XorWord(c, b)
    ensures a == b
  {
    XorCommutes(c, a);
    XorCommutes(c, b);
    XorInjective(a, b, c);
  }

  lemma MulInjective(x: word, y: word, p: nat, inverse: nat)
    requires (p * inverse) % M == 1
    requires x * p % M == y * p % M
    ensures x == y
  {
    UnitInverse(x, p, inverse);
    UnitInverse(y, p, inverse);
  }

  lemma Inverses()
    ensures (P1 * INVERSE1) % M == 1 && (P2 * INVERSE2) % M == 1
    ensures (P3 * INVERSE3) % M == 1 && (P5 * INVERSE5) % M == 1
  {
  }

  lemma MulAddInjective(x: word, y: word, p: nat, inverse: nat, c: nat)
    requires (p * inverse) % M == 1
    requires (x * p + c) % M == (y * p + c) % M
    ensures x == y
  {
    ModAbsorbs(x * p, c);
    ModAbsorbs(y * p, c);
    AddInjective(x * p % M, y * p % M, c);
    MulInjective(x, y, p, inverse);
  }

  lemma ModAbsorbs(a: nat, c: nat)
    ensures (a + c) % M == (a % M + c) % M
  {
  }

  lemma StirInjective(h: word, g: word, size: nat)
    requires Stir(h, size) == Stir(g, size)
    ensures h == g
  {
    hide Rotl;
    Inverses();
    if size == 8 {
      MulAddInjective(Rotl(h, 27), Rotl(g, 27), P1, INVERSE1, P4);
      RotlInjective(h, g, 27);
    } else if size == 4 {
      MulAddInjective(Rotl(h, 23), Rotl(g, 23), P2, INVERSE2, P3);
      RotlInjective(h, g, 23);
    } else {
      MulInjective(Rotl(h, 11), Rotl(g, 11), P1, INVERSE1);
      RotlInjective(h, g, 11);
    }
  }

  lemma {:induction false} LittleEndianInjective(a: seq<byte>, b: seq<byte>)
    requires |a| == |b| && LittleEndian(a) == LittleEndian(b)
    ensures a == b
  {
    if a != [] {
      LittleEndianInjective(a[1..], b[1..]);
      assert a == [a[0]] + a[1..];
      assert b == [b[0]] + b[1..];
    }
  }

  lemma ContributionInjective(a: seq<byte>, b: seq<byte>)
    requires |a| == |b| && (|a| == 8 || |a| == 4 || |a| == 1)
    ensures Contribution(a) == Contribution(b) <==> a == b
  {
    hide Rotl, LittleEndian;
    if Contribution(a) == Contribution(b) {
      Inverses();
      var x, y := Lane(a), Lane(b);
      if |a| == 8 {
        MulInjective(Rotl((0 + x * P2) % M, 31), Rotl((0 + y * P2) % M, 31), P1, INVERSE1);
        RotlInjective((0 + x * P2) % M, (0 + y * P2) % M, 31);
        MulInjective(x, y, P2, INVERSE2);
      } else if |a| == 4 {
        MulInjective(x, y, P1, INVERSE1);
      } else {
        MulInjective(x, y, P5, INVERSE5);
      }
      LittleEndianInjective(a, b);
    }
  }

  /** The final mix is injective on 64-bit words. */
  lemma AvalancheInjective(h: word, g: word)
    ensures Avalanche(h) == Avalanche(g) <==> h == g
  {
    hide Xor, Shr;
    if Avalanche(h) == Avalanche(g) {
      Inverses();
      Pow2Values();
      var h1, g1 := XorWord(h, ShrWord(h, 33)), XorWord(g, ShrWord(g, 33));
      var h2, g2 := h1 * P2 % M, g1 * P2 % M;
      var h3, g3 := XorWord(h2, ShrWord(h2, 29)), XorWord(g2, ShrWord(g2, 29));
      var h4, g4 := h3 * P3 % M, g3 * P3 % M;
      XorShiftInjective(h4, g4, 32, 64);
      MulInjective(h3, g3, P3, INVERSE3);
      XorShiftInjective(h2, g2, 29, 64);
      MulInjective(h1, g1, P2, INVERSE2);
      XorShiftInjective(h, g, 33, 64);
    }
  }

  /** Equal units keep different states different. */
  lemma {:induction false} ConsumeInjective(h: word, g: word, units: seq<seq<byte>>)
    requires Units(units)
    ensures Consume(h, units) == Consume(g, units) <==> h == g
    decreases |units|
  {
    hide Stir, XorWord, Contribution;
    if units != [] && Consume(h, units) == Consume(g, units) {
      var c := Contribution(units[0]);
      ConsumeInjective(Stir(XorWord(h, c), |units[0]|), Stir(XorWord(g, c), |units[0]|), units[1..]);
      StirInjective(XorWord(h, c), XorWord(g, c), |units[0]|);
      XorInjective(h, g, c);
    }
  }

  /** Bytes lo to hi of an n-byte tail are one of its units. */
  predicate IsUnit(n: nat, lo: nat, hi: nat) {
    || (hi == lo + 8 && hi <= n && lo % 8 == 0)
    || (hi == lo + 4 && lo == n - n % 8 && n % 8 >= 4)
    || (hi == lo + 1 && hi <= n && lo >= n - n % 4)
  }

  /** Two sequences of one length that differ, and only between lo and hi. */
  predicate DifferWithin(a: seq<byte>, b: seq<byte>, lo: nat, hi: nat) {
    && |a| == |b| && lo < hi <= |a|
    && a[..lo] == b[..lo] && a[hi..] == b[hi..] && a[lo..hi] != b[lo..hi]
  }

  lemma WindowMoves(a: seq<byte>, b: seq<byte>, lo: nat, hi: nat, k: nat)
    requires DifferWithin(a, b, lo, hi) && k <= lo
    ensures a[..k] == b[..k] && DifferWithin(a[k..], b[k..], lo - k, hi - k)
  {
    assert a[..k] == a[..lo][..k] && b[..k] == b[..lo][..k];
    assert a[k..][..lo - k] == a[..lo][k..] && b[k..][..lo - k] == b[..lo][k..];
    assert a[k..][lo - k..hi - k] == a[lo..hi] && b[k..][lo - k..hi - k] == b[lo..hi];
    assert a[k..][hi - k..] == a[hi..] && b[k..][hi - k..] == b[hi..];
  }

  lemma WindowAtStart(a: seq<byte>, b: seq<byte>, hi: nat)
    requires DifferWithin(a, b, 0, hi)
    ensures a[..hi] != b[..hi] && a[hi..] == b[hi..]
  {
    assert a[..hi] == a[0..hi] && b[..hi] == b[0..hi];
  }

  function FirstUnit(n: nat): (k: nat)
    requires n > 0
    ensures k == 8 || k == 4 || k == 1
    ensures k <= n
  {
    if n >= 8 then 8 else if n >= 4 then 4 else 1
  }

  /** The first unit of a tail ends where the tail is cut; the others move up by it. */
  lemma UnitMoves(n: nat, lo: nat, hi: nat)
    requires IsUnit(n, lo, hi)
    ensures n > 0
    ensures lo == 0 ==> hi == FirstUnit(n)
    ensures lo > 0 ==> FirstUnit(n) <= lo && IsUnit(n - FirstUnit(n), lo - FirstUnit(n), hi - FirstUnit(n))
  {
    if n >= 8 {
      Remainders(n - 8);
      if lo > 0 {
        assert lo >= 8;
        Remainders(lo - 8);
      }
    }
  }

  lemma Remainders(n: nat)
    ensures (n + 8) % 8 == n % 8 && (n + 8) % 4 == n % 4
  {
  }

  lemma ConsumeFirst(h: word, a: seq<byte>)
    requires a != []
    ensures var k := FirstUnit(|a|);
      && Units(TailUnits(a)) && Units(TailUnits(a[k..]))
      && Consume(h, TailUnits(a)) == Consume(Stir(XorWord(h, Contribution(a[..k])), k), TailUnits(a[k..]))
  {
    hide Stir, XorWord, Contribution;
    TailUnitsAreUnits(a);
    TailUnitsAreUnits(a[FirstUnit(|a|)..]);
  }

  /** Different units of one size leave different states, whatever follows. */
  lemma UnitSeparates(h: word, a: seq<byte>, b: seq<byte>, rest: seq<seq<byte>>)
    requires |a| == |b| && (|a| == 8 || |a| == 4 || |a| == 1) && a != b
    requires Units(rest)
    ensures Consume(Stir(XorWord(h, Contribution(a)), |a|), rest) != Consume(Stir(XorWord(h, Contribution(b)), |a|), rest)
  {
    hide Stir, XorWord, Contribution, Consume, Units;
    var x, y := Contribution(a), Contribution(b);
    var s, t := Stir(XorWord(h, x), |a|), Stir(XorWord(h, y), |a|);
    if Consume(s, rest) == Consume(t, rest) {
      ConsumeInjective(s, t, rest);
      StirInjective(XorWord(h, x), XorWord(h, y), |a|);
      XorInjectiveRight(h, x, y);
      ContributionInjective(a, b);
    }
  }

  lemma FirstUnitSeparates(h: word, a: seq<byte>, b: seq<byte>, k: nat)
    requires |a| == |b| && a != [] && k == FirstUnit(|a|)
    requires a[..k] != b[..k] && a[k..] == b[k..]
    ensures Units(TailUnits(a)) && Units(TailUnits(b)) && Consume(h, TailUnits(a)) != Consume(h, TailUnits(b))
  {
    hide *;
    ConsumeFirst(h, a);
    ConsumeFirst(h, b);
    UnitSeparates(h, a[..k], b[..k], TailUnits(a[k..]));
  }

  lemma SameFirstUnit(h: word, a: seq<byte>, b: seq<byte>, k: nat) returns (g: word)
    requires |a| == |b| && a != [] && k == FirstUnit(|a|)
    requires a[..k] == b[..k]
    ensures Units(TailUnits(a)) && Units(TailUnits(a[k..])) && Consume(h, TailUnits(a)) == Consume(g, TailUnits(a[k..]))
    ensures Units(TailUnits(b)) && Units(TailUnits(b[k..])) && Consume(h, TailUnits(b)) == Consume(g, TailUnits(b[k..]))
  {
    hide *;
    ConsumeFirst(h, a);
    ConsumeFirst(h, b);
    g := Stir(XorWord(h, Contribution(a[..k])), k);
  }

  /** Tails that agree outside one unit and differ inside it end in different states. */
  lemma {:induction false} TailSeparates(h: word, a: seq<byte>, b: seq<byte>, lo: nat, hi: nat)
    requires DifferWithin(a, b, lo, hi) && |a| == |b| && IsUnit(|a|, lo, hi)
    ensures Units(TailUnits(a)) && Units(TailUnits(b)) && Consume(h, TailUnits(a)) != Consume(h, TailUnits(b))
    decreases |a|
  {
    hide *;
    UnitMoves(|a|, lo, hi);
    var k := FirstUnit(|a|);
    if lo == 0 {
      WindowAtStart(a, b, k);
      FirstUnitSeparates(h, a, b, k);
    } else {
      WindowMoves(a, b, lo, hi, k);
      var g := SameFirstUnit(h, a, b, k);
      TailSeparates(g, a[k..], b[k..], lo - k, hi - k);
    }
  }

  /** Two inputs of one length that differ inside exactly one tail unit never collide,
      whatever the seed. */
  lemma TailInjectivity(a: seq<byte>, b: seq<byte>, seed: int, lo: nat, hi: nat)
    requires DifferWithin(a, b, lo, hi)
    requires TailStart(|a|) <= lo && IsUnit(|a| % 32, lo - TailStart(|a|), hi - TailStart(|a|))
    ensures Digest(a, seed) != Digest(b, seed)
  {
    hide Consume, TailUnits, Avalanche, BeforeTail, IsUnit, Units;
    var at := TailStart(|a|);
    WindowMoves(a, b, lo, hi, at);
    SameStripes(a, b);
    SameBeforeTail(a, b, seed);
    var h := BeforeTail(a, seed);
    TailSeparates(h, a[at..], b[at..], lo - at, hi - at);
    if Digest(a, seed) == Digest(b, seed) {
      AvalancheInjective(Consume(h, TailUnits(a[at..])), Consume(h, TailUnits(b[at..])));
    }
  }

  lemma SameBeforeTail(a: seq<byte>, b: seq<byte>, seed: int)
    requires |a| == |b| && Stripes(a) == Stripes(b)
    ensures BeforeTail(a, seed) == BeforeTail(b, seed)
  {
    hide Converge, AbsorbAll, Stripes;
  }

  lemma {:induction false} SameStripes(a: seq<byte>, b: seq<byte>)
    requires |a| == |b| && a[..TailStart(|a|)] == b[..TailStart(|a|)]
    ensures Stripes(a) == Stripes(b)
  {
    if |a| >= 32 {
      var at := TailStart(|a|);
      assert a[..32] == a[..at][..32] && b[..32] == b[..at][..32];
      assert a[32..][..at - 32] == a[..at][32..] && b[32..][..at - 32] == b[..at][32..];
      SameStripes(a[32..], b[32..]);
    }
  }

  /** On inputs below one stripe, two seeds give one hash exactly when they agree modulo 2^64. */
  lemma SeedInjectivity(data: seq<byte>, s: int, t: int)
    requires |data| < 32
    ensures Digest(data, s) == Digest(data, t) <==> s % M == t % M
  {
    hide Consume, TailUnits, Avalanche, BeforeTail, Units;
    var rest := data[TailStart(|data|)..];
    TailUnitsAreUnits(rest);
    var h, g := BeforeTail(data, s), BeforeTail(data, t);
    AvalancheInjective(Consume(h, TailUnits(rest)), Consume(g, TailUnits(rest)));
    ConsumeInjective(h, g, TailUnits(rest));
    ShortStart(data, s, t);
  }

  lemma ShortStart(data: seq<byte>, s: int, t: int)
    requires |data| < 32
    ensures BeforeTail(data, s) == BeforeTail(data, t) <==> s % M == t % M
  {
    hide Converge, AbsorbAll, Stripes;
    ShiftedSeed(s, P5);
    ShiftedSeed(t, P5);
    if BeforeTail(data, s) == BeforeTail(data, t) {
      AddInjective((s + P5) % M, (t + P5) % M, |data|);
      AddInjective(s % M, t % M, P5);
    }
  }

  lemma ShiftedSeed(s: int, c: nat)
    ensures (s + c) % M == (s % M + c) % M
  {
  }

  // ------------------------------------------------------------ what the stripes cannot hide

  lemma RoundInjective(acc: word, x: word, y: word)
    ensures Round(acc, x) == Round(acc, y) <==> x == y
    ensures Round(x, acc) == Round(y, acc) <==> x == y
  {
    hide Rotl;
    Inverses();
    if Round(acc, x) == Round(acc, y) {
      var s, t := (acc + x * P2) % M, (acc + y * P2) % M;
      MulInjective(Rotl(s, 31), Rotl(t, 31), P1, INVERSE1);
      RotlInjective(s, t, 31);
      MulAddInjective(x, y, P2, INVERSE2, acc);
    }
    if Round(x, acc) == Round(y, acc) {
      var s, t := (x + acc * P2) % M, (y + acc * P2) % M;
      MulInjective(Rotl(s, 31), Rotl(t, 31), P1, INVERSE1);
      RotlInjective(s, t, 31);
      AddInjective(x, y, acc * P2);
    }
  }

  lemma LaneInjective(a: seq<byte>, b: seq<byte>)
    requires |a| == |b| <= 8
    ensures Lane(a) == Lane(b) <==> a == b
  {
    if Lane(a) == Lane(b) {
      LittleEndianInjective(a, b);
    }
  }

  /** Equal stripes keep different lanes different, and different stripes equal ones. */
  lemma AbsorbInjective(v: Lanes, w: Lanes, a: seq<byte>, b: seq<byte>)
    requires |a| == |b| == 32
    ensures Absorb(v, a) == Absorb(w, a) <==> v == w
    ensures Absorb(v, a) == Absorb(v, b) <==> a == b
  {
    hide Round, Lane;
    if Absorb(v, a) == Absorb(w, a) {
      SameAbsorbed(v, w, a);
    }
    if Absorb(v, a) == Absorb(v, b) {
      AbsorbedSame(v, a, b);
    }
  }

  lemma SameAbsorbed(v: Lanes, w: Lanes, a: seq<byte>)
    requires |a| == 32 && Absorb(v, a) == Absorb(w, a)
    ensures v == w
  {
    hide Round, Lane;
    var s, t := Absorb(v, a), Absorb(w, a);
    assert s[0] == t[0] && s[1] == t[1] && s[2] == t[2] && s[3] == t[3];
    RoundInjective(Lane(a[..8]), v[0], w[0]);
    RoundInjective(Lane(a[8..16]), v[1], w[1]);
    RoundInjective(Lane(a[16..24]), v[2], w[2]);
    RoundInjective(Lane(a[24..]), v[3], w[3]);
  }

  lemma AbsorbedSame(v: Lanes, a: seq<byte>, b: seq<byte>)
    requires |a| == |b| == 32 && Absorb(v, a) == Absorb(v, b)
    ensures a == b
  {
    hide Round, Lane;
    var s, t := Absorb(v, a), Absorb(v, b);
    assert s[0] == t[0] && s[1] == t[1] && s[2] == t[2] && s[3] == t[3];
    RoundInjective(v[0], Lane(a[..8]), Lane(b[..8]));
    RoundInjective(v[1], Lane(a[8..16]), Lane(b[8..16]));
    RoundInjective(v[2], Lane(a[16..24]), Lane(b[16..24]));
    RoundInjective(v[3], Lane(a[24..]), Lane(b[24..]));
    LaneInjective(a[..8], b[..8]);
    LaneInjective(a[8..16], b[8..16]);
    LaneInjective(a[16..24], b[16..24]);
    LaneInjective(a[24..], b[24..]);
    assert a == a[..8] + a[8..16] + a[16..24] + a[24..];
    assert b == b[..8] + b[8..16] + b[16..24] + b[24..];
  }

  /** One stripe that differs, anywhere among equal ones, leaves different lanes. */
  lemma {:induction false} StripesSeparate(v: Lanes, front: seq<seq<byte>>, a: seq<byte>, b: seq<byte>, back: seq<seq<byte>>)
    requires Whole(front) && Whole(back) && |a| == |b| == 32
    ensures Whole(front + [a] + back) && Whole(front + [b] + back)
    ensures AbsorbAll(v, front + [a] + back) == AbsorbAll(v, front + [b] + back) <==> a == b
    decreases |front|
  {
    hide Absorb;
    var xs, ys := front + [a] + back, front + [b] + back;
    if front == [] {
      assert xs[1..] == back && ys[1..] == back;
      AbsorbInjective(v, v, a, b);
      AbsorbAllInjective(Absorb(v, a), Absorb(v, b), back);
    } else {
      assert xs[1..] == front[1..] + [a] + back && ys[1..] == front[1..] + [b] + back;
      StripesSeparate(Absorb(v, front[0]), front[1..], a, b, back);
    }
  }

  lemma {:induction false} AbsorbAllInjective(v: Lanes, w: Lanes, stripes: seq<seq<byte>>)
    requires Whole(stripes)
    ensures AbsorbAll(v, stripes) == AbsorbAll(w, stripes) <==> v == w
    decreases |stripes|
  {
    hide Absorb;
    if stripes != [] {
      AbsorbInjective(v, w, stripes[0], stripes[0]);
      AbsorbAllInjective(Absorb(v, stripes[0]), Absorb(w, stripes[0]), stripes[1..]);
    }
  }

  lemma {:induction false} StripesApart(x: seq<byte>, rest: seq<byte>)
    requires |x| % 32 == 0
    ensures Stripes(x + rest) == Stripes(x) + Stripes(rest)
  {
    if x == [] {
      assert x + rest == rest;
    } else {
      assert (x + rest)[..32] == x[..32] && (x + rest)[32..] == x[32..] + rest;
      StripesApart(x[32..], rest);
    }
  }

  /** Two inputs that differ in one stripe only have different lanes when the stripes are done. */
  lemma StripeInjectivity(x: seq<byte>, a: seq<byte>, b: seq<byte>, y: seq<byte>, seed: int)
    requires |x| % 32 == 0 && |a| == |b| == 32
    ensures Whole(Stripes(x + (a + y))) && Whole(Stripes(x + (b + y)))
    ensures AbsorbAll(Seeded(seed), Stripes(x + (a + y))) == AbsorbAll(Seeded(seed), Stripes(x + (b + y))) <==> a == b
  {
    hide *;
    StripesAreWhole(x);
    StripesAreWhole(y);
    OneStripe(a, y);
    OneStripe(b, y);
    StripesApart(x, a + y);
    StripesApart(x, b + y);
    assert Stripes(x) + ([a] + Stripes(y)) == Stripes(x) + [a] + Stripes(y);
    assert Stripes(x) + ([b] + Stripes(y)) == Stripes(x) + [b] + Stripes(y);
    StripesSeparate(Seeded(seed), Stripes(x), a, b, Stripes(y));
  }

  lemma OneStripe(a: seq<byte>, y: seq<byte>)
    requires |a| == 32
    ensures Stripes(a + y) == [a] + Stripes(y)
  {
    assert (a + y)[..32] == a && (a + y)[32..] == y;
  }
}
