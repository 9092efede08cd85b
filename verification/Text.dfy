/** Numbers written out and lists joined with a separator, and what can be read back from them. */
module Text {
  import opened Bytes

  /** `sep.join(parts)`. */
  function Join(sep: char, parts: seq<string>): string {
    if parts == [] then ""
    else if |parts| == 1 then parts[0]
    else parts[0] + [sep] + Join(sep, parts[1..])
  }

  function Digit(d: nat): char
    requires d < 16
  {
    "0123456789abcdef"[d]
  }

  /** `str(n)`. */
  function Decimal(n: nat): (s: string)
    ensures s != "" && forall c :: c in s ==> '0' <= c <= '9'
  {
    if n < 10 then [Digit(n)] else Decimal(n / 10) + [Digit(n % 10)]
  }

  /** `f"{n:04x}"` of a 16-bit number. */
  function Hex4(v: u16): (s: string)
    ensures |s| == 4 && forall c :: c in s ==> '0' <= c <= '9' || 'a' <= c <= 'f'
  {
    [Digit(v / 4096), Digit(v / 256 % 16), Digit(v / 16 % 16), Digit(v % 16)]
  }

  /** `f"{min(n, 99):02d}"`. */
  function Capped(n: nat): (s: string)
    ensures |s| == 2
  {
    var m := if n < 99 then n else 99;
    [Digit(m / 10), Digit(m % 10)]
  }

  lemma DigitInjective(a: nat, b: nat)
    requires a < 16 && b < 16 && Digit(a) == Digit(b)
    ensures a == b
  {
  }

  lemma {:induction false} DecimalInjective(m: nat, n: nat)
    requires Decimal(m) == Decimal(n)
    ensures m == n
  {
    var s := Decimal(m);
    assert s[|s| - 1] == Digit(m % 10) == Digit(n % 10);
    DigitInjective(m % 10, n % 10);
    if m >= 10 && n >= 10 {
      assert s[..|s| - 1] == Decimal(m / 10) == Decimal(n / 10);
      DecimalInjective(m / 10, n / 10);
    }
  }

  lemma Hex4Injective(v: u16, w: u16)
    requires Hex4(v) == Hex4(w)
    ensures v == w
  {
    DigitInjective(v / 4096, w / 4096);
    DigitInjective(v / 256 % 16, w / 256 % 16);
    DigitInjective(v / 16 % 16, w / 16 % 16);
    DigitInjective(v % 16, w % 16);
    Nibbles(v);
    Nibbles(w);
  }

  lemma Nibbles(v: u16)
    ensures v == v / 4096 * 4096 + v / 256 % 16 * 256 + v / 16 % 16 * 16 + v % 16
  {
    assert v / 16 == v / 256 * 16 + v / 16 % 16;
    assert v / 256 == v / 4096 * 16 + v / 256 % 16;
  }

  lemma CappedInjective(m: nat, n: nat)
    requires Capped(m) == Capped(n)
    ensures m == n || (m >= 99 && n >= 99)
  {
    var a, b := if m < 99 then m else 99, if n < 99 then n else 99;
    DigitInjective(a / 10, b / 10);
    DigitInjective(a % 10, b % 10);
  }

  // ------------------------------------------------------------ reading a join back

  predicate Free(c: char, s: string) {
    c !in s
  }

  /** The text before the first separator is determined. */
  lemma FirstField(c: char, a: string, r: string, b: string, s: string)
    requires Free(c, a) && Free(c, b)
    requires a + [c] + r == b + [c] + s
    ensures a == b && r == s
  {
    var t := a + [c] + r;
    assert t[|a|] == c && t[|b|] == c;
    assert |a| == |b|;
    assert t[..|a|] == a && t[..|b|] == b;
    assert t[|a| + 1..] == r && t[|b| + 1..] == s;
  }

  ghost predicate Fields(c: char, parts: seq<string>) {
    forall i :: 0 <= i < |parts| ==> parts[i] != "" && Free(c, parts[i])
  }

  /** A list of non-empty fields is determined by its join. */
  lemma {:induction false} JoinInjective(c: char, xs: seq<string>, ys: seq<string>)
    requires Fields(c, xs) && Fields(c, ys) && Join(c, xs) == Join(c, ys)
    ensures xs == ys
  {
    if xs == [] || ys == [] {
      JoinEmpty(c, xs);
      JoinEmpty(c, ys);
    } else if |xs| == 1 || |ys| == 1 {
      JoinSeparator(c, xs);
      JoinSeparator(c, ys);
      assert Free(c, xs[0]) && Free(c, ys[0]);
    } else {
      FirstField(c, xs[0], Join(c, xs[1..]), ys[0], Join(c, ys[1..]));
      JoinInjective(c, xs[1..], ys[1..]);
      assert xs == [xs[0]] + xs[1..] && ys == [ys[0]] + ys[1..];
    }
  }

  lemma JoinEmpty(c: char, xs: seq<string>)
    requires Fields(c, xs)
    ensures Join(c, xs) == "" <==> xs == []
  {
  }

  lemma JoinSeparator(c: char, xs: seq<string>)
    requires |xs| > 0
    ensures |xs| > 1 ==> c in Join(c, xs)
  {
    if |xs| > 1 {
      assert Join(c, xs)[|xs[0]|] == c;
    }
  }

  /** A list of known length is determined by its join even when fields are empty. */
  lemma {:induction false} JoinOfLengthInjective(c: char, xs: seq<string>, ys: seq<string>)
    requires |xs| == |ys| && (forall p :: p in xs + ys ==> Free(c, p)) && Join(c, xs) == Join(c, ys)
    ensures xs == ys
  {
    if |xs| > 1 {
      assert xs[0] in xs + ys && ys[0] in xs + ys;
      FirstField(c, xs[0], Join(c, xs[1..]), ys[0], Join(c, ys[1..]));
      forall p | p in xs[1..] + ys[1..]
        ensures Free(c, p)
      {
        assert p in xs + ys;
      }
      JoinOfLengthInjective(c, xs[1..], ys[1..]);
      assert xs == [xs[0]] + xs[1..] && ys == [ys[0]] + ys[1..];
    }
  }

  /** A character in no field and not the separator is not in the join. */
  lemma {:induction false} JoinFree(c: char, sep: char, xs: seq<string>)
    requires c != sep && forall p :: p in xs ==> Free(c, p)
    ensures Free(c, Join(sep, xs))
  {
    if |xs| > 0 {
      assert xs[0] in xs;
      JoinFree(c, sep, xs[1..]);
    }
  }
}
