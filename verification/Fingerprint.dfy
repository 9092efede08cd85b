/**
 JA3 and JA4 of scripts/tls_hello.py up to the hash functions: what the fingerprint
 texts depend on, and that they depend on nothing less.
 */
module Fingerprint {
  import opened Bytes
  import opened Options
  import opened Text
  import opened TlsHello

  /** What `details` collects from the extension bodies. */
  datatype Details = Details(alpn: seq<string>, sigalgs: seq<u16>, groups: seq<u16>, versions: seq<u16>, points: seq<byte>)

  /** value & 0x0F0F == 0x0A0A and value >> 8 == value & 0xFF (section 2 of RFC 8701). */
  predicate IsGrease(v: u16) {
    v / 256 % 16 == 10 && v % 16 == 10 && v / 256 == v % 256
  }

  function WithoutGrease(values: seq<u16>): seq<u16> {
    if values == [] then []
    else (if IsGrease(values[0]) then [] else [values[0]]) + WithoutGrease(values[1..])
  }

  function Kinds(extensions: seq<Extension>): (r: seq<u16>)
    ensures |r| == |extensions| && forall i :: 0 <= i < |r| ==> r[i] == extensions[i].kind
  {
    if extensions == [] then [] else [extensions[0].kind] + Kinds(extensions[1..])
  }

  /** `dict(extensions).get(kind)`: the last body of that kind. */
  function Lookup(extensions: seq<Extension>, kind: u16): Option<seq<byte>> {
    if extensions == [] then None
    else
      var last := extensions[|extensions| - 1];
      if last.kind == kind then Some(last.body) else Lookup(extensions[..|extensions| - 1], kind)
  }

  /** `_u16_list`: struct.unpack wants every byte used. */
  function U16List(body: seq<byte>, skip: nat): Result<seq<u16>> {
    var rest := Drop(body, skip);
    if |rest| % 2 != 0 then Err(Malformed) else Ok(U16s(rest, |rest| / 2))
  }

  function ListOf(extensions: seq<Extension>, kind: u16, skip: nat): Result<seq<u16>> {
    match Lookup(extensions, kind)
    case None => Ok([])
    case Some(body) => U16List(body, skip)
  }

  function Latin1(bytes: seq<byte>): (s: string)
    ensures |s| == |bytes|
  {
    if bytes == [] then "" else [bytes[0] as char] + Latin1(bytes[1..])
  }

  /** The protocol names of an ALPN body from `rest` on; a name cut short is kept. */
  function AlpnNames(rest: seq<byte>): seq<string>
    decreases |rest|
  {
    if rest == [] then []
    else
      var size: nat := rest[0];
      [Latin1(Take(rest[1..], size))] + AlpnNames(Drop(rest, 1 + size))
  }

  function Inspect(hello: Hello): Result<Details> {
    var names := match Lookup(hello.extensions, ALPN) case None => [] case Some(body) => AlpnNames(Drop(body, 2));
    var points := match Lookup(hello.extensions, EC_POINT_FORMATS) case None => [] case Some(body) => Drop(body, 1);
    match ListOf(hello.extensions, SIGALGS, 2)
    case Err(e) => Err(e)
    case Ok(sigalgs) =>
      match ListOf(hello.extensions, SUPPORTED_GROUPS, 2)
      case Err(e) => Err(e)
      case Ok(groups) =>
        match ListOf(hello.extensions, SUPPORTED_VERSIONS, 1)
        case Err(e) => Err(e)
        case Ok(versions) => Ok(Details(names, sigalgs, groups, versions, points))
  }

  /** The ALPN loop of `details`. */
  method ParseAlpn(body: seq<byte>) returns (names: seq<string>)
    ensures names == AlpnNames(Drop(body, 2))
  {
    hide Latin1, Take, Drop, AlpnNames;
    var pos: nat := 2;
    names := [];
    ghost var whole := AlpnNames(Drop(body, 2));
    assert [] + whole == whole;
    while pos < |body|
      invariant names + AlpnNames(Drop(body, pos)) == whole
      decreases |body| - pos
    {
      var size: nat := body[pos];
      DropInside(body, pos);
      AlpnStep(body, pos, size);
      ghost var more := AlpnNames(Drop(body, pos + 1 + size));
      var name := Latin1(Take(body[pos + 1..], size));
      assert names + ([name] + more) == names + [name] + more;
      names := names + [name];
      pos := pos + 1 + size;
    }
    AlpnEnd(body, pos);
    assert names + [] == names;
  }

  lemma AlpnEnd(body: seq<byte>, pos: nat)
    requires pos >= |body|
    ensures AlpnNames(Drop(body, pos)) == []
  {
  }

  lemma AlpnStep(body: seq<byte>, pos: nat, size: nat)
    requires pos < |body| && size == body[pos]
    ensures AlpnNames(Drop(body, pos)) == [Latin1(Take(body[pos + 1..], size))] + AlpnNames(Drop(body, pos + 1 + size))
  {
    assert Drop(body, pos)[1..] == body[pos + 1..];
    DropTwice(body, pos, 1 + size);
  }

  /** `_u16_list` on the extension of one kind, when there is one. */
  method CollectList(extensions: seq<Extension>, kind: u16, skip: nat) returns (r: Result<seq<u16>>)
    ensures r == ListOf(extensions, kind, skip)
  {
    hide U16s, Lookup;
    var body := Lookup(extensions, kind);
    if body.None? {
      return Ok([]);
    }
    var rest := Drop(body.value, skip);
    if |rest| % 2 != 0 {
      return Err(Malformed);
    }
    var list := UnpackU16s(rest, 0, |rest| / 2);
    assert rest[0..] == rest;
    r := Ok(list.value);
  }

  /** `details`. */
  method CollectDetails(hello: Hello) returns (r: Result<Details>)
    ensures r == Inspect(hello)
  {
    hide Lookup, ListOf, AlpnNames, Drop;
    var alpn: seq<string>, points: seq<byte> := [], [];
    var body := Lookup(hello.extensions, ALPN);
    if body.Some? {
      alpn := ParseAlpn(body.value);
    }
    var sigalgs := CollectList(hello.extensions, SIGALGS, 2);
    if sigalgs.Err? {
      return Err(sigalgs.error);
    }
    var groups := CollectList(hello.extensions, SUPPORTED_GROUPS, 2);
    if groups.Err? {
      return Err(groups.error);
    }
    var versions := CollectList(hello.extensions, SUPPORTED_VERSIONS, 1);
    if versions.Err? {
      return Err(versions.error);
    }
    body := Lookup(hello.extensions, EC_POINT_FORMATS);
    if body.Some? {
      points := Drop(body.value, 1);
    }
    r := Ok(Details(alpn, sigalgs.value, groups.value, versions.value, points));
  }

  // ------------------------------------------------------------ JA3

  /** The text `ja3` hashes. */
  function Ja3Text(hello: Hello, info: Details): string {
    Join(',', Ja3Fields(WithoutGrease(hello.ciphers), WithoutGrease(Kinds(hello.extensions)),
                        WithoutGrease(info.groups), info.points))
  }

  function Ja3Fields(ciphers: seq<nat>, kinds: seq<nat>, groups: seq<nat>, points: seq<nat>): (r: seq<string>)
    ensures |r| == 5
  {
    ["771", Dashed(ciphers), Dashed(kinds), Dashed(groups), Dashed(points)]
  }

  function Decimals(values: seq<nat>): (r: seq<string>)
    ensures |r| == |values| && forall i :: 0 <= i < |values| ==> r[i] == Decimal(values[i])
  {
    if values == [] then [] else [Decimal(values[0])] + Decimals(values[1..])
  }

  function Dashed(values: seq<nat>): string {
    Join('-', Decimals(values))
  }

  lemma DashedInjective(xs: seq<nat>, ys: seq<nat>)
    requires Dashed(xs) == Dashed(ys)
    ensures xs == ys
  {
    JoinInjective('-', Decimals(xs), Decimals(ys));
    forall i | 0 <= i < |xs|
      ensures xs[i] == ys[i]
    {
      assert Decimals(xs)[i] == Decimals(ys)[i];
      DecimalInjective(xs[i], ys[i]);
    }
  }

  lemma DashedHasNoComma(values: seq<nat>)
    ensures Free(',', Dashed(values))
  {
    JoinFree(',', '-', Decimals(values));
  }

  lemma Ja3FieldsInjective(c1: seq<nat>, k1: seq<nat>, g1: seq<nat>, p1: seq<nat>,
                           c2: seq<nat>, k2: seq<nat>, g2: seq<nat>, p2: seq<nat>)
    requires Join(',', Ja3Fields(c1, k1, g1, p1)) == Join(',', Ja3Fields(c2, k2, g2, p2))
    ensures c1 == c2 && k1 == k2 && g1 == g2 && p1 == p2
  {
    hide Dashed, Join;
    var xs, ys := Ja3Fields(c1, k1, g1, p1), Ja3Fields(c2, k2, g2, p2);
    DashedHasNoComma(c1);
    DashedHasNoComma(k1);
    DashedHasNoComma(g1);
    DashedHasNoComma(p1);
    DashedHasNoComma(c2);
    DashedHasNoComma(k2);
    DashedHasNoComma(g2);
    DashedHasNoComma(p2);
    assert forall p :: p in xs + ys ==> Free(',', p);
    JoinOfLengthInjective(',', xs, ys);
    assert xs[1] == ys[1] && xs[2] == ys[2] && xs[3] == ys[3] && xs[4] == ys[4];
    DashedInjective(c1, c2);
    DashedInjective(k1, k2);
    DashedInjective(g1, g2);
    DashedInjective(p1, p2);
  }

  /** Two hellos have one JA3 text exactly when they agree, GREASE aside, on the ordered
      ciphers, extension types and groups, and on the point formats. */
  lemma Ja3Characterisation(h1: Hello, i1: Details, h2: Hello, i2: Details)
    ensures Ja3Text(h1, i1) == Ja3Text(h2, i2) <==>
      && WithoutGrease(h1.ciphers) == WithoutGrease(h2.ciphers)
      && WithoutGrease(Kinds(h1.extensions)) == WithoutGrease(Kinds(h2.extensions))
      && WithoutGrease(i1.groups) == WithoutGrease(i2.groups)
      && i1.points == i2.points
  {
    hide Ja3Fields, Join;
    if Ja3Text(h1, i1) == Ja3Text(h2, i2) {
      Ja3FieldsInjective(
        WithoutGrease(h1.ciphers), WithoutGrease(Kinds(h1.extensions)), WithoutGrease(i1.groups), i1.points,
        WithoutGrease(h2.ciphers), WithoutGrease(Kinds(h2.extensions)), WithoutGrease(i2.groups), i2.points);
    }
  }

  // ------------------------------------------------------------ JA4

  predicate Sorted(s: seq<u16>) {
    |s| >= 2 ==> s[0] <= s[1] && Sorted(s[1..])
  }

  function Insert(v: u16, s: seq<u16>): seq<u16> {
    if s == [] then [v]
    else if v <= s[0] then [v] + s
    else [s[0]] + Insert(v, s[1..])
  }

  /** `sorted(values)`. */
  function Sort(values: seq<u16>): seq<u16> {
    if values == [] then [] else Insert(values[0], Sort(values[1..]))
  }

  lemma {:induction false} InsertSorts(v: u16, s: seq<u16>)
    requires Sorted(s)
    ensures Sorted(Insert(v, s))
  {
    if s != [] && v > s[0] {
      InsertSorts(v, s[1..]);
      assert ([s[0]] + Insert(v, s[1..]))[1..] == Insert(v, s[1..]);
    } else {
      assert ([v] + s)[1..] == s;
    }
  }

  lemma {:induction false} InsertAdds(v: u16, s: seq<u16>)
    ensures multiset(Insert(v, s)) == multiset(s) + multiset{v}
  {
    if s != [] {
      InsertAdds(v, s[1..]);
      assert s == [s[0]] + s[1..];
    }
  }

  lemma {:induction false} SortSorts(values: seq<u16>)
    ensures Sorted(Sort(values)) && multiset(Sort(values)) == multiset(values)
  {
    if values != [] {
      SortSorts(values[1..]);
      InsertSorts(values[0], Sort(values[1..]));
      InsertAdds(values[0], Sort(values[1..]));
      assert values == [values[0]] + values[1..];
    }
  }

  lemma {:induction false} HeadIsLeast(s: seq<u16>, k: u16)
    requires Sorted(s) && k in multiset(s)
    ensures s != [] && s[0] <= k
  {
    assert s == [s[0]] + s[1..];
    if |s| >= 2 && k != s[0] {
      assert k in multiset(s[1..]);
      HeadIsLeast(s[1..], k);
    }
  }

  /** A sorted list is determined by what is in it. */
  lemma {:induction false} SortedUnique(xs: seq<u16>, ys: seq<u16>)
    requires Sorted(xs) && Sorted(ys) && multiset(xs) == multiset(ys)
    ensures xs == ys
  {
    if xs == [] {
      assert |multiset(ys)| == 0;
    } else {
      assert |multiset(ys)| == |multiset(xs)| > 0;
      assert xs[0] in multiset(xs) && ys[0] in multiset(ys);
      HeadIsLeast(ys, xs[0]);
      HeadIsLeast(xs, ys[0]);
      TailsAgree(xs, ys);
      SortedUnique(xs[1..], ys[1..]);
      assert xs == [xs[0]] + xs[1..] && ys == [ys[0]] + ys[1..];
    }
  }

  lemma TailsAgree(xs: seq<u16>, ys: seq<u16>)
    requires xs != [] && ys != [] && xs[0] == ys[0]
    requires Sorted(xs) && Sorted(ys) && multiset(xs) == multiset(ys)
    ensures multiset(xs[1..]) == multiset(ys[1..]) && Sorted(xs[1..]) && Sorted(ys[1..])
  {
    assert xs == [xs[0]] + xs[1..] && ys == [ys[0]] + ys[1..];
    assert multiset(xs[1..]) == multiset(xs) - multiset{xs[0]};
    assert multiset(ys[1..]) == multiset(ys) - multiset{ys[0]};
  }

  function Hexes(values: seq<u16>): (r: seq<string>)
    ensures |r| == |values| && forall i :: 0 <= i < |values| ==> r[i] == Hex4(values[i])
  {
    if values == [] then [] else [Hex4(values[0])] + Hexes(values[1..])
  }

  function HexList(values: seq<u16>): string {
    Join(',', Hexes(values))
  }

  lemma HexListInjective(xs: seq<u16>, ys: seq<u16>)
    requires HexList(xs) == HexList(ys)
    ensures xs == ys
  {
    hide Hex4;
    JoinInjective(',', Hexes(xs), Hexes(ys));
    forall i | 0 <= i < |xs|
      ensures xs[i] == ys[i]
    {
      assert Hexes(xs)[i] == Hexes(ys)[i];
      Hex4Injective(xs[i], ys[i]);
    }
  }

  lemma HexListHasNoUnderscore(values: seq<u16>)
    ensures Free('_', HexList(values))
  {
    hide Hex4;
    JoinFree('_', ',', Hexes(values));
  }

  function Maximum(values: seq<u16>): (m: u16)
    requires values != []
    ensures m in values && forall v :: v in values ==> v <= m
  {
    if |values| == 1 then values[0]
    else
      assert values == [values[0]] + values[1..];
      var m := Maximum(values[1..]);
      if values[0] >= m then values[0] else m
  }

  function VersionCode(versions: seq<u16>): (s: string)
    ensures |s| == 2
  {
    var offered := WithoutGrease(versions);
    var best := if offered == [] then 0x0303 else Maximum(offered);
    if best == 0x0304 then "13" else if best == 0x0303 then "12"
    else if best == 0x0302 then "11" else if best == 0x0301 then "10" else "00"
  }

  function AlpnCode(names: seq<string>): (s: string)
    ensures |s| == 2
  {
    if names == [] || names[0] == "" then "00" else [names[0][0], names[0][|names[0]| - 1]]
  }

  function NotSniOrAlpn(kinds: seq<u16>): seq<u16> {
    if kinds == [] then []
    else (if kinds[0] == SNI || kinds[0] == ALPN then [] else [kinds[0]]) + NotSniOrAlpn(kinds[1..])
  }

  /** The three texts of JA4; the last two are hashed. */
  datatype Ja4 = Ja4(head: string, ciphers: string, extensions: string)

  function Head(version: string, sni: bool, ciphers: nat, kinds: nat, alpn: string): string {
    "t" + version + (if sni then "d" else "i") + Capped(ciphers) + Capped(kinds) + alpn
  }

  /** The text of the third part: extension types and, if there are any, signature algorithms. */
  function HashedText(kinds: seq<u16>, sigalgs: seq<u16>): string {
    if sigalgs == [] then HexList(kinds) else HexList(kinds) + "_" + HexList(sigalgs)
  }

  function Ja4Text(hello: Hello, info: Details): Ja4 {
    var ciphers := WithoutGrease(hello.ciphers);
    var kinds := WithoutGrease(Kinds(hello.extensions));
    Ja4(Head(VersionCode(info.versions), SNI in kinds, |ciphers|, |kinds|, AlpnCode(info.alpn)),
        HexList(Sort(ciphers)),
        HashedText(NotSniOrAlpn(Sort(kinds)), info.sigalgs))
  }

  /** The JA4 string for a given truncated hash. */
  function Ja4String(text: Ja4, digest: string -> string): string {
    text.head + "_" + digest(text.ciphers) + "_" + digest(text.extensions)
  }

  /** What JA4 sees of a hello. */
  datatype Features = Features(version: string, sni: bool, ciphers: multiset<u16>, cipherCount: nat, kindCount: nat,
                               alpn: string, kinds: multiset<u16>, sigalgs: seq<u16>)

  function Cap(n: nat): nat {
    if n < 99 then n else 99
  }

  function FeaturesOf(hello: Hello, info: Details): Features {
    var kinds := WithoutGrease(Kinds(hello.extensions));
    Features(VersionCode(info.versions), SNI in kinds,
             multiset(WithoutGrease(hello.ciphers)), Cap(|WithoutGrease(hello.ciphers)|), Cap(|kinds|),
             AlpnCode(info.alpn), multiset(kinds)[SNI := 0][ALPN := 0], info.sigalgs)
  }

  lemma {:induction false} FilterCounts(kinds: seq<u16>, v: u16)
    ensures multiset(NotSniOrAlpn(kinds))[v] == if v == SNI || v == ALPN then 0 else multiset(kinds)[v]
  {
    if kinds != [] {
      FilterCounts(kinds[1..], v);
      assert kinds == [kinds[0]] + kinds[1..];
      var here := if kinds[0] == SNI || kinds[0] == ALPN then [] else [kinds[0]];
      assert multiset(here + NotSniOrAlpn(kinds[1..])) == multiset(here) + multiset(NotSniOrAlpn(kinds[1..]));
    }
  }

  lemma FilterMultiset(kinds: seq<u16>)
    ensures multiset(NotSniOrAlpn(kinds)) == multiset(kinds)[SNI := 0][ALPN := 0]
  {
    hide NotSniOrAlpn;
    forall v: u16
      ensures multiset(NotSniOrAlpn(kinds))[v] == multiset(kinds)[SNI := 0][ALPN := 0][v]
    {
      FilterCounts(kinds, v);
    }
  }

  lemma {:induction false} FilterSorted(kinds: seq<u16>)
    requires Sorted(kinds)
    ensures Sorted(NotSniOrAlpn(kinds))
    ensures NotSniOrAlpn(kinds) != [] ==> kinds != [] && kinds[0] <= NotSniOrAlpn(kinds)[0]
  {
    if kinds != [] {
      FilterSorted(kinds[1..]);
      var more := NotSniOrAlpn(kinds[1..]);
      if kinds[0] != SNI && kinds[0] != ALPN {
        assert NotSniOrAlpn(kinds)[1..] == more;
      } else {
        assert NotSniOrAlpn(kinds) == more;
      }
    }
  }

  /** The sorted list of extension types JA4 hashes, from the multiset alone. */
  lemma HashedKinds(xs: seq<u16>, ys: seq<u16>)
    ensures NotSniOrAlpn(Sort(xs)) == NotSniOrAlpn(Sort(ys))
       <==> multiset(xs)[SNI := 0][ALPN := 0] == multiset(ys)[SNI := 0][ALPN := 0]
  {
    SortSorts(xs);
    SortSorts(ys);
    var s, t := NotSniOrAlpn(Sort(xs)), NotSniOrAlpn(Sort(ys));
    FilterMultiset(Sort(xs));
    FilterMultiset(Sort(ys));
    FilterSorted(Sort(xs));
    FilterSorted(Sort(ys));
    if multiset(s) == multiset(t) {
      SortedUnique(s, t);
    }
  }

  lemma SortedLists(xs: seq<u16>, ys: seq<u16>)
    ensures Sort(xs) == Sort(ys) <==> multiset(xs) == multiset(ys)
  {
    SortSorts(xs);
    SortSorts(ys);
    if multiset(xs) == multiset(ys) {
      SortedUnique(Sort(xs), Sort(ys));
    }
  }

  /** Extension types and signature algorithms can be told apart in the hashed text. */
  lemma HashedTextInjective(k1: seq<u16>, s1: seq<u16>, k2: seq<u16>, s2: seq<u16>)
    ensures HashedText(k1, s1) == HashedText(k2, s2) <==> k1 == k2 && s1 == s2
  {
    hide HexList;
    HexListHasNoUnderscore(k1);
    HexListHasNoUnderscore(k2);
    assert (HexList(k1) + "_" + HexList(s1))[|HexList(k1)|] == '_';
    assert (HexList(k2) + "_" + HexList(s2))[|HexList(k2)|] == '_';
    if HashedText(k1, s1) == HashedText(k2, s2) {
      if s1 == [] || s2 == [] {
        HexListInjective(k1, k2);
      } else {
        FirstField('_', HexList(k1), HexList(s1), HexList(k2), HexList(s2));
        HexListInjective(k1, k2);
        HexListInjective(s1, s2);
      }
    }
  }

  lemma HeadInjective(v1: string, s1: bool, c1: nat, k1: nat, a1: string,
                      v2: string, s2: bool, c2: nat, k2: nat, a2: string)
    requires |v1| == |v2| == 2 && |a1| == |a2| == 2
    requires Head(v1, s1, c1, k1, a1) == Head(v2, s2, c2, k2, a2)
    ensures v1 == v2 && s1 == s2 && Cap(c1) == Cap(c2) && Cap(k1) == Cap(k2) && a1 == a2
  {
    hide Capped;
    var h1, h2 := Head(v1, s1, c1, k1, a1), Head(v2, s2, c2, k2, a2);
    assert h1[1..3] == v1 && h2[1..3] == v2;
    assert h1[3] == (if s1 then 'd' else 'i') && h2[3] == (if s2 then 'd' else 'i');
    assert h1[4..6] == Capped(c1) && h2[4..6] == Capped(c2);
    assert h1[6..8] == Capped(k1) && h2[6..8] == Capped(k2);
    assert h1[8..10] == a1 && h2[8..10] == a2;
    CappedInjective(c1, c2);
    CappedInjective(k1, k2);
  }

  lemma CappedSame(m: nat, n: nat)
    requires Cap(m) == Cap(n)
    ensures Capped(m) == Capped(n)
  {
  }

  /** Two hellos have the same JA4 texts exactly when they agree on version code, SNI,
      capped counts, ALPN code, the multiset of ciphers and of extension types (GREASE,
      SNI and ALPN aside), and the sequence of signature algorithms. */
  lemma Ja4Characterisation(h1: Hello, i1: Details, h2: Hello, i2: Details)
    ensures Ja4Text(h1, i1) == Ja4Text(h2, i2) <==> FeaturesOf(h1, i1) == FeaturesOf(h2, i2)
  {
    hide Head, Sort, HexList, HashedText, Capped, WithoutGrease, VersionCode, AlpnCode, Kinds, NotSniOrAlpn, Cap;
    var c1, c2 := WithoutGrease(h1.ciphers), WithoutGrease(h2.ciphers);
    var k1, k2 := WithoutGrease(Kinds(h1.extensions)), WithoutGrease(Kinds(h2.extensions));
    var n1, n2 := NotSniOrAlpn(Sort(k1)), NotSniOrAlpn(Sort(k2));
    SortedLists(c1, c2);
    HashedKinds(k1, k2);
    if Ja4Text(h1, i1) == Ja4Text(h2, i2) {
      HeadInjective(VersionCode(i1.versions), SNI in k1, |c1|, |k1|, AlpnCode(i1.alpn),
                    VersionCode(i2.versions), SNI in k2, |c2|, |k2|, AlpnCode(i2.alpn));
      HexListInjective(Sort(c1), Sort(c2));
      HashedTextInjective(n1, i1.sigalgs, n2, i2.sigalgs);
    }
    if FeaturesOf(h1, i1) == FeaturesOf(h2, i2) {
      CappedSame(|c1|, |c2|);
      CappedSame(|k1|, |k2|);
      SameHead(VersionCode(i1.versions), SNI in k1, |c1|, |k1|, AlpnCode(i1.alpn), |c2|, |k2|);
    }
  }

  lemma SameHead(v: string, s: bool, c1: nat, k1: nat, a: string, c2: nat, k2: nat)
    requires Capped(c1) == Capped(c2) && Capped(k1) == Capped(k2)
    ensures Head(v, s, c1, k1, a) == Head(v, s, c2, k2, a)
  {
  }

  // ------------------------------------------------------------ what changes nothing

  lemma {:induction false} GreaseAnywhere(a: seq<u16>, g: u16, b: seq<u16>)
    requires IsGrease(g)
    ensures WithoutGrease(a + [g] + b) == WithoutGrease(a + b)
  {
    if a == [] {
      assert (a + [g] + b)[1..] == b && a + b == b;
    } else {
      assert (a + [g] + b)[1..] == a[1..] + [g] + b && (a + b)[1..] == a[1..] + b;
      GreaseAnywhere(a[1..], g, b);
    }
  }

  lemma KindsConcat(a: seq<Extension>, b: seq<Extension>)
    ensures Kinds(a + b) == Kinds(a) + Kinds(b)
  {
    hide Kinds;
  }

  lemma {:induction false} LookupSkips(a: seq<Extension>, e: Extension, b: seq<Extension>, kind: u16)
    requires e.kind != kind
    ensures Lookup(a + [e] + b, kind) == Lookup(a + b, kind)
    decreases |b|
  {
    var xs, ys := a + [e] + b, a + b;
    if b == [] {
      assert xs[..|xs| - 1] == a && ys == a;
    } else {
      assert xs[..|xs| - 1] == a + [e] + b[..|b| - 1];
      assert ys[..|ys| - 1] == a + b[..|b| - 1];
      LookupSkips(a, e, b[..|b| - 1], kind);
    }
  }

  /** A GREASE extension inserted anywhere leaves what `details` collects as it was. */
  lemma GreaseExtensionInert(ciphers: seq<u16>, a: seq<Extension>, e: Extension, b: seq<Extension>)
    requires IsGrease(e.kind)
    ensures Inspect(Hello(ciphers, a + [e] + b)) == Inspect(Hello(ciphers, a + b))
    ensures WithoutGrease(Kinds(a + [e] + b)) == WithoutGrease(Kinds(a + b))
  {
    hide Lookup, Kinds, WithoutGrease, AlpnNames, U16List;
    LookupSkips(a, e, b, ALPN);
    LookupSkips(a, e, b, SIGALGS);
    LookupSkips(a, e, b, SUPPORTED_GROUPS);
    LookupSkips(a, e, b, SUPPORTED_VERSIONS);
    LookupSkips(a, e, b, EC_POINT_FORMATS);
    GreaseKind(a, e, b);
  }

  lemma GreaseKind(a: seq<Extension>, e: Extension, b: seq<Extension>)
    requires IsGrease(e.kind)
    ensures WithoutGrease(Kinds(a + [e] + b)) == WithoutGrease(Kinds(a + b))
  {
    hide *;
    KindsConcat(a + [e], b);
    KindsConcat(a, [e]);
    KindsConcat(a, b);
    assert Kinds([e]) == [e.kind];
    GreaseAnywhere(Kinds(a), e.kind, Kinds(b));
  }

  /** Inserting a GREASE cipher and a GREASE extension anywhere changes neither fingerprint. */
  lemma GreaseChangesNothing(c1: seq<u16>, g: u16, c2: seq<u16>, e1: seq<Extension>, e: Extension, e2: seq<Extension>, info: Details)
    requires IsGrease(g) && IsGrease(e.kind)
    ensures
      var plain, greased := Hello(c1 + c2, e1 + e2), Hello(c1 + [g] + c2, e1 + [e] + e2);
      && Inspect(greased) == Inspect(plain)
      && Ja3Text(greased, info) == Ja3Text(plain, info)
      && Ja4Text(greased, info) == Ja4Text(plain, info)
  {
    hide Inspect, WithoutGrease, Kinds, IsGrease, HexList, Join, Sort, NotSniOrAlpn;
    GreaseAnywhere(c1, g, c2);
    GreaseExtensionInert(c1 + c2, e1, e, e2);
    InspectIgnoresCiphers(Hello(c1 + [g] + c2, e1 + [e] + e2), c1 + c2);
  }

  lemma InspectIgnoresCiphers(hello: Hello, ciphers: seq<u16>)
    ensures Inspect(hello) == Inspect(Hello(ciphers, hello.extensions))
  {
  }

  /** JA3 also ignores a GREASE group. */
  lemma GreaseGroupInert(hello: Hello, info: Details, a: seq<u16>, g: u16, b: seq<u16>)
    requires IsGrease(g)
    ensures Ja3Text(hello, info.(groups := a + [g] + b)) == Ja3Text(hello, info.(groups := a + b))
  {
    hide Join, WithoutGrease;
    GreaseAnywhere(a, g, b);
  }

  ghost predicate DistinctKinds(extensions: seq<Extension>) {
    forall i, j :: 0 <= i < j < |extensions| ==> extensions[i].kind != extensions[j].kind
  }

  /** With distinct types, a lookup finds exactly the extension of that type. */
  lemma {:induction false} LookupDistinct(extensions: seq<Extension>, kind: u16, body: seq<byte>)
    requires DistinctKinds(extensions)
    ensures Lookup(extensions, kind) == Some(body) <==> Extension(kind, body) in extensions
  {
    if extensions != [] {
      var front := extensions[..|extensions| - 1];
      var last := extensions[|extensions| - 1];
      assert extensions == front + [last];
      LookupDistinct(front, kind, body);
    }
  }

  lemma LookupPermuted(a: seq<Extension>, b: seq<Extension>, kind: u16)
    requires DistinctKinds(a) && DistinctKinds(b) && multiset(a) == multiset(b)
    ensures Lookup(a, kind) == Lookup(b, kind)
  {
    hide Lookup, DistinctKinds;
    match Lookup(a, kind)
    case Some(body) =>
      LookupDistinct(a, kind, body);
      assert Extension(kind, body) in multiset(b);
      LookupDistinct(b, kind, body);
    case None =>
      match Lookup(b, kind)
      case None =>
      case Some(body) =>
        LookupDistinct(b, kind, body);
        assert Extension(kind, body) in multiset(a);
        LookupDistinct(a, kind, body);
  }

  lemma {:induction false} KindsPermuted(a: seq<Extension>, b: seq<Extension>)
    requires multiset(a) == multiset(b)
    ensures multiset(Kinds(a)) == multiset(Kinds(b))
    decreases |a|
  {
    if a == [] {
      assert |multiset(b)| == 0;
    } else {
      hide Kinds;
      assert a[0] in multiset(b);
      var i :| 0 <= i < |b| && b[i] == a[0];
      TakeOut(a, 0);
      TakeOut(b, i);
      KindsPermuted(WithoutAt(a, 0), WithoutAt(b, i));
    }
  }

  function WithoutAt<T>(s: seq<T>, i: nat): seq<T>
    requires i < |s|
  {
    s[..i] + s[i + 1..]
  }

  lemma TakeOut(b: seq<Extension>, i: nat)
    requires i < |b|
    ensures multiset(WithoutAt(b, i)) == multiset(b) - multiset{b[i]}
    ensures multiset(Kinds(b)) == multiset(Kinds(WithoutAt(b, i))) + multiset{b[i].kind}
  {
    hide *;
    CutMultiset(b, i);
    CutMultiset(Kinds(b), i);
    KindsWithoutAt(b, i);
  }

  lemma KindsWithoutAt(b: seq<Extension>, i: nat)
    requires i < |b|
    ensures Kinds(WithoutAt(b, i)) == WithoutAt(Kinds(b), i)
  {
    hide Kinds;
    KindsConcat(b[..i], b[i + 1..]);
    KindsTake(b, i);
    KindsDrop(b, i + 1);
  }

  lemma KindsTake(b: seq<Extension>, i: nat)
    requires i <= |b|
    ensures Kinds(b[..i]) == Kinds(b)[..i]
  {
    hide Kinds;
  }

  lemma KindsDrop(b: seq<Extension>, i: nat)
    requires i <= |b|
    ensures Kinds(b[i..]) == Kinds(b)[i..]
  {
    hide Kinds;
  }

  lemma CutMultiset<T>(s: seq<T>, i: nat)
    requires i < |s|
    ensures multiset(s) == multiset(WithoutAt(s, i)) + multiset{s[i]}
  {
    assert s == s[..i] + [s[i]] + s[i + 1..];
  }

  lemma {:induction false} WithoutGreaseCounts(values: seq<u16>, v: u16)
    ensures multiset(WithoutGrease(values))[v] == if IsGrease(v) then 0 else multiset(values)[v]
  {
    if values != [] {
      WithoutGreaseCounts(values[1..], v);
      assert values == [values[0]] + values[1..];
      var here := if IsGrease(values[0]) then [] else [values[0]];
      assert multiset(here + WithoutGrease(values[1..])) == multiset(here) + multiset(WithoutGrease(values[1..]));
    }
  }

  lemma WithoutGreasePermuted(xs: seq<u16>, ys: seq<u16>)
    requires multiset(xs) == multiset(ys)
    ensures multiset(WithoutGrease(xs)) == multiset(WithoutGrease(ys))
    ensures |WithoutGrease(xs)| == |WithoutGrease(ys)|
    ensures forall v :: v in WithoutGrease(xs) <==> v in WithoutGrease(ys)
  {
    var p, q := WithoutGrease(xs), WithoutGrease(ys);
    forall v: u16
      ensures multiset(WithoutGrease(xs))[v] == multiset(WithoutGrease(ys))[v]
    {
      WithoutGreaseCounts(xs, v);
      WithoutGreaseCounts(ys, v);
    }
    assert multiset(p) == multiset(q);
    assert |p| == |multiset(p)| && |q| == |multiset(q)|;
    assert forall v :: v in p <==> v in multiset(p);
  }

  /** Permuting the ciphers and permuting extensions of distinct types leaves JA4 as it was. */
  lemma PermutationChangesNothing(h1: Hello, h2: Hello, info: Details)
    requires multiset(h1.ciphers) == multiset(h2.ciphers)
    requires multiset(h1.extensions) == multiset(h2.extensions)
    requires DistinctKinds(h1.extensions) && DistinctKinds(h2.extensions)
    ensures Inspect(h1) == Inspect(h2)
    ensures Ja4Text(h1, info) == Ja4Text(h2, info)
  {
    hide Lookup, WithoutGrease, Kinds, DistinctKinds, Ja4Text, AlpnNames, U16List;
    LookupPermuted(h1.extensions, h2.extensions, ALPN);
    LookupPermuted(h1.extensions, h2.extensions, SIGALGS);
    LookupPermuted(h1.extensions, h2.extensions, SUPPORTED_GROUPS);
    LookupPermuted(h1.extensions, h2.extensions, SUPPORTED_VERSIONS);
    LookupPermuted(h1.extensions, h2.extensions, EC_POINT_FORMATS);
    KindsPermuted(h1.extensions, h2.extensions);
    WithoutGreasePermuted(h1.ciphers, h2.ciphers);
    WithoutGreasePermuted(Kinds(h1.extensions), Kinds(h2.extensions));
    Ja4Characterisation(h1, info, h2, info);
  }

  // ------------------------------------------------------------ fingerprints

  datatype Fingerprints = Fingerprints(ja4: string, ja3: string, alpn: seq<string>)

  /** `fingerprints`, for given hash functions: on every byte string it ends, with fingerprints
      exactly when the message parses and its number lists are whole, and else with one of the
      two errors. */
  method ComputeFingerprints(data: seq<byte>, md5: string -> string, sha12: string -> string) returns (r: Result<Fingerprints>)
    ensures r == FingerprintsOf(data, md5, sha12)
    ensures r.Ok? <==>
      && Read(data).Ok?
      && EvenList(Read(data).value.extensions, SIGALGS, 2)
      && EvenList(Read(data).value.extensions, SUPPORTED_GROUPS, 2)
      && EvenList(Read(data).value.extensions, SUPPORTED_VERSIONS, 1)
    ensures r == Err(NotAClientHello) <==> StripRecord(data) != [] && StripRecord(data)[0] != 1
  {
    FingerprintsTotal(data, md5, sha12);
    var hello := Parse(data);
    if hello.Err? {
      return Err(hello.error);
    }
    var info := CollectDetails(hello.value);
    if info.Err? {
      return Err(info.error);
    }
    r := Ok(Fingerprints(Ja4String(Ja4Text(hello.value, info.value), sha12),
                         md5(Ja3Text(hello.value, info.value)), info.value.alpn));
  }

  function FingerprintsOf(data: seq<byte>, md5: string -> string, sha12: string -> string): Result<Fingerprints> {
    match Read(data)
    case Err(e) => Err(e)
    case Ok(hello) =>
      match Inspect(hello)
      case Err(e) => Err(e)
      case Ok(info) => Ok(Fingerprints(Ja4String(Ja4Text(hello, info), sha12), md5(Ja3Text(hello, info)), info.alpn))
  }

  predicate EvenList(extensions: seq<Extension>, kind: u16, skip: nat) {
    match Lookup(extensions, kind)
    case None => true
    case Some(body) => |Drop(body, skip)| % 2 == 0
  }

  /** On every byte string: fingerprints exactly when the message parses and the three lists
      of 16-bit numbers are whole; otherwise one of the two errors, `NotAClientHello` only for
      a message of another type. */
  lemma FingerprintsTotal(data: seq<byte>, md5: string -> string, sha12: string -> string)
    ensures FingerprintsOf(data, md5, sha12).Ok? <==>
      && Read(data).Ok?
      && EvenList(Read(data).value.extensions, SIGALGS, 2)
      && EvenList(Read(data).value.extensions, SUPPORTED_GROUPS, 2)
      && EvenList(Read(data).value.extensions, SUPPORTED_VERSIONS, 1)
    ensures FingerprintsOf(data, md5, sha12) == Err(NotAClientHello) <==>
      StripRecord(data) != [] && StripRecord(data)[0] != 1
  {
    hide Lookup, ReadCiphers, Ja4Text, Ja3Text, AlpnNames, U16s;
    ReadCiphersNeverRefusesType(Drop(StripRecord(data), 39 + (if |StripRecord(data)| > 38 then StripRecord(data)[38] as nat else 0)));
  }

  lemma ReadCiphersNeverRefusesType(rest: seq<byte>)
    ensures ReadCiphers(rest) != Err(NotAClientHello)
  {
    hide ReadExtensions, U16s, U16;
  }

  /** On the wire: two well-formed hellos that differ in the order of their ciphers, in the
      order of extensions of distinct types, and in everything JA4 does not look at, get the
      same JA4 string and ALPN list, or fail alike. */
  lemma PermutedOnTheWire(h1: ClientHello, t1: seq<byte>, h2: ClientHello, t2: seq<byte>,
                          md5: string -> string, sha12: string -> string)
    requires WellFormed(h1) && WellFormed(h2)
    requires multiset(h1.ciphers) == multiset(h2.ciphers) && multiset(h1.extensions) == multiset(h2.extensions)
    requires DistinctKinds(h1.extensions) && DistinctKinds(h2.extensions)
    ensures
      var r1, r2 := FingerprintsOf(Encode(h1) + t1, md5, sha12), FingerprintsOf(Encode(h2) + t2, md5, sha12);
      && (r1.Ok? <==> r2.Ok?)
      && (r1.Err? ==> r1 == r2)
      && (r1.Ok? ==> r1.value.ja4 == r2.value.ja4 && r1.value.alpn == r2.value.alpn)
  {
    hide Read, Encode, Inspect, Ja4Text, Ja3Text, WellFormed, DistinctKinds, Ja4String;
    RoundTrip(h1, 0, 0, t1);
    RoundTrip(h2, 0, 0, t2);
    var a, b := Hello(h1.ciphers, h1.extensions), Hello(h2.ciphers, h2.extensions);
    var info := if Inspect(a).Ok? then Inspect(a).value else Details([], [], [], [], []);
    PermutationChangesNothing(a, b, info);
  }
}
