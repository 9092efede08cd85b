/**
 What `details` collects is what the extensions announce, and the fingerprint texts of a
 recorded client.
 */
module FingerprintReadBack {
  import opened Bytes
  import opened Options
  import opened Text
  import opened TlsHello
  import opened Fingerprint

  ghost predicate Absent(extensions: seq<Extension>, kind: u16) {
    forall e :: e in extensions ==> e.kind != kind
  }

  /** `signature_algorithms`, `supported_groups` (sections 4.2.3 and 4.2.7 of RFC 8446). */
  ghost predicate AnnouncesList(extensions: seq<Extension>, kind: u16, values: seq<u16>) {
    || Extension(kind, LengthBytes(2 * |values|) + EncodeU16s(values)) in extensions
    || (Absent(extensions, kind) && values == [])
  }

  /** `supported_versions` (section 4.2.1). */
  ghost predicate AnnouncesVersions(extensions: seq<Extension>, kind: u16, values: seq<u16>) {
    || Extension(kind, [2 * |values| % 0x100] + EncodeU16s(values)) in extensions
    || (Absent(extensions, kind) && values == [])
  }

  /** `ec_point_formats` (section 5.1.2 of RFC 8422). */
  ghost predicate AnnouncesPoints(extensions: seq<Extension>, kind: u16, points: seq<byte>) {
    || Extension(kind, [|points| % 0x100] + points) in extensions
    || (Absent(extensions, kind) && points == [])
  }

  /** A protocol name list (section 3.1 of RFC 7301). */
  function EncodeNames(names: seq<seq<byte>>): seq<byte>
    requires forall n :: n in names ==> |n| < 0x100
  {
    if names == [] then [] else [|names[0]|] + names[0] + EncodeNames(names[1..])
  }

  ghost predicate AnnouncesNames(extensions: seq<Extension>, kind: u16, names: seq<seq<byte>>) {
    && (forall n :: n in names ==> |n| < 0x100)
    && (|| Extension(kind, LengthBytes(|EncodeNames(names)|) + EncodeNames(names)) in extensions
        || (Absent(extensions, kind) && names == []))
  }

  function AsText(names: seq<seq<byte>>): (r: seq<string>)
    ensures |r| == |names| && forall i :: 0 <= i < |r| ==> r[i] == Latin1(names[i])
  {
    if names == [] then [] else [Latin1(names[0])] + AsText(names[1..])
  }

  lemma AbsentIsNone(extensions: seq<Extension>, kind: u16)
    requires Absent(extensions, kind)
    ensures Lookup(extensions, kind) == None
  {
    if extensions != [] {
      var front := extensions[..|extensions| - 1];
      assert extensions[|extensions| - 1] in extensions;
      assert forall e :: e in front ==> e in extensions;
      AbsentIsNone(front, kind);
    }
  }

  lemma ListReadsBack(extensions: seq<Extension>, kind: u16, values: seq<u16>)
    requires DistinctKinds(extensions) && AnnouncesList(extensions, kind, values)
    ensures ListOf(extensions, kind, 2) == Ok(values)
  {
    hide Lookup, DistinctKinds, EncodeU16s, U16s;
    var body := LengthBytes(2 * |values|) + EncodeU16s(values);
    if Extension(kind, body) in extensions {
      LookupDistinct(extensions, kind, body);
      ListBody(body, LengthBytes(2 * |values|), values);
    } else {
      AbsentIsNone(extensions, kind);
    }
  }

  lemma VersionsReadBack(extensions: seq<Extension>, kind: u16, values: seq<u16>)
    requires DistinctKinds(extensions) && AnnouncesVersions(extensions, kind, values)
    ensures ListOf(extensions, kind, 1) == Ok(values)
  {
    hide Lookup, DistinctKinds, EncodeU16s, U16s;
    var body := [2 * |values| % 0x100] + EncodeU16s(values);
    if Extension(kind, body) in extensions {
      LookupDistinct(extensions, kind, body);
      ListBody(body, [2 * |values| % 0x100], values);
    } else {
      AbsentIsNone(extensions, kind);
    }
  }

  lemma ListBody(body: seq<byte>, length: seq<byte>, values: seq<u16>)
    requires body == length + EncodeU16s(values)
    ensures U16List(body, |length|) == Ok(values)
  {
    hide EncodeU16s, U16s;
    DropPrefix(length, EncodeU16s(values));
    U16sRoundTrip(values, []);
    assert EncodeU16s(values) + [] == EncodeU16s(values);
  }

  lemma {:induction false} NamesReadBack(names: seq<seq<byte>>)
    requires forall n :: n in names ==> |n| < 0x100
    ensures AlpnNames(EncodeNames(names)) == AsText(names)
  {
    if names != [] {
      hide Latin1, AlpnNames, Take, Drop;
      NamesReadBack(names[1..]);
      NameFirst(names[0], EncodeNames(names[1..]));
    }
  }

  lemma NameFirst(name: seq<byte>, more: seq<byte>)
    requires |name| < 0x100
    ensures AlpnNames([|name|] + name + more) == [Latin1(name)] + AlpnNames(more)
  {
    hide Latin1;
    var length: byte := |name|;
    var s := [length] + name + more;
    assert s[0] == length && s[1..] == name + more && s == ([length] + name) + more;
    DropPrefix(name, more);
    DropPrefix([length] + name, more);
    hide Take, Drop;
    AlpnUnfolds(s);
  }

  lemma AlpnUnfolds(s: seq<byte>)
    requires s != []
    ensures
      var size: nat := s[0];
      AlpnNames(s) == [Latin1(Take(s[1..], size))] + AlpnNames(Drop(s, 1 + size))
  {
    hide Latin1, Take, Drop;
  }

  /** The details of a hello whose extensions are of distinct types are what they announce. */
  lemma DetailsReadBack(hello: Hello, sigalgs: seq<u16>, groups: seq<u16>, versions: seq<u16>,
                        points: seq<byte>, names: seq<seq<byte>>)
    requires DistinctKinds(hello.extensions)
    requires AnnouncesList(hello.extensions, 0x000D, sigalgs) && AnnouncesList(hello.extensions, 0x000A, groups)
    requires AnnouncesVersions(hello.extensions, 0x002B, versions)
    requires AnnouncesPoints(hello.extensions, 0x000B, points) && AnnouncesNames(hello.extensions, 0x0010, names)
    ensures Inspect(hello) == Ok(Details(AsText(names), sigalgs, groups, versions, points))
  {
    hide Lookup, DistinctKinds, EncodeU16s, AlpnNames, Latin1;
    var extensions := hello.extensions;
    ListReadsBack(extensions, SIGALGS, sigalgs);
    ListReadsBack(extensions, SUPPORTED_GROUPS, groups);
    VersionsReadBack(extensions, SUPPORTED_VERSIONS, versions);
    PointsReadBack(extensions, points);
    AlpnReadsBack(extensions, names);
  }

  lemma PointsReadBack(extensions: seq<Extension>, points: seq<byte>)
    requires DistinctKinds(extensions) && AnnouncesPoints(extensions, EC_POINT_FORMATS, points)
    ensures
      var body := Lookup(extensions, EC_POINT_FORMATS);
      (if body.None? then [] else Drop(body.value, 1)) == points
  {
    hide Lookup, DistinctKinds;
    var length := [|points| % 0x100];
    if Extension(EC_POINT_FORMATS, length + points) in extensions {
      LookupDistinct(extensions, EC_POINT_FORMATS, length + points);
      DropPrefix(length, points);
    } else {
      AbsentIsNone(extensions, EC_POINT_FORMATS);
    }
  }

  lemma AlpnReadsBack(extensions: seq<Extension>, names: seq<seq<byte>>)
    requires DistinctKinds(extensions) && AnnouncesNames(extensions, ALPN, names)
    ensures
      var body := Lookup(extensions, ALPN);
      (if body.None? then [] else AlpnNames(Drop(body.value, 2))) == AsText(names)
  {
    hide Lookup, DistinctKinds, AlpnNames, EncodeNames, Latin1;
    var list := EncodeNames(names);
    if Extension(ALPN, LengthBytes(|list|) + list) in extensions {
      LookupDistinct(extensions, ALPN, LengthBytes(|list|) + list);
      DropPrefix(LengthBytes(|list|), list);
      NamesReadBack(names);
    } else {
      AbsentIsNone(extensions, ALPN);
    }
  }

  /** From the wire to the texts: a well-formed hello, whatever follows it. */
  lemma FingerprintsOnTheWire(h: ClientHello, trailing: seq<byte>, sigalgs: seq<u16>, groups: seq<u16>, versions: seq<u16>,
                              points: seq<byte>, names: seq<seq<byte>>, md5: string -> string, sha12: string -> string)
    requires WellFormed(h) && DistinctKinds(h.extensions)
    requires AnnouncesList(h.extensions, 0x000D, sigalgs) && AnnouncesList(h.extensions, 0x000A, groups)
    requires AnnouncesVersions(h.extensions, 0x002B, versions)
    requires AnnouncesPoints(h.extensions, 0x000B, points) && AnnouncesNames(h.extensions, 0x0010, names)
    ensures
      var hello, info := Hello(h.ciphers, h.extensions), Details(AsText(names), sigalgs, groups, versions, points);
      FingerprintsOf(Encode(h) + trailing, md5, sha12) ==
      Ok(Fingerprints(Ja4String(Ja4Text(hello, info), sha12), md5(Ja3Text(hello, info)), AsText(names)))
  {
    hide WellFormed, DistinctKinds, Inspect, Ja4Text, Ja3Text, Ja4String, Encode, Read;
    RoundTrip(h, 0, 0, trailing);
    DetailsReadBack(Hello(h.ciphers, h.extensions), sigalgs, groups, versions, points, names);
  }

  // ------------------------------------------------------------ a message in bytes

  const SAMPLE_EXTENSIONS := [Extension(0x002B, [2, 3, 4]), Extension(0, [])]
  const SAMPLE_BLOCK: seq<byte> := [0x00, 0x2B, 0, 3, 2, 3, 4, 0, 0, 0, 0]

  lemma SampleBlock()
    ensures EncodeExtensions(SAMPLE_EXTENSIONS) == SAMPLE_BLOCK
  {
    var e := SAMPLE_EXTENSIONS;
    assert e[1..] == [Extension(0, [])] && e[1..][1..] == [];
    assert EncodeExtensions(e[1..]) == [0, 0, 0, 0];
  }

  lemma SampleCiphers()
    ensures EncodeU16s([0x1301, 0xC02B]) == [0x13, 0x01, 0xC0, 0x2B]
  {
    assert [0x1301, 0xC02B][1..] == [0xC02B];
  }

  /** A handshake message byte by byte. */
  function SampleBytes(random: seq<byte>): seq<byte> {
    [1, 0, 0, 57, 3, 3] + random + [1, 0xAA] + [0, 4, 0x13, 0x01, 0xC0, 0x2B] + [1, 0] + [0, 11] + SAMPLE_BLOCK
  }

  /** What is read from it, bare and in a record, whatever follows. */
  lemma SampleMessage(random: seq<byte>, trailing: seq<byte>)
    requires |random| == 32
    ensures Read(SampleBytes(random) + trailing) == Ok(Hello([0x1301, 0xC02B], SAMPLE_EXTENSIONS))
    ensures Read([0x16, 3, 1, 0, 61] + SampleBytes(random) + trailing) == Ok(Hello([0x1301, 0xC02B], SAMPLE_EXTENSIONS))
  {
    var h := ClientHello(0x0303, random, [0xAA], [0x1301, 0xC02B], [0], SAMPLE_EXTENSIONS);
    SampleBlock();
    SampleCiphers();
    SampleIsWellFormed(h);
    hide *;
    SampleEncoded(h);
    RoundTrip(h, 0x0301, 61, trailing);
    SampleRecord(SampleBytes(random), trailing);
  }

  lemma SampleRecord(message: seq<byte>, trailing: seq<byte>)
    ensures InRecord(0x0301, 61, message + trailing) == [0x16, 3, 1, 0, 61] + message + trailing
  {
    assert [0x16] + U16Bytes(0x0301) + U16Bytes(61) == [0x16, 3, 1, 0, 61];
  }

  lemma SampleEncoded(h: ClientHello)
    requires h == ClientHello(0x0303, h.random, [0xAA], [0x1301, 0xC02B], [0], SAMPLE_EXTENSIONS) && |h.random| == 32
    requires EncodeExtensions(SAMPLE_EXTENSIONS) == SAMPLE_BLOCK && EncodeU16s([0x1301, 0xC02B]) == [0x13, 0x01, 0xC0, 0x2B]
    ensures Encode(h) == SampleBytes(h.random)
  {
    hide EncodeExtensions, EncodeU16s;
    assert EncodeTail(h) == [1, 0] + [0, 11] + SAMPLE_BLOCK;
    assert EncodeCiphers(h) == [0, 4, 0x13, 0x01, 0xC0, 0x2B];
    var body := EncodeBody(h);
    assert body == [3, 3] + h.random + [1, 0xAA] + [0, 4, 0x13, 0x01, 0xC0, 0x2B] + ([1, 0] + [0, 11] + SAMPLE_BLOCK);
    assert |body| == 57;
  }

  lemma SampleIsWellFormed(h: ClientHello)
    requires h == ClientHello(0x0303, h.random, [0xAA], [0x1301, 0xC02B], [0], SAMPLE_EXTENSIONS) && |h.random| == 32
    ensures WellFormed(h)
  {
    SampleBlock();
  }

  // ------------------------------------------------------------ known texts

  lemma {:induction false} NoGrease(values: seq<u16>)
    requires forall v :: v in values ==> !IsGrease(v)
    ensures WithoutGrease(values) == values
  {
    if values != [] {
      NoGrease(values[1..]);
      assert values == [values[0]] + values[1..];
    }
  }

  lemma VersionCodes()
    ensures VersionCode([0x0304, 0x0303]) == "13" && VersionCode([0x7A7A, 0x0303, 0x0302]) == "12"
  {
  }

  lemma OldVersionCodes()
    ensures VersionCode([0x0301, 0x0302]) == "11" && VersionCode([0x0301]) == "10"
    ensures VersionCode([0x0300]) == "00" && VersionCode([]) == "12"
  {
  }

  lemma Counts()
    ensures Capped(17) == "17" && Capped(13) == "13" && Capped(2) == "02" && Capped(4) == "04" && Capped(100) == "99"
  {
  }

  /** The first part of JA4 for the client recorded in .reference/claude-code-tls-20261020.json. */
  lemma RecordedHead(hello: Hello, info: Details)
    requires |hello.ciphers| == 17 && |hello.extensions| == 13
    requires (forall c :: c in hello.ciphers ==> !IsGrease(c)) && (forall e :: e in hello.extensions ==> !IsGrease(e.kind))
    requires (exists e :: e in hello.extensions && e.kind == 0)
    requires info.versions == [0x0304, 0x0303] && info.alpn == ["http/1.1"]
    ensures Ja4Text(hello, info).head == "t13d1713h1"
  {
    VersionCodes();
    Counts();
    hide HexList, Sort, HashedText, VersionCode, Capped, WithoutGrease, Kinds;
    NoGrease(hello.ciphers);
    NoGrease(Kinds(hello.extensions));
    assert AlpnCode(["http/1.1"]) == "h1";
    var e :| e in hello.extensions && e.kind == 0;
    var i :| 0 <= i < |hello.extensions| && hello.extensions[i] == e;
    assert Kinds(hello.extensions)[i] == SNI;
    assert "t" + "13" + "d" + "17" + "13" + "h1" == "t13d1713h1";
  }

  // GREASE, an order that is not sorted, and numbers of every width
  const SAMPLE_CIPHERS: seq<u16> := [0x1302, 0x1A1A, 0x009C]
  const SAMPLE_KINDS: seq<u16> := [0, 16, 0x0A0A, 13, 10]
  const SAMPLE_INFO := Details(["h2", "http/1.1"], [0x0804, 0x0403], [29, 0x2A2A, 23], [0x7A7A, 0x0304, 0x0303], [0])

  lemma SampleWithoutGrease()
    ensures WithoutGrease(SAMPLE_CIPHERS) == [0x1302, 0x009C]
    ensures WithoutGrease(SAMPLE_KINDS) == [0, 16, 13, 10]
    ensures WithoutGrease(SAMPLE_INFO.groups) == [29, 23]
  {
  }

  lemma SampleSorted()
    ensures Sort([0x1302, 0x009C]) == [0x009C, 0x1302]
    ensures NotSniOrAlpn(Sort([0, 16, 13, 10])) == [10, 13]
  {
    assert Sort([13, 10]) == [10, 13] && [16, 13, 10][1..] == [13, 10] && [0, 16, 13, 10][1..] == [16, 13, 10];
    assert Insert(16, [10, 13]) == [10, 13, 16] && Insert(0, [10, 13, 16]) == [0, 10, 13, 16];
  }

  lemma SampleHex()
    ensures HexList([0x009C, 0x1302]) == "009c,1302"
  {
  }

  lemma SampleHexKinds()
    ensures HexList([10, 13]) == "000a,000d"
  {
  }

  lemma SampleSignatures()
    ensures HexList([0x0804, 0x0403]) == "0804,0403"
  {
  }

  lemma SampleHead()
    ensures VersionCode([0x7A7A, 0x0304, 0x0303]) == "13" && AlpnCode(["h2", "http/1.1"]) == "h2"
  {
  }

  /** The three texts of JA4 of the sample. */
  lemma SampleJa4(hello: Hello)
    requires hello.ciphers == SAMPLE_CIPHERS && Kinds(hello.extensions) == SAMPLE_KINDS
    ensures Ja4Text(hello, SAMPLE_INFO) == Ja4("t13d0204h2", "009c,1302", "000a,000d_0804,0403")
  {
    hide HexList, Sort, VersionCode, Capped, WithoutGrease, Kinds, AlpnCode, NotSniOrAlpn;
    SampleWithoutGrease();
    SampleSorted();
    SampleHex();
    SampleHexKinds();
    SampleSignatures();
    SampleHead();
    Counts();
    assert "t" + "13" + "d" + "02" + "04" + "h2" == "t13d0204h2";
    assert "000a,000d" + "_" + "0804,0403" == "000a,000d_0804,0403";
  }

  /** And the fingerprint it is hashed into. */
  lemma SampleJa4String(hello: Hello, sha12: string -> string)
    requires hello.ciphers == SAMPLE_CIPHERS && Kinds(hello.extensions) == SAMPLE_KINDS
    ensures Ja4String(Ja4Text(hello, SAMPLE_INFO), sha12) ==
      "t13d0204h2_" + sha12("009c,1302") + "_" + sha12("000a,000d_0804,0403")
  {
    hide Ja4Text;
    SampleJa4(hello);
  }

  lemma SampleDashed()
    ensures Dashed([0x1302, 0x009C]) == "4866-156"
  {
  }

  lemma SampleDashedKinds()
    ensures Dashed([0, 16, 13, 10]) == "0-16-13-10"
  {
  }

  lemma SampleDashedGroups()
    ensures Dashed([29, 23]) == "29-23" && Dashed([0]) == "0"
  {
  }

  /** The text of JA3 of the sample. */
  lemma SampleJa3(hello: Hello)
    requires hello.ciphers == SAMPLE_CIPHERS && Kinds(hello.extensions) == SAMPLE_KINDS
    ensures Ja3Text(hello, SAMPLE_INFO) == "771,4866-156,0-16-13-10,29-23,0"
  {
    hide Dashed, WithoutGrease, Kinds, Join;
    SampleWithoutGrease();
    SampleDashed();
    SampleDashedKinds();
    SampleDashedGroups();
    JoinFive("771", "4866-156", "0-16-13-10", "29-23", "0");
    assert "771" + "," + "4866-156" + "," + "0-16-13-10" + "," + "29-23" + "," + "0" == "771,4866-156,0-16-13-10,29-23,0";
  }

  lemma JoinFirst(a: string, rest: seq<string>)
    requires rest != []
    ensures Join(',', [a] + rest) == a + "," + Join(',', rest)
  {
    assert ([a] + rest)[1..] == rest;
  }

  lemma JoinFive(a: string, b: string, c: string, d: string, e: string)
    ensures Join(',', [a, b, c, d, e]) == a + "," + b + "," + c + "," + d + "," + e
  {
    JoinFirst(d, [e]);
    JoinFirst(c, [d, e]);
    JoinFirst(b, [c, d, e]);
    JoinFirst(a, [b, c, d, e]);
    assert [a] + [b, c, d, e] == [a, b, c, d, e] && [b] + [c, d, e] == [b, c, d, e];
    assert [c] + [d, e] == [c, d, e] && [d] + [e] == [d, e];
  }

  /** The sixteen reserved values: 0x0A0A, 0x1A1A, and so on to 0xFAFA (section 2 of RFC 8701). */
  lemma GreaseIff(v: u16)
    ensures IsGrease(v) <==> exists k: nat :: k < 16 && Reserved(k) == v
  {
    if IsGrease(v) {
      HalvesOfGrease(v);
    }
    forall k: nat | k < 16 && Reserved(k) == v
      ensures IsGrease(v)
    {
      HalvesOfReserved(k);
    }
  }

  lemma HalvesOfGrease(v: u16)
    requires IsGrease(v)
    ensures v / 4096 < 16 && Reserved(v / 4096) == v
  {
    var high := v / 256;
    assert v == 257 * high && high == 16 * (high / 16) + 10;
    assert v / 4096 == high / 16;
  }

  lemma HalvesOfReserved(k: nat)
    requires k < 16
    ensures Reserved(k) / 256 == Reserved(k) % 256 == 10 + 16 * k
  {
  }

  function Reserved(k: nat): nat {
    0x0A0A + k * 0x1010
  }
}
