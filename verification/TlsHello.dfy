/**
 The ClientHello parser of scripts/tls_hello.py: its loops against a reader that
 consumes the message from the front, and the round trip with the encoding of
 section 4.1.2 of RFC 8446.
 */
module TlsHello {
  import opened Bytes
  import opened Options

  /** Both are reported as ValueError; an IndexError or struct.error inside is `Malformed`. */
  datatype Error = NotAClientHello | Malformed
  datatype Result<+T> = Ok(value: T) | Err(error: Error)

  datatype Extension = Extension(kind: u16, body: seq<byte>)
  datatype Hello = Hello(ciphers: seq<u16>, extensions: seq<Extension>)

  const SNI: u16 := 0x0000
  const ALPN: u16 := 0x0010
  const SIGALGS: u16 := 0x000D
  const SUPPORTED_GROUPS: u16 := 0x000A
  const EC_POINT_FORMATS: u16 := 0x000B
  const SUPPORTED_VERSIONS: u16 := 0x002B

  /** The first `count` two-byte numbers. */
  function U16s(data: seq<byte>, count: nat): (r: seq<u16>)
    requires 2 * count <= |data|
    ensures |r| == count
  {
    if count == 0 then [] else [U16(data)] + U16s(data[2..], count - 1)
  }

  // ------------------------------------------------------------ reading from the front

  function StripRecord(data: seq<byte>): seq<byte> {
    if |data| > 0 && data[0] == 0x16 then Drop(data, 5) else data
  }

  /** Extensions until `left` bytes have been accounted for. A body cut short by the end
      of the data is kept as it is. */
  function ReadExtensions(rest: seq<byte>, left: int): Option<seq<Extension>>
    decreases left
  {
    if left <= 0 then Some([])
    else if |rest| < 4 then None
    else
      var length := U16(rest[2..]);
      match ReadExtensions(Drop(rest, 4 + length), left - 4 - length)
      case None => None
      case Some(more) => Some([Extension(U16(rest), Take(rest[4..], length))] + more)
  }

  function ReadTail(rest: seq<byte>, ciphers: seq<u16>): Result<Hello> {
    if |rest| < 1 then Err(Malformed)
    else
      var size: nat := rest[0];
      var after := Drop(rest, 1 + size);
      if |after| < 2 then Err(Malformed)
      else
        match ReadExtensions(after[2..], U16(after))
        case None => Err(Malformed)
        case Some(extensions) => Ok(Hello(ciphers, extensions))
  }

  function ReadCiphers(rest: seq<byte>): Result<Hello> {
    if |rest| < 2 then Err(Malformed)
    else
      var length := U16(rest);
      if |rest| < 2 + 2 * (length / 2) then Err(Malformed)
      else ReadTail(Drop(rest, 2 + length), U16s(rest[2..], length / 2))
  }

  /** `parse`, as a reader. */
  function Read(data: seq<byte>): Result<Hello> {
    ReadMessage(StripRecord(data))
  }

  function ReadMessage(message: seq<byte>): Result<Hello> {
    if |message| == 0 then Err(Malformed)
    else if message[0] != 1 then Err(NotAClientHello)
    else if |message| <= 38 then Err(Malformed)
    else
      var size: nat := message[38];
      ReadCiphers(Drop(message, 39 + size))
  }

  // ------------------------------------------------------------ the loops

  /** `struct.unpack_from(">{count}H", data, pos)`. */
  method UnpackU16s(data: seq<byte>, pos: nat, count: nat) returns (r: Option<seq<u16>>)
    ensures r == if pos + 2 * count <= |data| then Some(U16s(data[pos..], count)) else None
  {
    if pos + 2 * count > |data| {
      return None;
    }
    hide U16, U16s;
    var out: seq<u16> := [];
    var i := 0;
    ghost var whole := U16s(data[pos..], count);
    assert data[pos + 2 * 0..] == data[pos..];
    assert [] + whole == whole;
    while i < count
      invariant 0 <= i <= count
      invariant out + U16s(data[pos + 2 * i..], count - i) == whole
    {
      U16sStep(data, pos + 2 * i, count - i);
      assert out + ([U16(data[pos + 2 * i..])] + U16s(data[pos + 2 * i + 2..], count - i - 1)) ==
             out + [U16(data[pos + 2 * i..])] + U16s(data[pos + 2 * i + 2..], count - i - 1);
      out := out + [U16(data[pos + 2 * i..])];
      i := i + 1;
    }
    assert |U16s(data[pos + 2 * i..], count - i)| == 0;
    assert out + [] == out;
    r := Some(out);
  }

  lemma U16sStep(data: seq<byte>, at: nat, count: nat)
    requires count > 0 && at + 2 * count <= |data|
    ensures U16s(data[at..], count) == [U16(data[at..])] + U16s(data[at + 2..], count - 1)
  {
    assert data[at..][2..] == data[at + 2..];
  }

  /** `parse`. */
  method Parse(input: seq<byte>) returns (r: Result<Hello>)
    ensures r == Read(input)
  {
    hide U16, ReadCiphers;
    var data := input;
    if |data| > 0 && data[0] == 0x16 {
      data := Drop(data, 5);
    }
    if |data| == 0 {
      return Err(Malformed);
    }
    if data[0] != 1 {
      return Err(NotAClientHello);
    }
    var pos: nat := 4 + 2 + 32;
    if pos >= |data| {
      return Err(Malformed);
    }
    var size: nat := data[pos];
    pos := pos + 1 + size;
    r := ParseVectors(data, pos);
  }

  /** The rest of `parse`: cipher suites, compression methods and extensions from pos on. */
  method ParseVectors(data: seq<byte>, start: nat) returns (r: Result<Hello>)
    ensures r == ReadCiphers(Drop(data, start))
  {
    hide U16, U16s, ReadExtensions, Drop;
    var pos := start;
    if pos + 2 > |data| {
      return Err(Malformed);
    }
    DropInside(data, pos);
    var cipherLen := U16(data[pos..]);
    var ciphers := UnpackU16s(data, pos + 2, cipherLen / 2);
    if ciphers.None? {
      return Err(Malformed);
    }
    DropTwice(data, pos, 2 + cipherLen);
    pos := pos + (2 + cipherLen);
    if pos >= |data| {
      return Err(Malformed);
    }
    DropInside(data, pos);
    var size: nat := data[pos];
    DropTwice(data, pos, 1 + size);
    pos := pos + (1 + size);
    if pos + 2 > |data| {
      return Err(Malformed);
    }
    DropInside(data, pos);
    var total := U16(data[pos..]);
    var extensions := ParseExtensions(data, pos + 2, pos + 2 + total);
    r := match extensions
         case None => Err(Malformed)
         case Some(found) => Ok(Hello(ciphers.value, found));
  }

  /** What is left to read completes what has been read. */
  ghost predicate Completes(found: seq<Extension>, rest: Option<seq<Extension>>, whole: Option<seq<Extension>>) {
    whole == match rest case None => None case Some(more) => Some(found + more)
  }

  lemma OneMore(found: seq<Extension>, e: Extension, rest: Option<seq<Extension>>, whole: Option<seq<Extension>>)
    requires Completes(found, match rest case None => None case Some(more) => Some([e] + more), whole)
    ensures Completes(found + [e], rest, whole)
  {
    if rest.Some? {
      assert found + ([e] + rest.value) == found + [e] + rest.value;
    }
  }

  /** The extension loop of `parse`. */
  method ParseExtensions(data: seq<byte>, start: nat, end: nat) returns (r: Option<seq<Extension>>)
    ensures r == ReadExtensions(Drop(data, start), end - start)
  {
    hide U16, Completes;
    var pos, extensions := start, [];
    ghost var whole := ReadExtensions(Drop(data, start), end - start);
    assert Completes([], whole, whole) by {
      AllOfIt(whole);
    }
    while pos < end
      invariant Completes(extensions, ReadExtensions(Drop(data, pos), end - pos), whole)
      decreases end - pos
    {
      var rest := Drop(data, pos);
      if |rest| < 4 {
        Stop(extensions, None, whole);
        return None;
      }
      var kind, length := U16(rest), U16(rest[2..]);
      var e := Extension(kind, Take(Drop(data, pos + 4), length));
      assert rest[4..] == Drop(data, pos + 4);
      DropTwice(data, pos, 4 + length);
      OneMore(extensions, e, ReadExtensions(Drop(data, pos + (4 + length)), end - (pos + (4 + length))), whole);
      extensions := extensions + [e];
      pos := pos + (4 + length);
    }
    Stop(extensions, Some([]), whole);
    r := Some(extensions);
  }

  lemma AllOfIt(whole: Option<seq<Extension>>)
    ensures Completes([], whole, whole)
  {
    if whole.Some? {
      assert [] + whole.value == whole.value;
    }
  }

  lemma Stop(found: seq<Extension>, rest: Option<seq<Extension>>, whole: Option<seq<Extension>>)
    requires Completes(found, rest, whole) && (rest.Some? ==> rest.value == [])
    ensures whole == if rest.None? then None else Some(found)
  {
    assert found + [] == found;
  }

  // ------------------------------------------------------------ the encoding

  /** A ClientHello of RFC 8446 with an extensions block, and the lengths its vectors allow. */
  datatype ClientHello = ClientHello(version: u16, random: seq<byte>, sessionId: seq<byte>, ciphers: seq<u16>,
                                     compression: seq<byte>, extensions: seq<Extension>)

  ghost predicate WellFormed(h: ClientHello) {
    && |h.random| == 32
    && |h.sessionId| <= 32
    && 1 <= |h.ciphers| && 2 * |h.ciphers| <= 0xFFFE
    && 1 <= |h.compression| <= 0xFF
    && (forall e :: e in h.extensions ==> |e.body| <= 0xFFFF)
    && 8 <= |EncodeExtensions(h.extensions)| <= 0xFFFF
  }

  function EncodeU16s(values: seq<u16>): (b: seq<byte>)
    ensures |b| == 2 * |values|
  {
    if values == [] then [] else U16Bytes(values[0]) + EncodeU16s(values[1..])
  }

  function LengthBytes(n: nat): seq<byte> {
    U16Bytes(n % 0x1_0000)
  }

  function EncodeExtensions(extensions: seq<Extension>): seq<byte> {
    if extensions == [] then []
    else
      var e := extensions[0];
      U16Bytes(e.kind) + LengthBytes(|e.body|) + e.body + EncodeExtensions(extensions[1..])
  }

  function EncodeCiphers(h: ClientHello): seq<byte> {
    LengthBytes(2 * |h.ciphers|) + EncodeU16s(h.ciphers)
  }

  function EncodeTail(h: ClientHello): seq<byte> {
    var extensions := EncodeExtensions(h.extensions);
    [|h.compression| % 0x100] + h.compression + LengthBytes(|extensions|) + extensions
  }

  /** Everything after the four-byte handshake header. */
  function EncodeBody(h: ClientHello): seq<byte> {
    U16Bytes(h.version) + h.random + [|h.sessionId| % 0x100] + h.sessionId + EncodeCiphers(h) + EncodeTail(h)
  }

  function Length24(n: nat): seq<byte> {
    [n / 0x1_0000 % 0x100, n / 0x100 % 0x100, n % 0x100]
  }

  /** The bare handshake message. */
  function Encode(h: ClientHello): seq<byte> {
    [1] + Length24(|EncodeBody(h)|) + EncodeBody(h)
  }

  /** The message in a TLS record of any protocol version and length field. */
  function InRecord(version: u16, length: u16, message: seq<byte>): seq<byte> {
    [0x16] + U16Bytes(version) + U16Bytes(length) + message
  }

  lemma {:induction false} U16sRoundTrip(values: seq<u16>, trailing: seq<byte>)
    ensures U16s(EncodeU16s(values) + trailing, |values|) == values
  {
    if values != [] {
      hide U16, U16Bytes;
      var rest := EncodeU16s(values[1..]) + trailing;
      assert EncodeU16s(values) + trailing == U16Bytes(values[0]) + rest;
      U16Front(values[0], rest);
      U16sRoundTrip(values[1..], trailing);
      assert values == [values[0]] + values[1..];
    }
  }

  lemma ReadOne(e: Extension, more: seq<byte>, left: nat, found: seq<Extension>)
    requires |e.body| <= 0xFFFF && left > 0
    requires ReadExtensions(more, left - 4 - |e.body|) == Some(found)
    ensures ReadExtensions(U16Bytes(e.kind) + (U16Bytes(|e.body|) + (e.body + more)), left) == Some([e] + found)
  {
    hide U16Bytes, U16;
    var second := U16Bytes(|e.body|) + (e.body + more);
    var data := U16Bytes(e.kind) + second;
    U16Front(e.kind, second);
    U16Front(|e.body|, e.body + more);
    assert data[4..] == second[2..];
    DropPrefix(e.body, more);
    DropTwice(data, 4, |e.body|);
  }

  lemma {:induction false} ExtensionsRoundTrip(extensions: seq<Extension>, trailing: seq<byte>)
    requires forall e :: e in extensions ==> |e.body| <= 0xFFFF
    ensures ReadExtensions(EncodeExtensions(extensions) + trailing, |EncodeExtensions(extensions)|) == Some(extensions)
  {
    if extensions == [] {
      assert EncodeExtensions(extensions) == [];
    } else {
      ExtensionsRoundTrip(extensions[1..], trailing);
      OneExtensionMore(extensions, trailing);
    }
  }

  lemma OneExtensionMore(extensions: seq<Extension>, trailing: seq<byte>)
    requires extensions != [] && |extensions[0].body| <= 0xFFFF
    requires
      var more := EncodeExtensions(extensions[1..]);
      ReadExtensions(more + trailing, |more|) == Some(extensions[1..])
    ensures ReadExtensions(EncodeExtensions(extensions) + trailing, |EncodeExtensions(extensions)|) == Some(extensions)
  {
    hide *;
    var e, more := extensions[0], EncodeExtensions(extensions[1..]);
    EncodeFirst(extensions, trailing);
    ReadOne(e, more + trailing, |EncodeExtensions(extensions)|, extensions[1..]);
    assert extensions == [e] + extensions[1..];
  }

  lemma EncodeFirst(extensions: seq<Extension>, trailing: seq<byte>)
    requires extensions != [] && |extensions[0].body| <= 0xFFFF
    ensures
      var e, more := extensions[0], EncodeExtensions(extensions[1..]);
      && EncodeExtensions(extensions) + trailing ==
         U16Bytes(e.kind) + (U16Bytes(|e.body|) + (e.body + (more + trailing)))
      && |EncodeExtensions(extensions)| == 4 + |e.body| + |more|
  {
    hide U16Bytes;
    var e, more := extensions[0], EncodeExtensions(extensions[1..]);
    Regroup(U16Bytes(e.kind), U16Bytes(|e.body|), e.body, more, trailing);
  }

  lemma Regroup(a: seq<byte>, b: seq<byte>, c: seq<byte>, d: seq<byte>, t: seq<byte>)
    ensures a + b + c + d + t == a + (b + (c + (d + t)))
  {
  }

  lemma TailRoundTrip(h: ClientHello, trailing: seq<byte>)
    requires WellFormed(h)
    ensures ReadTail(EncodeTail(h) + trailing, h.ciphers) == Ok(Hello(h.ciphers, h.extensions))
  {
    hide U16Bytes, U16, ReadExtensions, EncodeExtensions;
    var block := EncodeExtensions(h.extensions);
    var data := EncodeTail(h) + trailing;
    var after := U16Bytes(|block|) + (block + trailing);
    assert data == ([|h.compression|] + h.compression) + after;
    DropPrefix([|h.compression|] + h.compression, after);
    U16Front(|block|, block + trailing);
    ExtensionsRoundTrip(h.extensions, trailing);
  }

  lemma CiphersRoundTrip(h: ClientHello, trailing: seq<byte>)
    requires WellFormed(h)
    ensures ReadCiphers(EncodeCiphers(h) + EncodeTail(h) + trailing) == Ok(Hello(h.ciphers, h.extensions))
  {
    hide U16Bytes, U16, U16s, EncodeTail, EncodeU16s, ReadTail;
    var after := EncodeTail(h) + trailing;
    var data := EncodeCiphers(h) + EncodeTail(h) + trailing;
    assert data == U16Bytes(2 * |h.ciphers|) + (EncodeU16s(h.ciphers) + after);
    U16Front(2 * |h.ciphers|, EncodeU16s(h.ciphers) + after);
    U16sRoundTrip(h.ciphers, after);
    assert data == EncodeCiphers(h) + after;
    DropPrefix(EncodeCiphers(h), after);
    TailRoundTrip(h, trailing);
  }

  /** Parsing a well-formed hello returns its ciphers and its ordered extensions, bare or
      in a record, whatever follows. */
  lemma RoundTrip(h: ClientHello, version: u16, length: u16, trailing: seq<byte>)
    requires WellFormed(h)
    ensures Read(Encode(h) + trailing) == Ok(Hello(h.ciphers, h.extensions))
    ensures Read(InRecord(version, length, Encode(h) + trailing)) == Ok(Hello(h.ciphers, h.extensions))
  {
    hide EncodeBody, ReadMessage, U16Bytes;
    MessageRoundTrip(h, trailing);
    DropPrefix([0x16] + U16Bytes(version) + U16Bytes(length), Encode(h) + trailing);
    assert StripRecord(InRecord(version, length, Encode(h) + trailing)) == Encode(h) + trailing;
    assert (Encode(h) + trailing)[0] == 1;
  }

  lemma MessageRoundTrip(h: ClientHello, trailing: seq<byte>)
    requires WellFormed(h)
    ensures ReadMessage(Encode(h) + trailing) == Ok(Hello(h.ciphers, h.extensions))
  {
    hide U16Bytes, U16, EncodeTail, EncodeCiphers, ReadCiphers, EncodeExtensions, Drop;
    var message := Encode(h) + trailing;
    var start: seq<byte> := [1] + Length24(|EncodeBody(h)|) + U16Bytes(h.version) + h.random;
    var prefix: seq<byte> := start + [|h.sessionId|] + h.sessionId;
    var rest := EncodeCiphers(h) + EncodeTail(h) + trailing;
    assert |start| == 38;
    assert message == prefix + rest;
    assert message[0] == 1 && message[38] == prefix[38] == |h.sessionId|;
    DropPrefix(prefix, rest);
    CiphersRoundTrip(h, trailing);
  }

  // ------------------------------------------------------------ reading back what was accepted

  /** The declared lengths of an extension block add up to exactly `left`. */
  ghost predicate ExactBlock(rest: seq<byte>, left: int)
    decreases left
  {
    left == 0 || (left > 0 && |rest| >= 4 && 4 + U16(rest[2..]) <= left
                  && ExactBlock(Drop(rest, 4 + U16(rest[2..])), left - 4 - U16(rest[2..])))
  }

  lemma U16sReencode(data: seq<byte>, count: nat)
    requires 2 * count <= |data|
    ensures EncodeU16s(U16s(data, count)) == data[..2 * count]
  {
    if count > 0 {
      var v := U16(data);
      U16sReencode(data[2..], count - 1);
      assert U16s(data, count) == [v] + U16s(data[2..], count - 1);
      assert U16s(data, count)[1..] == U16s(data[2..], count - 1);
      U16Parts(data);
      assert data[..2 * count] == data[..2] + data[2..][..2 * (count - 1)];
    }
  }

  lemma U16Parts(data: seq<byte>)
    requires |data| >= 2
    ensures U16Bytes(U16(data)) == data[..2]
  {
  }

  /** An exact block that the loop accepts is the encoding of what the loop returns. */
  lemma {:induction false} BlockReencodes(rest: seq<byte>, left: nat)
    requires left <= |rest| && ExactBlock(rest, left)
    ensures ReadExtensions(rest, left).Some?
    ensures EncodeExtensions(ReadExtensions(rest, left).value) == rest[..left]
    decreases left
  {
    hide *;
    if left == 0 {
      NothingLeft(rest);
    } else {
      ExactStep(rest, left);
      BlockReencodes(Drop(rest, 4 + U16(rest[2..])), left - 4 - U16(rest[2..]));
      OneExtensionBack(rest, left);
    }
  }

  lemma NothingLeft(rest: seq<byte>)
    ensures ReadExtensions(rest, 0).Some? && EncodeExtensions(ReadExtensions(rest, 0).value) == rest[..0]
  {
  }

  lemma ExactStep(rest: seq<byte>, left: nat)
    requires 0 < left <= |rest| && ExactBlock(rest, left)
    ensures 4 <= left && 4 + U16(rest[2..]) <= left
    ensures left - 4 - U16(rest[2..]) <= |Drop(rest, 4 + U16(rest[2..]))|
    ensures ExactBlock(Drop(rest, 4 + U16(rest[2..])), left - 4 - U16(rest[2..]))
  {
  }

  lemma OneExtensionBack(rest: seq<byte>, left: nat)
    requires 4 <= left <= |rest| && 4 + U16(rest[2..]) <= left
    requires
      var length := U16(rest[2..]);
      && ReadExtensions(Drop(rest, 4 + length), left - 4 - length).Some?
      && EncodeExtensions(ReadExtensions(Drop(rest, 4 + length), left - 4 - length).value)
         == Drop(rest, 4 + length)[..left - 4 - length]
    ensures ReadExtensions(rest, left).Some?
    ensures EncodeExtensions(ReadExtensions(rest, left).value) == rest[..left]
  {
    hide U16, U16Bytes, Take, Drop;
    var length := U16(rest[2..]);
    var more := ReadExtensions(Drop(rest, 4 + length), left - 4 - length).value;
    var e := Extension(U16(rest), Take(rest[4..], length));
    var found := ReadExtensions(rest, left).value;
    assert found == [e] + more && found[0] == e && found[1..] == more;
    U16Parts(rest);
    U16Parts(rest[2..]);
    CutExtension(rest, length, left);
  }

  lemma CutExtension(rest: seq<byte>, length: nat, left: nat)
    requires 4 + length <= left <= |rest|
    ensures Take(rest[4..], length) == rest[4..][..length]
    ensures rest[..left] == rest[..2] + rest[2..][..2] + rest[4..][..length] + Drop(rest, 4 + length)[..left - 4 - length]
  {
  }

  lemma CutVector(data: seq<byte>, head: nat, n: nat)
    requires head + n <= |data|
    ensures data == data[..head] + (data[head..][..n] + Drop(data, head + n))
  {
  }

  lemma JoinCuts(rest: seq<byte>, tail: seq<byte>, after: seq<byte>,
                 a: seq<byte>, b: seq<byte>, c: seq<byte>, d: seq<byte>, e: seq<byte>, f: seq<byte>, t: seq<byte>)
    requires rest == a + (b + tail) && tail == c + (d + after) && after == e + (f + t)
    ensures rest == a + b + c + d + e + f + t
  {
    assert a + (b + (c + (d + (e + (f + t))))) == a + b + c + d + e + f + t;
  }

  lemma AcceptedParts(rest: seq<byte>, hello: Hello)
    requires ReadCiphers(rest) == Ok(hello)
    ensures |rest| >= 2 && 2 + 2 * (U16(rest) / 2) <= |rest|
    ensures hello.ciphers == U16s(rest[2..], U16(rest) / 2)
    ensures
      var tail := Drop(rest, 2 + U16(rest));
      && |tail| > 0
      && var after := Drop(tail, 1 + (tail[0] as nat));
         && |after| >= 2 && ReadExtensions(after[2..], U16(after)) == Some(hello.extensions)
  {
    hide U16, U16s, ReadExtensions;
  }

  /** Whatever `parse` accepts with an even cipher length and an exact extension block is
      the encoding of the two lists it returns. */
  lemma AcceptedIsEncoding(rest: seq<byte>, hello: Hello) returns (compression: seq<byte>, trailing: seq<byte>)
    requires ReadCiphers(rest) == Ok(hello) && U16(rest) % 2 == 0
    requires
      var afterCiphers := Drop(rest, 2 + U16(rest));
      var afterCompression := Drop(afterCiphers, 1 + (afterCiphers[0] as nat));
      var block := afterCompression[2..];
      U16(afterCompression) <= |block| && ExactBlock(block, U16(afterCompression))
    ensures |compression| < 0x100 && |EncodeExtensions(hello.extensions)| < 0x1_0000 && 2 * |hello.ciphers| < 0x1_0000
    ensures rest == U16Bytes(2 * |hello.ciphers|) + EncodeU16s(hello.ciphers)
                    + [|compression|] + compression
                    + U16Bytes(|EncodeExtensions(hello.extensions)|) + EncodeExtensions(hello.extensions) + trailing
  {
    hide *;
    AcceptedParts(rest, hello);
    var tail := Drop(rest, 2 + U16(rest));
    var k: nat := tail[0];
    var after := Drop(tail, 1 + k);
    compression, trailing := tail[1..][..k], Drop(after, 2 + U16(after));
    CipherPart(rest, U16(rest));
    CompressionPart(tail, k);
    BlockPart(after, hello.extensions);
    JoinCuts(rest, tail, after, U16Bytes(2 * |hello.ciphers|), EncodeU16s(hello.ciphers), [|compression|], compression,
             U16Bytes(|EncodeExtensions(hello.extensions)|), EncodeExtensions(hello.extensions), trailing);
  }

  lemma CipherPart(rest: seq<byte>, n: nat)
    requires |rest| >= 2 && n == U16(rest) && n % 2 == 0 && 2 + n <= |rest|
    ensures rest == U16Bytes(n) + (EncodeU16s(U16s(rest[2..], n / 2)) + Drop(rest, 2 + n))
  {
    hide *;
    U16sReencode(rest[2..], n / 2);
    U16Parts(rest);
    CutVector(rest, 2, n);
  }

  lemma CompressionPart(tail: seq<byte>, k: nat)
    requires |tail| > 0 && k == tail[0] && 1 + k <= |tail|
    ensures tail == [k] + (tail[1..][..k] + Drop(tail, 1 + k))
  {
    CutVector(tail, 1, k);
    assert tail[..1] == [k];
  }

  lemma BlockPart(after: seq<byte>, extensions: seq<Extension>)
    requires |after| >= 2 && 2 + U16(after) <= |after| && ExactBlock(after[2..], U16(after))
    requires ReadExtensions(after[2..], U16(after)) == Some(extensions)
    ensures |EncodeExtensions(extensions)| == U16(after)
    ensures after == U16Bytes(U16(after)) + (EncodeExtensions(extensions) + Drop(after, 2 + U16(after)))
  {
    hide *;
    BlockReencodes(after[2..], U16(after));
    U16Parts(after);
    CutVector(after, 2, U16(after));
  }
}
