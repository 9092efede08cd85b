/** Bytes, and slices that clamp at the end of the data as Python's do. */
module Bytes {
  type byte = b: int | 0 <= b < 256
  type u16 = w: int | 0 <= w < 0x1_0000

  /** `data[n:]`. */
  function Drop<T>(data: seq<T>, n: nat): (rest: seq<T>)
    ensures |rest| == if n <= |data| then |data| - n else 0
  {
    if n <= |data| then data[n..] else []
  }

  /** `data[:n]`. */
  function Take<T>(data: seq<T>, n: nat): seq<T> {
    if n <= |data| then data[..n] else data
  }

  function U16(data: seq<byte>): (v: nat)
    requires |data| >= 2
    ensures v < 0x1_0000
  {
    var high: int := data[0];
    high * 256 + data[1]
  }

  function U16Bytes(v: u16): (b: seq<byte>)
    ensures |b| == 2 && U16(b) == v
  {
    [v / 256, v % 256]
  }

  lemma U16Front(v: u16, rest: seq<byte>)
    ensures U16(U16Bytes(v) + rest) == v
    ensures (U16Bytes(v) + rest)[2..] == rest
  {
  }

  lemma DropTwice<T>(data: seq<T>, a: nat, b: nat)
    ensures Drop(Drop(data, a), b) == Drop(data, a + b)
  {
  }

  lemma DropInside<T>(data: seq<T>, at: nat)
    requires at <= |data|
    ensures Drop(data, at) == data[at..]
    ensures at < |data| ==> Drop(data, at)[0] == data[at]
    ensures at + 2 <= |data| ==> Drop(data, at)[2..] == data[at + 2..] == Drop(data, at + 2)
  {
  }

  lemma DropPrefix<T>(a: seq<T>, b: seq<T>)
    ensures Drop(a + b, |a|) == b
    ensures Take(a + b, |a|) == a
  {
  }
}
