/** The in-memory form of the integers that cross the pipes: little-endian, 4 and 8 bytes wide. */
module Bytes {
  import opened Common

  type byte = x: int | 0 <= x < 256

  /** `int` of the source. */
  type int32 = x: int | -0x8000_0000 <= x < 0x8000_0000

  function Pow256(n: nat): nat {
    if n == 0 then 1 else 256 * Pow256(n - 1)
  }

  function Encode(v: nat, width: nat): (b: seq<byte>)
    ensures |b| == width
  {
    if width == 0 then [] else [v % 256] + Encode(v / 256, width - 1)
  }

  function Decode(b: seq<byte>): nat {
    if b == [] then 0 else b[0] + 256 * Decode(b[1..])
  }

  lemma {:induction false} DecodeEncode(v: nat, width: nat)
    requires v < Pow256(width)
    ensures Decode(Encode(v, width)) == v
  {
    if width > 0 {
      DecodeEncode(v / 256, width - 1);
      assert Encode(v, width)[1..] == Encode(v / 256, width - 1);
    }
  }

  lemma {:induction false} DecodeBound(b: seq<byte>)
    ensures Decode(b) < Pow256(|b|)
  {
    if b != [] { DecodeBound(b[1..]); }
  }

  lemma {:induction false} EncodeDecode(b: seq<byte>)
    ensures Encode(Decode(b), |b|) == b
  {
    if b != [] {
      EncodeDecode(b[1..]);
      LowByte(b[0], Decode(b[1..]));
      assert Encode(Decode(b), |b|) == [b[0]] + b[1..];
    }
  }

  lemma LowByte(c: byte, q: nat)
    ensures (c + 256 * q) % 256 == c && (c + 256 * q) / 256 == q
  {
  }

  lemma Widths()
    ensures Pow256(4) == UINT_MAX + 1 && Pow256(8) == SIZE_MAX + 1
  {
    assert Pow256(2) == 65536;
    assert Pow256(4) == 65536 * 65536;
    assert Pow256(6) == 65536 * Pow256(4);
    assert Pow256(8) == 65536 * Pow256(6);
  }

  // ---- The three integer types on the wire ---------------------------------------------------------

  function UintBytes(v: uint): (b: seq<byte>)
    ensures |b| == 4
  {
    Encode(v, 4)
  }

  function UintFrom(b: seq<byte>): uint
    requires |b| == 4
  {
    Widths();
    DecodeBound(b);
    Decode(b)
  }

  function SizeBytes(v: size): (b: seq<byte>)
    ensures |b| == 8
  {
    Encode(v, 8)
  }

  function SizeFrom(b: seq<byte>): size
    requires |b| == 8
  {
    Widths();
    DecodeBound(b);
    Decode(b)
  }

  /** Two's complement. */
  function IntBytes(v: int32): (b: seq<byte>)
    ensures |b| == 4
  {
    UintBytes(if v < 0 then v + UINT_MAX + 1 else v)
  }

  function IntFrom(b: seq<byte>): int32
    requires |b| == 4
  {
    var u := UintFrom(b);
    if u < 0x8000_0000 then u else u - UINT_MAX - 1
  }

  lemma UintRoundTrip(v: uint)
    ensures UintFrom(UintBytes(v)) == v
  {
    Widths();
    DecodeEncode(v, 4);
  }

  lemma SizeRoundTrip(v: size)
    ensures SizeFrom(SizeBytes(v)) == v
  {
    Widths();
    DecodeEncode(v, 8);
  }

  lemma IntRoundTrip(v: int32)
    ensures IntFrom(IntBytes(v)) == v
  {
    UintRoundTrip(if v < 0 then v + UINT_MAX + 1 else v);
  }
}
