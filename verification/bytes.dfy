/**
  Little-endian field readers used by the WAV decoder (the file is read
  through a QDataStream set to little-endian byte order), together with the
  matching writers, so that each reader has a proved inverse.
 */
module Bytes {

  newtype byte = x: int | 0 <= x < 256

  const U16Limit: int := 0x1_0000
  const U32Limit: int := 0x1_0000_0000

  /** Unsigned 16-bit little-endian value at `p` (`quint16`). */
  function U16(b: seq<byte>, p: nat): (v: nat)
    requires p + 2 <= |b|
    ensures v < U16Limit
  {
    b[p] as nat + 256 * b[p + 1] as nat
  }

  /** Unsigned 32-bit little-endian value at `p` (`quint32`). */
  function U32(b: seq<byte>, p: nat): (v: nat)
    requires p + 4 <= |b|
    ensures v < U32Limit
  {
    b[p] as nat + 256 * (b[p + 1] as nat + 256 * (b[p + 2] as nat + 256 * b[p + 3] as nat))
  }

  /** Signed 16-bit little-endian value at `p` (`qint16`, two's complement). */
  function I16(b: seq<byte>, p: nat): (v: int)
    requires p + 2 <= |b|
    ensures -0x8000 <= v < 0x8000
    ensures v < 0 <==> b[p + 1] >= 128
  {
    var u := U16(b, p);
    if u < 0x8000 then u else u - U16Limit
  }

  function EncodeU16(v: nat): (r: seq<byte>)
    requires v < U16Limit
    ensures |r| == 2
    ensures U16(r, 0) == v
  {
    [(v % 256) as byte, (v / 256) as byte]
  }

  function EncodeU32(v: nat): (r: seq<byte>)
    requires v < U32Limit
    ensures |r| == 4
    ensures U32(r, 0) == v
  {
    var hi := v / 256;
    var r := [(v % 256) as byte, (hi % 256) as byte, (hi / 256 % 256) as byte, (hi / 256 / 256) as byte];
    assert U32(r, 0) == v % 256 + 256 * (hi % 256 + 256 * (hi / 256 % 256 + 256 * (hi / 256 / 256)));
    r
  }

  function EncodeI16(v: int): (r: seq<byte>)
    requires -0x8000 <= v < 0x8000
    ensures |r| == 2
    ensures I16(r, 0) == v
  {
    EncodeU16(if v < 0 then v + U16Limit else v)
  }

  /** A reader only looks at the bytes of its own field. */
  lemma U16Local(b: seq<byte>, p: nat, s: seq<byte>)
    requires p + 2 <= |b| && |s| >= 2 && b[p..p + 2] == s[..2]
    ensures U16(b, p) == U16(s, 0)
  {
    assert b[p] == b[p..p + 2][0] && b[p + 1] == b[p..p + 2][1];
  }

  lemma U32Local(b: seq<byte>, p: nat, s: seq<byte>)
    requires p + 4 <= |b| && |s| >= 4 && b[p..p + 4] == s[..4]
    ensures U32(b, p) == U32(s, 0)
  {
    assert b[p] == b[p..p + 4][0] && b[p + 1] == b[p..p + 4][1];
    assert b[p + 2] == b[p..p + 4][2] && b[p + 3] == b[p..p + 4][3];
  }

  lemma I16Local(b: seq<byte>, p: nat, s: seq<byte>)
    requires p + 2 <= |b| && |s| >= 2 && b[p..p + 2] == s[..2]
    ensures I16(b, p) == I16(s, 0)
  {
    U16Local(b, p, s);
  }
}
