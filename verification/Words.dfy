/** Machine words as bit-vectors, the P4 `bit<N>` and C `uintN_t` types, and
    the big-endian byte order they take on the wire. */
module Words {

  type byte = bv8

  /** 16-bit addition, which wraps around. */
  function Add16(x: bv16, y: bv16): bv16 {
    x + y
  }

  function Bytes2(x: bv16): (b: seq<byte>)
    ensures |b| == 2
  {
    [(x >> 8) as byte, (x & 0xFF) as byte]
  }

  function Bytes3(x: bv24): (b: seq<byte>)
    ensures |b| == 3
  {
    [(x >> 16) as byte, ((x >> 8) & 0xFF) as byte, (x & 0xFF) as byte]
  }

  function Bytes4(x: bv32): (b: seq<byte>)
    ensures |b| == 4
  {
    [(x >> 24) as byte, ((x >> 16) & 0xFF) as byte, ((x >> 8) & 0xFF) as byte, (x & 0xFF) as byte]
  }

  function Bytes6(x: bv48): (b: seq<byte>)
    ensures |b| == 6
  {
    Bytes2((x >> 32) as bv16) + Bytes4((x & 0xFFFF_FFFF) as bv32)
  }

  function Bytes8(x: bv64): (b: seq<byte>)
    ensures |b| == 8
  {
    Bytes4((x >> 32) as bv32) + Bytes4((x & 0xFFFF_FFFF) as bv32)
  }

  function Bytes16(x: bv128): (b: seq<byte>)
    ensures |b| == 16
  {
    Bytes8((x >> 64) as bv64) + Bytes8((x & 0xFFFF_FFFF_FFFF_FFFF) as bv64)
  }

  function Word2(a: byte, b: byte): bv16 {
    ((a as bv16) << 8) | (b as bv16)
  }

  function Word3(a: byte, b: byte, c: byte): bv24 {
    ((a as bv24) << 16) | ((b as bv24) << 8) | (c as bv24)
  }

  function Word4(a: byte, b: byte, c: byte, d: byte): bv32 {
    ((a as bv32) << 24) | ((b as bv32) << 16) | ((c as bv32) << 8) | (d as bv32)
  }

  function Word6(b: seq<byte>): bv48
    requires |b| == 6
  {
    ((Word2(b[0], b[1]) as bv48) << 32) | (Word4(b[2], b[3], b[4], b[5]) as bv48)
  }

  function Word8(b: seq<byte>): bv64
    requires |b| == 8
  {
    ((Word4(b[0], b[1], b[2], b[3]) as bv64) << 32) | (Word4(b[4], b[5], b[6], b[7]) as bv64)
  }

  function Word16(b: seq<byte>): bv128
    requires |b| == 16
  {
    ((Word8(b[..8]) as bv128) << 64) | (Word8(b[8..]) as bv128)
  }

  lemma Bytes4Splits(a: byte, b: byte, c: byte, d: byte)
    ensures Bytes4(Word4(a, b, c, d)) == [a, b, c, d]
  {
  }

  lemma Word6RoundTrip(x: bv48, b: seq<byte>)
    requires |b| == 6
    ensures Word6(Bytes6(x)) == x
    ensures Bytes6(Word6(b)) == b
  {
  }

  lemma Word8RoundTrip(x: bv64, b: seq<byte>)
    requires |b| == 8
    ensures Word8(Bytes8(x)) == x
    ensures Bytes8(Word8(b)) == b
  {
  }

  lemma Word16OfBytes(x: bv128)
    ensures Word16(Bytes16(x)) == x
  {
    var hi, lo := (x >> 64) as bv64, (x & 0xFFFF_FFFF_FFFF_FFFF) as bv64;
    Word8RoundTrip(hi, Bytes8(hi));
    Word8RoundTrip(lo, Bytes8(lo));
    assert Bytes16(x)[..8] == Bytes8(hi) && Bytes16(x)[8..] == Bytes8(lo);
  }

  lemma Bytes16Joins(hi: bv64, lo: bv64)
    ensures Bytes16(((hi as bv128) << 64) | (lo as bv128)) == Bytes8(hi) + Bytes8(lo)
  {
    var x := ((hi as bv128) << 64) | (lo as bv128);
    assert (x >> 64) as bv64 == hi && (x & 0xFFFF_FFFF_FFFF_FFFF) as bv64 == lo;
  }

  lemma BytesOfWord16(b: seq<byte>)
    requires |b| == 16
    ensures Bytes16(Word16(b)) == b
  {
    hide Bytes8, Bytes16, Word8;
    Bytes16Joins(Word8(b[..8]), Word8(b[8..]));
    Word8RoundTrip(0, b[..8]);
    Word8RoundTrip(0, b[8..]);
    assert b == b[..8] + b[8..];
  }
}
