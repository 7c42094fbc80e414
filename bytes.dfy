/** An optional value: the model's stand-in for a pointer that may be NULL. */
module Optional {

  datatype Option<+T> = None | Some(value: T)
}

/**
 * Fixed-width integers and their little-endian byte images.
 *
 * The C sources copy integers into byte buffers with `memcpy`, so the byte
 * image depends on the host.  This model fixes little-endian order for every
 * multi-byte integer and two's complement for signed ones.
 */
module Bytes {

  const TWO_8: int := 0x100
  const TWO_16: int := 0x1_0000
  const TWO_31: int := 0x8000_0000
  const TWO_32: int := 0x1_0000_0000
  const TWO_64: int := 0x1_0000_0000_0000_0000

  type byte = x: int | 0 <= x < 0x100
  type uint8 = x: int | 0 <= x < 0x100
  type uint16 = x: int | 0 <= x < 0x1_0000
  type uint64 = x: int | 0 <= x < 0x1_0000_0000_0000_0000
  type int32 = x: int | -0x8000_0000 <= x < 0x8000_0000

  /** 256 to the power n: the number of values an n-byte field can hold. */
  function Pow256(n: nat): (r: nat)
    ensures r > 0
  {
    if n == 0 then 1 else 256 * Pow256(n - 1)
  }

  lemma Pow256Values()
    ensures Pow256(1) == TWO_8 && Pow256(2) == TWO_16
    ensures Pow256(4) == TWO_32 && Pow256(8) == TWO_64
  {
  }

  /** The n-byte little-endian image of x. */
  function LittleEndian(x: nat, n: nat): (r: seq<byte>)
    requires x < Pow256(n)
    ensures |r| == n
  {
    if n == 0 then []
    else
      assert x / 256 < Pow256(n - 1);
      [x % 256] + LittleEndian(x / 256, n - 1)
  }

  /** The number whose little-endian image is bs. */
  function FromLittleEndian(bs: seq<byte>): (x: nat)
    ensures x < Pow256(|bs|)
  {
    if bs == [] then 0 else bs[0] + 256 * FromLittleEndian(bs[1..])
  }

  /** Reading back an image gives the number written. */
  lemma {:induction false} FromLittleEndianOfImage(x: nat, n: nat)
    requires x < Pow256(n)
    ensures FromLittleEndian(LittleEndian(x, n)) == x
  {
    if n > 0 {
      var r := LittleEndian(x, n);
      assert r[1..] == LittleEndian(x / 256, n - 1);
      FromLittleEndianOfImage(x / 256, n - 1);
    }
  }

  /** Writing back a number read from bs reproduces bs byte for byte. */
  lemma {:induction false} ImageOfFromLittleEndian(bs: seq<byte>)
    ensures LittleEndian(FromLittleEndian(bs), |bs|) == bs
  {
    if bs != [] {
      var x := FromLittleEndian(bs);
      assert x % 256 == bs[0] && x / 256 == FromLittleEndian(bs[1..]);
      ImageOfFromLittleEndian(bs[1..]);
    }
  }

  /** The 32-bit two's-complement pattern of a C `int`. */
  function Int32ToBits(x: int32): (u: nat)
    ensures u < TWO_32
    ensures x >= 0 <==> u < TWO_31
    ensures BitsToInt32(u) == x
  {
    if x < 0 then x + TWO_32 else x
  }

  /** The C `int` whose two's-complement pattern is u. */
  function BitsToInt32(u: nat): (x: int32)
    requires u < TWO_32
    ensures x < 0 <==> u >= TWO_31
  {
    if u < TWO_31 then u else u - TWO_32
  }

  /** Every 32-bit pattern is the image of exactly one `int`. */
  lemma BitsRoundTrip(u: nat)
    requires u < TWO_32
    ensures Int32ToBits(BitsToInt32(u)) == u
  {
  }
}
