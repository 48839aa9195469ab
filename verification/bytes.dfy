/** Bytes and the fixed-width big-endian integers of Python's `struct` module. */
module Bytes {

  type byte = b: int | 0 <= b < 256

  /** 256 raised to `n`: one more than the largest unsigned `n`-byte value. */
  function Pow256(n: nat): (r: nat)
    ensures r >= 1
  {
    if n == 0 then 1 else 256 * Pow256(n - 1)
  }

  /** The `width` big-endian bytes of the unsigned value `v`. */
  function EncodeBE(v: nat, width: nat): (r: seq<byte>)
    requires v < Pow256(width)
    ensures |r| == width
    decreases width
  {
    if width == 0 then [] else EncodeBE(v / 256, width - 1) + [v % 256]
  }

  /** The unsigned value of a big-endian byte string. */
  function DecodeBE(bs: seq<byte>): (r: nat)
    ensures r < Pow256(|bs|)
  {
    if |bs| == 0 then 0 else DecodeBE(bs[..|bs| - 1]) * 256 + bs[|bs| - 1]
  }

  lemma {:induction false} DecodeEncodeBE(v: nat, width: nat)
    requires v < Pow256(width)
    ensures DecodeBE(EncodeBE(v, width)) == v
    decreases width
  {
    if width > 0 {
      var e := EncodeBE(v, width);
      assert e[..width - 1] == EncodeBE(v / 256, width - 1);
      DecodeEncodeBE(v / 256, width - 1);
    }
  }

  lemma {:induction false} EncodeDecodeBE(bs: seq<byte>)
    ensures EncodeBE(DecodeBE(bs), |bs|) == bs
  {
    if |bs| > 0 {
      var init := bs[..|bs| - 1];
      var last := bs[|bs| - 1];
      EncodeDecodeBE(init);
      ShiftByte(DecodeBE(init), last);
      assert bs == init + [last];
    }
  }

  /** Appending a byte to a value shifts it left by eight bits. */
  lemma ShiftByte(d: nat, b: byte)
    ensures (d * 256 + b) / 256 == d && (d * 256 + b) % 256 == b
  {
  }

  /** The little-endian reading of a byte string (used for one field of the legacy query). */
  function DecodeLE(bs: seq<byte>): (r: nat)
    ensures r < Pow256(|bs|)
  {
    if |bs| == 0 then 0 else bs[0] + 256 * DecodeLE(bs[1..])
  }

  /** Half of `Pow256(width)`: the bound of the signed `width`-byte range. */
  function Half(width: nat): (r: nat)
    requires width >= 1
    ensures 2 * r == Pow256(width)
  {
    128 * Pow256(width - 1)
  }

  /** True when `v` fits a signed `width`-byte two's-complement field. */
  predicate InSigned(v: int, width: nat)
    requires width >= 1
  {
    -(Half(width) as int) <= v < Half(width)
  }

  /** Two's complement: the unsigned `width`-byte pattern of a signed value. */
  function ToUnsigned(v: int, width: nat): (r: nat)
    requires width >= 1
    requires InSigned(v, width)
    ensures r < Pow256(width)
    ensures v < 0 <==> r >= Half(width)
  {
    if v < 0 then v + Pow256(width) else v
  }

  /** Two's complement: the signed value of an unsigned `width`-byte pattern. */
  function ToSigned(u: nat, width: nat): (r: int)
    requires width >= 1
    requires u < Pow256(width)
    ensures InSigned(r, width)
    ensures ToUnsigned(r, width) == u
  {
    if u >= Half(width) then u - Pow256(width) else u
  }

  lemma SignedUnsignedInverse(v: int, width: nat)
    requires width >= 1
    requires InSigned(v, width)
    ensures ToSigned(ToUnsigned(v, width), width) == v
  {
  }
}
