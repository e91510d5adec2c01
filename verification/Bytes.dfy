module Bytes {
  type Byte = x: int | 0 <= x < 256

  /** The little-endian 32-bit word at offset o. */
  function Word32(b: seq<Byte>, o: nat): nat
    requires o + 4 <= |b|
  {
    (b[o] as int) + 256 * (b[o + 1] as int) + 65536 * (b[o + 2] as int) + 16777216 * (b[o + 3] as int)
  }
}
