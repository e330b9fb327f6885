/** Option and Result values shared by the parsers and converters. */
module Wrappers {

  datatype Option<+T> = None | Some(value: T)

  datatype Result<+T, +E> = Ok(value: T) | Err(error: E)

  /** A byte of a packet or payload. */
  type byte = x: int | 0 <= x < 256

  /** The 16-bit big-endian value of two bytes (byteorder's `BigEndian::read_u16`). */
  function U16(hi: byte, lo: byte): (r: nat)
    ensures r < 0x1_0000
  {
    hi * 256 + lo
  }

  /** The two big-endian bytes of a 16-bit value: the inverse of `U16`. */
  function U16Bytes(v: nat): (r: seq<byte>)
    requires v < 0x1_0000
    ensures |r| == 2 && U16(r[0], r[1]) == v
  {
    [v / 256, v % 256]
  }

  /** The 32-bit big-endian value of four bytes (`BigEndian::read_u32`). */
  function U32(b0: byte, b1: byte, b2: byte, b3: byte): (r: nat)
    ensures r < 0x1_0000_0000
  {
    U16(b0, b1) * 0x1_0000 + U16(b2, b3)
  }

  /** The four big-endian bytes of a 32-bit value: the inverse of `U32`. */
  function U32Bytes(v: nat): (r: seq<byte>)
    requires v < 0x1_0000_0000
    ensures |r| == 4 && U32(r[0], r[1], r[2], r[3]) == v
  {
    U16Bytes(v / 0x1_0000) + U16Bytes(v % 0x1_0000)
  }
}
