/** Bytes, optional values and the few sequence facts shared by the codecs. */
module Bytes {

  /** An unsigned 8-bit value. */
  type byte = x: int | 0 <= x < 256

  /** An unsigned 16-bit value. */
  type u16 = x: int | 0 <= x < 0x1_0000

  /** An unsigned 32-bit value. */
  type u32 = x: int | 0 <= x < 0x1_0000_0000

  datatype Option<+T> = None | Some(value: T)

  /** `v` written `n` times. */
  function Repeat(n: nat, v: byte): (r: seq<byte>)
    ensures |r| == n
  {
    seq(n, _ => v)
  }
}
