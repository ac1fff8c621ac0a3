/** Machine integers, byte strings and the Option type shared by every layer. */
module Primitives {

  datatype Option<+T> = None | Some(value: T)

  type byte = x: int | 0 <= x < 0x100
  type u32 = x: int | 0 <= x < 0x1_0000_0000
  type i32 = x: int | -0x8000_0000 <= x < 0x8000_0000

  const U32_MAX: u32 := 0xFFFF_FFFF

  type Bytes = seq<byte>

  /** Two's complement truncation, Rust's `as u32`. */
  function AsU32(x: int): u32 {
    x % 0x1_0000_0000
  }

  /** Two's complement truncation, Rust's `as i32` and wrapping `i32` arithmetic. */
  function AsI32(x: int): i32 {
    var r := x % 0x1_0000_0000;
    if r < 0x8000_0000 then r else r - 0x1_0000_0000
  }
}
