/** Rust's `u8`. */
module Bytes {

  type u8 = x: int | 0 <= x < 0x100
}
