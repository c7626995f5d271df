/** Rust primitive widths and the Option type that the rest of the model shares. */
module Prelude {

  /** `Option<T>`: a parser's result, a map lookup, a parse of a number. */
  datatype Option<+T> = None | Some(value: T)

  /** Rust's fixed-width unsigned integers, as bounded mathematical integers. */
  type u8 = x: int | 0 <= x < 0x100
  type u16 = x: int | 0 <= x < 0x1_0000
  type u64 = x: int | 0 <= x < 0x1_0000_0000_0000_0000

  const U8Max: nat := 0xFF
  const U16Max: nat := 0xFFFF
  const U64Max: nat := 0xFFFF_FFFF_FFFF_FFFF
}
