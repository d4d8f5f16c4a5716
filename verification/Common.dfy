/** A value that may be missing. */
module Options {
  datatype Option<T> = None | Some(value: T)
}

/** Order and 32-bit width of integers. */
module Integers {

  const I32_MAX := 0x7FFF_FFFF

  type I32 = x: int | -I32_MAX - 1 <= x <= I32_MAX

  function Min(a: int, b: int): int {
    if a <= b then a else b
  }

  function Max(a: int, b: int): int {
    if a >= b then a else b
  }

  /** The `as i32` cast: keep the low 32 bits and read them as signed. */
  function AsI32(x: int): I32 {
    var low := x % 0x1_0000_0000;
    if low <= I32_MAX then low else low - 0x1_0000_0000
  }
}
