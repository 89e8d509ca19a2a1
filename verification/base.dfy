/** Small value types shared by the other modules. */
module Base {
  /** The usual Some/None datatype, returned by the parsers that invert the formatters. */
  datatype Option<+T> = None | Some(value: T)

  /** An unsigned 8-bit value (`uint8_t`, `byte`). */
  type Byte = b: int | 0 <= b < 256
}
