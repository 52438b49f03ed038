/** Bytes and machine words shared by the models of the C sources. */
module Bytes {

  /** An unsigned 8-bit value. */
  type byte = x: int | 0 <= x < 256

  /** An unsigned 16-bit value. */
  type word = x: int | 0 <= x < 0x1_0000

  /** An unsigned 32-bit value. */
  type dword = x: int | 0 <= x < 0x1_0000_0000

  const NUL: byte := 0
  const BACKSPACE: byte := 8
  const NEWLINE: byte := 10
  const SPACE: byte := 32

  datatype Option<+T> = None | Some(value: T)
}
