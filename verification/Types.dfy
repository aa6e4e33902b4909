/** Bytes, 32-bit words and optional values, shared by all modules. */
module Types {
  type Byte = x: int | 0 <= x < 256
  type Word = x: int | 0 <= x < 0x1_0000_0000

  datatype Option<T> = None | Some(value: T)
}
