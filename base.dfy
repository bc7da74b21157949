/** Small shared vocabulary: bytes as they come off the serial line, and an optional value. */
module Base {

  /** One octet of the serial byte stream. */
  type byte = x: int | 0 <= x < 256

  datatype Option<+T> = None | Some(value: T)
}
