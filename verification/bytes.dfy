/** Bytes, shared by the components that work on byte streams. */
module Bytes {
  type byte = x: int | 0 <= x < 256
}
