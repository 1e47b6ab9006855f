/** Bytes, and the optional value that several kernel routines return (`Optional<T>` in error.hpp). */
module Wrappers {
  type byte = x: int | 0 <= x < 256

  datatype Option<+T> = None | Some(value: T)

  function Min(a: int, b: int): int { if b < a then b else a }
}
