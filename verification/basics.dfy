/** Small shared vocabulary: an optional value and integer min/max helpers. */
module Basics {

  /** A value that may be absent; stands for JavaScript's `undefined` and for "nothing happened". */
  datatype Option<+T> = None | Some(value: T)

  function Max(a: int, b: int): int {
    if a >= b then a else b
  }

  function Min(a: int, b: int): int {
    if a <= b then a else b
  }

  /** `Math.min` of three arguments. */
  function Min3(a: int, b: int, c: int): int {
    Min(a, Min(b, c))
  }
}
