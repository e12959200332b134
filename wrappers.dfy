/** Small definitions shared by the other modules. */
module Wrappers {
  /** A value that may be missing: JavaScript's `undefined` where the game has one. */
  datatype Option<+T> = None | Some(value: T)

  function Min(a: int, b: int): int { if a <= b then a else b }
}
