/** Small datatypes shared by every component. */
module Wrappers {

  /** A value the program may not have: a null, or an undefined field. */
  datatype Option<+T> = None | Some(value: T)

  function Max(a: int, b: int): int {
    if a >= b then a else b
  }

  function Min(a: int, b: int): int {
    if a <= b then a else b
  }

  function Abs(a: int): int {
    if a < 0 then -a else a
  }
}
