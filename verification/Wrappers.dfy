/** Small helpers shared by all modules. */
module Wrappers {

  datatype Option<+T> = None | Some(value: T)

  function Bit(b: bool): nat { if b then 1 else 0 }

  function Max(a: int, b: int): int { if a > b then a else b }
}
