/** What several modules share: optional values and 64-bit arithmetic. */
module Prelude {

  datatype Option<+T> = None | Some(value: T)

  const TWO_TO_THE_64: nat := 0x1_0000_0000_0000_0000

  /** The value of a 64-bit word after an operation whose exact result is `x`. */
  function Wrap(x: int): nat {
    x % TWO_TO_THE_64
  }
}
