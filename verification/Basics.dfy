/** What every part of the model uses: machine words and optional values. */
module Basics {
  datatype Option<T> = None | Some(value: T)

  const TWO_31: nat := 0x8000_0000
  const TWO_32: nat := 0x1_0000_0000
  const TWO_63: nat := 0x8000_0000_0000_0000
  const TWO_64: nat := 0x1_0000_0000_0000_0000

  /** A number stored in a 32-bit int. */
  function ToInt32(n: int): int {
    var m := n % TWO_32;
    if m >= TWO_31 then m - TWO_32 else m
  }

  function Min(a: nat, b: nat): nat { if a < b then a else b }

  function Max(a: nat, b: nat): nat { if a > b then a else b }
}
