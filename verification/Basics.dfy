/** Definitions shared by the other modules. */
module Basics {
  datatype Option<+T> = None | Some(value: T)

  /** Value of a `size_t` assigned to an `int32_t`. */
  function ToInt32(n: int): (r: int)
    ensures -0x8000_0000 <= r < 0x8000_0000
    ensures (r - n) % 0x1_0000_0000 == 0
  {
    var m := n % 0x1_0000_0000;
    if m < 0x8000_0000 then m else m - 0x1_0000_0000
  }
}
