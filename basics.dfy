/** Small helpers shared by the protocol modules. */
module Basics {

  /** A value that may be absent, used for timers that may be unarmed. */
  datatype Option<+T> = None | Some(value: T)

  /** Python's `min` on two integers. */
  function Min(a: int, b: int): (r: int)
    ensures r <= a && r <= b
    ensures r == a || r == b
  {
    if a <= b then a else b
  }
}
