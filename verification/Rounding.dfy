/** Rounding of reals up, as Python's `math.ceil`. */
module Rounding {

  function Ceil(x: real): (n: int)
    ensures n as real - 1.0 < x <= n as real
  {
    if x == x.Floor as real then x.Floor else x.Floor + 1
  }
}
