/** Python's int() on a float. */
module Numbers {
  function Truncated(x: real): int {
    if x >= 0.0 then x.Floor else -((-x).Floor)
  }
}
