/** Dates are day numbers. */
module Dates {
  function Later(a: int, b: int): int {
    if a < b then b else a
  }
}
