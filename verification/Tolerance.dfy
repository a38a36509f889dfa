/** Price comparison up to a tolerance (controller/ratio_sync.go, lines 36 and 47-52). */
module Tolerance {
  const EPSILON: real := 0.000000001

  predicate NearlyEqual(a: real, b: real) {
    if a > b then a - b < EPSILON else b - a < EPSILON
  }
}
