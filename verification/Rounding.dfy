/** Rounding to an integer, half away from zero (`math.Round`, `decimal.Round(0)`), and truncation. */
module Rounding {

  function Abs(x: real): real { if x < 0.0 then -x else x }

  function RoundHalfAway(x: real): int {
    if x >= 0.0 then (x + 0.5).Floor else -((-x + 0.5).Floor)
  }

  function Truncate(x: real): int {
    if x >= 0.0 then x.Floor else -((-x).Floor)
  }

  /** The nearest integer, and of two nearest the one further from zero. */
  lemma RoundIsNearest(x: real)
    ensures Abs(RoundHalfAway(x) as real - x) <= 0.5
    ensures Abs(RoundHalfAway(x) as real - x) == 0.5 ==> Abs(RoundHalfAway(x) as real) > Abs(x)
    ensures RoundHalfAway(-x) == -RoundHalfAway(x)
  {
    var y := if x >= 0.0 then x + 0.5 else -x + 0.5;
    assert y.Floor as real <= y < y.Floor as real + 1.0;
  }

  lemma RoundMonotone(x: real, y: real)
    requires x <= y
    ensures RoundHalfAway(x) <= RoundHalfAway(y)
  {
    RoundIsNearest(x);
    RoundIsNearest(y);
  }

  lemma TruncateFacts(x: real)
    ensures x >= 0.0 ==> 0.0 <= Truncate(x) as real <= x < Truncate(x) as real + 1.0
    ensures x <= 0.0 ==> Truncate(x) as real - 1.0 < x <= Truncate(x) as real <= 0.0
  {
  }
}
