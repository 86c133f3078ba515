/** The scalar helpers of <algorithm> and <cmath> the model needs, over
    unbounded integers and exact reals. */
module Numeric {

  function MaxInt(a: int, b: int): int {
    if a < b then b else a
  }

  function MinInt(a: int, b: int): int {
    if b < a then b else a
  }

  function MaxReal(a: real, b: real): real {
    if a < b then b else a
  }

  function MinReal(a: real, b: real): real {
    if b < a then b else a
  }

  /** std::round and std::llround: to the nearest integer, halfway cases away
      from zero. */
  function RoundHalfAway(x: real): int {
    if x >= 0.0 then (x + 0.5).Floor else -((-x + 0.5).Floor)
  }

  /** The rounded value is within one half of its argument. */
  lemma RoundNearest(x: real)
    ensures x - 0.5 <= RoundHalfAway(x) as real <= x + 0.5
  {}

  /** Rounding commutes with negation. */
  lemma RoundOdd(x: real)
    ensures RoundHalfAway(-x) == -RoundHalfAway(x)
  {
    if x > 0.0 {
      assert -x < 0.0;
    } else if x < 0.0 {
      assert - -x == x;
    }
  }

  /** A halfway case moves away from zero. */
  lemma RoundHalfwayAway(n: nat)
    ensures RoundHalfAway(n as real + 0.5) == n + 1
    ensures RoundHalfAway(-(n as real + 0.5)) == -(n + 1)
  {
    RoundOdd(n as real + 0.5);
  }

  /** Whole numbers are left as they are. */
  lemma RoundWhole(n: int)
    ensures RoundHalfAway(n as real) == n
  {}
}
