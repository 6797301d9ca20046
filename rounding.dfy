/** Python's built-in `round(x)` on a float: round half to even, defined through `Floor`. */
module Rounding {

  function Round(x: real): (r: int)
    ensures x - 0.5 <= r as real <= x + 0.5
    ensures (r as real == x - 0.5 || r as real == x + 0.5) ==> r % 2 == 0
  {
    var f := x.Floor;
    var d := x - f as real;
    if d < 0.5 then f
    else if d > 0.5 then f + 1
    else if f % 2 == 0 then f
    else f + 1
  }

  /** The two properties in `Round`'s contract pin the result down: any integer
      within one half of `x`, and even on a tie, is `Round(x)`. */
  lemma RoundUnique(x: real, k: int)
    requires x - 0.5 <= k as real <= x + 0.5
    requires (k as real == x - 0.5 || k as real == x + 0.5) ==> k % 2 == 0
    ensures k == Round(x)
  {
  }

  /** A whole number of seconds is written unchanged. */
  lemma RoundWhole(k: int)
    ensures Round(k as real) == k
  {
    RoundUnique(k as real, k);
  }

  /** Rounding never reverses the order of two times. */
  lemma RoundMonotone(x: real, y: real)
    requires x <= y
    ensures Round(x) <= Round(y)
  {
  }
}
