/** The two real-to-integer conversions of the normalisation step. */
module Rounding {

  /** `Series.round()` with no decimals: the nearest integer, a tie going to the even
      neighbour (numpy's round-half-to-even). */
  function RoundHalfEven(x: real): (n: int)
    ensures -0.5 <= x - n as real <= 0.5
    ensures (x - n as real == 0.5 || n as real - x == 0.5) ==> n % 2 == 0
  {
    var f := x.Floor;
    var d := x - f as real;
    if d < 0.5 then f
    else if d > 0.5 then f + 1
    else if f % 2 == 0 then f
    else f + 1
  }

  /** The nearest-integer, ties-to-even description pins the result down: any integer
      meeting it is the one RoundHalfEven returns. */
  lemma RoundHalfEvenUnique(x: real, m: int)
    requires -0.5 <= x - m as real <= 0.5
    requires (x - m as real == 0.5 || m as real - x == 0.5) ==> m % 2 == 0
    ensures m == RoundHalfEven(x)
  {
    var n := RoundHalfEven(x);
    if m < n {
      assert false;
    } else if m > n {
      assert false;
    }
  }

  /** An integral value is left as it is. */
  lemma RoundHalfEvenOfInteger(k: int)
    ensures RoundHalfEven(k as real) == k
  {
    RoundHalfEvenUnique(k as real, k);
  }

  /** `.astype(int)` on a float: truncation toward zero. */
  function TruncateToInt(x: real): (n: int)
    ensures 0.0 <= x ==> 0 <= n && n as real <= x < n as real + 1.0
    ensures x < 0.0 ==> n <= 0 && n as real - 1.0 < x <= n as real
  {
    if x >= 0.0 then x.Floor else -((-x).Floor)
  }

  /** 100 * 0.453 becomes 45; halves go to the even neighbour; truncation drops the fraction
      toward zero on both sides. */
  lemma ConversionExamples()
    ensures RoundHalfEven(100.0 * 0.453) == 45
    ensures RoundHalfEven(0.5) == 0 && RoundHalfEven(1.5) == 2 && RoundHalfEven(2.5) == 2
    ensures TruncateToInt(2.7) == 2 && TruncateToInt(-2.7) == -2
  {
    RoundHalfEvenUnique(100.0 * 0.453, 45);
    RoundHalfEvenUnique(0.5, 0);
    RoundHalfEvenUnique(1.5, 2);
    RoundHalfEvenUnique(2.5, 2);
  }
}
