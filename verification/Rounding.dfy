/** Rounding to the nearest whole number, ties to the even one. */
module Rounding {
  function RoundHalfEven(r: real): int {
    var q := r.Floor;
    var rest := r - q as real;
    if rest < 0.5 || (rest == 0.5 && q % 2 == 0) then q else q + 1
  }

  /** The nearest whole number, and of two equally near ones the even. */
  lemma RoundMeans(r: real)
    ensures var n := RoundHalfEven(r) as real;
            && -0.5 <= r - n <= 0.5
            && (r - n == 0.5 || n - r == 0.5 ==> RoundHalfEven(r) % 2 == 0)
  {}

  lemma RoundMonotone(a: real, b: real)
    requires a <= b
    ensures RoundHalfEven(a) <= RoundHalfEven(b)
  {}

  lemma CloseRounds(n: int, r: real)
    requires n as real - 0.5 < r < n as real + 0.5
    ensures RoundHalfEven(r) == n
  {}

  /** No number is alone in what it rounds to. */
  lemma RoundsAlike(r: real) returns (r': real)
    requires r >= 0.0
    ensures r' > 0.0 && r' != r && RoundHalfEven(r') == RoundHalfEven(r)
  {
    var n := RoundHalfEven(r);
    r' := if r == n as real then r + 0.25 else (r + n as real) / 2.0;
    CloseRounds(n, r');
  }
}
