/** `Math.round`: the nearest integer, halves upwards. */
module Rounding {
  function Round(x: real): int {
    (x + 0.5).Floor
  }

  lemma RoundNear(x: real)
    ensures -0.5 < Round(x) as real - x <= 0.5
  {
  }

  lemma RoundMonotone(x: real, y: real)
    requires x <= y
    ensures Round(x) <= Round(y)
  {
  }

  lemma RoundInteger(n: int)
    ensures Round(n as real) == n
  {
  }
}
