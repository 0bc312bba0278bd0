/** Packing a lexicographic pair into one natural number. */
module Ranking {

  lemma Lexicographic(major: int, minor: int, major0: int, minor0: int, unit: int)
    requires 0 <= minor < unit && 0 <= minor0
    requires major < major0 || (major == major0 && minor < minor0)
    ensures major * unit + minor < major0 * unit + minor0
  {
    if major < major0 {
      assert major * unit <= (major0 - 1) * unit;
      assert (major0 - 1) * unit == major0 * unit - unit;
    }
  }

  lemma ProductNotNegative(a: int, b: int)
    requires 0 <= a && 0 <= b
    ensures 0 <= a * b
  {
  }

  lemma Multiply(a: int, b: int, unit: int)
    requires a <= b && 0 <= unit
    ensures a * unit <= b * unit
  {
  }

  lemma OnlyZeroMultiple(d: int, unit: int)
    requires 0 < unit && -unit < d * unit < unit
    ensures d == 0
  {
  }

  lemma Chain(x: int, a: int, b: int, unit: int)
    requires x <= a * unit && a <= b && 0 <= unit
    ensures x <= b * unit
  {
  }

  lemma OneMore(n: nat, unit: nat)
    requires 0 < n
    ensures n * unit == (n - 1) * unit + unit
  {
  }
}
