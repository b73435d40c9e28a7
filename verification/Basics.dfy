/** What several components share: an optional value, the sizes of subsets, and rounding. */
module Basics {

  datatype Option<+T> = None | Some(value: T)

  lemma SubsetSize<T>(a: set<T>, b: set<T>)
    requires a <= b
    ensures |a| <= |b|
  {
    assert b == a + (b - a);
  }

  // Math.round: the nearest whole number, the higher of two.
  function Round(x: real): int { (x + 0.5).Floor }
}
