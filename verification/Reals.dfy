/** Products of exact reals. `Times` is multiplication under a name, so that a proof can keep
    the solver from looking inside. */
module Reals {

  function Times(a: real, b: real): real { a * b }

  lemma Commute(a: real, b: real, c: real)
    ensures Times(b, Times(a, c)) == Times(a, Times(b, c))
  {
  }

  lemma TimesLaws(a: real, b: real, c: real)
    ensures Times(Times(a, b), c) == Times(a, Times(b, c))
    ensures Times(a, 1.0) == a && Times(1.0, a) == a
  {
  }

  lemma ProductNonNegative(a: real, b: real)
    requires 0.0 <= a && 0.0 <= b
    ensures 0.0 <= a * b
    ensures a * b == 0.0 <==> a == 0.0 || b == 0.0
  {
  }

  lemma ProductPositive(a: real, b: real)
    requires 0.0 < a && 0.0 < b
    ensures 0.0 < a * b
  {
  }
}
