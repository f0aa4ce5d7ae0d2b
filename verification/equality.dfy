/**
 * The free comparison operators `==` and `!=`. Both read bits through the
 * const `operator[]`, whose checks cannot fail below the length of a valid
 * array, so the loops here read the bits directly.
 */
module Equality {
  import opened Errors
  import opened Storage

  /** The loop of `==` from index i: it stops at the first bit that differs. */
  function AgreeFrom(a: BitArray, b: BitArray, i: nat): (r: bool)
    requires a.sizeInBits == b.sizeInBits
    decreases a.sizeInBits - i
    ensures r <==> forall j :: i <= j < a.sizeInBits ==> Bits(a)[j] == Bits(b)[j]
  {
    if i >= a.sizeInBits then true
    else if Bits(a)[i] != Bits(b)[i] then false
    else AgreeFrom(a, b, i + 1)
  }

  /** `a == b`: equal lengths and equal bits below the length; padding is not compared. */
  function Equal(a: BitArray, b: BitArray): (r: bool)
    requires Valid(a) && Valid(b)
    ensures r <==> Bits(a) == Bits(b)
  {
    if a.sizeInBits != b.sizeInBits then false else AgreeFrom(a, b, 0)
  }

  /** `==` is an equivalence on valid arrays. */
  lemma EqualIsEquivalence(a: BitArray, b: BitArray, c: BitArray)
    requires Valid(a) && Valid(b) && Valid(c)
    ensures Equal(a, a)
    ensures Equal(a, b) ==> Equal(b, a)
    ensures Equal(a, b) && Equal(b, c) ==> Equal(a, c)
  {}

  // ---------------------------------------------------------------------
  // `!=` as written: the loop returns false at the first bit that AGREES.

  /** The loop of `!=` from index i: it stops at the first bit that agrees. */
  function DifferEverywhereFrom(a: BitArray, b: BitArray, i: nat): (r: bool)
    requires a.sizeInBits == b.sizeInBits
    decreases a.sizeInBits - i
    ensures r <==> forall j :: i <= j < a.sizeInBits ==> Bits(a)[j] != Bits(b)[j]
  {
    if i >= a.sizeInBits then true
    else if Bits(a)[i] == Bits(b)[i] then false
    else DifferEverywhereFrom(a, b, i + 1)
  }

  /**
   * `a != b` as the source computes it: true for different lengths, and for
   * equal lengths true only when every bit differs.
   */
  function NotEqual(a: BitArray, b: BitArray): (r: bool)
    requires Valid(a) && Valid(b)
    ensures a.sizeInBits != b.sizeInBits ==> r
    ensures a.sizeInBits == b.sizeInBits ==>
      (r <==> forall j :: 0 <= j < a.sizeInBits ==> Bits(a)[j] != Bits(b)[j])
  {
    if a.sizeInBits != b.sizeInBits then true else DifferEverywhereFrom(a, b, 0)
  }

  /** Two arrays of length zero are both `==` and `!=`. */
  lemma NotEqualOnZeroLength(a: BitArray, b: BitArray)
    requires Valid(a) && Valid(b) && a.sizeInBits == 0 && b.sizeInBits == 0
    ensures Equal(a, b) && NotEqual(a, b)
  {}

  /**
   * Two arrays of equal length that differ in one bit and agree in another
   * are neither `==` nor `!=`.
   */
  lemma NotEqualOnPartialDifference(a: BitArray, b: BitArray, i: nat, j: nat)
    requires Valid(a) && Valid(b) && a.sizeInBits == b.sizeInBits
    requires i < a.sizeInBits && j < a.sizeInBits
    requires Bits(a)[i] != Bits(b)[i] && Bits(a)[j] == Bits(b)[j]
    ensures !Equal(a, b) && !NotEqual(a, b)
  {}

  // ---------------------------------------------------------------------
  // `!=` as evidently intended: the negation of `==`.

  /** The corrected loop: it stops at the first bit that differs and reports it. */
  function DifferSomewhereFrom(a: BitArray, b: BitArray, i: nat): (r: bool)
    requires a.sizeInBits == b.sizeInBits
    decreases a.sizeInBits - i
    ensures r <==> exists j :: i <= j < a.sizeInBits && Bits(a)[j] != Bits(b)[j]
  {
    if i >= a.sizeInBits then false
    else if Bits(a)[i] != Bits(b)[i] then true
    else DifferSomewhereFrom(a, b, i + 1)
  }

  /** `a != b` with the loop's test turned around. */
  function NotEqualIntended(a: BitArray, b: BitArray): (r: bool)
    requires Valid(a) && Valid(b)
    ensures r <==> Bits(a) != Bits(b)
  {
    if a.sizeInBits != b.sizeInBits then true else DifferSomewhereFrom(a, b, 0)
  }

  /** The corrected `!=` is exactly the negation of `==`. */
  lemma NotEqualIntendedNegatesEqual(a: BitArray, b: BitArray)
    requires Valid(a) && Valid(b)
    ensures NotEqualIntended(a, b) == !Equal(a, b)
  {}
}
