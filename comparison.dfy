/**
 * Comparison selectors: each compares its two arguments and returns one of
 * them, so that they can stand as function alleles over numbers.
 */
module Comparison {

  /** `i if i == j else j`: whichever branch is taken, the value is `j`. */
  function Equal(i: int, j: int): (r: int)
    ensures r == j
  {
    if i == j then i else j
  }

  /** `i if i != j else j`: whichever branch is taken, the value is `i`. */
  function Unequal(i: int, j: int): (r: int)
    ensures r == i
  {
    if i != j then i else j
  }

  /** `i if i < j else j`: the smaller argument. */
  function Less(i: int, j: int): (r: int)
    ensures r == i || r == j
    ensures r <= i && r <= j
  {
    if i < j then i else j
  }

  /** `i if i > j else j`: the larger argument. */
  function Greater(i: int, j: int): (r: int)
    ensures r == i || r == j
    ensures r >= i && r >= j
  {
    if i > j then i else j
  }

  /** `i if i <= j else j`: the smaller argument. */
  function LessOrEqual(i: int, j: int): (r: int)
    ensures r == i || r == j
    ensures r <= i && r <= j
  {
    if i <= j then i else j
  }

  /** `i if i >= j else j`: the larger argument. */
  function GreaterOrEqual(i: int, j: int): (r: int)
    ensures r == i || r == j
    ensures r >= i && r >= j
  {
    if i >= j then i else j
  }

  /** The strict and non-strict selectors differ only on ties, where both arguments are equal. */
  lemma StrictAndNonStrictAgree(i: int, j: int)
    ensures Less(i, j) == LessOrEqual(i, j)
    ensures Greater(i, j) == GreaterOrEqual(i, j)
    ensures Less(i, j) == Less(j, i) && Greater(i, j) == Greater(j, i)
  {
  }

  /** The values the library's comparison tests expect. */
  lemma ComparisonExamples()
    ensures Equal(1, 1) == 1 && Equal(1, 2) == 2
    ensures Unequal(1, 2) == 1 && Unequal(2, 2) == 2
    ensures Less(1, 2) == 1 && Less(3, 2) == 2
    ensures Greater(1, 2) == 2 && Greater(3, 2) == 3
    ensures LessOrEqual(1, 2) == 1 && LessOrEqual(1, 1) == 1 && LessOrEqual(3, 2) == 2
    ensures GreaterOrEqual(2, 1) == 2 && GreaterOrEqual(2, 2) == 2 && GreaterOrEqual(2, 3) == 3
  {
  }
}
