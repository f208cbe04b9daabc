/**
 * Logical operators over numbers, with Python truthiness: zero is false,
 * every other number true; `True` and `False` are the numbers 1 and 0.
 */
module Logic {

  predicate Truthy(v: int) {
    v != 0
  }

  function FromBool(b: bool): (r: int)
    ensures Truthy(r) == b && (r == 0 || r == 1)
  {
    if b then 1 else 0
  }

  /** `i and j`: `i` when it is false, otherwise `j`. */
  function And(i: int, j: int): (r: int)
    ensures !Truthy(i) ==> r == i
    ensures Truthy(i) ==> r == j
    ensures Truthy(r) <==> Truthy(i) && Truthy(j)
  {
    if Truthy(i) then j else i
  }

  /** `i or j`: `i` when it is true, otherwise `j`. */
  function Or(i: int, j: int): (r: int)
    ensures Truthy(i) ==> r == i
    ensures !Truthy(i) ==> r == j
    ensures Truthy(r) <==> Truthy(i) || Truthy(j)
  {
    if Truthy(i) then i else j
  }

  /** `not i`: the boolean that negates the truthiness of `i`. */
  function Not(i: int): (r: int)
    ensures r == 0 || r == 1
    ensures Truthy(r) <==> !Truthy(i)
  {
    FromBool(!Truthy(i))
  }

  /** `j if i else k`. */
  function If(i: int, j: int, k: int): (r: int)
    ensures Truthy(i) ==> r == j
    ensures !Truthy(i) ==> r == k
  {
    if Truthy(i) then j else k
  }

  /** De Morgan holds for the truthiness of the selectors. */
  lemma DeMorgan(i: int, j: int)
    ensures Truthy(Not(And(i, j))) <==> Truthy(Or(Not(i), Not(j)))
    ensures Truthy(Not(Or(i, j))) <==> Truthy(And(Not(i), Not(j)))
  {
  }

  /** The values the library's logic tests expect. */
  lemma LogicExamples()
    ensures Truthy(And(1, 1)) && !Truthy(And(1, 0))
    ensures Truthy(Or(1, 2)) && !Truthy(Or(0, 0))
    ensures Truthy(Not(0)) && !Truthy(Not(1))
    ensures If(1, 1, 2) == 1 && If(0, 1, 2) == 2
  {
  }
}
