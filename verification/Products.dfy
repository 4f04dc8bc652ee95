/** The little the other modules need of multiplication. */
module Products {
  lemma MulSplit(x: int, a: int, b: int)
    ensures x * (a + b) == x * a + x * b
  {
  }

  lemma MulLe(x: nat, a: int, b: int)
    requires a <= b
    ensures x * a <= x * b
  {
  }
}
