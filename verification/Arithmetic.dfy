/** Multiples. */
module Arithmetic {

  lemma NextMultiple(m: nat, a: nat, b: nat)
    requires a < b
    ensures m * b >= m * a + m && b * m >= a * m + m
  {
    assert m * b == m * a + m * (b - a) && m * (b - a) == m + m * (b - a - 1);
  }
}
