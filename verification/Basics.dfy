/** What several parts of the model share. */
module Basics {

  datatype Option<T> = None | Some(value: T)

  function Least(a: nat, b: nat): nat { if a < b then a else b }

  lemma SubsetSize<T>(a: set<T>, b: set<T>)
    requires a <= b
    ensures |a| <= |b|
  {
    assert b == a + (b - a);
  }
}
