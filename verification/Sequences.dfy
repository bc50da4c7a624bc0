/** Lists of identifiers. */
module Sequences {
  predicate Distinct(q: seq<int>) {
    forall i, j :: 0 <= i < j < |q| ==> q[i] != q[j]
  }
}
