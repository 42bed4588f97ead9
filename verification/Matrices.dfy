/** Vectors and matrices. */
module Matrices {
  type Vector = seq<real>
  type Matrix = seq<seq<real>>

  predicate Square(a: Matrix, n: nat) {
    |a| == n && forall r | 0 <= r < n :: |a[r]| == n
  }
}
