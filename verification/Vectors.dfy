/** Dense vectors over the reals. */
module Vectors {

  type Vector = seq<real>

  function Times(a: real, b: real): real { a * b }

  function Add(a: Vector, b: Vector): (r: Vector)
    requires |a| == |b|
    ensures |r| == |a|
  {
    seq(|a|, i requires 0 <= i < |a| => a[i] + b[i])
  }
}
