/** Order between sequences: what a `filter` keeps of a list. */
module Sequences {

  /** `xs` is `ys` with some elements left out, the others in their order. */
  predicate SubsequenceOf<T(==)>(xs: seq<T>, ys: seq<T>)
    decreases |ys|
  {
    if xs == [] then true
    else if ys == [] then false
    else if xs[0] == ys[0] then SubsequenceOf(xs[1..], ys[1..])
    else SubsequenceOf(xs, ys[1..])
  }

  /** Every sequence is a subsequence of itself. */
  lemma {:induction false} SubsequenceOfSelf<T>(xs: seq<T>)
    ensures SubsequenceOf(xs, xs)
    decreases |xs|
  {
    if xs != [] {
      SubsequenceOfSelf(xs[1..]);
    }
  }
}
