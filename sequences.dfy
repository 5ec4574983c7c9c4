/** Sequence vocabulary shared by the validator and the formatter. */
module Sequences {

  /** `a` is `b` with some elements deleted and the rest left in their
      original relative order. Greedy matching of `a`'s head against the
      earliest equal element of `b` decides this exactly. */
  predicate IsSubsequence<T(==)>(a: seq<T>, b: seq<T>)
    decreases |b|
  {
    if a == [] then true
    else if b == [] then false
    else if a[0] == b[0] then IsSubsequence(a[1..], b[1..])
    else IsSubsequence(a, b[1..])
  }
}
