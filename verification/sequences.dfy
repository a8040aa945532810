/** Positions in sequences, shared by the string built-ins and the insertion-ordered maps. */
module Sequences {

  /** Index of the first occurrence of `x` in `xs` (`xs.index(x)`). */
  function FirstIndex<T(==)>(xs: seq<T>, x: T): (i: nat)
    requires x in xs
    ensures i < |xs| && xs[i] == x
    ensures forall j :: 0 <= j < i ==> xs[j] != x
  {
    if xs[0] == x then 0 else 1 + FirstIndex(xs[1..], x)
  }

  /** The first occurrence of `x` is at `k` exactly when `xs[k] == x` and no earlier element is `x`. */
  lemma FirstIndexIsFirst<T>(xs: seq<T>, x: T, k: nat)
    requires k < |xs| && xs[k] == x
    requires forall j :: 0 <= j < k ==> xs[j] != x
    ensures FirstIndex(xs, x) == k
  {
  }

  /** In a sequence of distinct elements the first occurrence of `xs[i]` is at `i`. */
  lemma PositionOfDistinct<T>(xs: seq<T>, i: nat)
    requires forall a, b :: 0 <= a < b < |xs| ==> xs[a] != xs[b]
    requires i < |xs|
    ensures FirstIndex(xs, xs[i]) == i
  {
    FirstIndexIsFirst(xs, xs[i], i);
  }
}
