/** Order-preserving selection: what a list comprehension with an `if`
    produces from its input list. */
module Sequences {

  /** `a` can be obtained from `b` by deleting elements: the order of what
      is kept is unchanged and nothing is added or repeated. */
  predicate Subsequence<T(==)>(a: seq<T>, b: seq<T>)
    decreases |b|
  {
    if a == [] then true
    else if b == [] then false
    else (a[0] == b[0] && Subsequence(a[1..], b[1..])) || Subsequence(a, b[1..])
  }

  /** Keeping `x` in front of both sides, or only in front of the larger
      side, preserves the relation. */
  lemma SubsequenceCons<T>(a: seq<T>, b: seq<T>, x: T)
    requires Subsequence(a, b)
    ensures Subsequence([x] + a, [x] + b)
    ensures Subsequence(a, [x] + b)
  {
    assert ([x] + a)[1..] == a && ([x] + b)[1..] == b;
  }

  lemma {:induction false} SubsequenceLength<T>(a: seq<T>, b: seq<T>)
    requires Subsequence(a, b)
    ensures |a| <= |b|
    decreases |b|
  {
    if a != [] {
      if a[0] == b[0] && Subsequence(a[1..], b[1..]) {
        SubsequenceLength(a[1..], b[1..]);
      } else {
        SubsequenceLength(a, b[1..]);
      }
    }
  }

  /** No element occurs more often in a subsequence than in the original. */
  lemma {:induction false} SubsequenceMultiset<T>(a: seq<T>, b: seq<T>)
    requires Subsequence(a, b)
    ensures multiset(a) <= multiset(b)
    decreases |b|
  {
    if a != [] {
      assert b == [b[0]] + b[1..];
      if a[0] == b[0] && Subsequence(a[1..], b[1..]) {
        SubsequenceMultiset(a[1..], b[1..]);
        assert a == [a[0]] + a[1..];
      } else {
        SubsequenceMultiset(a, b[1..]);
      }
    }
  }

  /** An element kept on the smaller side only if kept on the larger one
      preserves the relation. */
  lemma SubsequenceGuarded<T>(a: seq<T>, b: seq<T>, x: T, inA: bool, inB: bool)
    requires Subsequence(a, b) && (inA ==> inB)
    ensures Subsequence((if inA then [x] else []) + a, (if inB then [x] else []) + b)
  {
    SubsequenceCons(a, b, x);
    assert [] + a == a && [] + b == b;
  }
}
