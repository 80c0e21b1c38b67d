/** Pointers as numbers, and lists of them. */
module Sequences {
  /** The null pointer. */
  const NULL: int := -1

  /** Element i, or none beyond the end. */
  function At(c: seq<int>, i: int, none: int := NULL): int { if 0 <= i < |c| then c[i] else none }

  predicate Distinct(s: seq<int>) { forall i, j :: 0 <= i < j < |s| ==> s[i] != s[j] }

  /** All but element k. */
  function Drop(s: seq<int>, k: int): seq<int>
    requires 0 <= k < |s|
  { s[..k] + s[k + 1..] }

  lemma SubsetSize<T>(a: set<T>, b: set<T>)
    requires a <= b
    ensures |a| <= |b|
  {
    assert b == a + (b - a);
  }
}
