/**
 * The linear search behind every `fromValue` and `valueOf` of the protocol enums:
 * walk `values()` in declaration order and return the first constant whose key matches.
 */
module Lookup {
  import opened Wrappers

  /** Index of the first element of `xs` whose key is `k`, if there is one. */
  function IndexOf<T, K(==)>(xs: seq<T>, key: T -> K, k: K): (r: Option<nat>)
    ensures r.Some? ==> r.value < |xs| && key(xs[r.value]) == k
    ensures r.Some? ==> forall j :: 0 <= j < r.value ==> key(xs[j]) != k
    ensures r.None? ==> forall j :: 0 <= j < |xs| ==> key(xs[j]) != k
  {
    if |xs| == 0 then None
    else if key(xs[0]) == k then Some(0)
    else
      match IndexOf(xs[1..], key, k)
      case None => None
      case Some(i) => Some(i + 1)
  }

  /** The first element of `xs` whose key is `k` (the loop with early return of `fromValue`). */
  function FirstMatch<T, K(==)>(xs: seq<T>, key: T -> K, k: K): (r: Option<T>)
    ensures r.Some? ==> r.value in xs && key(r.value) == k
    ensures r.None? <==> forall j :: 0 <= j < |xs| ==> key(xs[j]) != k
  {
    match IndexOf(xs, key, k)
    case None => None
    case Some(i) => Some(xs[i])
  }

  /** Keys are pairwise distinct over `xs`. */
  ghost predicate KeysDistinct<T, K>(xs: seq<T>, key: T -> K)
  {
    forall i, j :: 0 <= i < |xs| && 0 <= j < |xs| && key(xs[i]) == key(xs[j]) ==> xs[i] == xs[j]
  }

  /**
   * With distinct keys the first match is the only match: looking up the key of any
   * element of `xs` finds exactly that element.
   */
  lemma {:induction false} FirstMatchOfKey<T, K>(xs: seq<T>, key: T -> K, i: nat)
    requires i < |xs|
    requires KeysDistinct(xs, key)
    ensures FirstMatch(xs, key, key(xs[i])) == Some(xs[i])
  {
    var r := IndexOf(xs, key, key(xs[i]));
    assert key(xs[r.value]) == key(xs[i]);
  }
}
