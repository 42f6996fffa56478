/** Grouping values by key in insertion order, as a default dictionary of lists does. */
module Grouping {
  import opened Wrappers

  /** The values recorded under k, in order. */
  function Values<K(==), V>(pairs: seq<(K, V)>, k: K): (vs: seq<V>)
    ensures |vs| <= |pairs|
  {
    if pairs == [] then []
    else
      var last := pairs[|pairs| - 1];
      Values(pairs[..|pairs| - 1], k) + if last.0 == k then [last.1] else []
  }

  /** The keys, in order of first appearance. */
  function Keys<K(==), V>(pairs: seq<(K, V)>): (ks: seq<K>)
    ensures |ks| <= |pairs|
  {
    if pairs == [] then []
    else
      var front, last := Keys(pairs[..|pairs| - 1]), pairs[|pairs| - 1];
      if last.0 in front then front else front + [last.0]
  }

  lemma {:induction false} KeysAreDistinct<K, V>(pairs: seq<(K, V)>)
    ensures Distinct(Keys(pairs))
    ensures forall k :: k in Keys(pairs) <==> exists p :: p in pairs && p.0 == k
  {
    if pairs != [] {
      var front, last := pairs[..|pairs| - 1], pairs[|pairs| - 1];
      KeysAreDistinct(front);
      assert forall p :: p in pairs <==> p in front || p == last;
    }
  }

  lemma {:induction false} KeyHasValues<K, V>(pairs: seq<(K, V)>, k: K)
    ensures k in Keys(pairs) <==> Values(pairs, k) != []
  {
    if pairs != [] {
      KeyHasValues(pairs[..|pairs| - 1], k);
    }
  }

  /** How many values the listed keys hold together. */
  function Total<K(==), V>(pairs: seq<(K, V)>, keys: seq<K>): nat {
    if keys == [] then 0 else Total(pairs, keys[..|keys| - 1]) + |Values(pairs, keys[|keys| - 1])|
  }

  lemma {:induction false} TotalOfAppend<K, V>(front: seq<(K, V)>, p: (K, V), keys: seq<K>)
    requires Distinct(keys)
    ensures Total(front + [p], keys) == Total(front, keys) + if p.0 in keys then 1 else 0
  {
    if keys != [] {
      assert (front + [p])[..|front|] == front;
      TotalOfAppend(front, p, keys[..|keys| - 1]);
    }
  }

  lemma {:induction false} TotalOfNothing<K, V>(pairs: seq<(K, V)>, keys: seq<K>)
    requires pairs == []
    ensures Total(pairs, keys) == 0
  {
    if keys != [] {
      TotalOfNothing(pairs, keys[..|keys| - 1]);
    }
  }

  /** Conservation: distinct keys that cover all pairs hold every value exactly once. */
  lemma {:induction false} TotalIsEverything<K, V>(pairs: seq<(K, V)>, keys: seq<K>)
    requires Distinct(keys) && forall p :: p in pairs ==> p.0 in keys
    ensures Total(pairs, keys) == |pairs|
  {
    if pairs == [] {
      TotalOfNothing(pairs, keys);
    } else {
      var front, last := pairs[..|pairs| - 1], pairs[|pairs| - 1];
      assert pairs == front + [last];
      TotalIsEverything(front, keys);
      TotalOfAppend(front, last, keys);
    }
  }

  /** What the dictionary and its key order must contain. */
  ghost predicate Grouped<K(!new), V>(pairs: seq<(K, V)>, order: seq<K>, groups: map<K, seq<V>>) {
    && order == Keys(pairs)
    && (forall k :: k in groups <==> k in order)
    && (forall k :: k in groups ==> groups[k] == Values(pairs, k))
  }

  lemma GroupedStep<K(!new), V>(front: seq<(K, V)>, p: (K, V), order: seq<K>, groups: map<K, seq<V>>)
    requires Grouped(front, order, groups)
    ensures p.0 in groups ==> Grouped(front + [p], order, groups[p.0 := groups[p.0] + [p.1]])
    ensures p.0 !in groups ==> Grouped(front + [p], order + [p.0], groups[p.0 := [p.1]])
  {
    assert (front + [p])[..|front|] == front;
    KeyHasValues(front, p.0);
  }

  /** Append each value to its key's list, creating the list on first use. */
  method GroupBy<K(==,!new), V>(pairs: seq<(K, V)>) returns (order: seq<K>, groups: map<K, seq<V>>)
    ensures Grouped(pairs, order, groups)
  {
    order, groups := [], map[];
    for n := 0 to |pairs|
      invariant Grouped(pairs[..n], order, groups)
    {
      var p := pairs[n];
      GroupedStep(pairs[..n], p, order, groups);
      assert pairs[..n + 1] == pairs[..n] + [p];
      if p.0 in groups {
        groups := groups[p.0 := groups[p.0] + [p.1]];
      } else {
        order, groups := order + [p.0], groups[p.0 := [p.1]];
      }
    }
    assert pairs[..|pairs|] == pairs;
  }
}
