/**
  The insertion-ordered `Map` of JavaScript: writing a present key keeps its position, writing a new
  key appends it, and iteration follows the positions.
 */
module JsMap {
  import opened Wrappers

  type Map<K, V> = seq<(K, V)>

  ghost predicate Distinct<K, V>(m: Map<K, V>) {
    forall i, j :: 0 <= i < j < |m| ==> m[i].0 != m[j].0
  }

  /** The position of key `k`, or -1. */
  function IndexOf<K(==), V>(m: Map<K, V>, k: K): (i: int)
    ensures -1 <= i < |m|
    ensures i >= 0 ==> m[i].0 == k
    ensures i < 0 ==> forall j :: 0 <= j < |m| ==> m[j].0 != k
  {
    if m == [] then -1
    else if m[|m| - 1].0 == k then |m| - 1
    else IndexOf(m[..|m| - 1], k)
  }

  predicate Has<K(==), V>(m: Map<K, V>, k: K) {
    IndexOf(m, k) >= 0
  }

  function Get<K(==), V>(m: Map<K, V>, k: K): Option<V> {
    var i := IndexOf(m, k);
    if i < 0 then None else Some(m[i].1)
  }

  function Set<K(==), V>(m: Map<K, V>, k: K, v: V): Map<K, V> {
    var i := IndexOf(m, k);
    if i < 0 then m + [(k, v)] else m[i := (k, v)]
  }

  lemma HasIff<K, V>(m: Map<K, V>, k: K)
    ensures Has(m, k) <==> exists i :: 0 <= i < |m| && m[i].0 == k
    ensures Has(m, k) <==> Get(m, k).Some?
  {
  }

  /** In a map, an entry is what looking its key up answers. */
  lemma GetEntry<K, V>(m: Map<K, V>, i: nat)
    requires Distinct(m) && i < |m|
    ensures Get(m, m[i].0) == Some(m[i].1)
  {
    var j := IndexOf(m, m[i].0);
    assert j == i;
  }

  /** Writing one key changes what that key answers and nothing else. */
  lemma SetGet<K, V>(m: Map<K, V>, k: K, v: V)
    requires Distinct(m)
    ensures Distinct(Set(m, k, v))
    ensures Get(Set(m, k, v), k) == Some(v)
    ensures forall other :: other != k ==> Get(Set(m, k, v), other) == Get(m, other)
  {
    var n := Set(m, k, v);
    var i := IndexOf(m, k);
    var at := if i < 0 then |m| else i;
    GetEntry(n, at);
    forall other | other != k
      ensures Get(n, other) == Get(m, other)
    {
      var j := IndexOf(m, other);
      if j >= 0 {
        assert n[j] == m[j];
        GetEntry(n, j);
      }
    }
  }
}
