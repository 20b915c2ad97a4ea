/** Walking a Go map: each key once, in an order that nothing fixes. */
module Walks {

  ghost predicate Walk<K(!new)>(o: seq<K>, keys: set<K>) {
    && (forall i, j :: 0 <= i < j < |o| ==> o[i] != o[j])
    && (forall k :: k in o <==> k in keys)
  }

  lemma WalkNext<K(!new)>(o: seq<K>, keys: set<K>, rest: set<K>, k: K)
    requires Walk(o, keys - rest) && k in rest && rest <= keys
    ensures Walk(o + [k], keys - (rest - {k}))
  {
    assert k !in o;
  }
}
