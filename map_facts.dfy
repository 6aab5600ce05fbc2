/** Extensionality facts about maps, stated once for any key and value types. */
module MapFacts {

  lemma EmptyUnion<K, V>(m: map<K, V>)
    ensures map[] + m == m
  {
  }

  lemma UnionEmpty<K, V>(m: map<K, V>)
    ensures m + map[] == m
  {
  }

  lemma SameEntries<K, V>(x: map<K, V>, y: map<K, V>)
    requires x.Keys == y.Keys && forall k :: k in x ==> x[k] == y[k]
    ensures x == y
  {
  }

  lemma EmptyMap<K, V>(m: map<K, V>)
    ensures m == map[] <==> m.Keys == {}
  {
    if m.Keys == {} {
      assert m == map[];
    }
  }

  lemma UnionSingle<K, V>(m: map<K, V>, k: K, v: V)
    ensures m + map[k := v] == m[k := v]
  {
  }
}
