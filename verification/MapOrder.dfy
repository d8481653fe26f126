/** Walking a map in an unspecified order. */
module MapOrder {
  /** `order` lists the keys of `m`, each once. */
  ghost predicate Enumerates<K, V>(order: seq<K>, m: map<K, V>) {
    (forall i, j :: 0 <= i < j < |order| ==> order[i] != order[j]) && (set k | k in order) == m.Keys
  }

  lemma EnumeratesKeys<K, V>(order: seq<K>, m: map<K, V>)
    requires Enumerates(order, m)
    ensures forall k :: k in order <==> k in m
    ensures order == [] <==> m == map[]
  {
    assert forall k :: k in order <==> k in (set k | k in order);
    if order != [] {
      assert order[0] in m;
    } else {
      assert m.Keys == {};
    }
  }

  /** The part of `m` that `order` covers. */
  ghost function Chosen<K, V>(m: map<K, V>, order: seq<K>): map<K, V> {
    map k | k in m && k in order :: m[k]
  }

  lemma ChosenStep<K, V>(m: map<K, V>, order: seq<K>, acc: map<K, V>)
    requires order != [] && order[0] in m
    ensures acc + Chosen(m, order) == acc[order[0] := m[order[0]]] + Chosen(m, order[1..])
  {
  }

  lemma ChosenNone<K, V>(m: map<K, V>, acc: map<K, V>)
    ensures acc + Chosen(m, []) == acc
  {
  }

  lemma ChosenAll<K, V>(m: map<K, V>, order: seq<K>)
    requires Enumerates(order, m)
    ensures map[] + Chosen(m, order) == m
  {
    EnumeratesKeys(order, m);
  }
}
