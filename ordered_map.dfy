/**
 * A PHP array with string keys: an insertion-ordered sequence of distinct
 * keys plus the value stored under each. Assigning to a key that is already
 * present replaces its value and keeps its position; assigning to a new key
 * appends it at the end.
 */
module OrderedMap {

  datatype OrdMap<V> = OrdMap(keys: seq<string>, values: map<string, V>) {

    /** The keys are distinct and are exactly the keys that carry a value. */
    ghost predicate Valid() {
      && (forall i, j | 0 <= i < j < |keys| :: keys[i] != keys[j])
      && (forall k :: k in values <==> k in keys)
    }
  }

  function Empty<V>(): (r: OrdMap<V>)
    ensures r.Valid() && r.keys == [] && r.values == map[]
  {
    OrdMap([], map[])
  }

  /** `$array[$k] = $v`. */
  function Put<V>(m: OrdMap<V>, k: string, v: V): (r: OrdMap<V>)
    ensures m.Valid() ==> r.Valid()
    ensures m.Valid() ==> r.keys == if k in m.keys then m.keys else m.keys + [k]
    ensures r.values == m.values[k := v]
  {
    if k in m.values then OrdMap(m.keys, m.values[k := v]) else OrdMap(m.keys + [k], m.values[k := v])
  }

  /** Two assignments to one key leave the map as the second one alone would. */
  lemma PutPut<V>(m: OrdMap<V>, k: string, v1: V, v2: V)
    ensures Put(Put(m, k, v1), k, v2) == Put(m, k, v2)
  {
    assert m.values[k := v1][k := v2] == m.values[k := v2];
  }
}
