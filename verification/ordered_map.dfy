/** JavaScript `Map` semantics: a finite map that remembers the order in which
    keys were first inserted. Overwriting a key keeps its original position. */
module OrderedMaps {
  import opened Wrappers

  predicate NoDuplicates<T(==)>(s: seq<T>) {
    forall i, j | 0 <= i < j < |s| :: s[i] != s[j]
  }

  /** `keys` lists the keys in insertion order; `values` holds the entries. */
  datatype OMap<K(==), V> = OMap(keys: seq<K>, values: map<K, V>) {

    predicate Valid() {
      NoDuplicates(keys) && (forall k | k in values :: k in keys)
      && (forall i | 0 <= i < |keys| :: keys[i] in values)
    }

    /** `m.get(k)` */
    function Get(k: K): (r: Option<V>)
      ensures r.Some? <==> k in values
      ensures r.Some? ==> r.value == values[k]
    {
      if k in values then Some(values[k]) else None
    }

    /** The entry at position `i` of the iteration order. */
    function At(i: nat): V
      requires Valid() && i < |keys|
    {
      values[keys[i]]
    }

    /** `m.set(k, v)`: a new key goes to the end, an existing key keeps its place. */
    function Put(k: K, v: V): (r: OMap<K, V>)
      ensures Valid() ==> r.Valid()
      ensures r.values == values[k := v]
      ensures k in values ==> r.keys == keys
      ensures k !in values ==> r.keys == keys + [k]
    {
      if k in values then OMap(keys, values[k := v]) else OMap(keys + [k], values[k := v])
    }

    function Size(): nat {
      |keys|
    }
  }

  function Empty<K(==), V>(): (m: OMap<K, V>)
    ensures m.Valid() && m.keys == []
  {
    OMap([], map[])
  }

  /** Last write wins: the value read back is the one stored, and every other
      key reads as before. */
  lemma PutGet<K, V>(m: OMap<K, V>, k: K, v: V, k': K)
    requires m.Valid()
    ensures m.Put(k, v).Get(k) == Some(v)
    ensures k' != k ==> m.Put(k, v).Get(k') == m.Get(k')
  {
  }

  /** Iteration positions of existing keys are stable under `Put`. */
  lemma PutKeepsPositions<K, V>(m: OMap<K, V>, k: K, v: V, i: nat)
    requires m.Valid() && i < |m.keys|
    ensures i < |m.Put(k, v).keys| && m.Put(k, v).keys[i] == m.keys[i]
  {
  }
}
