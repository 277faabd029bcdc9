/** Python dicts with string keys whose iteration order the code depends on: the keys in
    insertion order and the key-to-value map. */
module OrderedDict {

  datatype Dict<V> = Dict(keys: seq<string>, vals: map<string, V>) {

    /** Keys are distinct and are exactly the map's domain. */
    ghost predicate Valid() {
      && (forall i, j :: 0 <= i < j < |keys| ==> keys[i] != keys[j])
      && (forall k :: k in vals <==> k in keys)
    }

    /** `d[k] = v`: a new key goes to the end, an existing key keeps its place. */
    function Put(k: string, v: V): (d: Dict<V>)
      requires Valid()
      ensures d.Valid()
      ensures d.vals == vals[k := v]
      ensures k in vals ==> d.keys == keys
      ensures k !in vals ==> d.keys == keys + [k]
    {
      if k in vals then Dict(keys, vals[k := v]) else Dict(keys + [k], vals[k := v])
    }
  }

  /** Writing a key twice leaves the second value, at the place the first write gave it. */
  lemma PutTwice<V>(d: Dict<V>, k: string, v: V, w: V)
    requires d.Valid()
    ensures d.Put(k, v).Put(k, w) == d.Put(k, w)
  {
    assert d.vals[k := v][k := w] == d.vals[k := w];
  }

  function Empty<V>(): (d: Dict<V>)
    ensures d.Valid() && d.keys == [] && d.vals == map[]
  {
    Dict([], map[])
  }
}
