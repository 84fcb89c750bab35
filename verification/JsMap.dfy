/** The JavaScript `Map`: a finite map that remembers the order in which keys were first set. */
module JsMap {
  import opened Sequences

  datatype JsMap<K(!new, ==), V> = JsMap(keys: seq<K>, vals: map<K, V>) {

    /** What every `Map` object satisfies: `keys` lists the domain without repetition. */
    ghost predicate Valid() {
      && NoDup(keys)
      && (forall k :: k in keys <==> k in vals)
    }

    /** `Map.set`: an existing key keeps its place, a new key goes last. */
    function Put(k: K, v: V): (m: JsMap<K, V>)
      ensures Valid() ==> m.Valid()
    {
      JsMap(if k in vals then keys else keys + [k], vals[k := v])
    }

    /** `Map.delete` */
    function Delete(k: K): (m: JsMap<K, V>)
      ensures Valid() ==> m.Valid()
    {
      JsMap(Without(keys, [k]), vals - {k})
    }
  }
}
