/**
 * A Python `dict`: a finite map that remembers the order in which its keys
 * were first inserted. Re-assigning an existing key keeps its position;
 * `pop` forgets it.
 */
module Dicts {
  import opened Lists

  datatype Dict<K(!new), V> = Dict(keys: seq<K>, items: map<K, V>) {

    /** Keys are listed once each, and exactly the mapped keys are listed. */
    ghost predicate Valid() {
      Distinct(keys) && forall k :: k in items <==> k in keys
    }

    /** `d[k] = v`. */
    function Put(k: K, v: V): (d: Dict<K, V>)
      requires Valid()
      ensures d.Valid()
      ensures d.items == items[k := v]
      ensures k in items ==> d.keys == keys
      ensures k !in items ==> d.keys == keys + [k]
    {
      Dict(if k in items then keys else keys + [k], items[k := v])
    }

    /** `d.pop(k, None)`. */
    function Pop(k: K): (d: Dict<K, V>)
      requires Valid()
      ensures d.Valid()
      ensures d.items == items - {k}
      ensures forall j :: j in d.keys <==> j in keys && j != k
    {
      RemoveFirstDistinct(keys, k);
      Dict(RemoveFirst(keys, k), items - {k})
    }
  }

  function Empty<K(!new), V>(): (d: Dict<K, V>)
    ensures d.Valid() && d.items == map[] && d.keys == []
  {
    Dict([], map[])
  }
}
