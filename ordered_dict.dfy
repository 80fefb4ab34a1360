/** Python's `collections.OrderedDict`, as far as the specifications reader
    uses it: item assignment and iteration over the keys in insertion order. */
module OrderedDicts {

  /** The keys in the order they were first inserted, and the key-value mapping. */
  datatype OrderedDict<K(==), V> = OrderedDict(keys: seq<K>, entries: map<K, V>) {

    /** Each key is listed once, and the listed keys are exactly the mapped ones. */
    ghost predicate Valid() {
      && (forall i, j :: 0 <= i < j < |keys| ==> keys[i] != keys[j])
      && entries.Keys == set k | k in keys
    }

    /** `d[k] = v`: the value is replaced; a key that is already present keeps
        its place in the order, a new key goes last. */
    function Set(k: K, v: V): (d: OrderedDict<K, V>)
      requires Valid()
      ensures d.Valid()
      ensures d.entries == entries[k := v]
      ensures k in entries ==> d.keys == keys
      ensures k !in entries ==> d.keys == keys + [k]
    {
      OrderedDict(if k in entries then keys else keys + [k], entries[k := v])
    }
  }

  /** `OrderedDict()` */
  function EmptyDict<K(==), V>(): (d: OrderedDict<K, V>)
    ensures d.Valid() && d.keys == [] && d.entries == map[]
  {
    OrderedDict([], map[])
  }
}
