/** Shared containers: an optional value and Python's insertion-ordered `dict`. */
module Collections {

  datatype Option<+T> = None | Some(value: T)

  ghost predicate Distinct<T>(s: seq<T>) {
    forall i, j | 0 <= i < j < |s| :: s[i] != s[j]
  }

  /** A `dict`: `keys` in insertion order, each key bound in `items`. */
  datatype DictRep<K(==,!new), V> = DictRep(keys: seq<K>, items: map<K, V>) {

    ghost predicate Valid() {
      && Distinct(keys)
      && (forall k | k in keys :: k in items)
      && (forall k | k in items :: k in keys)
    }

    /** `d[k] = v`: a key that is already there keeps its place. */
    function Put(k: K, v: V): (d: DictRep<K, V>)
      requires Valid()
      ensures d.Valid() && d.items == items[k := v]
      ensures d.keys == if k in items then keys else keys + [k]
    {
      if k in items then DictRep(keys, items[k := v])
      else DictRep(keys + [k], items[k := v])
    }

    /** `d.pop(k, None)`. */
    function Pop(k: K): (d: DictRep<K, V>)
      requires Valid()
      ensures d.Valid() && d.items == items - {k}
    {
      Without(keys, k);
      DictRep(Drop(keys, k), items - {k})
    }

    /** `list(d.values())`. */
    function Values(): (vs: seq<V>)
      requires Valid()
      ensures |vs| == |keys|
      ensures forall i | 0 <= i < |keys| :: keys[i] in items && vs[i] == items[keys[i]]
    {
      assert forall i | 0 <= i < |keys| :: keys[i] in items;
      seq(|keys|, i requires 0 <= i < |keys| => items[keys[i]])
    }
  }

  type Dict<K(==,!new), V> = d: DictRep<K, V> | d.Valid() witness DictRep([], map[])

  function Drop<K(==,!new)>(keys: seq<K>, k: K): seq<K> {
    if keys == [] then []
    else if keys[0] == k then keys[1..]
    else [keys[0]] + Drop(keys[1..], k)
  }

  lemma {:induction false} Without<K(!new)>(keys: seq<K>, k: K)
    requires Distinct(keys)
    ensures Distinct(Drop(keys, k))
    ensures forall x :: x in Drop(keys, k) <==> x in keys && x != k
  {
    if keys != [] {
      assert keys == [keys[0]] + keys[1..];
      Without(keys[1..], k);
      var t := Drop(keys[1..], k);
      if keys[0] != k {
        assert forall i | 0 <= i < |t| :: t[i] in t && t[i] in keys[1..];
      }
    }
  }
}
