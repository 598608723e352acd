/** A Python `dict`: a finite map that remembers the order in which keys were
    first inserted. Assigning to a key that is already present replaces its
    value and keeps its position. */
module OrderedMap {
  import opened Wrappers

  predicate Distinct<T(==)>(s: seq<T>) {
    forall i, j :: 0 <= i < j < |s| ==> s[i] != s[j]
  }

  /** A distinct sequence has as many elements as its set. */
  lemma {:induction false} DistinctCard<T>(s: seq<T>)
    requires Distinct(s)
    ensures |set x | x in s| == |s|
  {
    if |s| > 0 {
      var t := s[1..];
      assert Distinct(t);
      DistinctCard(t);
      assert (set x | x in s) == (set x | x in t) + {s[0]};
      assert s[0] !in t;
    }
  }

  datatype OMap<K(==), V> = OMap(keys: seq<K>, values: map<K, V>) {

    /** The key list holds each key of the map exactly once. */
    predicate Valid() {
      && Distinct(keys)
      && values.Keys == (set k | k in keys)
    }

    function Size(): nat {
      |keys|
    }

    function Get(k: K): Option<V> {
      if k in values then Some(values[k]) else None
    }

    /** `d[k] = v`. */
    function Put(k: K, v: V): (m: OMap<K, V>)
      requires Valid()
      ensures m.Valid()
      ensures m.values == values[k := v]
      ensures k in keys ==> m.keys == keys
      ensures k !in keys ==> m.keys == keys + [k]
    {
      if k in keys then OMap(keys, values[k := v])
      else OMap(keys + [k], values[k := v])
    }

    /** The values in key order, `list(d.values())`. */
    function Values(): (vs: seq<V>)
      requires Valid()
      ensures |vs| == |keys|
      ensures forall i :: 0 <= i < |keys| ==> vs[i] == values[keys[i]]
    {
      seq(|keys|, i requires 0 <= i < |keys| && Valid() => values[keys[i]])
    }
  }

  function Empty<K(==), V>(): (m: OMap<K, V>)
    ensures m.Valid() && m.Size() == 0
  {
    OMap([], map[])
  }

  /** Putting a key changes that key only, and a fresh key goes last. */
  lemma PutOthersUnchanged<K, V>(m: OMap<K, V>, k: K, v: V, other: K)
    requires m.Valid() && other != k
    ensures m.Put(k, v).Get(other) == m.Get(other)
    ensures m.Put(k, v).Get(k) == Some(v)
  {
  }
}
