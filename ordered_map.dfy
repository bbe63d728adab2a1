/**
 * A map that remembers the order in which its keys were first inserted. The Java
 * code iterates HashMaps and LinkedHashMaps; the model fixes that iteration order
 * to first-insertion order so that "first maximum wins" tie-breaks are deterministic.
 */
module OrderedMaps {
  datatype OrderedMap<K(==,!new), V> = OrderedMap(keys: seq<K>, values: map<K, V>) {
    /** Every key appears once in the order, and the order lists exactly the mapped keys. */
    ghost predicate Valid()
    {
      (forall i, j :: 0 <= i < j < |keys| ==> keys[i] != keys[j]) &&
      (forall k :: k in values <==> k in keys)
    }

    function Size(): nat { |keys| }

    /** Map.put: a new key goes to the end of the order; an existing key keeps its place. */
    function Put(k: K, v: V): (m: OrderedMap<K, V>)
      ensures m.values == values[k := v]
      ensures k in values ==> m.keys == keys
      ensures k !in values ==> m.keys == keys + [k]
    {
      if k in values then OrderedMap(keys, values[k := v])
      else OrderedMap(keys + [k], values[k := v])
    }

    /** Map.get with a default for a missing key. */
    function GetOrDefault(k: K, d: V): V
    {
      if k in values then values[k] else d
    }

    /** The values in iteration order. */
    function ValuesInOrder(): (vs: seq<V>)
      requires Valid()
      ensures |vs| == |keys|
      ensures forall i :: 0 <= i < |keys| ==> vs[i] == values[keys[i]]
    {
      seq(|keys|, i requires 0 <= i < |keys| && Valid() => values[keys[i]])
    }
  }

  function Empty<K(==,!new), V>(): (m: OrderedMap<K, V>)
    ensures m.Valid() && m.Size() == 0
  {
    OrderedMap([], map[])
  }

  /** Put keeps the map well formed and adds exactly the new key, if any, to the order. */
  lemma PutValid<K(!new), V>(m: OrderedMap<K, V>, k: K, v: V)
    requires m.Valid()
    ensures m.Put(k, v).Valid()
    ensures m.Put(k, v).Size() == if k in m.values then m.Size() else m.Size() + 1
  {
  }

  /** The map after putting keys[q] := values[q] for q = 0..n-1 in order, starting empty. */
  function PutAll<K(!new), V>(keys: seq<K>, values: seq<V>, n: nat): (m: OrderedMap<K, V>)
    requires n <= |keys| && n <= |values|
    ensures m.Valid()
  {
    if n == 0 then Empty()
    else
      var prev := PutAll(keys, values, n - 1);
      PutValid(prev, keys[n - 1], values[n - 1]);
      prev.Put(keys[n - 1], values[n - 1])
  }

  /** Every key put is present, and the map holds nothing else. */
  lemma {:induction false} PutAllKeys<K(!new), V>(keys: seq<K>, values: seq<V>, n: nat)
    requires n <= |keys| && n <= |values|
    ensures forall k :: k in PutAll(keys, values, n).values <==> k in keys[..n]
  {
    if n > 0 {
      PutAllKeys(keys, values, n - 1);
      assert keys[..n] == keys[..n - 1] + [keys[n - 1]];
    }
  }

  /** A key holds the value of its last put. */
  lemma {:induction false} PutAllLastWins<K(!new), V>(keys: seq<K>, values: seq<V>, n: nat, q: nat)
    requires q < n <= |keys| && n <= |values|
    requires forall r :: q < r < n ==> keys[r] != keys[q]
    ensures keys[q] in PutAll(keys, values, n).values && PutAll(keys, values, n).values[keys[q]] == values[q]
  {
    if q < n - 1 {
      PutAllLastWins(keys, values, n - 1, q);
    }
  }

  /** Every entry holds the value of some put of its key. */
  lemma {:induction false} PutAllFrom<K(!new), V>(keys: seq<K>, values: seq<V>, n: nat, k: K)
    requires n <= |keys| && n <= |values|
    requires k in PutAll(keys, values, n).values
    ensures exists q :: 0 <= q < n && keys[q] == k && PutAll(keys, values, n).values[k] == values[q]
  {
    if keys[n - 1] != k {
      PutAllFrom(keys, values, n - 1, k);
    }
  }
}
