/**
 * PHP arrays used as dictionaries: each key once, entries iterated in the
 * order their keys were first inserted. Assigning to an existing key
 * replaces its value in place; assigning to a new key appends it.
 */
module PhpArrays {

  datatype OrderedArray<K(==), V> = OrderedArray(keys: seq<K>, entries: map<K, V>)
  {
    ghost predicate Valid()
    {
      && (forall i, j :: 0 <= i < j < |keys| ==> keys[i] != keys[j])
      && (forall k | k in entries :: k in keys)
      && (forall i | 0 <= i < |keys| :: keys[i] in entries)
    }

    /** `$array[$k] = $v`. */
    function Set(k: K, v: V): (r: OrderedArray<K, V>)
      requires Valid()
      ensures r.Valid()
      ensures r.entries == entries[k := v]
      ensures r.keys == if k in entries then keys else keys + [k]
    {
      if k in entries then OrderedArray(keys, entries[k := v])
      else OrderedArray(keys + [k], entries[k := v])
    }

    /** `array_values($array)`: the values in iteration order. */
    function Values(): (r: seq<V>)
      requires Valid()
      ensures |r| == |keys|
      ensures forall i :: 0 <= i < |keys| ==> r[i] == entries[keys[i]]
    {
      seq(|keys|, i requires 0 <= i < |keys| => entries[keys[i]])
    }
  }

  function Empty<K(==), V>(): (r: OrderedArray<K, V>)
    ensures r.Valid() && r.keys == [] && r.entries == map[]
  {
    OrderedArray([], map[])
  }

  /** A PHP list: the keys 0, 1, ..., |s| - 1 in order. */
  function FromList<V>(s: seq<V>): (r: OrderedArray<int, V>)
    ensures r.Valid()
    ensures r.Values() == s
  {
    var r := OrderedArray(seq(|s|, i => i), map i | 0 <= i < |s| :: s[i]);
    assert forall k | k in r.entries :: k in r.keys by {
      forall k | k in r.entries
        ensures k in r.keys
      {
        assert r.keys[k] == k;
      }
    }
    r
  }

  /** Assigning to an index of a list gives the list with that element replaced. */
  lemma ListSetInside<V>(s: seq<V>, p: int, v: V)
    requires 0 <= p < |s|
    ensures FromList(s).Set(p, v) == FromList(s[p := v])
  {
    var a, b := FromList(s).Set(p, v), FromList(s[p := v]);
    assert a.keys == b.keys;
    assert a.entries == b.entries;
  }

  /** Assigning to a key outside a list appends the value at the end of the
      iteration order, whatever the key. */
  lemma ListSetOutside<V>(s: seq<V>, p: int, v: V)
    requires p < 0 || |s| <= p
    ensures FromList(s).Set(p, v).Values() == s + [v]
  {
    var a := FromList(s).Set(p, v);
    assert a.keys == seq(|s|, i => i) + [p];
    forall i | 0 <= i < |s| + 1
      ensures a.Values()[i] == (s + [v])[i]
    {
      if i < |s| {
        assert a.keys[i] == i;
      }
    }
  }
}
