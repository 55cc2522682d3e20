/** Python's `dict` as the core uses it: a map that remembers insertion
    order.  Assigning to a present key keeps its position, a new key goes to
    the end, `del` drops the key from the order. */
module Dicts {
  import opened Seqs

  datatype Dict<K(==,!new), V> = Dict(keys: seq<K>, vals: map<K, V>) {

    ghost predicate Valid() {
      Distinct(keys) && (forall k :: k in vals <==> k in keys)
    }

    /** `d[k] = v`. */
    function Put(k: K, v: V): (d: Dict<K, V>)
      ensures Valid() ==> d.Valid()
      ensures k in d.vals && d.vals[k] == v
      ensures forall j :: j != k ==> (j in d.vals <==> j in vals)
      ensures forall j :: j != k && j in vals ==> d.vals[j] == vals[j]
      ensures k in keys ==> d.keys == keys
      ensures k !in keys ==> d.keys == keys + [k]
    {
      var d := Dict(if k in keys then keys else keys + [k], vals[k := v]);
      assert Distinct(keys) && k !in keys ==> Distinct(keys + [k]);
      d
    }

    /** `del d[k]` on a present key. */
    function Delete(k: K): (d: Dict<K, V>)
      ensures Valid() ==> d.Valid()
      ensures k !in d.vals && k !in d.keys
      ensures forall j :: j != k ==> (j in d.vals <==> j in vals)
      ensures forall j :: j != k && j in vals ==> d.vals[j] == vals[j]
      ensures forall i :: Valid() && 0 <= i < |keys| && keys[i] == k ==> d.keys == keys[..i] + keys[i + 1..]
    {
      var d := Dict(Without(keys, k), vals - {k});
      assert Valid() ==> Distinct(d.keys) by {
        if Valid() { WithoutDistinct(keys, k); }
      }
      forall i | Valid() && 0 <= i < |keys| && keys[i] == k ensures d.keys == keys[..i] + keys[i + 1..] {
        WithoutAt(keys, i);
      }
      d
    }

    /** `list(d.values())`: the values in insertion order. */
    function Values(): (r: seq<V>)
      requires Valid()
      ensures |r| == |keys|
      ensures forall i :: 0 <= i < |keys| ==> r[i] == vals[keys[i]]
    {
      seq(|keys|, i requires 0 <= i < |keys| && Valid() => vals[keys[i]])
    }
  }

  function Empty<K(==,!new), V>(): (d: Dict<K, V>)
    ensures d.Valid() && d.keys == [] && d.vals == map[]
  {
    Dict([], map[])
  }

  /** `len(d)`: the length of the key order is the size of the map. */
  lemma SizeIsKeyCount<K(!new), V>(d: Dict<K, V>)
    requires d.Valid()
    ensures |d.vals| == |d.keys|
  {
    DistinctCard(d.keys);
    assert d.vals.Keys == set x | x in d.keys;
  }
}
