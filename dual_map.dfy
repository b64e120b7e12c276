/**
  The one-key-to-many-values map used as the version index: each key owns a list of
  strings, and `put` appends to the key's list, creating it when the key is new.
  The repository carries this class twice with the same `put` (the package copy and a
  stray top-level copy); both are modelled by `DualMap.Put`.
*/
module DualMaps {

  /** The index after appending `value` to the list under `key`. */
  function Appended<K(!new)>(m: map<K, seq<string>>, key: K, value: string): (r: map<K, seq<string>>)
    ensures key !in m ==> key in r && r[key] == [value]
    ensures key in m ==> key in r && r[key] == m[key] + [value]
    ensures forall k :: k != key ==> (k in r <==> k in m)
    ensures forall k :: k != key && k in m ==> r[k] == m[k]
  {
    m[key := (if key in m then m[key] else []) + [value]]
  }

  /** The number of values stored under all keys together. */
  ghost function TotalValues<K>(m: map<K, seq<string>>): nat
    decreases |m|
  {
    if m == map[] then 0
    else
      var k :| k in m;
      |m[k]| + TotalValues(m - {k})
  }

  /** Any key may be taken out first when counting the stored values. */
  lemma {:induction false} TotalValuesSplit<K>(m: map<K, seq<string>>, key: K)
    requires key in m
    ensures TotalValues(m) == |m[key]| + TotalValues(m - {key})
    decreases |m|
  {
    var k :| k in m && TotalValues(m) == |m[k]| + TotalValues(m - {k});
    if k != key {
      var rest := m - {k};
      assert key in rest;
      TotalValuesSplit(rest, key);
      assert rest - {key} == (m - {key}) - {k};
      assert k in m - {key};
      TotalValuesSplit(m - {key}, k);
    }
  }

  /** A put adds exactly one value to the whole index, whether or not its key was new. */
  lemma {:induction false} PutAddsOneValue<K(!new)>(m: map<K, seq<string>>, key: K, value: string)
    ensures TotalValues(Appended(m, key, value)) == TotalValues(m) + 1
  {
    var r := Appended(m, key, value);
    TotalValuesSplit(r, key);
    if key in m {
      assert r - {key} == m - {key};
      TotalValuesSplit(m, key);
    } else {
      assert r - {key} == m;
    }
  }

  /** A put grows the key set by the put key and nothing else, so by at most one. */
  lemma PutKeys<K(!new)>(m: map<K, seq<string>>, key: K, value: string)
    ensures Appended(m, key, value).Keys == m.Keys + {key}
    ensures |Appended(m, key, value).Keys| <= |m.Keys| + 1
  {
    var r := Appended(m, key, value);
    assert r.Keys == m.Keys + {key};
  }

  /** A multimap whose values are lists of strings, updated in place by `Put`. */
  class DualMap<K(==,!new)> {
    var entries: map<K, seq<string>>

    constructor ()
      ensures entries == map[]
    {
      entries := map[];
    }

    /** Appends `value` to the list under `key` and returns that list as it now stands. */
    method Put(key: K, value: string) returns (list: seq<string>)
      modifies this
      ensures entries == Appended(old(entries), key, value)
      ensures list == entries[key]
    {
      var current := if key in entries then entries[key] else [];
      list := current + [value];
      entries := entries[key := list];
    }
  }
}
