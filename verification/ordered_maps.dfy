/** Python's `dict` as the loader uses it: a finite map that remembers the order in which
    its keys were first inserted. Assigning to an existing key replaces the value in place
    and keeps the key's position; a new key goes to the end. */
module OrderedMaps {
  import opened Results
  import opened Sequences

  datatype OrdMap<K, V> = OrdMap(keys: seq<K>, entries: map<K, V>)

  /** The key sequence lists every key of the map exactly once: its keys are distinct keys of
      the map and there are as many of them as the map has keys (`ListsEveryKey` draws the
      consequence that no key of the map is missing from the sequence). */
  ghost predicate Valid<K, V>(t: OrdMap<K, V>)
  {
    && (forall i, j :: 0 <= i < j < |t.keys| ==> t.keys[i] != t.keys[j])
    && (forall i :: 0 <= i < |t.keys| ==> t.keys[i] in t.entries)
    && |t.keys| == |t.entries|
  }

  /** `{}` */
  function Empty<K, V>(): (e: OrdMap<K, V>)
    ensures Valid(e)
    ensures e.entries == map[] && e.keys == []
  {
    OrdMap([], map[])
  }

  /** `t.get(k)`: the value at `k`, or `None` when `k` is absent. */
  function Get<K, V>(t: OrdMap<K, V>, k: K): Option<V>
  {
    if k in t.entries then Some(t.entries[k]) else None
  }

  /** `t[k] = v`. The result maps `k` to `v` and agrees with `t` on every other key; the
      existing keys keep their order and only a key that was absent is appended. */
  function Put<K(!new), V>(t: OrdMap<K, V>, k: K, v: V): (r: OrdMap<K, V>)
    requires Valid(t)
    ensures Valid(r)
    ensures Get(r, k) == Some(v)
    ensures forall k' :: k' != k ==> Get(r, k') == Get(t, k')
    ensures |t.keys| <= |r.keys| && r.keys[..|t.keys|] == t.keys
    ensures k in t.entries ==> r.keys == t.keys
    ensures k !in t.entries ==> r.keys == t.keys + [k]
  {
    if k in t.entries then OrdMap(t.keys, t.entries[k := v])
    else OrdMap(t.keys + [k], t.entries[k := v])
  }

  /** Position of a key in the insertion order. */
  function IndexOf<K, V>(t: OrdMap<K, V>, k: K): (i: nat)
    requires Valid(t) && k in t.entries
    ensures i < |t.keys| && t.keys[i] == k
  {
    ListsEveryKey(t, k);
    FirstIndex(t.keys, k)
  }

  /** A sequence of distinct elements of `s` is no longer than `s` has elements. */
  lemma {:induction false} DistinctWithin<T>(xs: seq<T>, s: set<T>)
    requires forall i, j :: 0 <= i < j < |xs| ==> xs[i] != xs[j]
    requires forall i :: 0 <= i < |xs| ==> xs[i] in s
    ensures |xs| <= |s|
    decreases |xs|
  {
    if |xs| > 0 {
      var rest := xs[1..];
      forall i | 0 <= i < |rest| ensures rest[i] in s - {xs[0]} {
        assert rest[i] == xs[i + 1];
      }
      DistinctWithin(rest, s - {xs[0]});
    }
  }

  /** Every key of a valid map appears in its key sequence. */
  lemma ListsEveryKey<K, V>(t: OrdMap<K, V>, k: K)
    requires Valid(t) && k in t.entries
    ensures k in t.keys
  {
    if k !in t.keys {
      DistinctWithin(t.keys, t.entries.Keys - {k});
    }
  }
}
