// Python's insertion-ordered `dict`: the key order plus the mapping.
module Dicts {

  datatype Dict<K(==, !new), V> = Dict(keys: seq<K>, m: map<K, V>)

  ghost predicate Distinct<K>(s: seq<K>) {
    forall i, j :: 0 <= i < j < |s| ==> s[i] != s[j]
  }

  /** The key order lists every key of the mapping exactly once. */
  ghost predicate Valid<K(!new), V>(d: Dict<K, V>) {
    Distinct(d.keys) && forall k :: k in d.m <==> k in d.keys
  }

  function Empty<K(==, !new), V>(): (d: Dict<K, V>)
    ensures Valid(d) && d.m == map[]
  {
    Dict([], map[])
  }

  /** `d.get(k, default)` */
  function Get<K(==, !new), V>(d: Dict<K, V>, k: K, default: V): V {
    if k in d.m then d.m[k] else default
  }

  /** `d[k] = v`: an existing key keeps its position, a new key goes last. */
  function Put<K(==, !new), V>(d: Dict<K, V>, k: K, v: V): (r: Dict<K, V>)
    ensures Valid(d) ==> Valid(r)
    ensures r.m == d.m[k := v]
    ensures r.keys == if k in d.m then d.keys else d.keys + [k]
  {
    Dict(if k in d.m then d.keys else d.keys + [k], d.m[k := v])
  }
}
