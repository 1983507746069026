/** Optional values and dictionary lookups shared by every module. */
module Wrappers {

  datatype Option<+T> = None | Some(value: T)

  /** `d.get(k)`: the value under `k`, or nothing. */
  function Get<K, V>(m: map<K, V>, k: K): (r: Option<V>)
    ensures r.Some? <==> k in m
    ensures r.Some? ==> r.value == m[k]
  {
    if k in m then Some(m[k]) else None
  }

  /** `d.get(k, default)`. */
  function GetOr<K, V>(m: map<K, V>, k: K, default: V): (r: V)
    ensures k in m ==> r == m[k]
    ensures k !in m ==> r == default
  {
    if k in m then m[k] else default
  }
}
