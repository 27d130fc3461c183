/** The absent-value sentinel: a guarded read of a missing key yields `None`
    (JavaScript's `undefined`). */
module Wrappers {

  datatype Option<+T> = None | Some(value: T)

  /** A plain dictionary read: the value if the key is an own property. */
  function Lookup<K, V>(m: map<K, V>, k: K): (r: Option<V>)
    ensures r.Some? <==> k in m
    ensures r.Some? ==> r.value == m[k]
  {
    if k in m then Some(m[k]) else None
  }
}
