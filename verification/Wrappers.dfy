/** The result type shared by the modules of this project. */
module Wrappers {
  datatype Option<+T> = None | Some(value: T)

  /** Map lookup that reports absence instead of demanding presence. */
  function Lookup<K(==), V>(m: map<K, V>, k: K): Option<V> {
    if k in m then Some(m[k]) else None
  }
}
