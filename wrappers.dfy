/** The optional value used throughout the model, the counterpart of Rust's `Option`. */
module Wrappers {

  datatype Option<+T> = None | Some(value: T)

  /** `m.get(k).cloned()` for a map. */
  function Get<K, V>(m: map<K, V>, k: K): (r: Option<V>)
  {
    if k in m then Some(m[k]) else None
  }

  /** `m.get(k)` falling back to the default value, as `entry(k).or_default()` reads it. */
  function GetOrDefault<K, V>(m: map<K, V>, k: K, dflt: V): (r: V)
  {
    if k in m then m[k] else dflt
  }
}
