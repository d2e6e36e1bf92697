/** Option and Result, shared by every module of the model. */
module Wrappers {

  datatype Option<+T> = None | Some(value: T) {
    function GetOr(default: T): T {
      match this
      case Some(v) => v
      case None => default
    }
  }

  /** A value, or what a thrown exception carries. */
  datatype Result<+T, +E> = Ok(value: T) | Err(error: E)

  /** Map lookup that tells a missing key apart, as JavaScript's Map.get does. */
  function Get<K, V>(m: map<K, V>, k: K): Option<V> {
    if k in m then Some(m[k]) else None
  }
}
