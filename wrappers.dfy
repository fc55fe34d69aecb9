/** Failure-compatible wrappers shared by every module of the model. */
module Wrappers {

  /** An optional value: `None` stands for Python's `None` and JavaScript's `undefined`/`null`. */
  datatype Option<+T> = None | Some(value: T) {
    function GetOr(default: T): T {
      match this
      case Some(v) => v
      case None => default
    }
  }

  /** The outcome of an operation that may raise or throw `E`. */
  datatype Result<+R, +E> = Success(value: R) | Failure(error: E)

  /** A dictionary read that may miss: Python's `d.get(key)`. */
  function Lookup<K, V>(m: map<K, V>, key: K): (r: Option<V>)
    ensures r.Some? <==> key in m
    ensures r.Some? ==> r.value == m[key]
  {
    if key in m then Some(m[key]) else None
  }
}
