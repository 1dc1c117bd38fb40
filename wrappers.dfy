/** The optional value used throughout the model: `None` stands for JavaScript's
    `undefined` (a missing dictionary entry, a failed `find`) and for a promise
    that never settles. */
module Wrappers {

  datatype Option<+T> = None | Some(value: T)

  /** Reads a dictionary entry the way JavaScript does: a missing key yields `undefined`. */
  function Get<K, V>(m: map<K, V>, k: K): (r: Option<V>)
    ensures r.Some? <==> k in m
    ensures k in m ==> r.value == m[k]
  {
    if k in m then Some(m[k]) else None
  }
}
