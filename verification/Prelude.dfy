/** Values that stand for Python's `None` and for raised exceptions. */
module Prelude {
  datatype Option<+T> = None | Some(value: T)

  datatype Result<+T, +E> = Ok(value: T) | Err(error: E)

  /** The later of two updates at one key is the one that shows. */
  lemma Overwritten<K, V>(m: map<K, V>, k: K, first: V, second: V)
    ensures m[k := first][k := second] == m[k := second]
  {
  }

  lemma Without<K, V>(m: map<K, V>, less: map<K, V>, keys: set<K>)
    requires less.Keys == m.Keys - keys && forall k :: k in less ==> less[k] == m[k]
    ensures less == m - keys
  {
  }

  function Min(a: int, b: int): int {
    if a <= b then a else b
  }
}
