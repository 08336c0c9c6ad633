/** A value that may be absent: a zero time, a nil pointer, a missing file or key. */
module Options {
  datatype Option<+T> = None | Some(value: T) {
    function GetOr(d: T): T {
      if Some? then value else d
    }
  }

  function Get<K, V>(m: map<K, V>, k: K): Option<V> {
    if k in m then Some(m[k]) else None
  }
}
