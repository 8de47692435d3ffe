/** Optional values: a lookup that may miss, a field that may be absent. */
module Wrappers {

  datatype Option<+T> = None | Some(value: T) {

    /** The wrapped value, or `default` when there is none. */
    function GetOr(default: T): T {
      match this
      case Some(v) => v
      case None => default
    }
  }

  /** `m.get(k, default)`: the value under `k`, or `default` when `k` is absent. */
  function Lookup<K, V>(m: map<K, V>, k: K, default: V): V {
    if k in m then m[k] else default
  }
}
