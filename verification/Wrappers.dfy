/** Stand-ins for `T | undefined`, and for JavaScript's notion of a truthy value. */
module Wrappers {

  datatype Option<+T> = None | Some(value: T)

  /** A string counts as true unless it is absent or empty. */
  predicate Truthy(o: Option<string>) {
    o.Some? && o.value != ""
  }

  /** `m[key]` on an object that may lack the key. */
  function Lookup<K, V>(m: map<K, V>, key: K): Option<V> {
    if key in m then Some(m[key]) else None
  }

  /** `value || ''` */
  function OrEmpty(o: Option<string>): string {
    if o.Some? then o.value else ""
  }
}
