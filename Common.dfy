/** Values shared by every part of the model. */
module Common {

  /** A nullable value (`T?` in the source). */
  datatype Option<+T> = None | Some(value: T)

  /** A `System.Guid`: an opaque 128-bit identifier compared only for equality. */
  newtype Guid = x: int | 0 <= x < 0x1_0000_0000_0000_0000_0000_0000_0000_0000

  /** Looks a key up in a map, giving None when it is absent (a cache miss or a null answer). */
  function Lookup<K, V>(m: map<K, V>, k: K): (r: Option<V>)
    ensures r.Some? <==> k in m
    ensures r.Some? ==> r.value == m[k]
  {
    if k in m then Some(m[k]) else None
  }
}
