/** Small helpers shared by the modules of this model. */
module Common {

  datatype Option<+T> = None | Some(value: T)

  function Min(a: int, b: int): int
  {
    if a < b then a else b
  }

  /** The value stored under `k`, if any. */
  function Lookup<K, V>(m: map<K, V>, k: K): Option<V>
  {
    if k in m then Some(m[k]) else None
  }

  lemma AppendAssoc<T>(a: seq<T>, b: seq<T>, c: seq<T>)
    ensures a + (b + c) == (a + b) + c
  {
  }
}
