/** An optional value, for Go's nil results, missing map entries and error returns. */
module Options {

  datatype Option<+T> = None | Some(value: T)

  /** The Go lookup `m[k]` that reports whether the key is there. */
  function Lookup<K, V>(m: map<K, V>, k: K): (r: Option<V>)
    ensures r.Some? <==> k in m
  {
    if k in m then Some(m[k]) else None
  }

  /** Two maps that look the same at every key are the same. */
  lemma {:induction false} SameMap<K(!new), V>(a: map<K, V>, b: map<K, V>)
    requires forall k :: Lookup(a, k) == Lookup(b, k)
    ensures a == b
  {
    forall k | k in a ensures k in b && a[k] == b[k] { assert Lookup(a, k) == Lookup(b, k); }
    forall k | k in b ensures k in a { assert Lookup(a, k) == Lookup(b, k); }
  }
}
