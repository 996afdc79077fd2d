/** Vocabulary shared by every layer: bytes, keys, values and optional values. */
module Base {

  type byte = x: int | 0 <= x < 256

  type Key = seq<byte>
  type Value = seq<byte>

  datatype Option<+T> = None | Some(value: T)

  datatype Result<+T, +E> = Success(value: T) | Failure(error: E)

  /** What a map-shaped store answers for a key. */
  function Lookup<K, V>(m: map<K, V>, k: K): Option<V> {
    if k in m then Some(m[k]) else None
  }

  /** The store after its binding for `k` becomes `v`; None means "no binding". */
  function Write<K, V>(m: map<K, V>, k: K, v: Option<V>): map<K, V> {
    match v
    case None => m - {k}
    case Some(x) => m[k := x]
  }

  /** Two stores that answer every question alike are the same store. */
  lemma SameAnswers<K(!new), V(!new)>(a: map<K, V>, b: map<K, V>)
    requires forall k :: Lookup(a, k) == Lookup(b, k)
    ensures a == b
  {
    forall k ensures k in a <==> k in b {
      assert Lookup(a, k) == Lookup(b, k);
    }
    forall k | k in a && k in b ensures a[k] == b[k] {
      assert Lookup(a, k) == Lookup(b, k);
    }
  }

  lemma SomeMember<T>(a: set<T>) returns (u: T)
    requires a != {}
    ensures u in a
  {
    u :| u in a;
  }
}
