/** The byte-wise order of keys and a rank that embeds it in the reals. */
module Order {
  import opened Base
  import opened Nodes

  /** Lexicographic comparison of byte strings; a proper prefix is smaller. */
  predicate Less(a: Key, b: Key) {
    if b == [] then false
    else if a == [] then true
    else a[0] < b[0] || (a[0] == b[0] && Less(a[1..], b[1..]))
  }

  /** Read the key as digits 1..256 behind the point, base 257. */
  function ByteRank(k: Key): (r: real)
    ensures 0.0 <= r < 1.0
    ensures r > 0.0 <==> k != []
  {
    if k == [] then 0.0 else Shifted(k[0], ByteRank(k[1..]))
  }

  function Shifted(digit: byte, rest: real): (r: real)
    requires 0.0 <= rest < 1.0
    ensures 0.0 < r < 1.0
  {
    (digit as real + 1.0 + rest) / 257.0
  }

  /** The first digit decides unless it is equal. */
  lemma Leading(m: byte, x: real, n: byte, y: real)
    requires 0.0 <= x < 1.0 && 0.0 <= y < 1.0
    ensures Shifted(m, x) < Shifted(n, y) <==> m < n || (m == n && x < y)
    ensures Shifted(m, x) == Shifted(n, y) <==> m == n && x == y
  {
    var p, q := m as real + 1.0 + x, n as real + 1.0 + y;
    assert p < q <==> p / 257.0 < q / 257.0;
    if m < n { assert m as real + 1.0 <= n as real; }
    if n < m { assert n as real + 1.0 <= m as real; }
  }

  lemma {:induction false} RankKeepsOrder(a: Key, b: Key)
    ensures Less(a, b) <==> ByteRank(a) < ByteRank(b)
    decreases |a|
  {
    hide Shifted;
    if a != [] && b != [] {
      RankKeepsOrder(a[1..], b[1..]);
      Leading(a[0], ByteRank(a[1..]), b[0], ByteRank(b[1..]));
    }
  }

  lemma {:induction false} RankIsInjective(a: Key, b: Key)
    requires ByteRank(a) == ByteRank(b)
    ensures a == b
    decreases |a|
  {
    hide Shifted;
    if a != [] && b != [] {
      Leading(a[0], ByteRank(a[1..]), b[0], ByteRank(b[1..]));
      RankIsInjective(a[1..], b[1..]);
      assert a == [a[0]] + a[1..] && b == [b[0]] + b[1..];
    }
  }

  /** The byte order is an order the tree can be built on. */
  lemma BytesAreOrdered()
    ensures Ordered(ByteRank)
  {
    forall a, b | ByteRank(a) == ByteRank(b) ensures a == b { RankIsInjective(a, b); }
  }
}
