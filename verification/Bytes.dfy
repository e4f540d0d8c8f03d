/** Byte strings and their lexicographic order (bytes.Compare). */
module Bytes {
  type byte = x: int | 0 <= x < 256

  type Bytes = seq<byte>

  predicate Lt(a: Bytes, b: Bytes)
    decreases |a|
  {
    if b == [] then false
    else if a == [] then true
    else a[0] < b[0] || (a[0] == b[0] && Lt(a[1..], b[1..]))
  }

  predicate Le(a: Bytes, b: Bytes) {
    a == b || Lt(a, b)
  }

  lemma {:induction false} LtIrreflexive(a: Bytes)
    ensures !Lt(a, a)
    decreases |a|
  {
    if a != [] { LtIrreflexive(a[1..]); }
  }

  lemma {:induction false} LtTransitive(a: Bytes, b: Bytes, c: Bytes)
    requires Lt(a, b) && Lt(b, c)
    ensures Lt(a, c)
    decreases |a|
  {
    if a != [] && a[0] == b[0] && b[0] == c[0] { LtTransitive(a[1..], b[1..], c[1..]); }
  }

  lemma {:induction false} LtTotal(a: Bytes, b: Bytes)
    ensures a == b || Lt(a, b) || Lt(b, a)
    decreases |a|
  {
    if a != [] && b != [] && a[0] == b[0] {
      LtTotal(a[1..], b[1..]);
      assert a == [a[0]] + a[1..] && b == [b[0]] + b[1..];
    }
  }

  /** A strict total order with the empty string least. */
  lemma LtOrder()
    ensures forall a :: !Lt(a, a)
    ensures forall a, b, c :: Lt(a, b) && Lt(b, c) ==> Lt(a, c)
    ensures forall a, b :: a == b || Lt(a, b) || Lt(b, a)
    ensures forall a :: !Lt(a, [])
  {
    forall a ensures !Lt(a, a) { LtIrreflexive(a); }
    forall a, b, c | Lt(a, b) && Lt(b, c) ensures Lt(a, c) { LtTransitive(a, b, c); }
    forall a, b ensures a == b || Lt(a, b) || Lt(b, a) { LtTotal(a, b); }
  }

  /** Comparison behind a common prefix, and of strings of equal length put in front. */
  lemma {:induction false} LtSamePrefix(p: Bytes, a: Bytes, b: Bytes)
    ensures Lt(p + a, p + b) <==> Lt(a, b)
    decreases |p|
  {
    if p == [] {
      assert p + a == a && p + b == b;
    } else {
      assert (p + a)[1..] == p[1..] + a && (p + b)[1..] == p[1..] + b;
      LtSamePrefix(p[1..], a, b);
    }
  }

  lemma {:induction false} LtFirstDecides(p: Bytes, q: Bytes, a: Bytes, b: Bytes)
    requires |p| == |q| && p != q
    ensures Lt(p + a, q + b) <==> Lt(p, q)
    decreases |p|
  {
    assert (p + a)[1..] == p[1..] + a && (q + b)[1..] == q[1..] + b;
    assert p == [p[0]] + p[1..] && q == [q[0]] + q[1..];
    if p[0] == q[0] { LtFirstDecides(p[1..], q[1..], a, b); }
  }

  /** Of strings of equal length the last byte decides last. */
  lemma {:induction false} LtAppend(x: Bytes, a: byte, y: Bytes, b: byte)
    requires |x| == |y|
    ensures Lt(x + [a], y + [b]) <==> Lt(x, y) || (x == y && a < b)
    decreases |x|
  {
    if x != [] {
      assert (x + [a])[1..] == x[1..] + [a] && (y + [b])[1..] == y[1..] + [b];
      assert x == [x[0]] + x[1..] && y == [y[0]] + y[1..];
      LtAppend(x[1..], a, y[1..], b);
    }
  }
}
