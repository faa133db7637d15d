// Bytes, digests and the collision disjunct used by every theorem about hashes.
module Hashing {
  newtype Byte = b: int | 0 <= b < 256
  type Bytes = seq<Byte>

  // A SHA-256 digest. The source carries digests as bytes or as lower-case hexadecimal;
  // the two are interchangeable, so the model keeps the bytes.
  type Digest = d: Bytes | |d| == 32 witness seq(32, _ => 0 as Byte)

  // The hash function is a parameter of everything that hashes.
  type HashFn = Bytes -> Digest

  // Two different members of `inputs` share a digest. The set is always the set of strings
  // that the computations at hand really hash, never the set of all strings: over all strings
  // a collision exists for any 32-byte hash, and the disjunct would say nothing.
  ghost predicate CollisionIn(h: HashFn, inputs: set<Bytes>) {
    exists x, y :: Clash(h, inputs, x, y)
  }

  ghost predicate Clash(h: HashFn, inputs: set<Bytes>, x: Bytes, y: Bytes) {
    x in inputs && y in inputs && x != y && h(x) == h(y)
  }

  // Without a collision among the inputs, equal digests mean equal strings, and only then.
  lemma CollisionMeans(h: HashFn, inputs: set<Bytes>)
    ensures !CollisionIn(h, inputs) <==> forall x, y :: x in inputs && y in inputs && h(x) == h(y) ==> x == y
  {
    if !CollisionIn(h, inputs) {
      forall x, y | x in inputs && y in inputs && h(x) == h(y) ensures x == y {
        assert !Clash(h, inputs, x, y);
      }
    }
  }

  ghost predicate Injective<A(!new), B>(f: A -> B) {
    forall x, y :: f(x) == f(y) ==> x == y
  }

  lemma SameDigestSameBytes(h: HashFn, inputs: set<Bytes>, x: Bytes, y: Bytes)
    requires x in inputs && y in inputs && h(x) == h(y)
    requires !CollisionIn(h, inputs)
    ensures x == y
  {
    assert !Clash(h, inputs, x, y);
  }

  // The string an inner tree node hashes: the left digest and then the right one.
  function Join(left: Digest, right: Digest): (r: Bytes)
    ensures |r| == 64 && r[..32] == left && r[32..] == right
  {
    var bytes: Bytes := left;
    bytes + right
  }

  // A concatenation of two digests determines both.
  lemma JoinInjective(a: Digest, b: Digest, c: Digest, d: Digest)
    requires Join(a, b) == Join(c, d)
    ensures a == c && b == d
  {
  }
}
