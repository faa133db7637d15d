// Append-only chains in which every link carries the hash of the one before.
module HashChain {
  import opened Outcomes
  import opened Hashing

  datatype Link<B> = Link(body: B, previous: Option<Digest>, hash: Digest)

  // Encodes what a link hashes: its body together with the hash it continues.
  type LinkEncoder<!B> = (B, Option<Digest>) -> Bytes

  function LastHash<B>(chain: seq<Link<B>>): Option<Digest> {
    if chain == [] then None else Some(chain[|chain| - 1].hash)
  }

  function Sealed<B>(h: HashFn, enc: LinkEncoder<B>, chain: seq<Link<B>>, body: B): Link<B> {
    Link(body, LastHash(chain), h(enc(body, LastHash(chain))))
  }

  // Position `i` continues the link before it and carries its own hash.
  ghost predicate Holds<B>(h: HashFn, enc: LinkEncoder<B>, chain: seq<Link<B>>, i: nat)
    requires i < |chain|
  {
    && chain[i].previous == LastHash(chain[..i])
    && chain[i].hash == h(enc(chain[i].body, chain[i].previous))
  }

  ghost predicate ValidChain<B>(h: HashFn, enc: LinkEncoder<B>, chain: seq<Link<B>>) {
    forall i: nat :: i < |chain| ==> Holds(h, enc, chain, i)
  }

  lemma SealedStaysValid<B>(h: HashFn, enc: LinkEncoder<B>, chain: seq<Link<B>>, body: B)
    requires ValidChain(h, enc, chain)
    ensures ValidChain(h, enc, chain + [Sealed(h, enc, chain, body)])
  {
    var longer := chain + [Sealed(h, enc, chain, body)];
    forall i: nat | i < |longer| ensures Holds(h, enc, longer, i) {
      assert longer[..i] == chain[..i];
      if i < |chain| {
        assert Holds(h, enc, chain, i);
      } else {
        assert chain[..i] == chain;
      }
    }
  }

  lemma PrefixIsValid<B>(h: HashFn, enc: LinkEncoder<B>, chain: seq<Link<B>>, n: nat)
    requires ValidChain(h, enc, chain) && n <= |chain|
    ensures ValidChain(h, enc, chain[..n])
  {
    forall i: nat | i < n ensures Holds(h, enc, chain[..n], i) {
      assert Holds(h, enc, chain, i);
      assert chain[..n][..i] == chain[..i];
    }
  }

  // What verifying a chain hashes.
  ghost function Hashed<B>(enc: LinkEncoder<B>, chain: seq<Link<B>>): set<Bytes> {
    set i: nat | i < |chain| :: enc(chain[i].body, chain[i].previous)
  }

  ghost predicate InjectiveLinks<B(!new)>(enc: LinkEncoder<B>) {
    forall b, p, c, q :: enc(b, p) == enc(c, q) ==> b == c && p == q
  }

  lemma ShorterHashed<B>(enc: LinkEncoder<B>, chain: seq<Link<B>>)
    requires chain != []
    ensures var last := chain[|chain| - 1];
            Hashed(enc, chain) == Hashed(enc, chain[..|chain| - 1]) + {enc(last.body, last.previous)}
  {
    var init := chain[..|chain| - 1];
    forall x | x in Hashed(enc, chain)
      ensures x in Hashed(enc, init) + {enc(chain[|chain| - 1].body, chain[|chain| - 1].previous)}
    {
      var i: nat :| i < |chain| && enc(chain[i].body, chain[i].previous) == x;
      if i < |init| {
        assert init[i] == chain[i];
      }
    }
    forall x | x in Hashed(enc, init) ensures x in Hashed(enc, chain) {
      var i: nat :| i < |init| && enc(init[i].body, init[i].previous) == x;
      assert init[i] == chain[i];
    }
  }

  // The last hash fixes the whole history: two valid chains that end in the same hash are the same
  // chain, unless two different strings among those they hash collide.
  lemma {:induction false} HeadFixesHistory<B(!new)>(h: HashFn, enc: LinkEncoder<B>, a: seq<Link<B>>, b: seq<Link<B>>)
    requires ValidChain(h, enc, a) && ValidChain(h, enc, b) && InjectiveLinks(enc)
    requires LastHash(a) == LastHash(b)
    ensures a == b || CollisionIn(h, Hashed(enc, a) + Hashed(enc, b))
  {
    var hashed := Hashed(enc, a) + Hashed(enc, b);
    if a != [] && !CollisionIn(h, hashed) {
      SameChain(h, enc, a, b, hashed);
    }
  }

  lemma {:induction false} SameChain<B(!new)>(h: HashFn, enc: LinkEncoder<B>, a: seq<Link<B>>, b: seq<Link<B>>,
      hashed: set<Bytes>)
    requires ValidChain(h, enc, a) && ValidChain(h, enc, b) && InjectiveLinks(enc)
    requires LastHash(a) == LastHash(b)
    requires Hashed(enc, a) <= hashed && Hashed(enc, b) <= hashed && !CollisionIn(h, hashed)
    ensures a == b
  {
    if a != [] {
      var m, n := |a| - 1, |b| - 1;
      assert Holds(h, enc, a, m) && Holds(h, enc, b, n);
      ShorterHashed(enc, a);
      ShorterHashed(enc, b);
      SameDigestSameBytes(h, hashed, enc(a[m].body, a[m].previous), enc(b[n].body, b[n].previous));
      assert a[m] == b[n];
      PrefixIsValid(h, enc, a, m);
      PrefixIsValid(h, enc, b, n);
      hide Hashed, ValidChain, CollisionIn;
      SameChain(h, enc, a[..m], b[..n], hashed);
      assert a == a[..m] + [a[m]] && b == b[..n] + [b[n]];
    }
  }
}
