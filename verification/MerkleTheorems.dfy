// Binding, soundness, completeness and size of the release Merkle tree.
module MerkleTheorems {
  import opened Outcomes
  import opened Hashing
  import opened Ordering
  import opened Finite
  import opened Merkle

  // ---------------------------------------------------------------- the strings that are hashed

  function Pairs(level: seq<Digest>): set<Bytes>
    requires |level| % 2 == 0
  {
    set i | 0 <= i < |level| / 2 :: Join(level[2 * i], level[2 * i + 1])
  }

  function InnerInputs(h: HashFn, level: seq<Digest>): set<Bytes>
    decreases |level|
  {
    if |level| <= 1 then {} else Pairs(Pad(level)) + InnerInputs(h, Climb(h, level))
  }

  // The text is hashed on the way from the leaves to the top of the tower.
  ghost predicate HashedInTower(levels: seq<seq<Digest>>, x: Bytes) {
    exists k: nat, i: nat :: k + 1 < |levels| && 2 * i < |levels[k]| && x == Neighbours(levels[k], i)
  }

  // The strings hashed for the inner nodes are those of the tower, all of them and no others.
  lemma {:induction false} InnerInputsAreHashed(h: HashFn, leaves: seq<Digest>, levels: seq<seq<Digest>>, root: Digest,
      x: Bytes)
    requires IsTower(h, levels, leaves, root)
    ensures x in InnerInputs(h, leaves) <==> HashedInTower(levels, x)
    decreases |levels|
  {
    if |levels| > 1 {
      assert StandsOn(h, levels, 0);
      var above := levels[1..];
      NextIsClimb(h, leaves, levels[1]);
      forall k: nat | k + 1 < |above| ensures StandsOn(h, above, k) {
        assert StandsOn(h, levels, k + 1);
      }
      InnerInputsAreHashed(h, levels[1], above, root, x);
      PairsAreNeighbours(leaves, x);
      TowerSplits(levels, x);
      hide HashedInTower, Pairs, Pad, Climb, StandsOn;
    }
  }

  lemma NextIsClimb(h: HashFn, level: seq<Digest>, next: seq<Digest>)
    requires |level| > 1 && IsLevelAbove(h, level, next)
    ensures next == Climb(h, level)
  {
    LevelAbove(h, level);
    hide Climb, Neighbours;
  }

  lemma PairsAreNeighbours(level: seq<Digest>, x: Bytes)
    ensures x in Pairs(Pad(level)) <==> exists i: nat :: 2 * i < |level| && x == Neighbours(level, i)
  {
    hide Join;
    forall i: nat | 2 * i < |level| ensures Join(Pad(level)[2 * i], Pad(level)[2 * i + 1]) == Neighbours(level, i) {
      JoinIsConcatenation(Pad(level)[2 * i], Pad(level)[2 * i + 1]);
    }
    if i: nat :| 2 * i < |level| && x == Neighbours(level, i) {
      assert i < |Pad(level)| / 2;
    }
  }

  lemma TowerSplits(levels: seq<seq<Digest>>, x: Bytes)
    requires |levels| > 1
    ensures HashedInTower(levels, x) <==>
            (exists i: nat :: 2 * i < |levels[0]| && x == Neighbours(levels[0], i)) || HashedInTower(levels[1..], x)
  {
    hide Neighbours;
    var above := levels[1..];
    if HashedInTower(levels, x) {
      var k: nat, i: nat :| k + 1 < |levels| && 2 * i < |levels[k]| && x == Neighbours(levels[k], i);
      if k > 0 {
        assert above[k - 1] == levels[k];
      }
    }
    if HashedInTower(above, x) {
      var k: nat, i: nat :| k + 1 < |above| && 2 * i < |above[k]| && x == Neighbours(above[k], i);
      assert levels[k + 1] == above[k];
    }
  }

  function LeafInputs(enc: Encoder, records: seq<Record>): set<Bytes> {
    set r | r in records :: enc(r)
  }

  // Every string hashed while computing the root of `records`.
  function ReleaseInputs(h: HashFn, enc: Encoder, records: seq<Record>): set<Bytes> {
    LeafInputs(enc, records) + NodeInputs(h, enc, records)
  }

  function FoldInputs(h: HashFn, leaf: Digest, steps: seq<Step>): set<Bytes> {
    set i | 0 <= i < |steps| :: JoinStep(FoldTo(h, leaf, steps, i), steps[i])
  }

  // Every string hashed while verifying `bundle`.
  function VerifierInputs(h: HashFn, enc: Encoder, bundle: Bundle): set<Bytes> {
    {enc(bundle.record)} + FoldInputs(h, h(enc(bundle.record)), bundle.proof.steps)
  }

  // A text hashed as a leaf of one computation is also hashed as an inner node of the other, so
  // that the unprefixed tree cannot tell the two apart.
  ghost predicate ReadsAsNode(texts: set<Bytes>, nodes: set<Bytes>) {
    exists x :: x in texts && x in nodes
  }

  // The strings hashed for the inner nodes of a release.
  function NodeInputs(h: HashFn, enc: Encoder, records: seq<Record>): set<Bytes> {
    InnerInputs(h, Leaves(h, enc, Sort(RecordLe, records)))
  }

  // Every inner node hashes 64 bytes, so only a leaf text of that length can be read as one.
  lemma {:induction false} NodesHave64Bytes(h: HashFn, level: seq<Digest>, x: Bytes)
    requires x in InnerInputs(h, level)
    ensures |x| == 64
    decreases |level|
  {
    hide Pairs, Pad, Climb;
    if x in Pairs(Pad(level)) {
      PairsHave64Bytes(Pad(level), x);
    } else {
      ClimbLength(h, level);
      NodesHave64Bytes(h, Climb(h, level), x);
    }
  }

  lemma PairsHave64Bytes(level: seq<Digest>, x: Bytes)
    requires |level| % 2 == 0 && x in Pairs(level)
    ensures |x| == 64
  {
  }

  function Hashed(h: HashFn, texts: seq<Bytes>): seq<Digest> {
    seq(|texts|, i requires 0 <= i < |texts| => h(texts[i]))
  }

  function Encoded<T>(enc: T -> Bytes, items: seq<T>): seq<Bytes> {
    seq(|items|, i requires 0 <= i < |items| => enc(items[i]))
  }

  // ---------------------------------------------------------------- levels

  ghost predicate NoRepeat(level: seq<Digest>) {
    forall i, j :: 0 <= i < j < |level| ==> level[i] != level[j]
  }

  function LevelAt(h: HashFn, level: seq<Digest>, k: nat): seq<Digest>
    decreases k
  {
    if k == 0 then level else LevelAt(h, Climb(h, level), k - 1)
  }

  lemma OneLevelUp(h: HashFn, level: seq<Digest>)
    requires |level| > 1
    ensures 0 < |Climb(h, level)| < |level|
    ensures Root(h, level) == Root(h, Climb(h, level))
    ensures Height(|level|) == 1 + Height(|Climb(h, level)|)
    ensures InnerInputs(h, Climb(h, level)) <= InnerInputs(h, level)
  {
    hide Climb, Root, Height;
    RootAndHeightClimb(h, level);
  }

  lemma PadMembers(level: seq<Digest>, i: nat)
    requires i < |Pad(level)|
    ensures Pad(level)[i] in level
  {
  }

  lemma {:induction false} RootIsTopLevel(h: HashFn, level: seq<Digest>)
    requires level != []
    ensures LevelAt(h, level, Height(|level|)) == [Root(h, level)]
    decreases |level|
  {
    hide Root, Height, Climb;
    if |level| > 1 {
      OneLevelUp(h, level);
      RootIsTopLevel(h, Climb(h, level));
    } else {
      TopLevel(h, level);
    }
  }

  lemma ParentAt(h: HashFn, level: seq<Digest>, i: nat)
    requires |level| > 1 && i < |Climb(h, level)|
    ensures 2 * i < |level| && 2 * i + 1 < |Pad(level)|
    ensures Climb(h, level)[i] == h(Join(Pad(level)[2 * i], Pad(level)[2 * i + 1]))
    ensures Join(Pad(level)[2 * i], Pad(level)[2 * i + 1]) in InnerInputs(h, level)
  {
    assert Join(Pad(level)[2 * i], Pad(level)[2 * i + 1]) in Pairs(Pad(level));
  }

  // Two equal parents have equal children, unless two strings hashed here collide.
  lemma EqualParents(h: HashFn, hashed: set<Bytes>, a: seq<Digest>, i: nat, b: seq<Digest>, j: nat)
    requires |a| > 1 && |b| > 1 && i < |Climb(h, a)| && j < |Climb(h, b)|
    requires InnerInputs(h, a) <= hashed && InnerInputs(h, b) <= hashed && !CollisionIn(h, hashed)
    requires Climb(h, a)[i] == Climb(h, b)[j]
    ensures 2 * i + 1 < |Pad(a)| && 2 * j + 1 < |Pad(b)|
    ensures Pad(a)[2 * i] == Pad(b)[2 * j] && Pad(a)[2 * i + 1] == Pad(b)[2 * j + 1]
  {
    hide InnerInputs, Climb, Join;
    ParentAt(h, a, i);
    ParentAt(h, b, j);
    var p, q := Pad(a), Pad(b);
    SameDigestSameBytes(h, hashed, Join(p[2 * i], p[2 * i + 1]), Join(q[2 * j], q[2 * j + 1]));
    JoinInjective(p[2 * i], p[2 * i + 1], q[2 * j], q[2 * j + 1]);
  }

  lemma ClimbNoRepeat(h: HashFn, hashed: set<Bytes>, level: seq<Digest>)
    requires |level| > 1 && NoRepeat(level)
    requires InnerInputs(h, level) <= hashed && !CollisionIn(h, hashed)
    ensures NoRepeat(Climb(h, level))
  {
    hide InnerInputs, Climb;
    var up := Climb(h, level);
    forall i, j | 0 <= i < j < |up| ensures up[i] != up[j] {
      if up[i] == up[j] {
        EqualParents(h, hashed, level, i, level, j);
        assert false;
      }
    }
  }

  lemma ClimbInjective(h: HashFn, hashed: set<Bytes>, a: seq<Digest>, b: seq<Digest>)
    requires |a| > 1 && |b| > 1 && Climb(h, a) == Climb(h, b)
    requires InnerInputs(h, a) <= hashed && InnerInputs(h, b) <= hashed && !CollisionIn(h, hashed)
    ensures Pad(a) == Pad(b)
  {
    assert |Pad(a)| == 2 * |Climb(h, a)| == |Pad(b)|;
    hide Climb, InnerInputs, Pad;
    forall k | 0 <= k < |Pad(a)| ensures Pad(a)[k] == Pad(b)[k] {
      var i := HalfOf(k);
      EqualParents(h, hashed, a, i, b, i);
    }
  }

  lemma HalfOf(k: nat) returns (i: nat)
    ensures k == 2 * i || k == 2 * i + 1
  {
    i := k / 2;
  }

  // Padding can only be undone one way when nothing repeats.
  lemma PadInjective(a: seq<Digest>, b: seq<Digest>)
    requires Pad(a) == Pad(b) && NoRepeat(a) && NoRepeat(b) && a != [] && b != []
    ensures a == b
  {
    var p := Pad(a);
    assert |a| == |p| || p[|p| - 2] == p[|p| - 1];
    assert |b| == |p| || p[|p| - 2] == p[|p| - 1];
    if |a| == |p| {
      assert a[|a| - 2] == p[|p| - 2] && a[|a| - 1] == p[|p| - 1];
    }
    if |b| == |p| {
      assert b[|b| - 2] == p[|p| - 2] && b[|b| - 1] == p[|p| - 1];
    }
    assert a == p[..|a|] && b == p[..|b|];
  }

  // Trees of one height with one root have the same leaves.
  lemma {:induction false} SameHeightBinding(h: HashFn, hashed: set<Bytes>, a: seq<Digest>, b: seq<Digest>)
    requires a != [] && b != [] && Height(|a|) == Height(|b|)
    requires NoRepeat(a) && NoRepeat(b) && Root(h, a) == Root(h, b)
    requires InnerInputs(h, a) <= hashed && InnerInputs(h, b) <= hashed && !CollisionIn(h, hashed)
    ensures a == b
    decreases |a|
  {
    hide Root, InnerInputs, Climb, NoRepeat, Pad;
    if |a| == 1 && |b| == 1 {
      TopLevel(h, a);
      TopLevel(h, b);
    } else if |a| > 1 && |b| > 1 {
      OneLevelUp(h, a);
      OneLevelUp(h, b);
      var up, up' := Climb(h, a), Climb(h, b);
      ClimbNoRepeat(h, hashed, a);
      ClimbNoRepeat(h, hashed, b);
      SameHeightBinding(h, hashed, up, up');
      ClimbInjective(h, hashed, a, b);
      PadInjective(a, b);
    }
  }

  // ---------------------------------------------------------------- binding

  lemma NonTopIsLong(level: seq<Digest>)
    requires level != [] && Height(|level|) > 0
    ensures |level| > 1
  {
  }

  lemma {:induction false} NoRepeatAt(h: HashFn, hashed: set<Bytes>, level: seq<Digest>, k: nat)
    requires level != [] && k <= Height(|level|) && NoRepeat(level)
    requires InnerInputs(h, level) <= hashed && !CollisionIn(h, hashed)
    ensures var up := LevelAt(h, level, k);
      && up != [] && NoRepeat(up) && InnerInputs(h, up) <= hashed
      && Height(|up|) + k == Height(|level|) && Root(h, up) == Root(h, level)
    decreases k
  {
    hide Root, Height, InnerInputs, Climb, NoRepeat;
    if k > 0 {
      NonTopIsLong(level);
      OneLevelUp(h, level);
      ClimbNoRepeat(h, hashed, level);
      NoRepeatAt(h, hashed, Climb(h, level), k - 1);
    }
  }

  // Above the leaves every digest is that of a 64-byte string.
  lemma {:induction false} AboveLeavesIsJoin(h: HashFn, level: seq<Digest>, k: nat, d: Digest) returns (x: Bytes)
    requires level != [] && 0 < k <= Height(|level|) && d in LevelAt(h, level, k)
    ensures |x| == 64 && h(x) == d && x in InnerInputs(h, level)
    decreases k
  {
    hide Root, Height, InnerInputs, Climb, Pad;
    var up := Climb(h, level);
    NonTopIsLong(level);
    OneLevelUp(h, level);
    if k == 1 {
      assert LevelAt(h, up, 0) == up;
      var i :| 0 <= i < |up| && up[i] == d;
      ParentAt(h, level, i);
      x := Join(Pad(level)[2 * i], Pad(level)[2 * i + 1]);
    } else {
      x := AboveLeavesIsJoin(h, up, k - 1, d);
    }
  }

  lemma HashedNoRepeat(h: HashFn, hashed: set<Bytes>, texts: seq<Bytes>)
    requires NoDuplicates(texts) && Elements(texts) <= hashed && !CollisionIn(h, hashed)
    ensures NoRepeat(Hashed(h, texts))
  {
    hide CollisionIn;
    var leaves := Hashed(h, texts);
    forall i, j | 0 <= i < j < |leaves| ensures leaves[i] != leaves[j] {
      assert texts[i] in hashed && texts[j] in hashed && texts[i] != texts[j];
      if leaves[i] == leaves[j] {
        SameDigestSameBytes(h, hashed, texts[i], texts[j]);
        assert false;
      }
    }
  }

  lemma HashedInjective(h: HashFn, hashed: set<Bytes>, s: seq<Bytes>, t: seq<Bytes>)
    requires Hashed(h, s) == Hashed(h, t)
    requires Elements(s) <= hashed && Elements(t) <= hashed && !CollisionIn(h, hashed)
    ensures s == t
  {
    hide CollisionIn;
    assert |s| == |Hashed(h, s)| == |Hashed(h, t)| == |t|;
    forall i | 0 <= i < |s| ensures s[i] == t[i] {
      assert s[i] in hashed && t[i] in hashed;
      assert Hashed(h, s)[i] == Hashed(h, t)[i];
      SameDigestSameBytes(h, hashed, s[i], t[i]);
    }
  }

  // Two lists of different texts with one root are one list. The shorter tree is compared with
  // the level of the taller one at the same height; were that level above the leaves, a leaf text
  // of the shorter tree would be a pair of digests hashed in the taller one.
  lemma TextBinding(h: HashFn, hashed: set<Bytes>, s: seq<Bytes>, t: seq<Bytes>)
    requires NoDuplicates(s) && NoDuplicates(t) && s != [] && t != []
    requires Height(|s|) <= Height(|t|)
    requires Elements(s) <= hashed && Elements(t) <= hashed
    requires InnerInputs(h, Hashed(h, s)) <= hashed && InnerInputs(h, Hashed(h, t)) <= hashed
    requires Root(h, Hashed(h, s)) == Root(h, Hashed(h, t)) && !CollisionIn(h, hashed)
    requires !ReadsAsNode(Elements(s), InnerInputs(h, Hashed(h, t)))
    ensures s == t
  {
    hide Root, InnerInputs, Height, CollisionIn;
    var ls, lt := Hashed(h, s), Hashed(h, t);
    var k := Height(|t|) - Height(|s|);
    HashedNoRepeat(h, hashed, s);
    HashedNoRepeat(h, hashed, t);
    NoRepeatAt(h, hashed, lt, k);
    SameHeightBinding(h, hashed, ls, LevelAt(h, lt, k));
    assert s[0] in Elements(s) && ls[0] == h(s[0]);
    if k > 0 {
      var x := AboveLeavesIsJoin(h, lt, k, ls[0]);
      SameDigestSameBytes(h, hashed, x, s[0]);
      assert false;
    }
    HashedInjective(h, hashed, s, t);
  }

  // Two lists of different items with one root over their encodings are one list, unless two
  // hashed strings collide or a leaf of one is an inner node of the other.
  lemma ListBinding<T(!new)>(h: HashFn, enc: T -> Bytes, hashed: set<Bytes>, a: seq<T>, b: seq<T>)
    requires Injective(enc) && NoDuplicates(a) && NoDuplicates(b) && a != [] && b != []
    requires var s, t := Encoded(enc, a), Encoded(enc, b);
      && Elements(s) + Elements(t) + InnerInputs(h, Hashed(h, s)) + InnerInputs(h, Hashed(h, t)) <= hashed
      && Root(h, Hashed(h, s)) == Root(h, Hashed(h, t)) && !CollisionIn(h, hashed)
      && !ReadsAsNode(Elements(s), InnerInputs(h, Hashed(h, t)))
      && !ReadsAsNode(Elements(t), InnerInputs(h, Hashed(h, s)))
    ensures a == b
  {
    hide Root, InnerInputs, Height, CollisionIn, ReadsAsNode;
    var s, t := Encoded(enc, a), Encoded(enc, b);
    EncodedNoDuplicates(enc, a);
    EncodedNoDuplicates(enc, b);
    if Height(|s|) <= Height(|t|) {
      TextBinding(h, hashed, s, t);
    } else {
      TextBinding(h, hashed, t, s);
    }
    EncodedInjective(enc, a, b);
  }

  lemma EncodedNoDuplicates<T(!new)>(enc: T -> Bytes, a: seq<T>)
    requires Injective(enc) && NoDuplicates(a)
    ensures NoDuplicates(Encoded(enc, a))
  {
  }

  lemma EncodedInjective<T(!new)>(enc: T -> Bytes, a: seq<T>, b: seq<T>)
    requires Injective(enc) && Encoded(enc, a) == Encoded(enc, b)
    ensures a == b
  {
    assert |a| == |Encoded(enc, a)| == |Encoded(enc, b)| == |b|;
    forall i | 0 <= i < |a| ensures a[i] == b[i] {
      assert Encoded(enc, a)[i] == Encoded(enc, b)[i];
    }
  }

  lemma LeavesAreHashed(h: HashFn, enc: Encoder, ordered: seq<Record>)
    ensures Leaves(h, enc, ordered) == Hashed(h, Encoded(enc, ordered))
    ensures LeafInputs(enc, ordered) == Elements(Encoded(enc, ordered))
    ensures DistinctKeys(ordered) ==> NoDuplicates(ordered)
  {
    var s := Encoded(enc, ordered);
    forall x ensures x in LeafInputs(enc, ordered) <==> x in Elements(s) {
      if x in LeafInputs(enc, ordered) {
        var i :| 0 <= i < |ordered| && enc(ordered[i]) == x;
        assert s[i] == x;
      }
      if x in Elements(s) {
        var i :| 0 <= i < |s| && s[i] == x;
        assert ordered[i] in ordered;
      }
    }
    if DistinctKeys(ordered) {
      forall i, j | 0 <= i < j < |ordered| ensures ordered[i] != ordered[j] {
        assert KeyOf(ordered[i]) != KeyOf(ordered[j]);
      }
    }
  }

  lemma SortedSameInputs(h: HashFn, enc: Encoder, records: seq<Record>)
    ensures LeafInputs(enc, Sort(RecordLe, records)) == LeafInputs(enc, records)
    ensures |Sort(RecordLe, records)| == |records|
    ensures DistinctKeys(records) ==> DistinctKeys(Sort(RecordLe, records))
  {
    SortKeepsLength(records);
    SortKeepsDistinctKeys(records);
  }

  // Distinct keys leave the sort no choice.
  lemma SortOfPermutation(a: seq<Record>, b: seq<Record>)
    requires DistinctKeys(a) && multiset(a) == multiset(b)
    ensures Sort(RecordLe, a) == Sort(RecordLe, b)
  {
    var s, t := Sort(RecordLe, a), Sort(RecordLe, b);
    RecordLeIsTotalPreorder();
    SortProperties(RecordLe, a);
    SortProperties(RecordLe, b);
    SortKeepsDistinctKeys(a);
    assert TieFree(RecordLe, s) by {
      KeyLeIsTotalOrder();
    }
    SortedUnique(RecordLe, s, t);
  }

  // The binding theorem, both directions: lists of any two lengths commit to one root exactly
  // when they hold the same records, or two different strings hashed for the two roots collide,
  // or the encoding of a record of one list is hashed as an inner node of the other.
  lemma MerkleBinding(h: HashFn, enc: Encoder, a: seq<Record>, b: seq<Record>)
    requires Injective(enc)
    requires ReleaseRoot(h, enc, a).Ok? && ReleaseRoot(h, enc, b).Ok?
    ensures
      || (ReleaseRoot(h, enc, a) == ReleaseRoot(h, enc, b) <==> multiset(a) == multiset(b))
      || CollisionIn(h, ReleaseInputs(h, enc, a) + ReleaseInputs(h, enc, b))
      || ReadsAsNode(LeafInputs(enc, a), NodeInputs(h, enc, b))
      || ReadsAsNode(LeafInputs(enc, b), NodeInputs(h, enc, a))
  {
    var hashed := ReleaseInputs(h, enc, a) + ReleaseInputs(h, enc, b);
    if multiset(a) == multiset(b) {
      SortOfPermutation(a, b);
    } else if !CollisionIn(h, hashed)
              && !ReadsAsNode(LeafInputs(enc, a), NodeInputs(h, enc, b))
              && !ReadsAsNode(LeafInputs(enc, b), NodeInputs(h, enc, a)) {
      if ReleaseRoot(h, enc, a) == ReleaseRoot(h, enc, b) {
        OneRootOneList(h, enc, a, b);
      }
    }
  }

  lemma OneRootOneList(h: HashFn, enc: Encoder, a: seq<Record>, b: seq<Record>)
    requires Injective(enc)
    requires ReleaseRoot(h, enc, a).Ok? && ReleaseRoot(h, enc, a) == ReleaseRoot(h, enc, b)
    requires !CollisionIn(h, ReleaseInputs(h, enc, a) + ReleaseInputs(h, enc, b))
    requires !ReadsAsNode(LeafInputs(enc, a), NodeInputs(h, enc, b))
    requires !ReadsAsNode(LeafInputs(enc, b), NodeInputs(h, enc, a))
    ensures multiset(a) == multiset(b)
  {
    hide CollisionIn, ReadsAsNode, LeafInputs, InnerInputs, Leaves, Root, Sort, Injective, DistinctKeys;
    var s, t := Sort(RecordLe, a), Sort(RecordLe, b);
    SortedSameInputs(h, enc, a);
    SortedSameInputs(h, enc, b);
    LeavesAreHashed(h, enc, s);
    LeavesAreHashed(h, enc, t);
    ListBinding(h, enc, ReleaseInputs(h, enc, a) + ReleaseInputs(h, enc, b), s, t);
    RecordLeIsTotalPreorder();
    SortProperties(RecordLe, a);
    SortProperties(RecordLe, b);
  }

  // A list of distinct keys is committed to whatever its order.
  lemma RootIgnoresOrder(h: HashFn, enc: Encoder, a: seq<Record>, b: seq<Record>)
    requires multiset(a) == multiset(b)
    ensures ReleaseRoot(h, enc, a) == ReleaseRoot(h, enc, b)
  {
    DistinctKeysIsBagProperty(a);
    DistinctKeysIsBagProperty(b);
    assert |multiset(a)| == |a| && |multiset(b)| == |b|;
    if DistinctKeys(a) {
      SortOfPermutation(a, b);
    }
  }

  // Why the duplicate-key check is the key step: the tree itself cannot tell an odd level from
  // the same level with its last digest repeated, for any hash function.
  lemma PaddingIsInvisible(h: HashFn, level: seq<Digest>)
    requires |level| > 1 && |level| % 2 == 1
    ensures Root(h, level) == Root(h, level + [level[|level| - 1]])
    ensures level != level + [level[|level| - 1]]
  {
    assert Pad(level) == Pad(level + [level[|level| - 1]]);
  }

  // ---------------------------------------------------------------- soundness

  // A digest in the tree that the verifier computed was computed from a digest one level below,
  // unless it started from the string of an inner node.
  lemma DescendOne(h: HashFn, hashed: set<Bytes>, level: seq<Digest>, start: Bytes, steps: seq<Step>, n: nat)
    requires |level| > 1 && n <= |steps| && FoldTo(h, h(start), steps, n) in Climb(h, level)
    requires InnerInputs(h, level) <= hashed && !CollisionIn(h, hashed) && start !in InnerInputs(h, level)
    requires {start} + FoldInputs(h, h(start), steps) <= hashed
    ensures n > 0 && FoldTo(h, h(start), steps, n - 1) in level
  {
    hide InnerInputs, Climb, Pad;
    var p, up, d := Pad(level), Climb(h, level), FoldTo(h, h(start), steps, n);
    var i :| 0 <= i < |up| && up[i] == d;
    ParentAt(h, level, i);
    var left, right := p[2 * i], p[2 * i + 1];
    PadMembers(level, 2 * i);
    PadMembers(level, 2 * i + 1);
    if n == 0 {
      SameDigestSameBytes(h, hashed, start, Join(left, right));
      assert false;
    }
    var below, last := FoldTo(h, h(start), steps, n - 1), steps[n - 1];
    assert JoinStep(below, last) in FoldInputs(h, h(start), steps);
    SameDigestSameBytes(h, hashed, JoinStep(below, last), Join(left, right));
    if last.side == Left {
      JoinInjective(last.sibling, below, left, right);
    } else {
      JoinInjective(below, last.sibling, left, right);
    }
  }

  lemma {:induction false} Descend(h: HashFn, hashed: set<Bytes>, level: seq<Digest>, k: nat,
                                   start: Bytes, steps: seq<Step>)
    requires level != [] && k <= Height(|level|)
    requires Fold(h, h(start), steps) in LevelAt(h, level, k)
    requires InnerInputs(h, level) <= hashed && !CollisionIn(h, hashed) && start !in InnerInputs(h, level)
    requires {start} + FoldInputs(h, h(start), steps) <= hashed
    ensures k <= |steps| && FoldTo(h, h(start), steps, |steps| - k) in level
    decreases k
  {
    hide Height, InnerInputs, FoldInputs, FoldTo, Climb;
    if k > 0 {
      NonTopIsLong(level);
      OneLevelUp(h, level);
      Descend(h, hashed, Climb(h, level), k - 1, start, steps);
      DescendOne(h, hashed, level, start, steps, |steps| - (k - 1));
    }
  }

  // Inclusion soundness. The verifier never sees the size of the tree, yet whatever it accepts
  // against a release root carries a record of that release, with exactly the tree's height in
  // steps, or a collision is among the strings hashed, or a leaf of one of the two computations
  // is hashed as an inner node of the other.
  lemma InclusionSoundness(h: HashFn, enc: Encoder, records: seq<Record>, bundle: Bundle)
    requires Injective(enc)
    requires ReleaseRoot(h, enc, records) == Ok(bundle.proof.root) && Accepts(h, enc, bundle)
    ensures
      || (bundle.record in records && |bundle.proof.steps| == Height(|records|))
      || CollisionIn(h, ReleaseInputs(h, enc, records) + VerifierInputs(h, enc, bundle))
      || enc(bundle.record) in NodeInputs(h, enc, records)
      || ReadsAsNode(LeafInputs(enc, records), FoldInputs(h, h(enc(bundle.record)), bundle.proof.steps))
  {
    hide CollisionIn, ReadsAsNode, Sort, InnerInputs, LeafInputs, FoldInputs, Leaves, Root, Height;
    var hashed := ReleaseInputs(h, enc, records) + VerifierInputs(h, enc, bundle);
    if !CollisionIn(h, hashed)
       && enc(bundle.record) !in NodeInputs(h, enc, records)
       && !ReadsAsNode(LeafInputs(enc, records), FoldInputs(h, h(enc(bundle.record)), bundle.proof.steps)) {
      var ordered := Sort(RecordLe, records);
      SortedSameInputs(h, enc, records);
      LeavesAreHashed(h, enc, ordered);
      SoundAgainstLeaves(h, hashed, Encoded(enc, ordered), enc(bundle.record), bundle.proof.steps);
      SortKeepsLength(records);
      EncodedMember(enc, ordered, bundle.record);
    }
  }

  lemma EncodedMember<T(!new)>(enc: T -> Bytes, items: seq<T>, item: T)
    requires Injective(enc) && enc(item) in Encoded(enc, items)
    ensures item in items
  {
    var texts := Encoded(enc, items);
    var i :| 0 <= i < |texts| && texts[i] == enc(item);
    assert items[i] == item;
  }

  lemma SoundAgainstLeaves(h: HashFn, hashed: set<Bytes>, texts: seq<Bytes>, start: Bytes, steps: seq<Step>)
    requires texts != [] && start !in InnerInputs(h, Hashed(h, texts))
    requires !ReadsAsNode(Elements(texts), FoldInputs(h, h(start), steps))
    requires Fold(h, h(start), steps) == Root(h, Hashed(h, texts))
    requires InnerInputs(h, Hashed(h, texts)) <= hashed && Elements(texts) <= hashed
    requires {start} + FoldInputs(h, h(start), steps) <= hashed && !CollisionIn(h, hashed)
    ensures start in texts && |steps| == Height(|texts|)
  {
    hide CollisionIn, Climb, Height, InnerInputs, FoldInputs, ReadsAsNode;
    var leaves := Hashed(h, texts);
    RootIsTopLevel(h, leaves);
    assert Fold(h, h(start), steps) in LevelAt(h, leaves, Height(|leaves|));
    hide Fold, LevelAt, Root;
    Descend(h, hashed, leaves, Height(|leaves|), start, steps);
    LeafIsStart(h, hashed, texts, start, steps, |steps| - Height(|leaves|));
  }

  // A digest among the leaves is where the verifier started, not something it computed.
  lemma LeafIsStart(h: HashFn, hashed: set<Bytes>, texts: seq<Bytes>, start: Bytes, steps: seq<Step>, n: nat)
    requires n <= |steps| && FoldTo(h, h(start), steps, n) in Hashed(h, texts)
    requires !ReadsAsNode(Elements(texts), FoldInputs(h, h(start), steps))
    requires Elements(texts) <= hashed && {start} + FoldInputs(h, h(start), steps) <= hashed
    requires !CollisionIn(h, hashed)
    ensures n == 0 && start in texts
  {
    hide CollisionIn;
    var leaves := Hashed(h, texts);
    var i :| 0 <= i < |leaves| && leaves[i] == FoldTo(h, h(start), steps, n);
    assert texts[i] in Elements(texts);
    if n > 0 {
      var last := JoinStep(FoldTo(h, h(start), steps, n - 1), steps[n - 1]);
      assert last in FoldInputs(h, h(start), steps);
      SameDigestSameBytes(h, hashed, texts[i], last);
      assert false;
    }
    SameDigestSameBytes(h, hashed, texts[i], start);
  }

  // The last two cases cannot be dropped: a record encoded as the two leaf digests of a
  // two-record release is accepted with an empty path although the release does not hold it.
  lemma PairLengthRecordIsAccepted(h: HashFn, enc: Encoder, a: Record, b: Record, forged: Record, id: string)
    requires KeyOf(a) != KeyOf(b) && RecordLe(a, b)
    requires enc(forged) == Join(h(enc(a)), h(enc(b)))
    ensures var root := h(enc(forged));
      && ReleaseRoot(h, enc, [a, b]) == Ok(root)
      && Accepts(h, enc, Bundle(forged, Proof(id, root, forged.recordType, forged.recordKey, root, [])))
  {
    var leaves := Leaves(h, enc, [a, b]);
    assert Sort(RecordLe, [a, b]) == [a, b] by {
      assert [a, b][1..] == [b] && Sort(RecordLe, [b]) == [b];
    }
    assert leaves == [h(enc(a)), h(enc(b))];
    assert Climb(h, leaves) == [h(enc(forged))];
    assert Root(h, leaves) == Root(h, Climb(h, leaves)) == h(enc(forged));
  }

  // ---------------------------------------------------------------- completeness and size

  function Pow2(k: nat): nat { if k == 0 then 1 else 2 * Pow2(k - 1) }

  // The height is the ceiling of the base-two logarithm.
  lemma {:induction false} HeightIsCeilLog2(n: nat)
    requires n > 0
    ensures n <= Pow2(Height(n))
    ensures n > 1 ==> Pow2(Height(n) - 1) < n
  {
    if n > 2 {
      HeightIsCeilLog2((n + 1) / 2);
    }
  }

  // A complete bundle for any position of the sorted list is accepted, carries the record asked
  // for, and has ceil(log2 n) steps.
  lemma InclusionCompleteness(h: HashFn, enc: Encoder, records: seq<Record>, index: nat, bundle: Bundle)
    requires DistinctKeys(records) && index < |Sort(RecordLe, records)|
    requires ProvesPosition(h, enc, Sort(RecordLe, records), index, bundle)
    ensures Accepts(h, enc, bundle) && bundle.record in records
    ensures ReleaseRoot(h, enc, records) == Ok(bundle.proof.root)
    ensures |records| <= Pow2(|bundle.proof.steps|)
    ensures |records| > 1 ==> Pow2(|bundle.proof.steps| - 1) < |records|
  {
    SortKeepsLength(records);
    HeightIsCeilLog2(|records|);
  }

  // Every record of a distinct-keyed list is found under its own key.
  lemma {:induction false} KeyLookupFinds(ordered: seq<Record>, r: Record)
    requires DistinctKeys(ordered) && r in ordered
    ensures IndexOfKey(ordered, KeyOf(r)) < |ordered|
    ensures ordered[IndexOfKey(ordered, KeyOf(r))] == r
  {
    var i := IndexOfKey(ordered, KeyOf(r));
    var j :| 0 <= j < |ordered| && ordered[j] == r;
    assert i <= j;
    assert i < |ordered| && KeyOf(ordered[i]) == KeyOf(ordered[j]);
  }

  // The two programs composed: building a proof for any record of a distinct-keyed list
  // succeeds, and the verifier accepts what was built.
  method ProveAndVerify(h: HashFn, enc: Encoder, records: seq<Record>, r: Record, releaseId: string)
    returns (bundle: Bundle, ok: bool)
    requires DistinctKeys(records) && r in records
    ensures ok && bundle.record == r
    ensures ReleaseRoot(h, enc, records) == Ok(bundle.proof.root)
    ensures |bundle.proof.steps| == Height(|records|)
  {
    var ordered := Sort(RecordLe, records);
    SortKeepsLength(records);
    SortKeepsDistinctKeys(records);
    KeyLookupFinds(ordered, r);
    var built := BuildInclusionProof(h, enc, records, releaseId, r.recordType, r.recordKey);
    bundle := built.value;
    InclusionCompleteness(h, enc, records, IndexOfKey(ordered, KeyOf(r)), bundle);
    ok := VerifyInclusionProof(h, enc, bundle);
  }
}
