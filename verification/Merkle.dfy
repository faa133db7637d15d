// The release commitment: a Merkle tree over the sorted records, its proof builder and the
// proof verifier. Leaves and inner nodes carry no prefix and an odd level repeats its last
// digest, so binding and soundness rest on the duplicate-key check and on no leaf encoding
// being hashed as an inner node.
module Merkle {
  import opened Outcomes
  import opened Hashing
  import opened Ordering

  // `payload` is the canonical text of the record's JSON object; an Encoder gives the canonical
  // JSON encoding of the whole record.
  datatype Record = Record(recordType: string, recordKey: string, payload: string)

  type Encoder = Record -> Bytes

  datatype Side = Left | Right

  datatype Step = Step(side: Side, sibling: Digest)

  datatype Proof = Proof(releaseId: string, root: Digest, recordType: string, recordKey: string,
                         leaf: Digest, steps: seq<Step>)

  datatype Bundle = Bundle(record: Record, proof: Proof)

  datatype ReleaseError = DuplicateKey | EmptyRelease | UnknownRecord

  function KeyOf(r: Record): Key { (r.recordType, r.recordKey) }

  predicate RecordLe(a: Record, b: Record) { KeyLe(KeyOf(a), KeyOf(b)) }

  predicate DistinctKeys(records: seq<Record>) {
    forall i, j :: 0 <= i < j < |records| ==> KeyOf(records[i]) != KeyOf(records[j])
  }

  lemma RecordLeIsTotalPreorder()
    ensures TotalPreorder(RecordLe)
  {
    KeyLeIsTotalOrder();
  }

  // Distinct keys as a property of the multiset of records: none repeats, no two share a key.
  ghost predicate DistinctBag(bag: multiset<Record>) {
    && (forall r :: r in bag ==> bag[r] == 1)
    && (forall r, q :: r in bag && q in bag && KeyOf(r) == KeyOf(q) ==> r == q)
  }

  lemma SplitAt(s: seq<Record>, i: nat)
    requires i < |s|
    ensures multiset(s) == multiset(s[..i]) + multiset{s[i]} + multiset(s[i + 1..])
  {
    assert s == s[..i] + [s[i]] + s[i + 1..];
  }

  lemma DistinctKeysIsBagProperty(s: seq<Record>)
    ensures DistinctKeys(s) <==> DistinctBag(multiset(s))
  {
    if DistinctKeys(s) {
      forall r | r in multiset(s) ensures multiset(s)[r] == 1 {
        var i :| 0 <= i < |s| && s[i] == r;
        SplitAt(s, i);
        assert r !in s[..i] && r !in s[i + 1..];
      }
    } else {
      var i, j :| 0 <= i < j < |s| && KeyOf(s[i]) == KeyOf(s[j]);
      SplitAt(s, i);
      assert s[j] in s[i + 1..];
      assert s[i] in multiset(s) && s[j] in multiset(s);
    }
  }

  lemma SortKeepsDistinctKeys(records: seq<Record>)
    ensures DistinctKeys(Sort(RecordLe, records)) <==> DistinctKeys(records)
  {
    RecordLeIsTotalPreorder();
    SortProperties(RecordLe, records);
    DistinctKeysIsBagProperty(records);
    DistinctKeysIsBagProperty(Sort(RecordLe, records));
  }

  // In sorted order a repeated key is next to its twin, so one backward look is enough.
  lemma NeighbourCheckSuffices(ordered: seq<Record>, i: nat)
    requires i < |ordered| && SortedBy(RecordLe, ordered)
    requires DistinctKeys(ordered[..i])
    requires i > 0 ==> KeyOf(ordered[i - 1]) != KeyOf(ordered[i])
    ensures DistinctKeys(ordered[..i + 1])
  {
    KeyLeIsTotalOrder();
    forall j | 0 <= j < i ensures KeyOf(ordered[j]) != KeyOf(ordered[i]) {
      if j < i - 1 {
        assert RecordLe(ordered[j], ordered[i - 1]) && RecordLe(ordered[i - 1], ordered[i]);
      }
    }
  }

  // Two records agree in type and key.
  ghost predicate SameTypeAndKey(a: Record, b: Record) {
    a.recordType == b.recordType && a.recordKey == b.recordKey
  }

  // By type, and within a type by key, by code points.
  ghost predicate InKeyOrder(a: Record, b: Record) {
    if a.recordType == b.recordType then NoLater(a.recordKey, b.recordKey) else NoLater(a.recordType, b.recordType)
  }

  lemma RecordOrderMeans(a: Record, b: Record)
    ensures RecordLe(a, b) <==> InKeyOrder(a, b)
    ensures KeyOf(a) == KeyOf(b) <==> SameTypeAndKey(a, b)
  {
    hide StrLe, NoLater;
    StrLeMeans(a.recordKey, b.recordKey);
    StrLeMeans(a.recordType, b.recordType);
  }

  // What the sorted list of distinct-keyed records is, in terms of their fields.
  lemma OrderedMeans(records: seq<Record>)
    ensures DistinctKeys(records) <==>
            forall i, j :: 0 <= i < j < |records| ==> !SameTypeAndKey(records[i], records[j])
    ensures var ordered := Sort(RecordLe, records);
      && multiset(ordered) == multiset(records)
      && forall i, j :: 0 <= i < j < |ordered| ==> InKeyOrder(ordered[i], ordered[j])
  {
    hide RecordLe, KeyOf, InKeyOrder, SameTypeAndKey;
    RecordLeIsTotalPreorder();
    SortProperties(RecordLe, records);
    var ordered := Sort(RecordLe, records);
    forall i, j | 0 <= i < j < |ordered| ensures InKeyOrder(ordered[i], ordered[j]) {
      RecordOrderMeans(ordered[i], ordered[j]);
    }
    forall i, j | 0 <= i < j < |records|
      ensures KeyOf(records[i]) == KeyOf(records[j]) <==> SameTypeAndKey(records[i], records[j])
    {
      RecordOrderMeans(records[i], records[j]);
    }
  }

  // The sorted records, or the duplicate-key refusal.
  method OrderedRecords(records: seq<Record>) returns (r: Result<seq<Record>, ReleaseError>)
    ensures r == if DistinctKeys(records) then Ok(Sort(RecordLe, records)) else Err(DuplicateKey)
    ensures r.Ok? <==> forall i, j :: 0 <= i < j < |records| ==> !SameTypeAndKey(records[i], records[j])
    ensures r.Ok? ==>
              && multiset(r.value) == multiset(records)
              && forall i, j :: 0 <= i < j < |r.value| ==> InKeyOrder(r.value[i], r.value[j])
  {
    OrderedMeans(records);
    hide InKeyOrder, SameTypeAndKey;
    var ordered := Sort(RecordLe, records);
    SortKeepsDistinctKeys(records);
    assert SortedBy(RecordLe, ordered) by {
      RecordLeIsTotalPreorder();
      SortProperties(RecordLe, records);
    }
    var previous: Option<Key> := None;
    var i := 0;
    while i < |ordered|
      invariant 0 <= i <= |ordered|
      invariant previous == if i == 0 then None else Some(KeyOf(ordered[i - 1]))
      invariant DistinctKeys(ordered[..i])
    {
      if Some(KeyOf(ordered[i])) == previous {
        assert !DistinctKeys(ordered);
        return Err(DuplicateKey);
      }
      NeighbourCheckSuffices(ordered, i);
      previous := Some(KeyOf(ordered[i]));
      i := i + 1;
    }
    assert ordered[..i] == ordered;
    return Ok(ordered);
  }

  // ---------------------------------------------------------------- levels of the tree

  function Pad(level: seq<Digest>): (padded: seq<Digest>)
    ensures |padded| % 2 == 0 && level <= padded
  {
    if |level| % 2 == 1 then level + [level[|level| - 1]] else level
  }

  function Parents(h: HashFn, level: seq<Digest>): seq<Digest>
    requires |level| % 2 == 0
  {
    seq(|level| / 2, i requires 0 <= i < |level| / 2 => h(Join(level[2 * i], level[2 * i + 1])))
  }

  function Climb(h: HashFn, level: seq<Digest>): seq<Digest> { Parents(h, Pad(level)) }

  function Root(h: HashFn, level: seq<Digest>): Digest
    requires level != []
    decreases |level|
  {
    if |level| == 1 then level[0] else Root(h, Climb(h, level))
  }

  // Neighbours are hashed as one string, the left digest first; the last digest of an odd level is its
  // own right neighbour.
  ghost predicate IsLevelAbove(h: HashFn, level: seq<Digest>, next: seq<Digest>) {
    && (|next| == |level| / 2 + |level| % 2)
    && forall i :: 0 <= i < |next| ==> next[i] == h(Neighbours(level, i))
  }

  ghost function Neighbours(level: seq<Digest>, i: int): Bytes
    requires 0 <= 2 * i < |level|
  {
    var left: Bytes, right: Bytes := level[2 * i], if 2 * i + 1 < |level| then level[2 * i + 1] else level[2 * i];
    left + right
  }

  lemma JoinIsConcatenation(left: Digest, right: Digest)
    ensures var a: Bytes, b: Bytes := left, right; Join(left, right) == a + b
  {
    var a: Bytes, b: Bytes := left, right;
    assert Join(left, right) == Join(left, right)[..32] + Join(left, right)[32..];
  }

  // The root of a single digest is that digest, and of more the root of the level above.
  lemma RootIsReducedLevel(h: HashFn, level: seq<Digest>, next: seq<Digest>)
    requires |level| > 1 && IsLevelAbove(h, level, next)
    ensures next != [] && Root(h, level) == Root(h, next) && Root(h, [level[0]]) == level[0]
  {
    hide Join;
    var up := Climb(h, level);
    forall i | 0 <= i < |next| ensures next[i] == up[i] {
      JoinIsConcatenation(Pad(level)[2 * i], Pad(level)[2 * i + 1]);
    }
    assert up == next;
  }

  // Levels from the leaves up to a single digest, each made of the neighbours of the one below.
  ghost predicate IsTower(h: HashFn, levels: seq<seq<Digest>>, leaves: seq<Digest>, root: Digest) {
    && levels != [] && levels[0] == leaves && levels[|levels| - 1] == [root]
    && forall k: nat :: k + 1 < |levels| ==> StandsOn(h, levels, k)
  }

  ghost predicate StandsOn(h: HashFn, levels: seq<seq<Digest>>, k: nat)
    requires k + 1 < |levels|
  {
    |levels[k]| > 1 && IsLevelAbove(h, levels[k], levels[k + 1])
  }

  lemma {:induction false} RootIsTower(h: HashFn, leaves: seq<Digest>) returns (levels: seq<seq<Digest>>)
    requires leaves != []
    ensures IsTower(h, levels, leaves, Root(h, leaves))
    decreases |leaves|
  {
    if |leaves| == 1 {
      levels := [leaves];
    } else {
      LevelAbove(h, leaves);
      assert Root(h, leaves) == Root(h, Climb(h, leaves));
      hide *;
      var above := RootIsTower(h, Climb(h, leaves));
      TowerGrows(h, leaves, above, Climb(h, leaves), Root(h, leaves));
      levels := [leaves] + above;
    }
  }

  lemma TowerGrows(h: HashFn, leaves: seq<Digest>, above: seq<seq<Digest>>, next: seq<Digest>, root: Digest)
    requires |leaves| > 1 && IsLevelAbove(h, leaves, next) && IsTower(h, above, next, root)
    ensures IsTower(h, [leaves] + above, leaves, root)
  {
    hide IsLevelAbove;
    var levels := [leaves] + above;
    forall k: nat | k + 1 < |levels| ensures StandsOn(h, levels, k) {
      if k > 0 {
        assert StandsOn(h, above, k - 1);
      }
    }
  }

  lemma LevelAbove(h: HashFn, level: seq<Digest>)
    requires |level| > 1
    ensures IsLevelAbove(h, level, Climb(h, level)) && 0 < |Climb(h, level)| < |level|
  {
    hide Join;
    var up := Climb(h, level);
    forall i | 0 <= i < |up| ensures up[i] == h(Neighbours(level, i)) {
      JoinIsConcatenation(Pad(level)[2 * i], Pad(level)[2 * i + 1]);
    }
  }

  lemma ClimbLength(h: HashFn, level: seq<Digest>)
    ensures |Climb(h, level)| == (|level| + 1) / 2
    ensures |level| > 1 ==> 0 < |Climb(h, level)| < |level|
  {
  }

  // The number of levels above the leaves.
  function Height(n: nat): nat
    requires n > 0
  {
    if n == 1 then 0 else 1 + Height((n + 1) / 2)
  }

  function Leaves(h: HashFn, enc: Encoder, records: seq<Record>): seq<Digest> {
    seq(|records|, i requires 0 <= i < |records| => h(enc(records[i])))
  }

  // The committed root of a record list, errors in the order in which they are checked.
  function ReleaseRoot(h: HashFn, enc: Encoder, records: seq<Record>): Result<Digest, ReleaseError> {
    if !DistinctKeys(records) then Err(DuplicateKey)
    else if records == [] then Err(EmptyRelease)
    else
      SortKeepsLength(records);
      Ok(Root(h, Leaves(h, enc, Sort(RecordLe, records))))
  }

  lemma SortKeepsLength(records: seq<Record>)
    ensures |Sort(RecordLe, records)| == |records|
    ensures forall r :: r in Sort(RecordLe, records) <==> r in records
  {
    RecordLeIsTotalPreorder();
    SortProperties(RecordLe, records);
    forall r ensures r in Sort(RecordLe, records) <==> r in records {
      assert r in multiset(Sort(RecordLe, records)) <==> r in multiset(records);
    }
  }

  // The level-by-level reduction, shared by the ledger root and the semantic root.
  method ReduceToRoot(h: HashFn, leaves: seq<Digest>) returns (root: Digest)
    requires leaves != []
    ensures root == Root(h, leaves)
  {
    var level := leaves;
    while |level| > 1
      invariant level != []
      invariant Root(h, level) == Root(h, leaves)
      decreases |level|
    {
      ghost var unpadded := level;
      if |level| % 2 == 1 {
        level := level + [level[|level| - 1]];
      }
      level := Parents(h, level);
      assert level == Climb(h, unpadded);
    }
    return level[0];
  }

  lemma OneRecordIsItsLeaf(h: HashFn, enc: Encoder, records: seq<Record>)
    requires |records| == 1
    ensures Leaves(h, enc, Sort(RecordLe, records)) == [h(enc(records[0]))]
  {
    assert records[1..] == [] && Sort(RecordLe, records) == [records[0]];
  }

  method MerkleRoot(h: HashFn, enc: Encoder, records: seq<Record>)
    returns (r: Result<Digest, ReleaseError>)
    ensures r == ReleaseRoot(h, enc, records)
    ensures r == Err(DuplicateKey) <==> exists i, j :: 0 <= i < j < |records| && SameTypeAndKey(records[i], records[j])
    ensures r == Err(EmptyRelease) <==> records == []
    ensures |records| == 1 ==> r == Ok(h(enc(records[0])))
  {
    var sorted := OrderedRecords(records);
    if sorted.Err? {
      return Err(sorted.error);
    }
    var ordered := sorted.value;
    SortKeepsLength(records);
    if |records| == 1 {
      OneRecordIsItsLeaf(h, enc, records);
    }
    if ordered == [] {
      return Err(EmptyRelease);
    }
    var root := ReduceToRoot(h, Leaves(h, enc, ordered));
    return Ok(root);
  }

  // ---------------------------------------------------------------- inclusion proofs

  function JoinStep(cur: Digest, step: Step): Bytes {
    if step.side == Left then Join(step.sibling, cur) else Join(cur, step.sibling)
  }

  // What the verifier has computed from a leaf digest after the first n steps.
  function FoldTo(h: HashFn, leaf: Digest, steps: seq<Step>, n: nat): Digest
    requires n <= |steps|
  {
    if n == 0 then leaf else h(JoinStep(FoldTo(h, leaf, steps, n - 1), steps[n - 1]))
  }

  function Fold(h: HashFn, leaf: Digest, steps: seq<Step>): Digest {
    FoldTo(h, leaf, steps, |steps|)
  }

  // One more step of a proof: the sibling is hashed on the side it is said to be on.
  lemma FoldHashesSibling(h: HashFn, leaf: Digest, steps: seq<Step>, sibling: Digest)
    ensures
      var current: Bytes, other: Bytes := Fold(h, leaf, steps), sibling;
      && Fold(h, leaf, []) == leaf
      && Fold(h, leaf, steps + [Step(Left, sibling)]) == h(other + current)
      && Fold(h, leaf, steps + [Step(Right, sibling)]) == h(current + other)
  {
    var current := Fold(h, leaf, steps);
    FoldOfPrefix(h, leaf, steps, steps + [Step(Left, sibling)], |steps|);
    FoldOfPrefix(h, leaf, steps, steps + [Step(Right, sibling)], |steps|);
    JoinIsConcatenation(sibling, current);
    JoinIsConcatenation(current, sibling);
  }

  // Hashing one's way up: each step hashes the digest so far with its sibling, on the side it names.
  ghost predicate LeadsTo(h: HashFn, leaf: Digest, steps: seq<Step>, root: Digest, trail: seq<Digest>) {
    && |trail| == |steps| + 1 && trail[0] == leaf && trail[|steps|] == root
    && forall i :: 0 <= i < |steps| ==> trail[i + 1] == SiblingHashed(h, trail[i], steps[i])
  }

  ghost function SiblingHashed(h: HashFn, current: Digest, step: Step): Digest {
    var a: Bytes, b: Bytes := current, step.sibling;
    if step.side == Left then h(b + a) else h(a + b)
  }

  lemma FoldIsTrail(h: HashFn, leaf: Digest, steps: seq<Step>, root: Digest)
    ensures Fold(h, leaf, steps) == root <==> exists trail :: LeadsTo(h, leaf, steps, root, trail)
  {
    if Fold(h, leaf, steps) == root {
      var trail := seq(|steps| + 1, i requires 0 <= i <= |steps| => FoldTo(h, leaf, steps, i));
      forall i | 0 <= i < |steps| ensures trail[i + 1] == SiblingHashed(h, trail[i], steps[i]) {
        StepIsHashed(h, trail[i], steps[i]);
      }
      assert LeadsTo(h, leaf, steps, root, trail);
    }
    if trail :| LeadsTo(h, leaf, steps, root, trail) {
      TrailIsFold(h, leaf, steps, root, trail, |steps|);
    }
  }

  lemma StepIsHashed(h: HashFn, current: Digest, step: Step)
    ensures h(JoinStep(current, step)) == SiblingHashed(h, current, step)
  {
    JoinIsConcatenation(step.sibling, current);
    JoinIsConcatenation(current, step.sibling);
  }

  lemma {:induction false} TrailIsFold(h: HashFn, leaf: Digest, steps: seq<Step>, root: Digest, trail: seq<Digest>,
      n: nat)
    requires LeadsTo(h, leaf, steps, root, trail) && n <= |steps|
    ensures FoldTo(h, leaf, steps, n) == trail[n]
  {
    if n > 0 {
      TrailIsFold(h, leaf, steps, root, trail, n - 1);
      StepIsHashed(h, trail[n - 1], steps[n - 1]);
    }
  }

  lemma {:induction false} FoldOfPrefix(h: HashFn, leaf: Digest, s: seq<Step>, t: seq<Step>, n: nat)
    requires n <= |s| && s <= t
    ensures FoldTo(h, leaf, s, n) == FoldTo(h, leaf, t, n)
  {
    if n > 0 {
      FoldOfPrefix(h, leaf, s, t, n - 1);
    }
  }

  function Sibling(index: nat): nat { if index % 2 == 0 then index + 1 else index - 1 }

  function StepAt(level: seq<Digest>, index: nat): Step
    requires index < |level|
  {
    Step(if Sibling(index) < index then Left else Right, Pad(level)[Sibling(index)])
  }

  // The first record with the given key, in sorted order.
  function IndexOfKey(ordered: seq<Record>, key: Key): (i: nat)
    ensures i <= |ordered|
    ensures i < |ordered| ==> KeyOf(ordered[i]) == key
    ensures forall j :: 0 <= j < i ==> KeyOf(ordered[j]) != key
  {
    if ordered == [] || KeyOf(ordered[0]) == key then 0
    else 1 + IndexOfKey(ordered[1..], key)
  }

  // `bundle` is a complete, honest proof for position `index` of the sorted records.
  ghost predicate ProvesPosition(h: HashFn, enc: Encoder, ordered: seq<Record>, index: nat, bundle: Bundle)
    requires index < |ordered|
  {
    && bundle.record == ordered[index]
    && bundle.proof.recordType == ordered[index].recordType
    && bundle.proof.recordKey == ordered[index].recordKey
    && bundle.proof.leaf == h(enc(ordered[index]))
    && bundle.proof.root == Root(h, Leaves(h, enc, ordered))
    && Fold(h, bundle.proof.leaf, bundle.proof.steps) == bundle.proof.root
    && |bundle.proof.steps| == Height(|ordered|)
  }

  // The step recorded at `index` is what turns its digest into its parent's.
  lemma ParentOf(h: HashFn, level: seq<Digest>, index: nat)
    requires |level| > 1 && index < |level|
    ensures index / 2 < |Climb(h, level)|
    ensures Climb(h, level)[index / 2] == h(JoinStep(level[index], StepAt(level, index)))
  {
    var p, i := Pad(level), index / 2;
    assert Climb(h, level)[i] == h(Join(p[2 * i], p[2 * i + 1]));
    assert index == 2 * i || index == 2 * i + 1;
  }

  lemma RootAndHeightClimb(h: HashFn, level: seq<Digest>)
    requires |level| > 1
    ensures 0 < |Climb(h, level)| < |level|
    ensures Root(h, level) == Root(h, Climb(h, level))
    ensures Height(|level|) == 1 + Height(|Climb(h, level)|)
  {
    hide Climb;
    ClimbLength(h, level);
  }

  // One turn of the proof-building loop: a step is recorded, and the index and the level climb.
  lemma ClimbStep(h: HashFn, leaf: Digest, steps: seq<Step>, level: seq<Digest>, index: nat)
    requires |level| > 1 && index < |level| && Fold(h, leaf, steps) == level[index]
    ensures index / 2 < |Climb(h, level)| < |level|
    ensures Fold(h, leaf, steps + [StepAt(level, index)]) == Climb(h, level)[index / 2]
  {
    hide Root, Height, Climb, StepAt, JoinStep;
    FoldOfPrefix(h, leaf, steps, steps + [StepAt(level, index)], |steps|);
    ParentOf(h, level, index);
    RootAndHeightClimb(h, level);
  }

  lemma TopLevel(h: HashFn, level: seq<Digest>)
    requires |level| == 1
    ensures Root(h, level) == level[0] && Height(|level|) == 0
  {
  }

  // What the proof-building loop has achieved when it stands at `index` of `level`.
  ghost predicate Walked(h: HashFn, leaves: seq<Digest>, position: nat, steps: seq<Step>,
                         level: seq<Digest>, index: nat)
    requires position < |leaves|
  {
    && index < |level|
    && Fold(h, leaves[position], steps) == level[index]
    && Root(h, level) == Root(h, leaves)
    && |steps| + Height(|level|) == Height(|leaves|)
  }

  // The index-walking loop of the proof builder.
  method WalkToRoot(h: HashFn, leaves: seq<Digest>, position: nat) returns (steps: seq<Step>)
    requires position < |leaves|
    ensures Fold(h, leaves[position], steps) == Root(h, leaves)
    ensures |steps| == Height(|leaves|)
  {
    var level, index := leaves, position;
    steps := [];
    while |level| > 1
      invariant 0 <= index < |level|
      invariant Walked(h, leaves, position, steps, level, index)
      decreases |level|
    {
      hide Fold, Root, Height, Climb, StepAt;
      ClimbStep(h, leaves[position], steps, level, index);
      RootAndHeightClimb(h, level);
      steps := steps + [StepAt(level, index)];
      level := Climb(h, level);
      index := index / 2;
    }
    TopLevel(h, level);
  }

  method BuildInclusionProof(h: HashFn, enc: Encoder, records: seq<Record>, releaseId: string,
                             recordType: string, recordKey: string)
    returns (r: Result<Bundle, ReleaseError>)
    ensures !DistinctKeys(records) ==> r == Err(DuplicateKey)
    ensures DistinctKeys(records) && records == [] ==> r == Err(EmptyRelease)
    ensures DistinctKeys(records) && records != [] ==>
      var ordered := Sort(RecordLe, records);
      var i := IndexOfKey(ordered, (recordType, recordKey));
      if i == |ordered| then r == Err(UnknownRecord)
      else r.Ok? && r.value.proof.releaseId == releaseId && ProvesPosition(h, enc, ordered, i, r.value)
    ensures r == Err(DuplicateKey) <==> exists i, j :: 0 <= i < j < |records| && SameTypeAndKey(records[i], records[j])
    ensures r == Err(EmptyRelease) <==> records == []
    ensures r.Err? && r != Err(DuplicateKey) ==>
              forall record :: record in records ==> record.recordType != recordType || record.recordKey != recordKey
    ensures r.Ok? ==>
              && r.value.record in records
              && r.value.record.recordType == r.value.proof.recordType == recordType
              && r.value.record.recordKey == r.value.proof.recordKey == recordKey
              && r.value.proof.leaf == h(enc(r.value.record)) && ReleaseRoot(h, enc, records) == Ok(r.value.proof.root)
              && exists trail :: LeadsTo(h, r.value.proof.leaf, r.value.proof.steps, r.value.proof.root, trail)
  {
    OrderedMeans(records);
    hide InKeyOrder, LeadsTo;
    var sorted := OrderedRecords(records);
    if sorted.Err? {
      return Err(sorted.error);
    }
    var ordered := sorted.value;
    SortKeepsLength(records);
    if ordered == [] {
      return Err(EmptyRelease);
    }
    var index: nat := IndexOfKey(ordered, (recordType, recordKey));
    if index == |ordered| {
      return Err(UnknownRecord);
    }
    var record := ordered[index];
    var steps := WalkToRoot(h, Leaves(h, enc, ordered), index);
    FoldIsTrail(h, h(enc(record)), steps, Root(h, Leaves(h, enc, ordered)));
    return Ok(Bundle(record, Proof(releaseId, Root(h, Leaves(h, enc, ordered)), record.recordType,
                                   record.recordKey, h(enc(record)), steps)));
  }

  predicate Accepts(h: HashFn, enc: Encoder, bundle: Bundle) {
    && bundle.record.recordType == bundle.proof.recordType
    && bundle.record.recordKey == bundle.proof.recordKey
    && h(enc(bundle.record)) == bundle.proof.leaf
    && Fold(h, bundle.proof.leaf, bundle.proof.steps) == bundle.proof.root
  }

  method VerifyInclusionProof(h: HashFn, enc: Encoder, bundle: Bundle) returns (ok: bool)
    ensures ok == Accepts(h, enc, bundle)
    ensures ok <==>
              var record, proof := bundle.record, bundle.proof;
              && record.recordType == proof.recordType && record.recordKey == proof.recordKey
              && proof.leaf == h(enc(record))
              && exists trail :: LeadsTo(h, proof.leaf, proof.steps, proof.root, trail)
  {
    FoldIsTrail(h, bundle.proof.leaf, bundle.proof.steps, bundle.proof.root);
    hide LeadsTo;
    var record, proof := bundle.record, bundle.proof;
    if record.recordType != proof.recordType || record.recordKey != proof.recordKey {
      return false;
    }
    var current := h(enc(record));
    if current != proof.leaf {
      return false;
    }
    for i := 0 to |proof.steps|
      invariant current == FoldTo(h, proof.leaf, proof.steps, i)
    {
      var step := proof.steps[i];
      if step.side == Left {
        current := h(Join(step.sibling, current));
      } else {
        current := h(Join(current, step.sibling));
      }
    }
    return current == proof.root;
  }

  // The root of a release is the top of a tower over the hashed records, in order of type and key.
  lemma ReleaseRootIsTower(h: HashFn, enc: Encoder, records: seq<Record>)
    returns (ordered: seq<Record>, levels: seq<seq<Digest>>)
    requires ReleaseRoot(h, enc, records).Ok?
    ensures multiset(ordered) == multiset(records)
    ensures forall i, j :: 0 <= i < j < |ordered| ==> InKeyOrder(ordered[i], ordered[j])
    ensures levels != [] && |levels[0]| == |ordered|
    ensures forall i :: 0 <= i < |ordered| ==> levels[0][i] == h(enc(ordered[i]))
    ensures IsTower(h, levels, levels[0], ReleaseRoot(h, enc, records).value)
  {
    hide IsLevelAbove, Root, InKeyOrder;
    OrderedMeans(records);
    SortKeepsLength(records);
    ordered := Sort(RecordLe, records);
    levels := RootIsTower(h, Leaves(h, enc, ordered));
  }
}
