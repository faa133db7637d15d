// The semantic root is a function of the set of normal forms, and so does not move under
// reordering, renaming, re-storing or absorbed duplicates.
module SemanticTheorems {
  import opened Outcomes
  import opened Hashing
  import opened Ordering
  import opened Finite
  import opened Normalization
  import opened SemanticSet
  import Merkle
  import opened MerkleTheorems

  // ---------------------------------------------------------------- when the recursion ends

  ghost predicate Endless(ctx: Context, id: string) {
    forall fuel: nat :: Plain(ctx, id, fuel) == Diverges
  }

  lemma EndlessSupersedes(ctx: Context, id: string) returns (next: string)
    requires Endless(ctx, id)
    ensures Supersedes(ctx, id, next) && Endless(ctx, next)
  {
    assert Plain(ctx, id, 1) == Diverges;
    next := ctx.extractions[id].supersedes.value;
    forall fuel: nat ensures Plain(ctx, next, fuel) == Diverges {
      assert Plain(ctx, id, fuel + 1) == Diverges;
    }
  }

  lemma {:induction false} WalkChain(ctx: Context, id: string, n: nat) returns (path: seq<string>, last: string)
    requires Endless(ctx, id)
    ensures |path| == n && ChainTo(ctx, path, last) && Endless(ctx, last)
    ensures NextOn(path, last, 0) == (if n > 1 then path[1] else last)
    ensures n > 0 ==> path[0] == id
    ensures n == 0 ==> last == id
    ensures Elements(path) <= ctx.extractions.Keys
  {
    hide Plain;
    if n == 0 {
      path, last := [], id;
    } else {
      var shorter, here := WalkChain(ctx, id, n - 1);
      var next := EndlessSupersedes(ctx, here);
      ChainExtends(ctx, shorter, here, next);
      path, last := shorter + [here], next;
      assert Supersedes(ctx, here, next);
    }
  }

  // `path` starts at `id`, each member supersedes the next, and the last supersedes member k.
  ghost predicate ClosesOn(ctx: Context, id: string, path: seq<string>, k: nat) {
    k < |path| && path[0] == id && ChainTo(ctx, path, path[k])
  }

  lemma EndlessCloses(ctx: Context, id: string) returns (path: seq<string>, k: nat)
    requires Endless(ctx, id)
    ensures ClosesOn(ctx, id, path, k)
  {
    hide Endless, Supersedes;
    var long, last := WalkChain(ctx, id, |ctx.extractions.Keys| + 1);
    Pigeonhole(long, ctx.extractions.Keys);
    var i, j :| 0 <= i < j < |long| && long[i] == long[j];
    path, k := long[..j], i;
    hide ChainTo;
    ChainRepeats(ctx, long, last, i, j);
  }

  lemma ChainRepeats(ctx: Context, long: seq<string>, last: string, i: nat, j: nat)
    requires ChainTo(ctx, long, last) && i < j < |long| && long[i] == long[j]
    ensures ChainTo(ctx, long[..j], long[i])
  {
    hide Supersedes;
    forall m | 0 <= m < j ensures Supersedes(ctx, long[..j][m], NextOn(long[..j], long[i], m)) {
      assert Supersedes(ctx, long[m], NextOn(long, last, m));
    }
  }

  // The recursion fails to end exactly when the supersession chain closes on itself.
  lemma EndlessIffCircular(ctx: Context, id: string)
    ensures Endless(ctx, id) <==> exists path, k :: ClosesOn(ctx, id, path, k)
  {
    hide Plain, ChainTo;
    if Endless(ctx, id) {
      var path, k := EndlessCloses(ctx, id);
    }
    if path, k :| ClosesOn(ctx, id, path, k) {
      forall fuel: nat ensures Plain(ctx, id, fuel) == Diverges {
        CircleDiverges(ctx, path, k, 0, fuel);
      }
    }
  }

  // ---------------------------------------------------------------- the root is a function of the set

  ghost predicate SameForms(c: Context, a: seq<LedgerRecord>, d: Context, b: seq<LedgerRecord>) {
    && c.h == d.h && c.enc == d.enc
    && (AllHaveForms(c, a) <==> AllHaveForms(d, b))
    && (AllHaveForms(c, a) ==> forall n :: IsForm(c, a, n) <==> IsForm(d, b, n))
  }

  lemma SameListing(c: Context, a: seq<LedgerRecord>, x: seq<Normal>, d: Context, b: seq<LedgerRecord>, y: seq<Normal>)
    requires SameForms(c, a, d, b) && AllHaveForms(c, a) && !KeysClash(c, a)
    requires Lists(c, a, x) && Lists(d, b, y)
    ensures x == y
  {
    hide AllHaveForms, IsForm;
    assert Elements(x) == Elements(y) by {
      forall n ensures n in Elements(x) <==> n in Elements(y) {
        assert n in x <==> IsForm(c, a, n);
        assert n in y <==> IsForm(d, b, n);
      }
    }
    SameElementsSameBag(x, y);
    IdentityLeIsTotalOrder();
    forall i, j | 0 <= i < |x| && 0 <= j < |x| && FormLe(c.h, c.enc)(x[i], x[j]) && FormLe(c.h, c.enc)(x[j], x[i])
      ensures x[i] == x[j]
    {
      assert IsForm(c, a, x[i]) && IsForm(c, a, x[j]);
      assert Identity(c, x[i]) == Identity(c, x[j]);
    }
    SortedUnique(FormLe(c.h, c.enc), x, y);
  }

  // Equal sets of normal forms give equal semantic roots, and one release fails when the other does.
  lemma SameFormsSameRoot(h: HashFn, enc: NormalEncoder, leaf: LeafEncoder, a: seq<LedgerRecord>, b: seq<LedgerRecord>,
                          x: Result<(Digest, nat), SemanticError>, y: Result<(Digest, nat), SemanticError>)
    requires SameForms(ContextOf(h, enc, a), a, ContextOf(h, enc, b), b)
    requires HasSemanticRoot(h, enc, leaf, a, x) && HasSemanticRoot(h, enc, leaf, b, y)
    ensures x.Ok? <==> y.Ok?
    ensures x.Ok? ==> x == y
  {
    hide AllHaveForms, IsForm, Lists, Identity;
    var c, d := ContextOf(h, enc, a), ContextOf(h, enc, b);
    var f :| Describes(c, a, f) && (if f.Ok? then x == RootOfForms(h, leaf, f.value) else x == Err(f.error));
    var g :| Describes(d, b, g) && (if g.Ok? then y == RootOfForms(h, leaf, g.value) else y == Err(g.error));
    if AllHaveForms(c, a) {
      SameClash(c, a, d, b);
      if !KeysClash(c, a) {
        SameListing(c, a, f.value, d, b, g.value);
      }
    }
  }

  lemma SameClash(c: Context, a: seq<LedgerRecord>, d: Context, b: seq<LedgerRecord>)
    requires SameForms(c, a, d, b) && AllHaveForms(c, a)
    ensures KeysClash(c, a) <==> KeysClash(d, b)
  {
    hide AllHaveForms, IsForm;
    assert forall n :: Identity(c, n) == Identity(d, n);
    if KeysClash(c, a) {
      var m, n :| IsForm(c, a, m) && IsForm(c, a, n) && m != n && Identity(c, m) == Identity(c, n);
      assert IsForm(d, b, m) && IsForm(d, b, n);
    }
    if KeysClash(d, b) {
      var m, n :| IsForm(d, b, m) && IsForm(d, b, n) && m != n && Identity(d, m) == Identity(d, n);
      assert IsForm(c, a, m) && IsForm(c, a, n);
    }
  }

  // ---------------------------------------------------------------- binding

  // The strings hashed for the inner nodes of a semantic root.
  function SemanticNodes(h: HashFn, leaf: LeafEncoder, forms: seq<Normal>): set<Bytes> {
    InnerInputs(h, SemanticLeaves(h, leaf, forms))
  }

  function SemanticTexts(leaf: LeafEncoder, forms: seq<Normal>): set<Bytes> { Elements(Encoded(leaf, forms)) }

  function SemanticInputs(h: HashFn, leaf: LeafEncoder, forms: seq<Normal>): set<Bytes> {
    SemanticTexts(leaf, forms) + SemanticNodes(h, leaf, forms)
  }

  // What a hashed commitment to two lists may be confused by: two hashed strings collide, or a leaf
  // of one is hashed as an inner node of the other.
  ghost predicate Confusable(h: HashFn, leaf: LeafEncoder, p: seq<Normal>, q: seq<Normal>) {
    || CollisionIn(h, SemanticInputs(h, leaf, p) + SemanticInputs(h, leaf, q))
    || ReadsAsNode(SemanticTexts(leaf, p), SemanticNodes(h, leaf, q))
    || ReadsAsNode(SemanticTexts(leaf, q), SemanticNodes(h, leaf, p))
  }

  lemma FormsBinding(h: HashFn, leaf: LeafEncoder, p: seq<Normal>, q: seq<Normal>)
    requires Injective(leaf) && NoDuplicates(p) && NoDuplicates(q) && p != [] && q != []
    requires RootOfForms(h, leaf, p).value.0 == RootOfForms(h, leaf, q).value.0 && !Confusable(h, leaf, p, q)
    ensures p == q
  {
    hide CollisionIn, ReadsAsNode, InnerInputs, Injective, NoDuplicates, Elements;
    assert SemanticLeaves(h, leaf, p) == Hashed(h, Encoded(leaf, p));
    assert SemanticLeaves(h, leaf, q) == Hashed(h, Encoded(leaf, q));
    hide SemanticLeaves, Hashed, Encoded, Merkle.Root;
    ListBinding(h, leaf, SemanticInputs(h, leaf, p) + SemanticInputs(h, leaf, q), p, q);
  }

  // Two releases have one semantic root exactly when they have the same normal forms, or the hashes
  // behind the roots can be confused.
  lemma SemanticBinding(h: HashFn, enc: NormalEncoder, leaf: LeafEncoder, a: seq<LedgerRecord>, p: seq<Normal>,
                        b: seq<LedgerRecord>, q: seq<Normal>)
    requires Injective(leaf) && p != [] && q != []
    requires Describes(ContextOf(h, enc, a), a, Ok(p)) && Describes(ContextOf(h, enc, b), b, Ok(q))
    ensures
      || (RootOfForms(h, leaf, p).value.0 == RootOfForms(h, leaf, q).value.0
          <==> forall n :: IsForm(ContextOf(h, enc, a), a, n) <==> IsForm(ContextOf(h, enc, b), b, n))
      || Confusable(h, leaf, p, q)
  {
    hide AllHaveForms, IsForm, Confusable, Identity, KeysClash, ContextOf, Merkle.Root, SemanticLeaves;
    var c, d := ContextOf(h, enc, a), ContextOf(h, enc, b);
    if !Confusable(h, leaf, p, q) {
      if RootOfForms(h, leaf, p).value.0 == RootOfForms(h, leaf, q).value.0 {
        FormsBinding(h, leaf, p, q);
        forall n ensures IsForm(c, a, n) <==> IsForm(d, b, n) {
          assert n in p <==> IsForm(c, a, n);
          assert n in q <==> IsForm(d, b, n);
        }
      }
      if forall n :: IsForm(c, a, n) <==> IsForm(d, b, n) {
        ContextHashes(h, enc, a);
        ContextHashes(h, enc, b);
        SameListing(c, a, p, d, b, q);
      }
    }
  }

  lemma ContextHashes(h: HashFn, enc: NormalEncoder, a: seq<LedgerRecord>)
    ensures ContextOf(h, enc, a).h == h && ContextOf(h, enc, a).enc == enc
  {
  }

  // ---------------------------------------------------------------- what references resolve to

  // `r` gives `ref` a meaning: an evidence record defines its key and its local reference.
  ghost predicate Defines(r: LedgerRecord, ref: string) {
    r.body.Evidence? && (r.key == ref || LocalRef(r.body.evidenceId, r.body.version) == ref)
  }

  function EvidenceKey(h: HashFn, enc: NormalEncoder, r: LedgerRecord): Digest
    requires r.body.Evidence?
  {
    h(enc(EvidenceForm(r.body.content)))
  }

  // Two records give no reference and no extraction identifier different meanings.
  ghost predicate Agree(h: HashFn, enc: NormalEncoder, r: LedgerRecord, q: LedgerRecord) {
    && (forall ref :: Defines(r, ref) && Defines(q, ref) ==> EvidenceKey(h, enc, r) == EvidenceKey(h, enc, q))
    && (r.body.Extraction? && q.body.Extraction? && r.key == q.key ==> r.body.extraction == q.body.extraction)
  }

  ghost predicate OneMeaning(h: HashFn, enc: NormalEncoder, records: seq<LedgerRecord>) {
    forall r, q :: r in records && q in records ==> Agree(h, enc, r, q)
  }

  // One step of the first pass, for one reference.
  lemma RefsStep(h: HashFn, enc: NormalEncoder, records: seq<LedgerRecord>, n: nat, ref: string)
    requires 0 < n <= |records|
    ensures var before, after := RefsTo(h, enc, records, n - 1), RefsTo(h, enc, records, n);
      && (ref in after <==> ref in before || Defines(records[n - 1], ref))
      && (Defines(records[n - 1], ref) ==> ref in after && after[ref] == EvidenceKey(h, enc, records[n - 1]))
      && (!Defines(records[n - 1], ref) && ref in before ==> ref in after && after[ref] == before[ref])
  {
    hide LocalRef;
  }

  lemma {:induction false} DefinedIsKnown(h: HashFn, enc: NormalEncoder, records: seq<LedgerRecord>, n: nat, i: nat,
                                          ref: string)
    requires i < n <= |records| && Defines(records[i], ref)
    ensures ref in RefsTo(h, enc, records, n)
  {
    hide Defines, RefsTo;
    RefsStep(h, enc, records, n, ref);
    if i < n - 1 {
      DefinedIsKnown(h, enc, records, n - 1, i, ref);
    }
  }

  // The last record that defines a reference gives it its meaning.
  lemma {:induction false} LastDefinition(h: HashFn, enc: NormalEncoder, records: seq<LedgerRecord>, n: nat,
      ref: string)
    returns (i: nat)
    requires n <= |records| && ref in RefsTo(h, enc, records, n)
    ensures i < n && Defines(records[i], ref)
    ensures RefsTo(h, enc, records, n)[ref] == EvidenceKey(h, enc, records[i])
    ensures forall j :: i < j < n ==> !Defines(records[j], ref)
  {
    assert n > 0;
    hide Defines, RefsTo;
    RefsStep(h, enc, records, n, ref);
    if Defines(records[n - 1], ref) {
      i := n - 1;
    } else {
      i := LastDefinition(h, enc, records, n - 1, ref);
    }
  }

  // ---------------------------------------------------------------- reordering

  lemma SameRefs(h: HashFn, enc: NormalEncoder, a: seq<LedgerRecord>, b: seq<LedgerRecord>, ref: string)
    requires OneMeaning(h, enc, a) && Elements(a) == Elements(b) && ref in RefsTo(h, enc, a, |a|)
    ensures ref in RefsTo(h, enc, b, |b|)
    ensures RefsTo(h, enc, b, |b|)[ref] == RefsTo(h, enc, a, |a|)[ref]
  {
    hide RefsTo, Defines, EvidenceKey;
    var i := LastDefinition(h, enc, a, |a|, ref);
    assert a[i] in Elements(b);
    var j :| 0 <= j < |b| && b[j] == a[i];
    DefinedIsKnown(h, enc, b, |b|, j, ref);
    var k := LastDefinition(h, enc, b, |b|, ref);
    assert b[k] in Elements(a);
    assert Agree(h, enc, a[i], b[k]);
  }

  lemma SameExtractionMap(h: HashFn, enc: NormalEncoder, a: seq<LedgerRecord>, b: seq<LedgerRecord>, id: string)
    requires OneMeaning(h, enc, a) && Elements(a) == Elements(b) && id in ExtractionsTo(a, |a|)
    ensures id in ExtractionsTo(b, |b|)
    ensures ExtractionsTo(b, |b|)[id] == ExtractionsTo(a, |a|)[id]
  {
    hide ExtractionsTo, Defines;
    var i := LastExtraction(a, |a|, id);
    assert a[i] in Elements(b);
    var j :| 0 <= j < |b| && b[j] == a[i];
    StoredIsKnown(b, |b|, j);
    var k := LastExtraction(b, |b|, id);
    assert b[k] in Elements(a);
    assert Agree(h, enc, a[i], b[k]);
  }

  lemma SameRecordsSameContext(h: HashFn, enc: NormalEncoder, a: seq<LedgerRecord>, b: seq<LedgerRecord>)
    requires OneMeaning(h, enc, a) && Elements(a) == Elements(b)
    ensures ContextOf(h, enc, a) == ContextOf(h, enc, b)
  {
    assert OneMeaning(h, enc, b) by {
      assert forall r :: r in b ==> r in Elements(a);
    }
    hide OneMeaning, RefsTo, ExtractionsTo;
    var c, d := ContextOf(h, enc, a), ContextOf(h, enc, b);
    forall ref
      ensures ref in c.refs ==> ref in d.refs && d.refs[ref] == c.refs[ref]
      ensures ref in d.refs ==> ref in c.refs
    {
      if ref in c.refs { SameRefs(h, enc, a, b, ref); }
      if ref in d.refs { SameRefs(h, enc, b, a, ref); }
    }
    forall id
      ensures id in c.extractions ==> id in d.extractions && d.extractions[id] == c.extractions[id]
      ensures id in d.extractions ==> id in c.extractions
    {
      if id in c.extractions { SameExtractionMap(h, enc, a, b, id); }
      if id in d.extractions { SameExtractionMap(h, enc, b, a, id); }
    }
    assert c.refs == d.refs && c.extractions == d.extractions;
  }

  // The same records with the one at `i` moved to the end, where it has the last word.
  function MovedLast(records: seq<LedgerRecord>, i: nat): seq<LedgerRecord>
    requires i < |records|
  {
    records[..i] + records[i + 1..] + [records[i]]
  }

  lemma MovedLastWins(h: HashFn, enc: NormalEncoder, records: seq<LedgerRecord>, i: nat, ref: string)
    requires i < |records|
    ensures var b := MovedLast(records, i);
      && multiset(b) == multiset(records)
      && (Defines(records[i], ref) ==>
           ref in ContextOf(h, enc, b).refs && ContextOf(h, enc, b).refs[ref] == EvidenceKey(h, enc, records[i]))
      && (records[i].body.Extraction? ==>
           && records[i].key in ContextOf(h, enc, b).extractions
           && ContextOf(h, enc, b).extractions[records[i].key] == records[i].body.extraction)
  {
    var b := MovedLast(records, i);
    assert records == records[..i] + [records[i]] + records[i + 1..];
    assert b[|b| - 1] == records[i];
    RefsStep(h, enc, b, |b|, ref);
  }

  // What references mean does not depend on the order of the records exactly when the records
  // agree on it; otherwise the last one to speak decides.
  lemma OrderIrrelevantIffOneMeaning(h: HashFn, enc: NormalEncoder, a: seq<LedgerRecord>)
    ensures OneMeaning(h, enc, a) <==>
            forall b :: multiset(b) == multiset(a) ==> ContextOf(h, enc, b) == ContextOf(h, enc, a)
  {
    hide ContextOf;
    if OneMeaning(h, enc, a) {
      forall b | multiset(b) == multiset(a) ensures ContextOf(h, enc, b) == ContextOf(h, enc, a) {
        SameBagSameElements(a, b);
        SameRecordsSameContext(h, enc, a, b);
      }
    } else {
      var r, q :| r in a && q in a && !Agree(h, enc, r, q);
      var i :| 0 <= i < |a| && a[i] == r;
      var j :| 0 <= j < |a| && a[j] == q;
      DisagreementShows(h, enc, a, i, j);
      assert ContextOf(h, enc, MovedLast(a, i)) != ContextOf(h, enc, MovedLast(a, j));
    }
  }

  lemma DisagreementShows(h: HashFn, enc: NormalEncoder, a: seq<LedgerRecord>, i: nat, j: nat)
    requires i < |a| && j < |a| && !Agree(h, enc, a[i], a[j])
    ensures multiset(MovedLast(a, i)) == multiset(a) && multiset(MovedLast(a, j)) == multiset(a)
    ensures ContextOf(h, enc, MovedLast(a, i)) != ContextOf(h, enc, MovedLast(a, j))
  {
    hide ContextOf, MovedLast, LocalRef;
    if ref :| Defines(a[i], ref) && Defines(a[j], ref) && EvidenceKey(h, enc, a[i]) != EvidenceKey(h, enc, a[j]) {
      MovedLastWins(h, enc, a, i, ref);
      MovedLastWins(h, enc, a, j, ref);
    } else {
      MovedLastWins(h, enc, a, i, a[i].key);
      MovedLastWins(h, enc, a, j, a[j].key);
    }
  }

  lemma SameRecordsSameForms(ctx: Context, a: seq<LedgerRecord>, b: seq<LedgerRecord>)
    requires Elements(a) <= Elements(b)
    ensures AllHaveForms(ctx, b) ==> AllHaveForms(ctx, a)
    ensures forall n :: IsForm(ctx, a, n) ==> IsForm(ctx, b, n)
  {
    hide FormOf;
    forall i | 0 <= i < |a| ensures exists j :: 0 <= j < |b| && b[j] == a[i] {
      assert a[i] in Elements(a);
    }
  }

  // ---------------------------------------------------------------- when order matters

  // The normal forms of a release given as a set.
  ghost predicate HasForms(ctx: Context, records: seq<LedgerRecord>, forms: set<Normal>) {
    AllHaveForms(ctx, records) && forall n :: IsForm(ctx, records, n) <==> n in forms
  }

  // Two evidence records for `at`, of which the second has the last word.
  ghost predicate Rivals(e: LedgerRecord, f: LedgerRecord, at: LedgerRecord) {
    && e.body.Evidence? && f.body.Evidence? && at.body.Attestation?
    && Defines(e, LocalRef(at.body.evidenceId, at.body.evidenceVersion))
    && Defines(f, LocalRef(at.body.evidenceId, at.body.evidenceVersion))
  }

  function FormsWith(key: Digest, e: LedgerRecord, f: LedgerRecord, at: LedgerRecord): set<Normal>
    requires e.body.Evidence? && f.body.Evidence? && at.body.Attestation?
  {
    {EvidenceForm(e.body.content), EvidenceForm(f.body.content), AttestationForm(key, at.body.content)}
  }

  lemma AttestedForms(ctx: Context, records: seq<LedgerRecord>, e: LedgerRecord, f: LedgerRecord, at: LedgerRecord)
    requires e.body.Evidence? && f.body.Evidence? && at.body.Attestation?
    requires e in records && f in records && at in records
    requires forall r :: r in records ==> r == at || r.body.Evidence?
    requires forall r :: r in records && r.body.Evidence? ==>
        r.body.content == e.body.content || r.body.content == f.body.content
    requires LocalRef(at.body.evidenceId, at.body.evidenceVersion) in ctx.refs
    ensures HasForms(ctx, records, FormsWith(ctx.refs[LocalRef(at.body.evidenceId, at.body.evidenceVersion)], e, f, at))
  {
    hide LocalRef;
    var forms := FormsWith(ctx.refs[LocalRef(at.body.evidenceId, at.body.evidenceVersion)], e, f, at);
    forall i | 0 <= i < |records| ensures HasForm(ctx, records[i]) {
      assert records[i] in records;
      var n := if records[i] == at
               then AttestationForm(ctx.refs[LocalRef(at.body.evidenceId, at.body.evidenceVersion)], at.body.content)
               else EvidenceForm(records[i].body.content);
      assert FormOf(ctx, records[i], Ok(n));
    }
    forall n ensures IsForm(ctx, records, n) <==> n in forms {
      if IsForm(ctx, records, n) {
        var i :| 0 <= i < |records| && FormOf(ctx, records[i], Ok(n));
        assert records[i] in records;
      }
      if n in forms {
        var r := if n == EvidenceForm(e.body.content) then e else if n == EvidenceForm(f.body.content) then f else at;
        assert FormOf(ctx, r, Ok(n));
        var i :| 0 <= i < |records| && records[i] == r;
      }
    }
  }

  lemma DifferentAttestations(e: LedgerRecord, f: LedgerRecord, at: LedgerRecord, key: Digest, key': Digest)
    requires e.body.Evidence? && f.body.Evidence? && at.body.Attestation? && key != key'
    ensures FormsWith(key, e, f, at) != FormsWith(key', f, e, at)
    ensures FormsWith(key, e, f, at) != FormsWith(key', e, f, at)
  {
    assert AttestationForm(key, at.body.content) in FormsWith(key, e, f, at);
  }

  // No two of these forms share a type and a key.
  lemma NoClash(h: HashFn, enc: NormalEncoder, a: seq<LedgerRecord>, e: LedgerRecord, f: LedgerRecord,
                at: LedgerRecord, key: Digest)
    requires e.body.Evidence? && f.body.Evidence? && at.body.Attestation?
    requires EvidenceKey(h, enc, e) != EvidenceKey(h, enc, f)
    requires HasForms(ContextOf(h, enc, a), a, FormsWith(key, e, f, at))
    ensures !KeysClash(ContextOf(h, enc, a), a)
  {
    hide IsForm, AllHaveForms, RefsTo, ExtractionsTo;
    var c := ContextOf(h, enc, a);
    forall m, n | IsForm(c, a, m) && IsForm(c, a, n) && Identity(c, m) == Identity(c, n) ensures m == n {
      assert m in FormsWith(key, e, f, at) && n in FormsWith(key, e, f, at);
    }
  }

  // Two releases with these forms and different attested evidence have roots, and different ones.
  lemma FormsTellApart(h: HashFn, enc: NormalEncoder, leaf: LeafEncoder, a: seq<LedgerRecord>, b: seq<LedgerRecord>,
                       p: Result<seq<Normal>, SemanticError>, q: Result<seq<Normal>, SemanticError>,
                       x: set<Normal>, y: set<Normal>)
    requires Injective(leaf) && x != y && x != {} && y != {}
    requires HasForms(ContextOf(h, enc, a), a, x) && !KeysClash(ContextOf(h, enc, a), a)
    requires HasForms(ContextOf(h, enc, b), b, y) && !KeysClash(ContextOf(h, enc, b), b)
    requires Describes(ContextOf(h, enc, a), a, p) && Describes(ContextOf(h, enc, b), b, q)
    ensures p.Ok? && q.Ok? && p.value != [] && q.value != []
    ensures RootOfForms(h, leaf, p.value).value.0 != RootOfForms(h, leaf, q.value).value.0
            || Confusable(h, leaf, p.value, q.value)
  {
    hide IsForm, AllHaveForms, KeysClash, Confusable, ContextOf;
    var c, d := ContextOf(h, enc, a), ContextOf(h, enc, b);
    var m :| m in x;
    assert IsForm(c, a, m);
    var n :| n in y;
    assert IsForm(d, b, n);
    assert m in p.value && n in q.value;
    SemanticBinding(h, enc, leaf, a, p.value, b, q.value);
    var z :| (z in x) != (z in y);
    assert IsForm(c, a, z) != IsForm(d, b, z);
  }

  // Order matters when the records disagree: two evidence records with different semantic keys that
  // define the reference of an attestation give two roots in their two orders, whatever their keys.
  lemma SwappedEvidenceMovesRoot(h: HashFn, enc: NormalEncoder, leaf: LeafEncoder,
                                 e: LedgerRecord, f: LedgerRecord, at: LedgerRecord,
                                 p: Result<seq<Normal>, SemanticError>, q: Result<seq<Normal>, SemanticError>)
    requires Injective(leaf) && Rivals(e, f, at) && EvidenceKey(h, enc, e) != EvidenceKey(h, enc, f)
    requires Describes(ContextOf(h, enc, [e, f, at]), [e, f, at], p)
    requires Describes(ContextOf(h, enc, [f, e, at]), [f, e, at], q)
    ensures p.Ok? && q.Ok? && p.value != [] && q.value != []
    ensures RootOfForms(h, leaf, p.value).value.0 != RootOfForms(h, leaf, q.value).value.0
            || Confusable(h, leaf, p.value, q.value)
  {
    hide Describes, KeysClash, LocalRef, Confusable, HasForms, ContextOf;
    RivalForms(h, enc, e, f, at);
    RivalForms(h, enc, f, e, at);
    NoClash(h, enc, [e, f, at], e, f, at, EvidenceKey(h, enc, f));
    NoClash(h, enc, [f, e, at], f, e, at, EvidenceKey(h, enc, e));
    DifferentAttestations(e, f, at, EvidenceKey(h, enc, f), EvidenceKey(h, enc, e));
    FormsTellApart(h, enc, leaf, [e, f, at], [f, e, at], p, q,
                   FormsWith(EvidenceKey(h, enc, f), e, f, at), FormsWith(EvidenceKey(h, enc, e), f, e, at));
  }

  // The later of two rivals is the one attested.
  lemma RivalForms(h: HashFn, enc: NormalEncoder, e: LedgerRecord, f: LedgerRecord, at: LedgerRecord)
    requires Rivals(e, f, at)
    ensures HasForms(ContextOf(h, enc, [e, f, at]), [e, f, at], FormsWith(EvidenceKey(h, enc, f), e, f, at))
  {
    hide LocalRef, RefsTo, HasForms, ExtractionsTo, Defines;
    var a, ref := [e, f, at], LocalRef(at.body.evidenceId, at.body.evidenceVersion);
    DefinedIsKnown(h, enc, a, 3, 1, ref);
    var i := LastDefinition(h, enc, a, 3, ref);
    AttestationDefinesNothing(at, ref);
    assert a[2] == at && a[1] == f && i == 1;
    AttestedForms(ContextOf(h, enc, a), a, e, f, at);
  }

  lemma AttestationDefinesNothing(at: LedgerRecord, ref: string)
    requires at.body.Attestation?
    ensures !Defines(at, ref)
  {
  }

  // Reordering a release whose records agree on what references mean does not move its root.
  lemma SemanticRootIgnoresOrder(h: HashFn, enc: NormalEncoder, leaf: LeafEncoder,
                                 a: seq<LedgerRecord>, b: seq<LedgerRecord>,
                                 x: Result<(Digest, nat), SemanticError>, y: Result<(Digest, nat), SemanticError>)
    requires OneMeaning(h, enc, a) && Elements(a) == Elements(b)
    requires HasSemanticRoot(h, enc, leaf, a, x) && HasSemanticRoot(h, enc, leaf, b, y)
    ensures x.Ok? <==> y.Ok?
    ensures x.Ok? ==> x == y
  {
    hide OneMeaning, HasSemanticRoot, AllHaveForms, IsForm;
    SameRecordsSameContext(h, enc, a, b);
    var ctx := ContextOf(h, enc, a);
    SameRecordsSameForms(ctx, a, b);
    SameRecordsSameForms(ctx, b, a);
    SameFormsSameRoot(h, enc, leaf, a, b, x, y);
  }

  // ---------------------------------------------------------------- renaming

  lemma {:induction false} DecimalIsDigits(n: nat)
    ensures forall i :: 0 <= i < |Decimal(n)| ==> Decimal(n)[i] != ':'
    ensures |Decimal(n)| > 0
  {
    if n >= 10 {
      DecimalIsDigits(n / 10);
    }
  }

  lemma {:induction false} DecimalInjective(m: nat, n: nat)
    requires Decimal(m) == Decimal(n)
    ensures m == n
  {
    DecimalIsDigits(m / 10);
    DecimalIsDigits(n / 10);
    var s := Decimal(m);
    if m >= 10 && n >= 10 {
      assert s[..|s| - 1] == Decimal(m / 10) && s[..|s| - 1] == Decimal(n / 10);
      DecimalInjective(m / 10, n / 10);
      assert s[|s| - 1] == "0123456789"[m % 10] == "0123456789"[n % 10];
    }
  }

  // The last colon separates the identifier from the version.
  lemma LocalRefInjective(a: string, v: nat, b: string, w: nat)
    requires LocalRef(a, v) == LocalRef(b, w)
    ensures a == b && v == w
  {
    hide Decimal;
    DecimalIsDigits(v);
    DecimalIsDigits(w);
    var s := LocalRef(a, v);
    assert s[|a|] == ':' && s[|b|] == ':';
    forall i | |a| < i < |s| ensures s[i] != ':' {
      assert s[i] == Decimal(v)[i - |a| - 1];
    }
    forall i | |b| < i < |s| ensures s[i] != ':' {
      assert s[i] == Decimal(w)[i - |b| - 1];
    }
    assert a == s[..|a|] && b == s[..|b|];
    assert Decimal(v) == s[|a| + 1..] && Decimal(w) == s[|b| + 1..];
    DecimalInjective(v, w);
  }

  datatype Renaming = Renaming(evidence: string -> string, extraction: string -> string)

  ghost predicate SameBag(a: Option<seq<Json>>, b: Option<seq<Json>>) {
    (a.None? && b.None?) || (a.Some? && b.Some? && multiset(a.value) == multiset(b.value))
  }

  ghost predicate RenamedExtraction(ren: Renaming, e: ExtractionPayload, f: ExtractionPayload) {
    && f.evidenceId == ren.evidence(e.evidenceId) && f.evidenceVersion == e.evidenceVersion
    && f.status == e.status && f.provenance == e.provenance && multiset(f.fields) == multiset(e.fields)
    && f.supersedes == (if e.supersedes.Some? then Some(ren.extraction(e.supersedes.value)) else None)
  }

  // A key that reads as a local reference is renamed with it, and no other key becomes one.
  ghost predicate KeyRenamed(ren: Renaming, key: string, key': string) {
    forall id, v: nat :: key == LocalRef(id, v) <==> key' == LocalRef(ren.evidence(id), v)
  }

  // The same record under other identifiers. Everything normalisation drops may differ, and so
  // may the order of offices, units and fields.
  ghost predicate Renamed(ren: Renaming, r: LedgerRecord, q: LedgerRecord) {
    match (r.body, q.body)
    case (Registry(p, _), Registry(p', _)) =>
      && p'.rest == p.rest && SameBag(p.offices, p'.offices) && SameBag(p.units, p'.units)
      && p'.source.Some? == p.source.Some? && (p.source.Some? ==> p'.source.value.content == p.source.value.content)
    case (Evidence(id, v, c, _), Evidence(id', v', c', _)) =>
      id' == ren.evidence(id) && v' == v && c' == c && KeyRenamed(ren, r.key, q.key)
    case (Attestation(id, v, c, _), Attestation(id', v', c', _)) => id' == ren.evidence(id) && v' == v && c' == c
    case (Extraction(e, _), Extraction(f, _)) => q.key == ren.extraction(r.key) && RenamedExtraction(ren, e, f)
    case (Review(id, who, fields, _), Review(id', who', fields', _)) =>
      id' == ren.extraction(id) && who' == who && multiset(fields') == multiset(fields)
    case _ => false
  }

  ghost predicate RenamedList(ren: Renaming, a: seq<LedgerRecord>, b: seq<LedgerRecord>) {
    && Injective(ren.evidence) && Injective(ren.extraction)
    && |a| == |b| && forall i :: 0 <= i < |a| ==> Renamed(ren, a[i], b[i])
  }

  // The references of `d` are those of `c` under other names.
  ghost predicate RenamedContext(ren: Renaming, c: Context, d: Context) {
    && c.h == d.h && c.enc == d.enc
    && (forall id, v: nat :: LocalRef(id, v) in c.refs <==> LocalRef(ren.evidence(id), v) in d.refs)
    && (forall id, v: nat :: LocalRef(id, v) in c.refs && LocalRef(ren.evidence(id), v) in d.refs
          ==> c.refs[LocalRef(id, v)] == d.refs[LocalRef(ren.evidence(id), v)])
    && (forall id :: id in c.extractions <==> ren.extraction(id) in d.extractions)
    && (forall id :: id in c.extractions && ren.extraction(id) in d.extractions
          ==> RenamedExtraction(ren, c.extractions[id], d.extractions[ren.extraction(id)]))
  }

  lemma DefinesRenamed(ren: Renaming, r: LedgerRecord, q: LedgerRecord, id: string, v: nat)
    requires Injective(ren.evidence) && Renamed(ren, r, q)
    ensures Defines(r, LocalRef(id, v)) <==> Defines(q, LocalRef(ren.evidence(id), v))
    ensures r.body.Evidence? <==> q.body.Evidence?
    ensures r.body.Evidence? && q.body.Evidence? ==> r.body.content == q.body.content
  {
    hide LocalRef;
    if r.body.Evidence? {
      var e, w := r.body.evidenceId, r.body.version;
      if LocalRef(e, w) == LocalRef(id, v) {
        LocalRefInjective(e, w, id, v);
      }
      if LocalRef(ren.evidence(e), w) == LocalRef(ren.evidence(id), v) {
        LocalRefInjective(ren.evidence(e), w, ren.evidence(id), v);
      }
    }
  }

  lemma {:induction false} RenamedRefs(h: HashFn, enc: NormalEncoder, ren: Renaming, a: seq<LedgerRecord>,
                                       b: seq<LedgerRecord>, n: nat, id: string, v: nat)
    requires RenamedList(ren, a, b) && n <= |a|
    ensures var p, q := RefsTo(h, enc, a, n), RefsTo(h, enc, b, n);
      var k, l := LocalRef(id, v), LocalRef(ren.evidence(id), v);
      (k in p <==> l in q) && (k in p && l in q ==> p[k] == q[l])
  {
    if n > 0 {
      RefsStep(h, enc, a, n, LocalRef(id, v));
      RefsStep(h, enc, b, n, LocalRef(ren.evidence(id), v));
      hide RefsTo, LocalRef, Renamed;
      RenamedRefs(h, enc, ren, a, b, n - 1, id, v);
      DefinesRenamed(ren, a[n - 1], b[n - 1], id, v);
    }
  }

  lemma {:induction false} RenamedExtractions(ren: Renaming, a: seq<LedgerRecord>, b: seq<LedgerRecord>, n: nat,
                                              id: string)
    requires RenamedList(ren, a, b) && n <= |a|
    ensures var p, q := ExtractionsTo(a, n), ExtractionsTo(b, n);
      && (id in p <==> ren.extraction(id) in q)
      && (id in p && ren.extraction(id) in q ==> RenamedExtraction(ren, p[id], q[ren.extraction(id)]))
  {
    hide RenamedExtraction, KeyRenamed;
    if n > 0 {
      RenamedExtractions(ren, a, b, n - 1, id);
      assert Renamed(ren, a[n - 1], b[n - 1]);
    }
  }

  lemma RenamedContexts(h: HashFn, enc: NormalEncoder, ren: Renaming, a: seq<LedgerRecord>, b: seq<LedgerRecord>)
    requires RenamedList(ren, a, b)
    ensures RenamedContext(ren, ContextOf(h, enc, a), ContextOf(h, enc, b))
  {
    assert |a| == |b|;
    hide RenamedList, RefsTo, ExtractionsTo, LocalRef, RenamedExtraction;
    var c, d := ContextOf(h, enc, a), ContextOf(h, enc, b);
    forall id, v: nat
      ensures LocalRef(id, v) in c.refs <==> LocalRef(ren.evidence(id), v) in d.refs
      ensures LocalRef(id, v) in c.refs && LocalRef(ren.evidence(id), v) in d.refs ==>
                c.refs[LocalRef(id, v)] == d.refs[LocalRef(ren.evidence(id), v)]
    {
      RenamedRefs(h, enc, ren, a, b, |a|, id, v);
    }
    forall id
      ensures id in c.extractions <==> ren.extraction(id) in d.extractions
      ensures id in c.extractions && ren.extraction(id) in d.extractions ==>
                RenamedExtraction(ren, c.extractions[id], d.extractions[ren.extraction(id)])
    {
      RenamedExtractions(ren, a, b, |a|, id);
    }
  }

  lemma SortIgnoresOrder(a: seq<Json>, b: seq<Json>)
    requires multiset(a) == multiset(b)
    ensures Sort(StrLe, a) == Sort(StrLe, b)
  {
    StrLeIsTotalOrder();
    SortProperties(StrLe, a);
    SortProperties(StrLe, b);
    SortedUnique(StrLe, Sort(StrLe, a), Sort(StrLe, b));
  }

  lemma {:induction false} PlainRenamed(ren: Renaming, c: Context, d: Context, id: string, fuel: nat)
    requires RenamedContext(ren, c, d)
    ensures Plain(c, id, fuel) == Plain(d, ren.extraction(id), fuel)
    decreases fuel
  {
    hide LocalRef, Sort;
    if fuel > 0 && id in c.extractions {
      var e, f := c.extractions[id], d.extractions[ren.extraction(id)];
      SortIgnoresOrder(e.fields, f.fields);
      assert LocalRef(e.evidenceId, e.evidenceVersion) in c.refs <==>
          LocalRef(f.evidenceId, f.evidenceVersion) in d.refs;
      if e.supersedes.Some? {
        PlainRenamed(ren, c, d, e.supersedes.value, fuel - 1);
      }
    }
  }

  lemma YieldsRenamed(ren: Renaming, c: Context, d: Context, id: string, r: Result<Normal, SemanticError>)
    requires RenamedContext(ren, c, d)
    ensures Yields(c, id, r) <==> Yields(d, ren.extraction(id), r)
  {
    hide RenamedContext, Plain;
    forall fuel: nat ensures Plain(c, id, fuel) == Plain(d, ren.extraction(id), fuel) {
      PlainRenamed(ren, c, d, id, fuel);
    }
  }

  lemma FormRenamed(ren: Renaming, c: Context, d: Context, r: LedgerRecord, q: LedgerRecord, form: Result<Normal,
      SemanticError>)
    requires RenamedContext(ren, c, d) && Renamed(ren, r, q)
    ensures FormOf(c, r, form) <==> FormOf(d, q, form)
  {
    hide Yields, LocalRef, Sort;
    match (r.body, q.body)
    case (Registry(p, _), Registry(p', _)) =>
      if p.offices.Some? { SortIgnoresOrder(p.offices.value, p'.offices.value); }
      if p.units.Some? { SortIgnoresOrder(p.units.value, p'.units.value); }
    case (Extraction(e, _), Extraction(f, _)) =>
      YieldsRenamed(ren, c, d, r.key, form);
    case (Review(id, who, fields, _), Review(id', who', fields', _)) =>
      SortIgnoresOrder(fields, fields');
      forall t ensures Yields(c, id, t) <==> Yields(d, id', t) {
        YieldsRenamed(ren, c, d, id, t);
      }
      assert forall t :: ReviewNormal(c, t, who, fields) == ReviewNormal(d, t, who', fields');
    case _ =>
  }

  // Renaming evidence and extraction identifiers consistently, changing whatever is dropped and
  // reordering offices, units and fields does not move the semantic root.
  lemma SemanticRootIgnoresNames(h: HashFn, enc: NormalEncoder, leaf: LeafEncoder, ren: Renaming,
                                 a: seq<LedgerRecord>, b: seq<LedgerRecord>,
                                 x: Result<(Digest, nat), SemanticError>, y: Result<(Digest, nat), SemanticError>)
    requires RenamedList(ren, a, b)
    requires HasSemanticRoot(h, enc, leaf, a, x) && HasSemanticRoot(h, enc, leaf, b, y)
    ensures x.Ok? <==> y.Ok?
    ensures x.Ok? ==> x == y
  {
    hide HasSemanticRoot, FormOf, RenamedContext, Renamed;
    var c, d := ContextOf(h, enc, a), ContextOf(h, enc, b);
    RenamedContexts(h, enc, ren, a, b);
    forall i, form | 0 <= i < |a| ensures FormOf(c, a[i], form) <==> FormOf(d, b[i], form) {
      FormRenamed(ren, c, d, a[i], b[i], form);
    }
    SamePointwiseForms(c, a, d, b);
    SameFormsSameRoot(h, enc, leaf, a, b, x, y);
  }

  lemma SamePointwiseForms(c: Context, a: seq<LedgerRecord>, d: Context, b: seq<LedgerRecord>)
    requires c.h == d.h && c.enc == d.enc && |a| == |b|
    requires forall i, form :: 0 <= i < |a| ==> (FormOf(c, a[i], form) <==> FormOf(d, b[i], form))
    ensures SameForms(c, a, d, b)
  {
    hide FormOf;
    forall i | 0 <= i < |a| ensures HasForm(c, a[i]) <==> HasForm(d, b[i]) {
      if HasForm(c, a[i]) {
        var n :| FormOf(c, a[i], Ok(n));
        assert FormOf(d, b[i], Ok(n));
      }
      if HasForm(d, b[i]) {
        var n :| FormOf(d, b[i], Ok(n));
        assert FormOf(c, a[i], Ok(n));
      }
    }
    forall n ensures IsForm(c, a, n) <==> IsForm(d, b, n) {
      if IsForm(c, a, n) {
        var i :| 0 <= i < |a| && FormOf(c, a[i], Ok(n));
        assert FormOf(d, b[i], Ok(n));
      }
      if IsForm(d, b, n) {
        var i :| 0 <= i < |b| && FormOf(d, b[i], Ok(n));
        assert FormOf(c, a[i], Ok(n));
      }
    }
  }

  // ---------------------------------------------------------------- absorption

  // `d` resolves whatever `c` resolves, to the same thing.
  ghost predicate Extends(c: Context, d: Context) {
    && c.h == d.h && c.enc == d.enc
    && (forall ref :: ref in c.refs ==> ref in d.refs && d.refs[ref] == c.refs[ref])
    && (forall id :: id in c.extractions ==> id in d.extractions && d.extractions[id] == c.extractions[id])
  }

  // `r` gives nothing that is already known another meaning.
  ghost predicate KeepsMeanings(c: Context, r: LedgerRecord) {
    && (forall ref :: Defines(r, ref) && ref in c.refs ==> c.refs[ref] == EvidenceKey(c.h, c.enc, r))
    && (r.body.Extraction? && r.key in c.extractions ==> c.extractions[r.key] == r.body.extraction)
  }

  lemma {:induction false} PrefixSameMaps(h: HashFn, enc: NormalEncoder, records: seq<LedgerRecord>, r: LedgerRecord,
                                          n: nat)
    requires n <= |records|
    ensures RefsTo(h, enc, records + [r], n) == RefsTo(h, enc, records, n)
    ensures ExtractionsTo(records + [r], n) == ExtractionsTo(records, n)
  {
    hide LocalRef;
    if n > 0 {
      PrefixSameMaps(h, enc, records, r, n - 1);
      assert (records + [r])[n - 1] == records[n - 1];
    }
  }

  // Adding a record leaves everything resolved as it was exactly when it redefines nothing.
  lemma ExtendsIffMeaningsKept(h: HashFn, enc: NormalEncoder, records: seq<LedgerRecord>, r: LedgerRecord)
    ensures Extends(ContextOf(h, enc, records), ContextOf(h, enc, records + [r]))
            <==> KeepsMeanings(ContextOf(h, enc, records), r)
  {
    hide LocalRef;
    var longer := records + [r];
    var c, d := ContextOf(h, enc, records), ContextOf(h, enc, longer);
    PrefixSameMaps(h, enc, records, r, |records|);
    assert longer[|records|] == r;
    forall ref
      ensures ref in d.refs <==> ref in c.refs || Defines(r, ref)
      ensures Defines(r, ref) ==> ref in d.refs && d.refs[ref] == EvidenceKey(h, enc, r)
      ensures !Defines(r, ref) && ref in c.refs ==> d.refs[ref] == c.refs[ref]
    {
      RefsStep(h, enc, longer, |longer|, ref);
    }
    hide RefsTo;
  }

  lemma {:induction false} PlainExtends(c: Context, d: Context, id: string, fuel: nat)
    requires Extends(c, d) && Plain(c, id, fuel).Done?
    ensures Plain(d, id, fuel) == Plain(c, id, fuel)
    decreases fuel
  {
    hide LocalRef, Assemble;
    var e := c.extractions[id];
    if e.supersedes.Some? {
      PlainExtends(c, d, e.supersedes.value, fuel - 1);
    }
  }

  lemma FormExtends(c: Context, d: Context, r: LedgerRecord, n: Normal)
    requires Extends(c, d) && FormOf(c, r, Ok(n))
    ensures FormOf(d, r, Ok(n))
  {
    hide LocalRef, Sort;
    match r.body
    case Extraction(_, _) =>
      var fuel: nat :| Plain(c, r.key, fuel) == Done(n);
      PlainExtends(c, d, r.key, fuel);
    case Review(id, who, fields, _) =>
      var t :| Yields(c, id, t) && Ok(n) == ReviewNormal(c, t, who, fields);
      var fuel: nat :| Plain(c, id, fuel) == Done(t.value);
      PlainExtends(c, d, id, fuel);
      assert Yields(d, id, t);
    case _ =>
  }

  // Adding a record whose normal form is already present and that redefines nothing does not move
  // the semantic root of a release that has one.
  lemma SemanticRootAbsorbs(h: HashFn, enc: NormalEncoder, leaf: LeafEncoder, records: seq<LedgerRecord>,
                            r: LedgerRecord, n: Normal,
                            x: Result<(Digest, nat), SemanticError>, y: Result<(Digest, nat), SemanticError>)
    requires KeepsMeanings(ContextOf(h, enc, records), r)
    requires IsForm(ContextOf(h, enc, records), records, n) && FormOf(ContextOf(h, enc, records + [r]), r, Ok(n))
    requires HasSemanticRoot(h, enc, leaf, records, x) && HasSemanticRoot(h, enc, leaf, records + [r], y)
    requires x.Ok?
    ensures x == y
  {
    hide FormOf, KeepsMeanings, Extends;
    var longer := records + [r];
    var c, d := ContextOf(h, enc, records), ContextOf(h, enc, longer);
    ExtendsIffMeaningsKept(h, enc, records, r);
    assert AllHaveForms(c, records);
    forall i | 0 <= i < |records| ensures exists m :: FormOf(c, records[i], Ok(m)) && FormOf(d, records[i], Ok(m)) {
      assert HasForm(c, records[i]);
      var m :| FormOf(c, records[i], Ok(m));
      FormExtends(c, d, records[i], m);
    }
    AbsorbedForms(c, records, d, r, n);
    SameFormsSameRoot(h, enc, leaf, records, longer, x, y);
  }

  lemma AbsorbedForms(c: Context, records: seq<LedgerRecord>, d: Context, r: LedgerRecord, n: Normal)
    requires c.h == d.h && c.enc == d.enc
    requires forall i :: 0 <= i < |records| ==> exists m :: FormOf(c, records[i], Ok(m)) && FormOf(d, records[i], Ok(m))
    requires IsForm(c, records, n) && FormOf(d, r, Ok(n))
    ensures SameForms(c, records, d, records + [r])
  {
    hide FormOf;
    var longer := records + [r];
    forall i | 0 <= i < |longer| ensures HasForm(d, longer[i]) {
      if i < |records| {
        assert longer[i] == records[i];
      }
    }
    forall m ensures IsForm(c, records, m) <==> IsForm(d, longer, m) {
      if IsForm(c, records, m) {
        var i :| 0 <= i < |records| && FormOf(c, records[i], Ok(m));
        var k :| FormOf(c, records[i], Ok(k)) && FormOf(d, records[i], Ok(k));
        FormOnce(c, records[i], Ok(m), Ok(k));
        assert longer[i] == records[i];
      }
      if IsForm(d, longer, m) {
        var i :| 0 <= i < |longer| && FormOf(d, longer[i], Ok(m));
        if i < |records| {
          assert longer[i] == records[i];
          var k :| FormOf(c, records[i], Ok(k)) && FormOf(d, records[i], Ok(k));
          FormOnce(d, records[i], Ok(m), Ok(k));
        } else {
          FormOnce(d, r, Ok(m), Ok(n));
        }
      }
    }
  }

  // A record that redefines a reference is not absorbed, although its normal form is there already:
  // `f` says of the reference of `at` what `g` says of another one.
  lemma RedefinitionMovesRoot(h: HashFn, enc: NormalEncoder, leaf: LeafEncoder,
                              e: LedgerRecord, g: LedgerRecord, at: LedgerRecord, f: LedgerRecord,
                              p: Result<seq<Normal>, SemanticError>, q: Result<seq<Normal>, SemanticError>)
    requires Injective(leaf) && Rivals(e, f, at) && EvidenceKey(h, enc, e) != EvidenceKey(h, enc, f)
    requires g.body.Evidence? && g.body.content == f.body.content
    requires !Defines(g, LocalRef(at.body.evidenceId, at.body.evidenceVersion))
    requires Describes(ContextOf(h, enc, [e, g, at]), [e, g, at], p)
    requires Describes(ContextOf(h, enc, [e, g, at, f]), [e, g, at, f], q)
    ensures IsForm(ContextOf(h, enc, [e, g, at]), [e, g, at], EvidenceForm(f.body.content))
    ensures p.Ok? && q.Ok? && p.value != [] && q.value != []
    ensures RootOfForms(h, leaf, p.value).value.0 != RootOfForms(h, leaf, q.value).value.0
            || Confusable(h, leaf, p.value, q.value)
  {
    hide Describes, KeysClash, LocalRef, Confusable, HasForms, ContextOf, IsForm, Defines;
    BeforeRedefinition(h, enc, e, g, at);
    AfterRedefinition(h, enc, e, g, at, f);
    NoClash(h, enc, [e, g, at], e, g, at, EvidenceKey(h, enc, e));
    NoClash(h, enc, [e, g, at, f], e, f, at, EvidenceKey(h, enc, f));
    DifferentAttestations(e, f, at, EvidenceKey(h, enc, f), EvidenceKey(h, enc, e));
    assert FormsWith(EvidenceKey(h, enc, e), e, g, at) == FormsWith(EvidenceKey(h, enc, e), e, f, at);
    FormsTellApart(h, enc, leaf, [e, g, at], [e, g, at, f], p, q,
                   FormsWith(EvidenceKey(h, enc, e), e, g, at), FormsWith(EvidenceKey(h, enc, f), e, f, at));
    FormsContain(ContextOf(h, enc, [e, g, at]), [e, g, at], FormsWith(EvidenceKey(h, enc, e), e, g, at),
                 EvidenceForm(f.body.content));
  }

  lemma FormsContain(ctx: Context, records: seq<LedgerRecord>, forms: set<Normal>, n: Normal)
    requires HasForms(ctx, records, forms) && n in forms
    ensures IsForm(ctx, records, n)
  {
  }

  lemma BeforeRedefinition(h: HashFn, enc: NormalEncoder, e: LedgerRecord, g: LedgerRecord, at: LedgerRecord)
    requires e.body.Evidence? && g.body.Evidence? && at.body.Attestation?
    requires var ref := LocalRef(at.body.evidenceId, at.body.evidenceVersion); Defines(e, ref) && !Defines(g, ref)
    ensures HasForms(ContextOf(h, enc, [e, g, at]), [e, g, at], FormsWith(EvidenceKey(h, enc, e), e, g, at))
  {
    hide LocalRef, RefsTo, HasForms, ExtractionsTo, Defines;
    var a, ref := [e, g, at], LocalRef(at.body.evidenceId, at.body.evidenceVersion);
    DefinedIsKnown(h, enc, a, 3, 0, ref);
    var i := LastDefinition(h, enc, a, 3, ref);
    AttestationDefinesNothing(at, ref);
    assert a[0] == e && a[1] == g && a[2] == at && i == 0;
    AttestedForms(ContextOf(h, enc, a), a, e, g, at);
  }

  lemma AfterRedefinition(h: HashFn, enc: NormalEncoder, e: LedgerRecord, g: LedgerRecord, at: LedgerRecord,
                          f: LedgerRecord)
    requires Rivals(e, f, at) && g.body.Evidence? && g.body.content == f.body.content
    ensures HasForms(ContextOf(h, enc, [e, g, at, f]), [e, g, at, f], FormsWith(EvidenceKey(h, enc, f), e, f, at))
  {
    hide LocalRef, RefsTo, HasForms, ExtractionsTo, Defines;
    var a, ref := [e, g, at, f], LocalRef(at.body.evidenceId, at.body.evidenceVersion);
    DefinedIsKnown(h, enc, a, 4, 3, ref);
    var i := LastDefinition(h, enc, a, 4, ref);
    assert a[3] == f && i == 3;
    AttestedForms(ContextOf(h, enc, a), a, e, f, at);
  }
}
