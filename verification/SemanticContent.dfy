// What a semantic root commits to: the content that its records carry, whatever they are called and
// however they refer to each other.
module SemanticContent {
  import opened Outcomes
  import opened Hashing
  import opened Ordering
  import opened Normalization
  import opened SemanticSet
  import Merkle
  import opened SemanticTheorems

  // ---------------------------------------------------------------- what records say

  // Record `i` is the last one to define the reference.
  ghost predicate DefinesLast(records: seq<LedgerRecord>, ref: string, i: nat) {
    && i < |records| && Defines(records[i], ref)
    && forall j :: i < j < |records| ==> !Defines(records[j], ref)
  }

  // Record `i` is the last extraction under the identifier.
  ghost predicate StoredLast(records: seq<LedgerRecord>, id: string, i: nat) {
    && i < |records| && records[i].body.Extraction? && records[i].key == id
    && forall j :: i < j < |records| ==> !(records[j].body.Extraction? && records[j].key == id)
  }

  // The two references mean the same evidence, each in its own release.
  ghost predicate SameEvidence(a: seq<LedgerRecord>, ref: string, b: seq<LedgerRecord>, ref': string) {
    exists i: nat, j: nat :: DefinesLast(a, ref, i) && DefinesLast(b, ref', j) && a[i].body.content == b[j].body.content
  }

  // The two extractions read the same from the same evidence.
  ghost predicate SameReading(a: seq<LedgerRecord>, e: ExtractionPayload, b: seq<LedgerRecord>, f: ExtractionPayload) {
    && e.status == f.status && e.provenance == f.provenance && multiset(e.fields) == multiset(f.fields)
    && SameEvidence(a, LocalRef(e.evidenceId, e.evidenceVersion), b, LocalRef(f.evidenceId, f.evidenceVersion))
  }

  // The stored extractions read the same, and so do those they supersede, as far as `depth` goes.
  ghost predicate SameExtraction(a: seq<LedgerRecord>, id: string, b: seq<LedgerRecord>, id': string, depth: nat)
    decreases depth, 0
  {
    depth == 0 ||
    exists i: nat, j: nat ::
      && StoredLast(a, id, i) && StoredLast(b, id', j)
      && SameReading(a, a[i].body.extraction, b, b[j].body.extraction)
      && SameParents(a, a[i].body.extraction.supersedes, b, b[j].body.extraction.supersedes, depth - 1)
  }

  ghost predicate SameParents(a: seq<LedgerRecord>, p: Option<string>, b: seq<LedgerRecord>, q: Option<string>,
                              depth: nat)
    decreases depth, 1
  {
    (p.None? && q.None?) || (p.Some? && q.Some? && SameExtraction(a, p.value, b, q.value, depth))
  }

  ghost predicate SameHistory(a: seq<LedgerRecord>, id: string, b: seq<LedgerRecord>, id': string) {
    forall depth: nat :: SameExtraction(a, id, b, id', depth)
  }

  ghost predicate SameSource(p: Option<RegistrySource>, q: Option<RegistrySource>) {
    p.Some? == q.Some? && (p.Some? && q.Some? ==> p.value.content == q.value.content)
  }

  // Record `r` of one release says what record `q` of another says.
  ghost predicate SameContent(a: seq<LedgerRecord>, r: LedgerRecord, b: seq<LedgerRecord>, q: LedgerRecord) {
    match (r.body, q.body)
    case (Registry(p, _), Registry(p', _)) =>
      && p.rest == p'.rest && SameSource(p.source, p'.source)
      && SameBag(p.offices, p'.offices) && SameBag(p.units, p'.units)
    case (Evidence(_, _, content, _), Evidence(_, _, content', _)) => content == content'
    case (Attestation(id, v, content, _), Attestation(id', v', content', _)) =>
      content == content' && SameEvidence(a, LocalRef(id, v), b, LocalRef(id', v'))
    case (Extraction(_, _), Extraction(_, _)) => SameHistory(a, r.key, b, q.key)
    case (Review(id, who, fields, _), Review(id', who', fields', _)) =>
      who == who' && multiset(fields) == multiset(fields') && SameHistory(a, id, b, id')
    case _ => false
  }

  ghost predicate HasTwin(a: seq<LedgerRecord>, r: LedgerRecord, b: seq<LedgerRecord>) {
    exists q :: q in b && SameContent(a, r, b, q)
  }

  // The releases say the same things.
  ghost predicate SameRelease(a: seq<LedgerRecord>, b: seq<LedgerRecord>) {
    (forall r :: r in a ==> HasTwin(a, r, b)) && (forall q :: q in b ==> HasTwin(b, q, a))
  }

  // ---------------------------------------------------------------- references and stored extractions

  lemma ResolvedIsDefined(h: HashFn, enc: NormalEncoder, records: seq<LedgerRecord>, ref: string) returns (i: nat)
    requires ref in ContextOf(h, enc, records).refs
    ensures DefinesLast(records, ref, i)
    ensures ContextOf(h, enc, records).refs[ref] == h(enc(EvidenceForm(records[i].body.content)))
  {
    i := LastDefinition(h, enc, records, |records|, ref);
  }

  lemma DefinedIsResolved(h: HashFn, enc: NormalEncoder, records: seq<LedgerRecord>, ref: string, i: nat)
    requires DefinesLast(records, ref, i)
    ensures ref in ContextOf(h, enc, records).refs
    ensures ContextOf(h, enc, records).refs[ref] == h(enc(EvidenceForm(records[i].body.content)))
  {
    DefinedIsKnown(h, enc, records, |records|, i, ref);
    var j := LastDefinition(h, enc, records, |records|, ref);
    hide RefsTo, Defines;
    assert i == j || i < j || j < i;
  }

  lemma StoredIs(h: HashFn, enc: NormalEncoder, records: seq<LedgerRecord>, id: string, i: nat)
    requires StoredLast(records, id, i)
    ensures id in ContextOf(h, enc, records).extractions
    ensures ContextOf(h, enc, records).extractions[id] == records[i].body.extraction
  {
    StoredIsKnown(records, |records|, i);
    var j := LastExtraction(records, |records|, id);
    hide ExtractionsTo;
    assert i == j || i < j || j < i;
  }

  lemma KnownIsStored(h: HashFn, enc: NormalEncoder, records: seq<LedgerRecord>, id: string) returns (i: nat)
    requires id in ContextOf(h, enc, records).extractions
    ensures StoredLast(records, id, i)
    ensures ContextOf(h, enc, records).extractions[id] == records[i].body.extraction
  {
    i := LastExtraction(records, |records|, id);
  }

  // ---------------------------------------------------------------- equal forms carry equal content

  // The two releases have the same forms, and a type and a semantic key determine one.
  ghost predicate ShareForms(h: HashFn, enc: NormalEncoder, a: seq<LedgerRecord>, b: seq<LedgerRecord>) {
    && (forall n :: IsForm(ContextOf(h, enc, a), a, n) <==> IsForm(ContextOf(h, enc, b), b, n))
    && !KeysClash(ContextOf(h, enc, a), a)
  }

  lemma SameKeySameForm(h: HashFn, enc: NormalEncoder, a: seq<LedgerRecord>, b: seq<LedgerRecord>, m: Normal, n: Normal)
    requires ShareForms(h, enc, a, b)
    requires IsForm(ContextOf(h, enc, a), a, m) && IsForm(ContextOf(h, enc, b), b, n)
    requires TypeName(m) == TypeName(n) && h(enc(m)) == h(enc(n))
    ensures m == n
  {
    hide IsForm, RefsTo, ExtractionsTo, TypeName;
    var c := ContextOf(h, enc, a);
    assert IsForm(c, a, n) && Identity(c, m) == Identity(c, n);
  }

  lemma EvidenceIsForm(ctx: Context, records: seq<LedgerRecord>, i: nat)
    requires i < |records| && records[i].body.Evidence?
    ensures IsForm(ctx, records, EvidenceForm(records[i].body.content))
  {
    assert FormOf(ctx, records[i], Ok(EvidenceForm(records[i].body.content)));
  }

  lemma SameKeySameEvidence(h: HashFn, enc: NormalEncoder, a: seq<LedgerRecord>, ref: string,
                            b: seq<LedgerRecord>, ref': string)
    requires ShareForms(h, enc, a, b)
    requires ref in ContextOf(h, enc, a).refs && ref' in ContextOf(h, enc, b).refs
    requires ContextOf(h, enc, a).refs[ref] == ContextOf(h, enc, b).refs[ref']
    ensures SameEvidence(a, ref, b, ref')
  {
    hide ShareForms, ContextOf, IsForm;
    var i := ResolvedIsDefined(h, enc, a, ref);
    var j := ResolvedIsDefined(h, enc, b, ref');
    EvidenceIsForm(ContextOf(h, enc, a), a, i);
    EvidenceIsForm(ContextOf(h, enc, b), b, j);
    SameKeySameForm(h, enc, a, b, EvidenceForm(a[i].body.content), EvidenceForm(b[j].body.content));
  }

  // What an extraction with a form consists of.
  lemma FormUnfolds(ctx: Context, id: string, n: Normal) returns (e: ExtractionPayload, below: Option<Normal>)
    requires Yields(ctx, id, Ok(n))
    ensures id in ctx.extractions && ctx.extractions[id] == e
    ensures LocalRef(e.evidenceId, e.evidenceVersion) in ctx.refs
    ensures e.supersedes.Some? <==> below.Some?
    ensures below.Some? && e.supersedes.Some? ==> Yields(ctx, e.supersedes.value, Ok(below.value))
    ensures n == ExtractionForm(ctx.refs[LocalRef(e.evidenceId, e.evidenceVersion)], e.status, e.provenance,
                                Sort(StrLe, e.fields),
                                if below.Some? then Some(ctx.h(ctx.enc(below.value))) else None)
  {
    hide LocalRef, Sort;
    var fuel: nat :| Plain(ctx, id, fuel) == Done(n);
    e := ctx.extractions[id];
    if e.supersedes.Some? {
      var outcome := Plain(ctx, e.supersedes.value, fuel - 1);
      below := Some(outcome.form);
    } else {
      below := None;
    }
  }

  lemma SortedSameBag(a: seq<Json>, b: seq<Json>)
    requires Sort(StrLe, a) == Sort(StrLe, b)
    ensures multiset(a) == multiset(b)
  {
    StrLeIsTotalOrder();
    SortProperties(StrLe, a);
    SortProperties(StrLe, b);
  }

  lemma YieldedIsForm(h: HashFn, enc: NormalEncoder, records: seq<LedgerRecord>, id: string, n: Normal)
    requires Yields(ContextOf(h, enc, records), id, Ok(n)) && id in ContextOf(h, enc, records).extractions
    ensures IsForm(ContextOf(h, enc, records), records, n)
  {
    hide ContextOf, Yields;
    var i := KnownIsStored(h, enc, records, id);
    assert FormOf(ContextOf(h, enc, records), records[i], Ok(n));
  }

  lemma YieldedIsExtraction(ctx: Context, id: string, n: Normal)
    requires Yields(ctx, id, Ok(n))
    ensures n.ExtractionForm? && id in ctx.extractions
  {
    hide Yields, LocalRef, Sort;
    var e, below := FormUnfolds(ctx, id, n);
  }

  // Extractions with one semantic key have one form.
  lemma SameKeySameExtraction(h: HashFn, enc: NormalEncoder, a: seq<LedgerRecord>, id: string, m: Normal,
                              b: seq<LedgerRecord>, id': string, n: Normal)
    requires ShareForms(h, enc, a, b)
    requires Yields(ContextOf(h, enc, a), id, Ok(m)) && Yields(ContextOf(h, enc, b), id', Ok(n))
    requires h(enc(m)) == h(enc(n))
    ensures m == n
  {
    hide ShareForms, ContextOf, IsForm, Yields;
    YieldedIsExtraction(ContextOf(h, enc, a), id, m);
    YieldedIsExtraction(ContextOf(h, enc, b), id', n);
    YieldedIsForm(h, enc, a, id, m);
    YieldedIsForm(h, enc, b, id', n);
    SameKeySameForm(h, enc, a, b, m, n);
  }

  lemma {:induction false} SameFormSameExtraction(h: HashFn, enc: NormalEncoder, a: seq<LedgerRecord>, id: string,
                                                  b: seq<LedgerRecord>, id': string, n: Normal, depth: nat)
    requires ShareForms(h, enc, a, b)
    requires Yields(ContextOf(h, enc, a), id, Ok(n)) && Yields(ContextOf(h, enc, b), id', Ok(n))
    ensures SameExtraction(a, id, b, id', depth)
    decreases depth
  {
    if depth > 0 {
      hide ShareForms, IsForm, Yields, LocalRef, Sort, SameEvidence, RefsTo, ExtractionsTo;
      var c, d := ContextOf(h, enc, a), ContextOf(h, enc, b);
      var e, below := FormUnfolds(c, id, n);
      var f, below' := FormUnfolds(d, id', n);
      var i := KnownIsStored(h, enc, a, id);
      var j := KnownIsStored(h, enc, b, id');
      SortedSameBag(e.fields, f.fields);
      SameKeySameEvidence(h, enc, a, LocalRef(e.evidenceId, e.evidenceVersion),
                          b, LocalRef(f.evidenceId, f.evidenceVersion));
      if below.Some? {
        SameKeySameExtraction(h, enc, a, e.supersedes.value, below.value, b, f.supersedes.value, below'.value);
        SameFormSameExtraction(h, enc, a, e.supersedes.value, b, f.supersedes.value, below.value, depth - 1);
      }
      hide StoredLast;
      assert SameReading(a, a[i].body.extraction, b, b[j].body.extraction);
      assert SameParents(a, a[i].body.extraction.supersedes, b, b[j].body.extraction.supersedes, depth - 1);
    }
  }

  lemma SameFormSameHistory(h: HashFn, enc: NormalEncoder, a: seq<LedgerRecord>, id: string,
                            b: seq<LedgerRecord>, id': string, n: Normal)
    requires ShareForms(h, enc, a, b)
    requires Yields(ContextOf(h, enc, a), id, Ok(n)) && Yields(ContextOf(h, enc, b), id', Ok(n))
    ensures SameHistory(a, id, b, id')
  {
    hide ShareForms, ContextOf, Yields, SameExtraction;
    forall depth: nat ensures SameExtraction(a, id, b, id', depth) {
      SameFormSameExtraction(h, enc, a, id, b, id', n, depth);
    }
  }

  lemma SameRegistries(p: RegistryPayload, q: RegistryPayload)
    requires RegistryNormal(p) == RegistryNormal(q)
    ensures p.rest == q.rest && SameSource(p.source, q.source)
    ensures SameBag(p.offices, q.offices) && SameBag(p.units, q.units)
  {
    hide Sort;
    if p.offices.Some? { SortedSameBag(p.offices.value, q.offices.value); }
    if p.units.Some? { SortedSameBag(p.units.value, q.units.value); }
  }

  // Records with one normal form say the same.
  lemma SameFormSameContent(h: HashFn, enc: NormalEncoder, a: seq<LedgerRecord>, r: LedgerRecord,
                            b: seq<LedgerRecord>, q: LedgerRecord, n: Normal)
    requires ShareForms(h, enc, a, b)
    requires FormOf(ContextOf(h, enc, a), r, Ok(n)) && FormOf(ContextOf(h, enc, b), q, Ok(n))
    ensures SameContent(a, r, b, q)
  {
    hide ShareForms, Yields, LocalRef, Sort, SameEvidence, SameHistory, RefsTo, ExtractionsTo, RegistryNormal, SameBag;
    var c, d := ContextOf(h, enc, a), ContextOf(h, enc, b);
    FormKinds(c, r, n);
    FormKinds(d, q, n);
    match (r.body, q.body)
    case (Registry(p, _), Registry(p', _)) => SameRegistries(p, p');
    case (Attestation(id, v, _, _), Attestation(id', v', _, _)) =>
      SameKeySameEvidence(h, enc, a, LocalRef(id, v), b, LocalRef(id', v'));
    case (Extraction(_, _), Extraction(_, _)) => SameFormSameHistory(h, enc, a, r.key, b, q.key, n);
    case (Review(id, who, fields, _), Review(id', who', fields', _)) =>
      SameReviews(h, enc, a, r, b, q, n);
    case _ =>
  }

  // The constructor of a form tells the type of its record.
  lemma FormKinds(ctx: Context, r: LedgerRecord, n: Normal)
    requires FormOf(ctx, r, Ok(n))
    ensures r.body.Registry? <==> n.RegistryForm?
    ensures r.body.Evidence? <==> n.EvidenceForm?
    ensures r.body.Attestation? <==> n.AttestationForm?
    ensures r.body.Extraction? <==> n.ExtractionForm?
    ensures r.body.Review? <==> n.ReviewForm?
  {
    hide Yields, LocalRef, Sort;
    if r.body.Extraction? {
      YieldedIsExtraction(ctx, r.key, n);
    }
  }

  lemma SameReviews(h: HashFn, enc: NormalEncoder, a: seq<LedgerRecord>, r: LedgerRecord,
                    b: seq<LedgerRecord>, q: LedgerRecord, n: Normal)
    requires ShareForms(h, enc, a, b) && r.body.Review? && q.body.Review?
    requires FormOf(ContextOf(h, enc, a), r, Ok(n)) && FormOf(ContextOf(h, enc, b), q, Ok(n))
    ensures SameContent(a, r, b, q)
  {
    hide ShareForms, Yields, Sort, SameHistory, RefsTo, ExtractionsTo;
    var c, d := ContextOf(h, enc, a), ContextOf(h, enc, b);
    var t :| Yields(c, r.body.extractionId, t) && Ok(n) == ReviewNormal(c, t, r.body.reviewer, r.body.fields);
    var u :| Yields(d, q.body.extractionId, u) && Ok(n) == ReviewNormal(d, u, q.body.reviewer, q.body.fields);
    SortedSameBag(r.body.fields, q.body.fields);
    SameKeySameExtraction(h, enc, a, r.body.extractionId, t.value, b, q.body.extractionId, u.value);
    SameFormSameHistory(h, enc, a, r.body.extractionId, b, q.body.extractionId, t.value);
  }

  // ---------------------------------------------------------------- equal content gives equal forms

  lemma SameEvidenceSameKey(h: HashFn, enc: NormalEncoder, a: seq<LedgerRecord>, ref: string,
                            b: seq<LedgerRecord>, ref': string)
    requires SameEvidence(a, ref, b, ref')
    ensures ref in ContextOf(h, enc, a).refs && ref' in ContextOf(h, enc, b).refs
    ensures ContextOf(h, enc, a).refs[ref] == ContextOf(h, enc, b).refs[ref']
  {
    hide ContextOf;
    var i: nat, j: nat :| DefinesLast(a, ref, i) && DefinesLast(b, ref', j) && a[i].body.content == b[j].body.content;
    DefinedIsResolved(h, enc, a, ref, i);
    DefinedIsResolved(h, enc, b, ref', j);
  }

  lemma {:induction false} SameExtractionSameForm(h: HashFn, enc: NormalEncoder, a: seq<LedgerRecord>, id: string,
                                                  b: seq<LedgerRecord>, id': string, n: Normal, fuel: nat)
    requires Plain(ContextOf(h, enc, a), id, fuel) == Done(n) && SameExtraction(a, id, b, id', fuel)
    ensures Plain(ContextOf(h, enc, b), id', fuel) == Done(n)
    decreases fuel
  {
    hide LocalRef, Sort, SameEvidence, RefsTo, ExtractionsTo;
    var i: nat, j: nat :|
      && StoredLast(a, id, i) && StoredLast(b, id', j)
      && SameReading(a, a[i].body.extraction, b, b[j].body.extraction)
      && SameParents(a, a[i].body.extraction.supersedes, b, b[j].body.extraction.supersedes, fuel - 1);
    StoredIs(h, enc, a, id, i);
    StoredIs(h, enc, b, id', j);
    hide StoredLast;
    var e, f := a[i].body.extraction, b[j].body.extraction;
    SameEvidenceSameKey(h, enc, a, LocalRef(e.evidenceId, e.evidenceVersion),
                        b, LocalRef(f.evidenceId, f.evidenceVersion));
    SortIgnoresOrder(e.fields, f.fields);
    if e.supersedes.Some? {
      var below := Plain(ContextOf(h, enc, a), e.supersedes.value, fuel - 1);
      SameExtractionSameForm(h, enc, a, e.supersedes.value, b, f.supersedes.value, below.form, fuel - 1);
    }
  }

  lemma SameHistorySameForm(h: HashFn, enc: NormalEncoder, a: seq<LedgerRecord>, id: string,
                            b: seq<LedgerRecord>, id': string, n: Normal)
    requires SameHistory(a, id, b, id') && Yields(ContextOf(h, enc, a), id, Ok(n))
    ensures Yields(ContextOf(h, enc, b), id', Ok(n))
  {
    hide ContextOf, Plain, SameExtraction;
    var fuel: nat :| Plain(ContextOf(h, enc, a), id, fuel) == Done(n);
    SameExtractionSameForm(h, enc, a, id, b, id', n, fuel);
  }

  lemma SameContentSameForm(h: HashFn, enc: NormalEncoder, a: seq<LedgerRecord>, r: LedgerRecord,
                            b: seq<LedgerRecord>, q: LedgerRecord, n: Normal)
    requires SameContent(a, r, b, q) && FormOf(ContextOf(h, enc, a), r, Ok(n))
    ensures FormOf(ContextOf(h, enc, b), q, Ok(n))
  {
    hide Yields, LocalRef, Sort, SameEvidence, SameHistory, RefsTo, ExtractionsTo;
    match (r.body, q.body)
    case (Registry(p, _), Registry(p', _)) =>
      if p.offices.Some? { SortIgnoresOrder(p.offices.value, p'.offices.value); }
      if p.units.Some? { SortIgnoresOrder(p.units.value, p'.units.value); }
    case (Attestation(id, v, _, _), Attestation(id', v', _, _)) =>
      SameEvidenceSameKey(h, enc, a, LocalRef(id, v), b, LocalRef(id', v'));
    case (Extraction(_, _), Extraction(_, _)) => SameHistorySameForm(h, enc, a, r.key, b, q.key, n);
    case (Review(id, who, fields, _), Review(id', who', fields', _)) =>
      var c, d := ContextOf(h, enc, a), ContextOf(h, enc, b);
      var t :| Yields(c, id, t) && Ok(n) == ReviewNormal(c, t, who, fields);
      SortIgnoresOrder(fields, fields');
      SameHistorySameForm(h, enc, a, id, b, id', t.value);
      assert Ok(n) == ReviewNormal(d, t, who', fields');
    case _ =>
  }

  // ---------------------------------------------------------------- the theorem

  lemma FormsMeanContent(h: HashFn, enc: NormalEncoder, a: seq<LedgerRecord>, b: seq<LedgerRecord>)
    requires AllHaveForms(ContextOf(h, enc, a), a) && ShareForms(h, enc, a, b)
    ensures forall r :: r in a ==> HasTwin(a, r, b)
  {
    hide ContextOf, FormOf, SameContent, KeysClash;
    var c, d := ContextOf(h, enc, a), ContextOf(h, enc, b);
    forall r | r in a ensures HasTwin(a, r, b) {
      var i :| 0 <= i < |a| && a[i] == r;
      assert HasForm(c, a[i]);
      var n :| FormOf(c, a[i], Ok(n));
      assert IsForm(c, a, n);
      assert IsForm(d, b, n);
      var j :| 0 <= j < |b| && FormOf(d, b[j], Ok(n));
      SameFormSameContent(h, enc, a, r, b, b[j], n);
    }
  }

  lemma ContentMeansForms(h: HashFn, enc: NormalEncoder, a: seq<LedgerRecord>, b: seq<LedgerRecord>, n: Normal)
    requires forall r :: r in a ==> HasTwin(a, r, b)
    requires IsForm(ContextOf(h, enc, a), a, n)
    ensures IsForm(ContextOf(h, enc, b), b, n)
  {
    hide ContextOf, FormOf, SameContent;
    var i :| 0 <= i < |a| && FormOf(ContextOf(h, enc, a), a[i], Ok(n));
    assert a[i] in a;
    var q :| q in b && SameContent(a, a[i], b, q);
    SameContentSameForm(h, enc, a, a[i], b, q, n);
    var j :| 0 <= j < |b| && b[j] == q;
  }

  lemma SharedFormsAgree(h: HashFn, enc: NormalEncoder, a: seq<LedgerRecord>, b: seq<LedgerRecord>)
    requires ShareForms(h, enc, a, b) && !KeysClash(ContextOf(h, enc, b), b)
    ensures ShareForms(h, enc, b, a)
  {
    hide ContextOf, IsForm, KeysClash;
  }

  // Two releases have one semantic root exactly when they say the same things: every record of either
  // has a record of the other with the same content, down to the evidence it rests on and the
  // extractions it supersedes; or the hashes behind the roots can be confused.
  lemma SemanticRootMeansContent(h: HashFn, enc: NormalEncoder, leaf: LeafEncoder, a: seq<LedgerRecord>, p: seq<Normal>,
                                 b: seq<LedgerRecord>, q: seq<Normal>)
    requires Injective(leaf) && p != [] && q != []
    requires Describes(ContextOf(h, enc, a), a, Ok(p)) && Describes(ContextOf(h, enc, b), b, Ok(q))
    ensures
      || (RootOfForms(h, leaf, p).value.0 == RootOfForms(h, leaf, q).value.0 <==> SameRelease(a, b))
      || Confusable(h, leaf, p, q)
  {
    hide ContextOf, IsForm, AllHaveForms, KeysClash, Confusable, HasTwin, Lists;
    SemanticBinding(h, enc, leaf, a, p, b, q);
    if forall n :: IsForm(ContextOf(h, enc, a), a, n) <==> IsForm(ContextOf(h, enc, b), b, n) {
      assert ShareForms(h, enc, a, b);
      SharedFormsAgree(h, enc, a, b);
      FormsMeanContent(h, enc, a, b);
      FormsMeanContent(h, enc, b, a);
    }
    if SameRelease(a, b) {
      forall n ensures IsForm(ContextOf(h, enc, a), a, n) <==> IsForm(ContextOf(h, enc, b), b, n) {
        if IsForm(ContextOf(h, enc, a), a, n) { ContentMeansForms(h, enc, a, b, n); }
        if IsForm(ContextOf(h, enc, b), b, n) { ContentMeansForms(h, enc, b, a, n); }
      }
    }
  }

  // ---------------------------------------------------------------- names and order

  // What a string of decimal digits stands for.
  function Reading(digits: string): int {
    if digits == [] then 0
    else 10 * Reading(digits[..|digits| - 1]) + (digits[|digits| - 1] as int - '0' as int)
  }

  lemma {:induction false} DecimalReads(n: nat)
    ensures Reading(Decimal(n)) == n && Decimal(n) != []
    ensures n >= 10 ==> Decimal(n)[0] != '0'
  {
    var digit := "0123456789"[n % 10];
    assert digit as int - '0' as int == n % 10;
    if n >= 10 {
      DecimalReads(n / 10);
      assert Decimal(n)[..|Decimal(n)| - 1] == Decimal(n / 10);
      FirstDigit(n);
    } else {
      assert Decimal(n) == [digit] && [digit][..0] == [];
    }
  }

  lemma {:induction false} FirstDigit(n: nat)
    requires n > 0
    ensures Decimal(n)[0] != '0'
    decreases n
  {
    if n >= 10 {
      FirstDigit(n / 10);
      assert Decimal(n)[0] == Decimal(n / 10)[0];
    }
  }

  // A local reference is the identifier, a colon, and the version in decimal.
  lemma LocalRefReads(id: string, version: nat)
    ensures var ref := LocalRef(id, version);
      |id| < |ref| && ref[..|id|] == id && ref[|id|] == ':' && Reading(ref[|id| + 1..]) == version
  {
    DecimalReads(version);
    hide Decimal;
    assert LocalRef(id, version)[|id| + 1..] == Decimal(version);
  }

  // The order in which types are listed.
  function TypeRank(n: Normal): nat {
    match n
    case AttestationForm(_, _) => 0
    case EvidenceForm(_) => 1
    case ExtractionForm(_, _, _, _, _) => 2
    case ReviewForm(_, _, _) => 3
    case RegistryForm(_, _, _, _) => 4
  }

  lemma TypesAreOrdered(m: Normal, n: Normal)
    requires TypeRank(m) < TypeRank(n)
    ensures StrLe(TypeName(m), TypeName(n)) && TypeName(m) != TypeName(n)
  {
    StrLeIsTotalOrder();
    hide StrLe;
    var a, e, x, r, s := "attestation", "evidence_version", "extraction", "extraction_review", "registry_snapshot";
    StepUp(a, e, 0);
    StepUp(e, x, 1);
    StepUp(x, r, 10);
    StepUp(r, s, 0);
  }

  lemma StepUp(a: string, b: string, i: nat)
    requires DiffersUpwards(a, b, i) && a != b
    ensures StrLe(a, b)
  {
    StrLeMeans(a, b);
  }

  // One digest comes before another where they first differ.
  ghost predicate DigestBefore(a: Digest, b: Digest) {
    exists i: nat :: i < 32 && a[..i] == b[..i] && a[i] < b[i]
  }

  lemma LesserDigest(a: Digest, b: Digest)
    requires LexLe(ByteLt, a, b) && a != b
    ensures DigestBefore(a, b)
  {
    var x: Bytes, y: Bytes := a, b;
    LexMeans(ByteLt, x, y);
    assert x[..32] == x && y[..32] == y;
    var i: nat :| FirstDifference(ByteLt, x, y, i);
  }

  // The listing of a release: attestations, evidence, extractions, reviews and registries, and within
  // a type by ascending semantic key.
  lemma ListingIsOrdered(h: HashFn, enc: NormalEncoder, a: seq<LedgerRecord>, p: seq<Normal>, i: nat, j: nat)
    requires Describes(ContextOf(h, enc, a), a, Ok(p)) && i < j < |p|
    ensures TypeRank(p[i]) < TypeRank(p[j])
            || (TypeRank(p[i]) == TypeRank(p[j]) && DigestBefore(h(enc(p[i])), h(enc(p[j]))))
  {
    hide RefsTo, ExtractionsTo, AllHaveForms, TypeName, LexLe, StrLe;
    var m, n := p[i], p[j];
    var c := ContextOf(h, enc, a);
    assert FormLe(h, enc)(m, n) && m != n && m in p && n in p;
    StrLeIsTotalOrder();
    if TypeRank(n) < TypeRank(m) {
      TypesAreOrdered(n, m);
      assert false;
    }
    if TypeRank(m) == TypeRank(n) {
      SameRankSameType(m, n);
      assert IsForm(c, a, m) && IsForm(c, a, n);
      hide IsForm;
      assert Identity(c, m) != Identity(c, n);
      LesserDigest(h(enc(m)), h(enc(n)));
    }
  }

  lemma SameRankSameType(m: Normal, n: Normal)
    requires TypeRank(m) == TypeRank(n)
    ensures TypeName(m) == TypeName(n)
  {
  }

  // ---------------------------------------------------------------- what the errors mean

  // Following supersession from `id` along `path` arrives at `last`.
  ghost predicate LeadsTo(ctx: Context, id: string, path: seq<string>, last: string) {
    ChainTo(ctx, path, last) && (if path == [] then last == id else path[0] == id)
  }

  // The extraction is there, but not the evidence that it reads.
  ghost predicate LacksEvidence(ctx: Context, id: string) {
    id in ctx.extractions && LocalRef(ctx.extractions[id].evidenceId, ctx.extractions[id].evidenceVersion) !in ctx.refs
  }

  lemma ChainShorter(ctx: Context, id: string, path: seq<string>, last: string)
    requires LeadsTo(ctx, id, path, last) && path != []
    ensures Supersedes(ctx, id, NextOn(path, last, 0)) && LeadsTo(ctx, NextOn(path, last, 0), path[1..], last)
  {
    hide Supersedes;
    assert Supersedes(ctx, path[0], NextOn(path, last, 0));
    forall i | 0 <= i < |path[1..]| ensures Supersedes(ctx, path[1..][i], NextOn(path[1..], last, i)) {
      assert Supersedes(ctx, path[i + 1], NextOn(path, last, i + 1));
    }
  }

  lemma ChainLonger(ctx: Context, id: string, next: string, path: seq<string>, last: string)
    requires Supersedes(ctx, id, next) && LeadsTo(ctx, next, path, last)
    ensures LeadsTo(ctx, id, [id] + path, last)
  {
    hide Supersedes;
    var longer := [id] + path;
    forall i | 0 <= i < |longer| ensures Supersedes(ctx, longer[i], NextOn(longer, last, i)) {
      if i > 0 {
        assert Supersedes(ctx, path[i - 1], NextOn(path, last, i - 1));
      }
    }
  }

  lemma {:induction false} ArrivesAtGap(ctx: Context, id: string, path: seq<string>, last: string)
    requires LeadsTo(ctx, id, path, last)
    ensures last !in ctx.extractions ==> Plain(ctx, id, |path| + 1) == Fails(MissingExtraction)
    ensures LacksEvidence(ctx, last) ==> Plain(ctx, id, |path| + 1) == Fails(MissingEvidence)
    decreases |path|
  {
    hide LocalRef, Assemble, ChainTo;
    if path != [] {
      ChainShorter(ctx, id, path, last);
      ArrivesAtGap(ctx, NextOn(path, last, 0), path[1..], last);
    }
  }

  lemma {:induction false} GapIsReached(ctx: Context, id: string, fuel: nat, error: SemanticError)
    returns (path: seq<string>, last: string)
    requires Plain(ctx, id, fuel) == Fails(error)
    ensures LeadsTo(ctx, id, path, last)
    ensures error == (if last in ctx.extractions then MissingEvidence else MissingExtraction)
    ensures last in ctx.extractions ==> LacksEvidence(ctx, last)
    decreases fuel
  {
    hide LocalRef, Assemble, ChainTo;
    if id !in ctx.extractions || LacksEvidence(ctx, id) {
      path, last := [], id;
      EmptyChain(ctx, id);
    } else {
      var next := ctx.extractions[id].supersedes.value;
      path, last := GapIsReached(ctx, next, fuel - 1, error);
      ChainLonger(ctx, id, next, path, last);
      path := [id] + path;
    }
  }

  lemma EmptyChain(ctx: Context, id: string)
    ensures LeadsTo(ctx, id, [], id)
  {
  }

  // An extraction is reported as missing exactly when supersession leads to an identifier that no
  // extraction has, and its evidence exactly when it leads to an extraction without known evidence.
  lemma MissingMeansGap(ctx: Context, id: string)
    ensures Yields(ctx, id, Err(MissingExtraction)) <==>
            exists path, last :: LeadsTo(ctx, id, path, last) && last !in ctx.extractions
    ensures Yields(ctx, id, Err(MissingEvidence)) <==>
            exists path, last :: LeadsTo(ctx, id, path, last) && LacksEvidence(ctx, last)
  {
    hide Plain, LeadsTo;
    if fuel: nat :| Plain(ctx, id, fuel) == Fails(MissingExtraction) {
      var path, last := GapIsReached(ctx, id, fuel, MissingExtraction);
    }
    if fuel: nat :| Plain(ctx, id, fuel) == Fails(MissingEvidence) {
      var path, last := GapIsReached(ctx, id, fuel, MissingEvidence);
    }
    forall path, last | LeadsTo(ctx, id, path, last)
      ensures last !in ctx.extractions ==> Plain(ctx, id, |path| + 1) == Fails(MissingExtraction)
      ensures LacksEvidence(ctx, last) ==> Plain(ctx, id, |path| + 1) == Fails(MissingEvidence)
    {
      ArrivesAtGap(ctx, id, path, last);
    }
  }

  // The semantic root is the top of a tower over the hashed leaves of the listed forms.
  lemma SemanticRootIsTower(h: HashFn, enc: NormalEncoder, leaf: LeafEncoder, records: seq<LedgerRecord>,
      root: Digest, count: nat)
    returns (forms: seq<Normal>, levels: seq<seq<Digest>>)
    requires HasSemanticRoot(h, enc, leaf, records, Ok((root, count)))
    ensures Describes(ContextOf(h, enc, records), records, Ok(forms)) && forms != [] && count == |forms|
    ensures levels != [] && |levels[0]| == count && forall i :: 0 <= i < count ==> levels[0][i] == h(leaf(forms[i]))
    ensures Merkle.IsTower(h, levels, levels[0], root)
  {
    hide Describes, ContextOf;
    var listed :| Describes(ContextOf(h, enc, records), records, listed)
                  && (if listed.Ok? then Ok((root, count)) == RootOfForms(h, leaf, listed.value)
                      else Ok((root, count)) == Err(listed.error));
    forms := listed.value;
    levels := Merkle.RootIsTower(h, SemanticLeaves(h, leaf, forms));
  }
}
