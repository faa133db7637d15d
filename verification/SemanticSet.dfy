// The whole normalisation of a release: every record gets its normal form, equal forms collapse,
// and what is left is listed in order of type and semantic key.
module SemanticSet {
  import opened Outcomes
  import opened Hashing
  import opened Ordering
  import opened Finite
  import opened Normalization
  import Merkle

  function SortJson(values: Option<seq<Json>>): Option<seq<Json>> {
    match values
    case None => None
    case Some(list) => Some(Sort(StrLe, list))
  }

  function RegistryNormal(p: RegistryPayload): Normal {
    RegistryForm(if p.source.Some? then Some(p.source.value.content) else None,
                 SortJson(p.offices), SortJson(p.units), p.rest)
  }

  // What normalisation makes of one record, given what references resolve to.
  ghost predicate FormOf(ctx: Context, record: LedgerRecord, r: Result<Normal, SemanticError>) {
    match record.body
    case Registry(payload, _) => r == Ok(RegistryNormal(payload))
    case Evidence(_, _, content, _) => r == Ok(EvidenceForm(content))
    case Attestation(id, version, content, _) =>
      r == if LocalRef(id, version) in ctx.refs then Ok(AttestationForm(ctx.refs[LocalRef(id, version)], content))
           else Err(MissingEvidence)
    case Extraction(_, _) => Yields(ctx, record.key, r)
    case Review(id, reviewer, fields, _) =>
      exists target :: Yields(ctx, id, target) && r == ReviewNormal(ctx, target, reviewer, fields)
  }

  function ReviewNormal(ctx: Context, target: Result<Normal, SemanticError>, reviewer: Json, fields: seq<Json>)
    : Result<Normal, SemanticError>
  {
    if target.Ok? then Ok(ReviewForm(ctx.SemanticKey(target.value), reviewer, Sort(StrLe, fields))) else target
  }

  // `n` is the normal form of some record.
  ghost predicate IsForm(ctx: Context, records: seq<LedgerRecord>, n: Normal) {
    exists i :: 0 <= i < |records| && FormOf(ctx, records[i], Ok(n))
  }

  ghost predicate HasForm(ctx: Context, record: LedgerRecord) {
    exists n :: FormOf(ctx, record, Ok(n))
  }

  ghost predicate AllHaveForms(ctx: Context, records: seq<LedgerRecord>) {
    forall i :: 0 <= i < |records| ==> HasForm(ctx, records[i])
  }

  // Two different normal forms of one type share a semantic key.
  ghost predicate KeysClash(ctx: Context, records: seq<LedgerRecord>) {
    exists m, n :: IsForm(ctx, records, m) && IsForm(ctx, records, n) && m != n && Identity(ctx, m) == Identity(ctx, n)
  }

  function Identity(ctx: Context, n: Normal): (string, Digest) { (TypeName(n), ctx.SemanticKey(n)) }

  predicate ByteLt(x: Byte, y: Byte) { x < y }

  predicate IdentityLe(a: (string, Digest), b: (string, Digest)) {
    if a.0 == b.0 then LexLe(ByteLt, a.1, b.1) else StrLe(a.0, b.0)
  }

  // Forms sort by type and semantic key, whatever references resolve to.
  function FormLe(h: HashFn, enc: NormalEncoder): (Normal, Normal) -> bool {
    (a: Normal, b: Normal) => IdentityLe((TypeName(a), h(enc(a))), (TypeName(b), h(enc(b))))
  }

  // The complete sorted listing of the normal forms, each once.
  ghost predicate Lists(ctx: Context, records: seq<LedgerRecord>, out: seq<Normal>) {
    && SortedBy(FormLe(ctx.h, ctx.enc), out)
    && NoDuplicates(out)
    && forall n :: n in out <==> IsForm(ctx, records, n)
  }

  // Registry and evidence records come first, then extractions, then what refers to either.
  function Phase(record: LedgerRecord): nat {
    match record.body
    case Registry(_, _) => 0
    case Evidence(_, _, _, _) => 0
    case Extraction(_, _) => 1
    case Attestation(_, _, _, _) => 2
    case Review(_, _, _, _) => 2
  }

  // The stored extraction has no normal form.
  ghost predicate Lacks(ctx: Context, id: string) {
    id in ctx.extractions && forall n :: !Yields(ctx, id, Ok(n))
  }

  // Extractions are taken in order of their identifiers, so the least one without a form decides.
  ghost predicate ExtractionFails(ctx: Context, id: string, error: SemanticError) {
    Lacks(ctx, id) && Yields(ctx, id, Err(error)) && forall other :: Lacks(ctx, other) ==> StrLe(id, other)
  }

  // Attestations and reviews are taken as they come, so the first one without a form decides.
  ghost predicate LinkFails(ctx: Context, records: seq<LedgerRecord>, i: nat, error: SemanticError) {
    && i < |records| && Phase(records[i]) == 2 && FormOf(ctx, records[i], Err(error))
    && forall j :: 0 <= j < i && Phase(records[j]) == 2 ==> HasForm(ctx, records[j])
  }

  // The error that normalising a release reports.
  ghost predicate Reports(ctx: Context, records: seq<LedgerRecord>, error: SemanticError) {
    if exists id :: Lacks(ctx, id) then exists id :: ExtractionFails(ctx, id, error)
    else if !AllHaveForms(ctx, records) then exists i: nat :: LinkFails(ctx, records, i, error)
    else error == KeyClash
  }

  // What normalising a release means: it succeeds exactly when every record has a normal form
  // and no two different forms clash, and then lists the forms; otherwise it reports the first error.
  ghost predicate Describes(ctx: Context, records: seq<LedgerRecord>, r: Result<seq<Normal>, SemanticError>) {
    && (r.Ok? <==> AllHaveForms(ctx, records) && !KeysClash(ctx, records))
    && (r.Ok? ==> Lists(ctx, records, r.value))
    && (r.Err? ==> Reports(ctx, records, r.error))
  }

  lemma IdentityLeIsTotalOrder()
    ensures TotalOrder(IdentityLe)
  {
    StrLeIsTotalOrder();
    assert StrictTotal(ByteLt);
    forall a, b: (string, Digest)
      ensures IdentityLe(a, b) || IdentityLe(b, a)
      ensures IdentityLe(a, b) && IdentityLe(b, a) ==> a == b
    {
      LexTotal(ByteLt, a.1, b.1);
    }
    forall a, b, c | IdentityLe(a, b) && IdentityLe(b, c) ensures IdentityLe(a, c) {
      if a.0 == b.0 && b.0 == c.0 {
        LexTransitive(ByteLt, a.1, b.1, c.1);
      }
    }
  }

  lemma FormLeIsTotalPreorder(ctx: Context)
    ensures TotalPreorder(FormLe(ctx.h, ctx.enc))
  {
    IdentityLeIsTotalOrder();
  }

  // A record has at most one normal form.
  lemma YieldsOnce(ctx: Context, id: string, r: Result<Normal, SemanticError>, q: Result<Normal, SemanticError>)
    requires Yields(ctx, id, r) && Yields(ctx, id, q)
    ensures r == q
  {
    if (r.Ok? || r.error != Cycle) && (q.Ok? || q.error != Cycle) {
      var f: nat :| Plain(ctx, id, f) == (if r.Ok? then Done(r.value) else Fails(r.error));
      var g: nat :| Plain(ctx, id, g) == (if q.Ok? then Done(q.value) else Fails(q.error));
      if f <= g { PlainMonotone(ctx, id, f, g); } else { PlainMonotone(ctx, id, g, f); }
    }
  }

  lemma FormOnce(ctx: Context, record: LedgerRecord, r: Result<Normal, SemanticError>, q: Result<Normal, SemanticError>)
    requires FormOf(ctx, record, r) && FormOf(ctx, record, q)
    ensures r == q
  {
    match record.body
    case Extraction(_, _) => YieldsOnce(ctx, record.key, r, q);
    case Review(id, reviewer, fields, _) =>
      var t :| Yields(ctx, id, t) && r == ReviewNormal(ctx, t, reviewer, fields);
      var u :| Yields(ctx, id, u) && q == ReviewNormal(ctx, u, reviewer, fields);
      YieldsOnce(ctx, id, t, u);
    case _ =>
  }

  // ---------------------------------------------------------------- the program

  // The first pass: the references that evidence records define, and the extraction records.
  method Resolve(h: HashFn, enc: NormalEncoder, records: seq<LedgerRecord>) returns (ctx: Context)
    ensures ctx == ContextOf(h, enc, records)
  {
    var refs: map<string, Digest> := map[];
    var extractions: map<string, ExtractionPayload> := map[];
    for i := 0 to |records|
      invariant refs == RefsTo(h, enc, records, i)
      invariant extractions == ExtractionsTo(records, i)
    {
      var r := records[i];
      match r.body {
        case Evidence(id, version, content, _) =>
          var key := h(enc(EvidenceForm(content)));
          refs := refs[r.key := key][LocalRef(id, version) := key];
        case Extraction(extraction, _) =>
          extractions := extractions[r.key := extraction];
        case _ =>
      }
    }
    return Context(h, enc, refs, extractions);
  }

  // The normal form of one record. The memo is shared between all calls.
  method NormalizeRecord(memo: Normalizer, record: LedgerRecord) returns (r: Result<Normal, SemanticError>)
    requires memo.CacheSound() && memo.stack == {}
    modifies memo
    ensures FormOf(memo.ctx, record, r)
    ensures r.Ok? ==> memo.CacheSound() && memo.stack == {}
  {
    hide Yields, LocalRef, Sort;
    match record.body {
      case Registry(payload, _) => return Ok(RegistryNormal(payload));
      case Evidence(_, _, content, _) => return Ok(EvidenceForm(content));
      case Attestation(id, version, content, _) =>
        if LocalRef(id, version) in memo.ctx.refs {
          return Ok(AttestationForm(memo.ctx.refs[LocalRef(id, version)], content));
        }
        return Err(MissingEvidence);
      case Extraction(_, _) =>
        r := memo.Normalize(record.key, []);
      case Review(id, reviewer, fields, _) =>
        var target := memo.Normalize(id, []);
        r := ReviewNormal(memo.ctx, target, reviewer, fields);
    }
  }

  ghost predicate FormInPhase(ctx: Context, records: seq<LedgerRecord>, phase: nat, n: Normal) {
    exists i :: 0 <= i < |records| && Phase(records[i]) == phase && FormOf(ctx, records[i], Ok(n))
  }

  // The normal forms of one phase, or the error of a record of that phase without one.
  method NormalizePhase(memo: Normalizer, records: seq<LedgerRecord>, phase: nat)
    returns (r: Result<seq<Normal>, SemanticError>)
    requires memo.CacheSound() && memo.stack == {}
    modifies memo
    ensures r.Ok? ==> memo.CacheSound() && memo.stack == {}
    ensures r.Ok? <==> forall i :: 0 <= i < |records| && Phase(records[i]) == phase ==> HasForm(memo.ctx, records[i])
    ensures r.Ok? ==> forall n :: n in r.value <==> FormInPhase(memo.ctx, records, phase, n)
    ensures r.Err? ==>
              exists i: nat :: i < |records| && Phase(records[i]) == phase && FormOf(memo.ctx, records[i], Err(r.error))
                               && forall j :: 0 <= j < i && Phase(records[j]) == phase ==> HasForm(memo.ctx, records[j])
  {
    hide FormOf, Phase;
    var normalized: seq<Normal> := [];
    for i := 0 to |records|
      invariant memo.CacheSound() && memo.stack == {}
      invariant forall j :: 0 <= j < i && Phase(records[j]) == phase ==> HasForm(memo.ctx, records[j])
      invariant forall n :: n in normalized <==> FormInPhase(memo.ctx, records[..i], phase, n)
    {
      ghost var before := normalized;
      assert records[..i + 1] == records[..i] + [records[i]];
      if Phase(records[i]) == phase {
        var form := NormalizeRecord(memo, records[i]);
        if form.Err? {
          if HasForm(memo.ctx, records[i]) {
            var n :| FormOf(memo.ctx, records[i], Ok(n));
            FormOnce(memo.ctx, records[i], Ok(n), form);
          }
          return Err(form.error);
        }
        normalized := normalized + [form.value];
        assert HasForm(memo.ctx, records[i]);
        PhaseExtends(memo.ctx, records, i, phase, form.value);
      } else {
        PhaseSkips(memo.ctx, records, i, phase);
      }
    }
    assert records[..|records|] == records;
    return Ok(normalized);
  }

  lemma PhaseExtends(ctx: Context, records: seq<LedgerRecord>, i: nat, phase: nat, form: Normal)
    requires i < |records| && Phase(records[i]) == phase && FormOf(ctx, records[i], Ok(form))
    ensures forall n :: FormInPhase(ctx, records[..i + 1], phase, n) <==>
        FormInPhase(ctx, records[..i], phase, n) || n == form
  {
    hide FormOf, Phase;
    forall n
      ensures FormInPhase(ctx, records[..i + 1], phase, n) <==> FormInPhase(ctx, records[..i], phase, n) || n == form
    {
      if FormInPhase(ctx, records[..i + 1], phase, n) {
        var j :| 0 <= j < i + 1 && Phase(records[..i + 1][j]) == phase && FormOf(ctx, records[..i + 1][j], Ok(n));
        if j == i {
          FormOnce(ctx, records[i], Ok(n), Ok(form));
        } else {
          assert records[..i][j] == records[..i + 1][j];
        }
      }
      if FormInPhase(ctx, records[..i], phase, n) {
        var j :| 0 <= j < i && Phase(records[..i][j]) == phase && FormOf(ctx, records[..i][j], Ok(n));
        assert records[..i + 1][j] == records[..i][j];
      }
      assert records[..i + 1][i] == records[i];
    }
  }

  lemma PhaseSkips(ctx: Context, records: seq<LedgerRecord>, i: nat, phase: nat)
    requires i < |records| && Phase(records[i]) != phase
    ensures forall n :: FormInPhase(ctx, records[..i + 1], phase, n) <==> FormInPhase(ctx, records[..i], phase, n)
  {
    hide FormOf, Phase;
    forall n ensures FormInPhase(ctx, records[..i + 1], phase, n) <==> FormInPhase(ctx, records[..i], phase, n) {
      if FormInPhase(ctx, records[..i + 1], phase, n) {
        var j :| 0 <= j < i + 1 && Phase(records[..i + 1][j]) == phase && FormOf(ctx, records[..i + 1][j], Ok(n));
        assert records[..i][j] == records[..i + 1][j];
      }
      if FormInPhase(ctx, records[..i], phase, n) {
        var j :| 0 <= j < i && Phase(records[..i][j]) == phase && FormOf(ctx, records[..i][j], Ok(n));
        assert records[..i + 1][j] == records[..i][j];
      }
    }
  }

  ghost predicate Yielded(ctx: Context, ids: seq<string>, n: Normal) {
    exists i :: 0 <= i < |ids| && Yields(ctx, ids[i], Ok(n))
  }

  // The normal forms of the stored extractions, or the error of the least one without any.
  method NormalizeExtractions(memo: Normalizer, ids: seq<string>) returns (r: Result<seq<Normal>, SemanticError>)
    requires memo.CacheSound() && memo.stack == {}
    requires SortedBy(StrLe, ids) && Elements(ids) == memo.ctx.extractions.Keys
    modifies memo
    ensures r.Ok? ==> memo.CacheSound() && memo.stack == {}
    ensures r.Ok? <==> forall id :: !Lacks(memo.ctx, id)
    ensures r.Ok? ==> forall n :: n in r.value <==> Yielded(memo.ctx, ids, n)
    ensures r.Err? ==> exists id :: ExtractionFails(memo.ctx, id, r.error)
  {
    hide Yields, StrLe;
    var normalized: seq<Normal> := [];
    for i := 0 to |ids|
      invariant memo.CacheSound() && memo.stack == {}
      invariant forall j :: 0 <= j < i ==> !Lacks(memo.ctx, ids[j])
      invariant forall n :: n in normalized <==> Yielded(memo.ctx, ids[..i], n)
    {
      var form := memo.Normalize(ids[i], []);
      if form.Err? {
        LeastLacks(memo.ctx, ids, i, form.error);
        return Err(form.error);
      }
      YieldedGrows(memo.ctx, ids, i, form.value);
      normalized := normalized + [form.value];
    }
    assert ids[..|ids|] == ids;
    assert forall id :: id in memo.ctx.extractions ==> id in Elements(ids);
    return Ok(normalized);
  }

  lemma LeastLacks(ctx: Context, ids: seq<string>, i: nat, error: SemanticError)
    requires SortedBy(StrLe, ids) && Elements(ids) == ctx.extractions.Keys && i < |ids|
    requires Yields(ctx, ids[i], Err(error)) && forall j :: 0 <= j < i ==> !Lacks(ctx, ids[j])
    ensures ExtractionFails(ctx, ids[i], error)
  {
    hide Yields, StrLe;
    assert ids[i] in Elements(ids);
    forall n ensures !Yields(ctx, ids[i], Ok(n)) {
      if Yields(ctx, ids[i], Ok(n)) {
        YieldsOnce(ctx, ids[i], Ok(n), Err(error));
      }
    }
    StrLeIsTotalOrder();
    forall other | Lacks(ctx, other) ensures StrLe(ids[i], other) {
      assert other in Elements(ids);
      var k :| 0 <= k < |ids| && ids[k] == other;
      assert k >= i;
    }
  }

  lemma YieldedGrows(ctx: Context, ids: seq<string>, i: nat, form: Normal)
    requires i < |ids| && Yields(ctx, ids[i], Ok(form))
    ensures forall n :: Yielded(ctx, ids[..i + 1], n) <==> Yielded(ctx, ids[..i], n) || n == form
    ensures !Lacks(ctx, ids[i])
  {
    hide Yields;
    forall n ensures Yielded(ctx, ids[..i + 1], n) <==> Yielded(ctx, ids[..i], n) || n == form {
      if Yielded(ctx, ids[..i + 1], n) {
        var j :| 0 <= j < i + 1 && Yields(ctx, ids[..i + 1][j], Ok(n));
        if j == i {
          YieldsOnce(ctx, ids[i], Ok(n), Ok(form));
        } else {
          assert ids[..i][j] == ids[..i + 1][j];
        }
      }
      if Yielded(ctx, ids[..i], n) {
        var j :| 0 <= j < i && Yields(ctx, ids[..i][j], Ok(n));
        assert ids[..i + 1][j] == ids[..i][j];
      }
      assert ids[..i + 1][i] == ids[i];
    }
  }

  // The identifiers under which extractions are stored, in order.
  method SortedIds(extractions: map<string, ExtractionPayload>) returns (ids: seq<string>)
    ensures SortedBy(StrLe, ids) && Elements(ids) == extractions.Keys
  {
    hide StrLe;
    var all: seq<string> := [];
    var pending := extractions.Keys;
    while pending != {}
      invariant pending <= extractions.Keys && Elements(all) == extractions.Keys - pending
    {
      var id :| id in pending;
      assert Elements(all + [id]) == Elements(all) + {id};
      all := all + [id];
      pending := pending - {id};
    }
    StrLeIsTotalOrder();
    SortProperties(StrLe, all);
    SameBagSameElements(Sort(StrLe, all), all);
    return Sort(StrLe, all);
  }

  // The extraction records are those under the stored identifiers.
  lemma ExtractionPhase(h: HashFn, enc: NormalEncoder, records: seq<LedgerRecord>, ids: seq<string>)
    requires Elements(ids) == ContextOf(h, enc, records).extractions.Keys
    ensures var ctx := ContextOf(h, enc, records);
      && (forall n :: FormInPhase(ctx, records, 1, n) <==> Yielded(ctx, ids, n))
      && ((forall i :: 0 <= i < |records| && Phase(records[i]) == 1 ==> HasForm(ctx, records[i]))
          <==> forall id :: !Lacks(ctx, id))
  {
    hide Yields, RefsTo, ExtractionsTo;
    var ctx := ContextOf(h, enc, records);
    forall i: nat | i < |records| && records[i].body.Extraction? ensures records[i].key in Elements(ids) {
      StoredIsKnown(records, |records|, i);
    }
    forall id | id in Elements(ids)
      ensures exists i :: 0 <= i < |records| && records[i].body.Extraction? && records[i].key == id
    {
      var i := LastExtraction(records, |records|, id);
    }
    forall n ensures FormInPhase(ctx, records, 1, n) <==> Yielded(ctx, ids, n) {
      if FormInPhase(ctx, records, 1, n) {
        var i :| 0 <= i < |records| && Phase(records[i]) == 1 && FormOf(ctx, records[i], Ok(n));
        assert records[i].key in Elements(ids);
        var k :| 0 <= k < |ids| && ids[k] == records[i].key;
      }
      if Yielded(ctx, ids, n) {
        var k :| 0 <= k < |ids| && Yields(ctx, ids[k], Ok(n));
        assert ids[k] in Elements(ids);
        var i :| 0 <= i < |records| && records[i].body.Extraction? && records[i].key == ids[k];
        assert FormOf(ctx, records[i], Ok(n));
      }
    }
    ExtractionsLack(ctx, records);
  }

  lemma ExtractionsLack(ctx: Context, records: seq<LedgerRecord>)
    requires forall i :: 0 <= i < |records| && records[i].body.Extraction? ==> records[i].key in ctx.extractions
    requires forall id :: id in ctx.extractions ==>
               exists i :: 0 <= i < |records| && records[i].body.Extraction? && records[i].key == id
    ensures (forall i :: 0 <= i < |records| && Phase(records[i]) == 1 ==> HasForm(ctx, records[i]))
            <==> forall id :: !Lacks(ctx, id)
  {
    hide Yields;
    if forall id :: !Lacks(ctx, id) {
      forall i | 0 <= i < |records| && Phase(records[i]) == 1 ensures HasForm(ctx, records[i]) {
        assert !Lacks(ctx, records[i].key);
        var n :| Yields(ctx, records[i].key, Ok(n));
        assert FormOf(ctx, records[i], Ok(n));
      }
    }
    if forall i :: 0 <= i < |records| && Phase(records[i]) == 1 ==> HasForm(ctx, records[i]) {
      forall id | id in ctx.extractions ensures !Lacks(ctx, id) {
        var i :| 0 <= i < |records| && records[i].body.Extraction? && records[i].key == id;
        assert HasForm(ctx, records[i]);
        var n :| FormOf(ctx, records[i], Ok(n));
        assert Yields(ctx, id, Ok(n));
      }
    }
  }

  // All normal forms, possibly with repetitions, or the first error.
  method NormalizeAll(h: HashFn, enc: NormalEncoder, ctx: Context, records: seq<LedgerRecord>)
    returns (r: Result<seq<Normal>, SemanticError>)
    requires ctx == ContextOf(h, enc, records)
    ensures r.Ok? <==> AllHaveForms(ctx, records)
    ensures r.Ok? ==> forall n :: n in r.value <==> IsForm(ctx, records, n)
    ensures r.Ok? ==> forall id :: !Lacks(ctx, id)
    ensures r.Err? ==> Reports(ctx, records, r.error)
  {
    hide FormOf, ContextOf, Lacks, Yielded, ExtractionFails;
    var memo := new Normalizer(ctx);
    var stored := NormalizePhase(memo, records, 0);
    if stored.Err? {
      StoredAlwaysHaveForms(ctx, records, stored.error);
      assert false;
    }
    var ids := SortedIds(ctx.extractions);
    ExtractionPhase(h, enc, records, ids);
    var extracted := NormalizeExtractions(memo, ids);
    if extracted.Err? {
      return extracted;
    }
    var linked := NormalizePhase(memo, records, 2);
    if linked.Err? {
      ghost var i: nat :| i < |records| && Phase(records[i]) == 2 && FormOf(ctx, records[i], Err(linked.error))
                          && forall j :: 0 <= j < i && Phase(records[j]) == 2 ==> HasForm(ctx, records[j]);
      assert LinkFails(ctx, records, i, linked.error);
      return linked;
    }
    PhasesCover(ctx, records);
    return Ok(stored.value + extracted.value + linked.value);
  }

  lemma StoredAlwaysHaveForms(ctx: Context, records: seq<LedgerRecord>, error: SemanticError)
    ensures forall i :: 0 <= i < |records| && Phase(records[i]) == 0 ==> !FormOf(ctx, records[i], Err(error))
  {
  }

  lemma PhasesCover(ctx: Context, records: seq<LedgerRecord>)
    ensures forall n :: IsForm(ctx, records, n) <==>
              FormInPhase(ctx, records, 0, n) || FormInPhase(ctx, records, 1, n) || FormInPhase(ctx, records, 2, n)
    ensures forall i :: 0 <= i < |records| ==> Phase(records[i]) in {0, 1, 2}
  {
    hide FormOf;
    forall n ensures IsForm(ctx, records, n) <==>
      FormInPhase(ctx, records, 0, n) || FormInPhase(ctx, records, 1, n) || FormInPhase(ctx, records, 2, n)
    {
      if IsForm(ctx, records, n) {
        var i :| 0 <= i < |records| && FormOf(ctx, records[i], Ok(n));
        assert Phase(records[i]) == 0 || Phase(records[i]) == 1 || Phase(records[i]) == 2;
      }
    }
  }

  // Equal forms collapse; different forms under one identity are reported.
  method Deduplicate(ctx: Context, normalized: seq<Normal>) returns (r: Result<seq<Normal>, SemanticError>)
    ensures r.Ok? <==>
            forall i, j :: 0 <= i < j < |normalized| && Identity(ctx, normalized[i]) == Identity(ctx, normalized[j]) ==>
                             normalized[i] == normalized[j]
    ensures r.Ok? ==> NoDuplicates(r.value) && Elements(r.value) == Elements(normalized)
    ensures r.Err? ==> r.error == KeyClash
  {
    hide Identity;
    var unique: map<(string, Digest), Normal> := map[];
    var order: seq<Normal> := [];
    for i := 0 to |normalized|
      invariant forall j :: 0 <= j < i ==>
          Identity(ctx, normalized[j]) in unique && unique[Identity(ctx, normalized[j])] == normalized[j]
      invariant forall k :: k in unique ==> unique[k] in order && Identity(ctx, unique[k]) == k
      invariant forall n :: n in order ==> n in normalized[..i] && Identity(ctx, n) in unique
      invariant NoDuplicates(order)
    {
      var n := normalized[i];
      var identity := Identity(ctx, n);
      if identity in unique && unique[identity] != n {
        return Err(KeyClash);
      }
      if identity !in unique {
        order := order + [n];
      }
      unique := unique[identity := n];
    }
    return Ok(order);
  }

  method SemanticRecords(h: HashFn, enc: NormalEncoder, records: seq<LedgerRecord>)
    returns (r: Result<seq<Normal>, SemanticError>)
    ensures Describes(ContextOf(h, enc, records), records, r)
  {
    hide FormOf, Identity, FormLe;
    var ctx := Resolve(h, enc, records);
    var all := NormalizeAll(h, enc, ctx, records);
    if all.Err? {
      return all;
    }
    var unique := Deduplicate(ctx, all.value);
    ClashIsSeen(ctx, records, all.value);
    if unique.Err? {
      return unique;
    }
    FormLeIsTotalPreorder(ctx);
    SortProperties(FormLe(ctx.h, ctx.enc), unique.value);
    SameBagNoDuplicates(unique.value, Sort(FormLe(ctx.h, ctx.enc), unique.value));
    forall n ensures n in Sort(FormLe(ctx.h, ctx.enc), unique.value) <==> IsForm(ctx, records, n) {
      assert n in Elements(unique.value) <==> n in Elements(all.value);
      assert n in Elements(Sort(FormLe(ctx.h, ctx.enc), unique.value)) <==> n in Elements(unique.value);
    }
    return Ok(Sort(FormLe(ctx.h, ctx.enc), unique.value));
  }

  lemma ClashIsSeen(ctx: Context, records: seq<LedgerRecord>, all: seq<Normal>)
    requires forall n :: n in all <==> IsForm(ctx, records, n)
    ensures KeysClash(ctx, records) <==>
      exists i, j :: 0 <= i < j < |all| && Identity(ctx, all[i]) == Identity(ctx, all[j]) && all[i] != all[j]
  {
    hide FormOf, Identity;
    if KeysClash(ctx, records) {
      var m, n :| IsForm(ctx, records, m) && IsForm(ctx, records, n) && m != n && Identity(ctx, m) == Identity(ctx, n);
      var i :| 0 <= i < |all| && all[i] == m;
      var j :| 0 <= j < |all| && all[j] == n;
      assert i < j || j < i;
    }
  }

  // ---------------------------------------------------------------- the semantic root

  // The canonical encoding of a whole semantic record: type, semantic key and payload.
  type LeafEncoder = Normal -> Bytes

  function SemanticLeaves(h: HashFn, leaf: LeafEncoder, forms: seq<Normal>): seq<Digest> {
    seq(|forms|, i requires 0 <= i < |forms| => h(leaf(forms[i])))
  }

  function RootOfForms(h: HashFn, leaf: LeafEncoder, forms: seq<Normal>): Result<(Digest, nat), SemanticError> {
    if forms == [] then Err(EmptyRelease)
    else Ok((Merkle.Root(h, SemanticLeaves(h, leaf, forms)), |forms|))
  }

  // What the semantic root of a release means.
  ghost predicate HasSemanticRoot(h: HashFn, enc: NormalEncoder, leaf: LeafEncoder, records: seq<LedgerRecord>,
                                  r: Result<(Digest, nat), SemanticError>)
  {
    exists forms :: Describes(ContextOf(h, enc, records), records, forms)
                    && (if forms.Ok? then r == RootOfForms(h, leaf, forms.value) else r == Err(forms.error))
  }

  method SemanticMerkleRoot(h: HashFn, enc: NormalEncoder, leaf: LeafEncoder, records: seq<LedgerRecord>)
    returns (r: Result<(Digest, nat), SemanticError>)
    ensures HasSemanticRoot(h, enc, leaf, records, r)
  {
    hide Describes;
    var forms := SemanticRecords(h, enc, records);
    if forms.Err? {
      return Err(forms.error);
    }
    if forms.value == [] {
      return Err(EmptyRelease);
    }
    var root := Merkle.ReduceToRoot(h, SemanticLeaves(h, leaf, forms.value));
    return Ok((root, |forms.value|));
  }
}
