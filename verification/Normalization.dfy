// The semantic normaliser: storage identifiers are replaced by references derived from content,
// equal normal forms collapse, and the rest is sorted and committed to.
module Normalization {
  import opened Outcomes
  import opened Hashing
  import opened Ordering
  import opened Finite

  // The canonical text of a JSON value. Fields that normalisation only copies are kept together.
  type Json = string

  datatype RegistryPayload = RegistryPayload(source: Option<RegistrySource>, offices: Option<seq<Json>>,
                                             units: Option<seq<Json>>, rest: Json)

  datatype RegistrySource = RegistrySource(content: Json, retrievedAt: Option<Json>)

  datatype ExtractionPayload = ExtractionPayload(evidenceId: string, evidenceVersion: nat, status: Json,
                                                 provenance: Json, createdAt: Option<Json>, fields: seq<Json>,
                                                 supersedes: Option<string>)

  // `storage` holds what normalisation drops: hashes, local names and storage times.
  datatype Body =
    | Registry(payload: RegistryPayload, storage: Json)
    | Evidence(evidenceId: string, version: nat, content: Json, storage: Json)
    | Attestation(evidenceId: string, evidenceVersion: nat, content: Json, storage: Json)
    | Extraction(extraction: ExtractionPayload, storage: Json)
    | Review(extractionId: string, reviewer: Json, fields: seq<Json>, storage: Json)

  datatype LedgerRecord = LedgerRecord(key: string, body: Body)

  datatype Normal =
    | RegistryForm(source: Option<Json>, offices: Option<seq<Json>>, units: Option<seq<Json>>, rest: Json)
    | EvidenceForm(content: Json)
    | AttestationForm(evidenceRef: Digest, content: Json)
    | ExtractionForm(evidenceRef: Digest, status: Json, provenance: Json, fields: seq<Json>, supersedes: Option<Digest>)
    | ReviewForm(extractionRef: Digest, reviewer: Json, fields: seq<Json>)

  datatype SemanticError = MissingEvidence | MissingExtraction | Cycle | KeyClash | EmptyRelease

  // The canonical encoding of {"record_type": ..., "payload": ...}.
  type NormalEncoder = Normal -> Bytes

  function TypeName(n: Normal): string {
    match n
    case RegistryForm(_, _, _, _) => "registry_snapshot"
    case EvidenceForm(_) => "evidence_version"
    case AttestationForm(_, _) => "attestation"
    case ExtractionForm(_, _, _, _, _) => "extraction"
    case ReviewForm(_, _, _) => "extraction_review"
  }

  function Decimal(n: nat): string {
    if n < 10 then ["0123456789"[n]] else Decimal(n / 10) + ["0123456789"[n % 10]]
  }

  function LocalRef(evidenceId: string, version: nat): string { evidenceId + ":" + Decimal(version) }

  // ---------------------------------------------------------------- what references resolve to

  datatype Context = Context(h: HashFn, enc: NormalEncoder, refs: map<string, Digest>,
                             extractions: map<string, ExtractionPayload>)
  {
    function SemanticKey(n: Normal): Digest { h(enc(n)) }
  }

  function RefsTo(h: HashFn, enc: NormalEncoder, records: seq<LedgerRecord>, n: nat): map<string, Digest>
    requires n <= |records|
  {
    if n == 0 then map[]
    else
      var before, r := RefsTo(h, enc, records, n - 1), records[n - 1];
      match r.body
      case Evidence(id, version, content, _) =>
        before[r.key := h(enc(EvidenceForm(content)))][LocalRef(id, version) := h(enc(EvidenceForm(content)))]
      case _ => before
  }

  function ExtractionsTo(records: seq<LedgerRecord>, n: nat): map<string, ExtractionPayload>
    requires n <= |records|
  {
    if n == 0 then map[]
    else
      var before, r := ExtractionsTo(records, n - 1), records[n - 1];
      if r.body.Extraction? then before[r.key := r.body.extraction] else before
  }

  function ContextOf(h: HashFn, enc: NormalEncoder, records: seq<LedgerRecord>): Context {
    Context(h, enc, RefsTo(h, enc, records, |records|), ExtractionsTo(records, |records|))
  }

  lemma {:induction false} StoredIsKnown(records: seq<LedgerRecord>, n: nat, i: nat)
    requires i < n <= |records| && records[i].body.Extraction?
    ensures records[i].key in ExtractionsTo(records, n)
  {
    if i < n - 1 {
      StoredIsKnown(records, n - 1, i);
    }
  }

  // The last extraction record under an identifier is the one that is stored.
  lemma {:induction false} LastExtraction(records: seq<LedgerRecord>, n: nat, id: string) returns (i: nat)
    requires n <= |records| && id in ExtractionsTo(records, n)
    ensures i < n && records[i].body.Extraction? && records[i].key == id
    ensures ExtractionsTo(records, n)[id] == records[i].body.extraction
    ensures forall j :: i < j < n ==> !(records[j].body.Extraction? && records[j].key == id)
  {
    if records[n - 1].body.Extraction? && records[n - 1].key == id {
      i := n - 1;
    } else {
      i := LastExtraction(records, n - 1, id);
    }
  }

  // ---------------------------------------------------------------- plain recursion

  datatype Outcome = Done(form: Normal) | Fails(error: SemanticError) | Diverges

  function Assemble(e: ExtractionPayload, evidenceRef: Digest, supersedes: Option<Digest>): Normal {
    ExtractionForm(evidenceRef, e.status, e.provenance, Sort(StrLe, e.fields), supersedes)
  }

  // The recursion without cache or stack, cut off after `fuel` calls.
  function Plain(ctx: Context, id: string, fuel: nat): Outcome
    decreases fuel
  {
    if fuel == 0 then Diverges
    else if id !in ctx.extractions then Fails(MissingExtraction)
    else
      var e := ctx.extractions[id];
      var local := LocalRef(e.evidenceId, e.evidenceVersion);
      if local !in ctx.refs then Fails(MissingEvidence)
      else match e.supersedes
        case None => Done(Assemble(e, ctx.refs[local], None))
        case Some(parent) =>
          match Plain(ctx, parent, fuel - 1)
          case Done(form) => Done(Assemble(e, ctx.refs[local], Some(ctx.SemanticKey(form))))
          case other => other
  }

  // `r` is what the plain recursion yields: its value, its error, or a report that it never ends.
  ghost predicate Yields(ctx: Context, id: string, r: Result<Normal, SemanticError>) {
    match r
    case Ok(form) => exists fuel: nat :: Plain(ctx, id, fuel) == Done(form)
    case Err(Cycle) => forall fuel: nat :: Plain(ctx, id, fuel) == Diverges
    case Err(error) => exists fuel: nat :: Plain(ctx, id, fuel) == Fails(error)
  }

  // More fuel never changes an answer.
  lemma {:induction false} PlainMonotone(ctx: Context, id: string, fuel: nat, more: nat)
    requires fuel <= more && Plain(ctx, id, fuel) != Diverges
    ensures Plain(ctx, id, more) == Plain(ctx, id, fuel)
    decreases fuel
  {
    if fuel > 0 && id in ctx.extractions && ctx.extractions[id].supersedes.Some? {
      var e := ctx.extractions[id];
      if LocalRef(e.evidenceId, e.evidenceVersion) in ctx.refs {
        PlainMonotone(ctx, e.supersedes.value, fuel - 1, more - 1);
      }
    }
  }

  // One call of the recursion, with the answer of the call below.
  lemma YieldsStep(ctx: Context, id: string, below: Result<Normal, SemanticError>)
    requires id in ctx.extractions
    requires var e := ctx.extractions[id];
      LocalRef(e.evidenceId, e.evidenceVersion) in ctx.refs && e.supersedes.Some?
          && Yields(ctx, e.supersedes.value, below)
    ensures var e := ctx.extractions[id];
      var ref := ctx.refs[LocalRef(e.evidenceId, e.evidenceVersion)];
      Yields(ctx, id, if below.Ok? then Ok(Assemble(e, ref, Some(ctx.SemanticKey(below.value)))) else below)
  {
    var e := ctx.extractions[id];
    var ref := ctx.refs[LocalRef(e.evidenceId, e.evidenceVersion)];
    if below.Ok? {
      var fuel: nat :| Plain(ctx, e.supersedes.value, fuel) == Done(below.value);
      assert Plain(ctx, id, fuel + 1) == Done(Assemble(e, ref, Some(ctx.SemanticKey(below.value))));
    } else if below.error == Cycle {
      forall fuel: nat ensures Plain(ctx, id, fuel) == Diverges {
        if fuel > 0 {
          assert Plain(ctx, e.supersedes.value, fuel - 1) == Diverges;
        }
      }
    } else {
      var fuel: nat :| Plain(ctx, e.supersedes.value, fuel) == Fails(below.error);
      assert Plain(ctx, id, fuel + 1) == Fails(below.error);
    }
  }

  lemma MissingExtractionStops(ctx: Context, id: string)
    requires id !in ctx.extractions
    ensures Yields(ctx, id, Err(MissingExtraction))
  {
    assert Plain(ctx, id, 1) == Fails(MissingExtraction);
  }

  lemma MissingEvidenceStops(ctx: Context, id: string)
    requires id in ctx.extractions
    requires var e := ctx.extractions[id]; LocalRef(e.evidenceId, e.evidenceVersion) !in ctx.refs
    ensures Yields(ctx, id, Err(MissingEvidence))
  {
    assert Plain(ctx, id, 1) == Fails(MissingEvidence);
  }

  lemma NothingSuperseded(ctx: Context, id: string)
    requires id in ctx.extractions
    requires var e := ctx.extractions[id];
      LocalRef(e.evidenceId, e.evidenceVersion) in ctx.refs && e.supersedes.None?
    ensures var e := ctx.extractions[id];
      Yields(ctx, id, Ok(Assemble(e, ctx.refs[LocalRef(e.evidenceId, e.evidenceVersion)], None)))
  {
    var e := ctx.extractions[id];
    assert Plain(ctx, id, 1) == Done(Assemble(e, ctx.refs[LocalRef(e.evidenceId, e.evidenceVersion)], None));
  }

  // ---------------------------------------------------------------- the memoised recursion

  // `id` and its evidence resolve, and it supersedes `next`.
  ghost predicate Supersedes(ctx: Context, id: string, next: string) {
    id in ctx.extractions
    && (var e := ctx.extractions[id];
        LocalRef(e.evidenceId, e.evidenceVersion) in ctx.refs && e.supersedes == Some(next))
  }

  function NextOn(path: seq<string>, id: string, i: nat): string {
    if i + 1 < |path| then path[i + 1] else id
  }

  // Every member of `path` supersedes the one after it, and the last supersedes `id`.
  ghost predicate ChainTo(ctx: Context, path: seq<string>, id: string) {
    forall i :: 0 <= i < |path| ==> Supersedes(ctx, path[i], NextOn(path, id, i))
  }

  lemma ChainExtends(ctx: Context, path: seq<string>, id: string, next: string)
    requires ChainTo(ctx, path, id) && Supersedes(ctx, id, next)
    ensures ChainTo(ctx, path + [id], next)
  {
    hide Supersedes;
    var longer := path + [id];
    forall i | 0 <= i < |longer| ensures Supersedes(ctx, longer[i], NextOn(longer, next, i)) {
      if i < |path| {
        assert Supersedes(ctx, path[i], NextOn(path, id, i));
      }
    }
  }

  lemma StepAlong(ctx: Context, id: string, next: string, fuel: nat)
    requires Supersedes(ctx, id, next) && Plain(ctx, next, fuel) == Diverges
    ensures Plain(ctx, id, fuel + 1) == Diverges
  {
  }

  lemma NoFuel(ctx: Context, id: string)
    ensures Plain(ctx, id, 0) == Diverges
  {
  }

  // Returning to the path means running in circles.
  lemma {:induction false} CircleDiverges(ctx: Context, path: seq<string>, k: nat, i: nat, fuel: nat)
    requires k < |path| && i < |path| && ChainTo(ctx, path, path[k])
    ensures Plain(ctx, path[i], fuel) == Diverges
    decreases fuel
  {
    hide Plain, Supersedes;
    if fuel == 0 {
      NoFuel(ctx, path[i]);
    } else {
      CircleDiverges(ctx, path, k, if i + 1 < |path| then i + 1 else k, fuel - 1);
      StepAlong(ctx, path[i], NextOn(path, path[k], i), fuel - 1);
    }
  }

  lemma CircleYieldsCycle(ctx: Context, path: seq<string>, id: string)
    requires ChainTo(ctx, path, id) && id in path
    ensures Yields(ctx, id, Err(Cycle))
  {
    var k :| 0 <= k < |path| && path[k] == id;
    forall fuel: nat ensures Plain(ctx, id, fuel) == Diverges {
      CircleDiverges(ctx, path, k, k, fuel);
    }
  }

  class Normalizer {
    const ctx: Context
    var cache: map<string, Normal>
    var stack: set<string>

    constructor (ctx: Context)
      ensures this.ctx == ctx && cache == map[] && stack == {}
    {
      this.ctx := ctx;
      cache, stack := map[], {};
    }

    ghost predicate CacheSound()
      reads this
    {
      forall id :: id in cache ==> Yields(ctx, id, Ok(cache[id]))
    }

    // Returns what the plain recursion returns; reports a cycle exactly when that never ends.
    method Normalize(id: string, ghost path: seq<string>) returns (r: Result<Normal, SemanticError>)
      requires CacheSound() && stack == Elements(path) && stack <= ctx.extractions.Keys
      requires ChainTo(ctx, path, id)
      modifies this
      ensures CacheSound() && Yields(ctx, id, r)
      ensures r.Ok? ==> stack == old(stack)
      decreases |ctx.extractions.Keys - stack|
    {
      hide Yields, Plain, Assemble, LocalRef, ChainTo;
      if id in cache {
        return Ok(cache[id]);
      }
      if id in stack {
        CircleYieldsCycle(ctx, path, id);
        return Err(Cycle);
      }
      if id !in ctx.extractions {
        MissingExtractionStops(ctx, id);
        return Err(MissingExtraction);
      }
      ghost var before := stack;
      stack := stack + {id};
      var e := ctx.extractions[id];
      var local := LocalRef(e.evidenceId, e.evidenceVersion);
      if local !in ctx.refs {
        MissingEvidenceStops(ctx, id);
        return Err(MissingEvidence);
      }
      var supersedes: Option<Digest> := None;
      if e.supersedes.Some? {
        assert stack == Elements(path + [id]);
        SmallerSet(ctx.extractions.Keys - stack, ctx.extractions.Keys - before);
        ChainExtends(ctx, path, id, e.supersedes.value);
        var below := Normalize(e.supersedes.value, path + [id]);
        YieldsStep(ctx, id, below);
        if below.Err? {
          return below;
        }
        supersedes := Some(ctx.SemanticKey(below.value));
      } else {
        NothingSuperseded(ctx, id);
      }
      var form := Assemble(e, ctx.refs[local], supersedes);
      cache := cache[id := form];
      stack := stack - {id};
      return Ok(form);
    }
  }
}
