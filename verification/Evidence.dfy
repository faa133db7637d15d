// Versions of evidence records, chained by hash (src/ballotproof/storage.py).
module Evidence {
  import opened Outcomes
  import opened Hashing
  import opened HashChain

  // Everything a version's hash covers except the hash of the version before.
  datatype Body = Body(
    evidenceId: string,
    electionId: string,
    pollingUnitCode: string,
    documentType: string,
    source: string,
    version: nat,
    artifactSha256: Digest,
    artifactSize: nat,
    mediaType: Option<string>,
    filename: Option<string>,
    observedAt: int,
    storedAt: int)

  type Version = Link<Body>

  datatype Submission = Submission(
    electionId: string,
    pollingUnitCode: string,
    documentType: string,
    source: string,
    artifactSha256: Digest,
    artifactSize: nat,
    mediaType: Option<string>,
    filename: Option<string>,
    observedAt: int)

  datatype EvidenceError = UnknownEvidence | HashTaken

  datatype ChainVerification = ChainVerification(valid: bool, versionsChecked: nat, failureVersion: Option<nat>)

  // The table, grouped by evidence and ordered by version as every query of it is.
  type Histories = map<string, seq<Version>>

  function BodyOf(s: Submission, id: string, version: nat, now: int): Body {
    Body(id, s.electionId, s.pollingUnitCode, s.documentType, s.source, version, s.artifactSha256,
         s.artifactSize, s.mediaType, s.filename, s.observedAt, now)
  }

  predicate Taken(table: Histories, hash: Digest) {
    exists id | id in table :: exists record | record in table[id] :: record.hash == hash
  }

  // Versions count from one and belong to the evidence they are stored under.
  ghost predicate WellNumbered(id: string, history: seq<Version>) {
    forall i :: 0 <= i < |history| ==> history[i].body.version == i + 1 && history[i].body.evidenceId == id
  }

  ghost predicate HistoryFits(h: HashFn, enc: LinkEncoder<Body>, id: string, history: seq<Version>) {
    history != [] && ValidChain(h, enc, history) && WellNumbered(id, history)
  }

  class EvidenceStore {
    const h: HashFn
    const enc: LinkEncoder<Body>
    var table: Histories

    constructor (h: HashFn, enc: LinkEncoder<Body>)
      ensures this.h == h && this.enc == enc && table == map[] && Valid()
    {
      this.h, this.enc := h, enc;
      table := map[];
    }

    ghost predicate Valid()
      reads this
    {
      forall id :: id in table ==> HistoryFits(h, enc, id, table[id])
    }

    function History(id: string): seq<Version>
      reads this
    {
      if id in table then table[id] else []
    }

    // Without an identifier a new history is opened under `newId`; with one, its history must exist.
    method AppendVersion(submission: Submission, evidenceId: Option<string>, newId: string, now: int)
      returns (outcome: Result<Version, EvidenceError>)
      requires Valid() && newId !in table
      modifies this`table
      ensures Valid()
      ensures outcome.Err? ==> table == old(table)
      ensures outcome == Err(UnknownEvidence) <==> evidenceId.Some? && evidenceId.value !in old(table)
      ensures evidenceId.None? || evidenceId.value in old(table) ==>
                var id := if evidenceId.Some? then evidenceId.value else newId;
                var before := if id in old(table) then old(table)[id] else [];
                var previous := if before == [] then None else Some(before[|before| - 1].hash);
                var body := Body(id, submission.electionId, submission.pollingUnitCode, submission.documentType,
                                 submission.source, |before| + 1, submission.artifactSha256, submission.artifactSize,
                                 submission.mediaType, submission.filename, submission.observedAt, now);
                var hash := h(enc(body, previous));
                if exists other, known :: other in old(table) && known in old(table)[other] && known.hash == hash then
                  outcome == Err(HashTaken)
                else
                  && outcome == Ok(Link(body, previous, hash))
                  && table == old(table)[id := before + [Link(body, previous, hash)]]
    {
      hide HistoryFits, Taken;
      var id, version, previous := newId, 1, None;
      if evidenceId.Some? {
        id := evidenceId.value;
        if id !in table {
          return Err(UnknownEvidence);
        }
        LastIsNumbered(h, enc, id, table[id]);
        var last := table[id][|table[id]| - 1];
        version, previous := last.body.version + 1, Some(last.hash);
      }
      var body := BodyOf(submission, id, version, now);
      var record := Link(body, previous, h(enc(body, previous)));
      TakenMeans(table, record.hash);
      if Taken(table, record.hash) {
        return Err(HashTaken);
      }
      AppendFits(h, enc, id, History(id), body);
      table := table[id := History(id) + [record]];
      return Ok(record);
    }

    // Stops at the first version that does not continue its predecessor or does not match its hash.
    method VerifyChain(id: string) returns (result: ChainVerification)
      ensures result.valid <==> ValidChain(h, enc, History(id))
      ensures result.valid ==> result.versionsChecked == |History(id)| && result.failureVersion.None?
      ensures !result.valid ==>
                exists i: nat :: i < |History(id)| && !Holds(h, enc, History(id), i)
                                 && (forall j: nat :: j < i ==> Holds(h, enc, History(id), j))
                                 && result.failureVersion == Some(History(id)[i].body.version)
                                 && result.versionsChecked == History(id)[i].body.version
    {
      var versions := History(id);
      var previousHash: Option<Digest> := None;
      for i := 0 to |versions|
        invariant previousHash == LastHash(versions[..i])
        invariant forall j: nat :: j < i ==> Holds(h, enc, versions, j)
      {
        var record := versions[i];
        var expected := h(enc(record.body, record.previous));
        if record.previous != previousHash || record.hash != expected {
          assert !Holds(h, enc, versions, i);
          return ChainVerification(false, record.body.version, Some(record.body.version));
        }
        previousHash := Some(record.hash);
        assert versions[..i + 1][i] == record;
      }
      return ChainVerification(true, |versions|, None);
    }
  }

  lemma LastIsNumbered(h: HashFn, enc: LinkEncoder<Body>, id: string, history: seq<Version>)
    requires HistoryFits(h, enc, id, history)
    ensures history != [] && history[|history| - 1].body.version == |history|
  {
    hide ValidChain;
  }

  lemma TakenMeans(table: Histories, hash: Digest)
    ensures Taken(table, hash) <==>
            exists other, known :: other in table && known in table[other] && known.hash == hash
  {
  }

  lemma AppendFits(h: HashFn, enc: LinkEncoder<Body>, id: string, history: seq<Version>, body: Body)
    requires history == [] || HistoryFits(h, enc, id, history)
    requires body.version == |history| + 1 && body.evidenceId == id
    ensures HistoryFits(h, enc, id, history + [Sealed(h, enc, history, body)])
  {
    SealedStaysValid(h, enc, history, body);
    hide ValidChain;
  }

  // In a store filled by appending, every chain verifies.
  method StoredChainsVerify(store: EvidenceStore, id: string) returns (result: ChainVerification)
    requires store.Valid()
    ensures result == ChainVerification(true, |store.History(id)|, None)
  {
    result := store.VerifyChain(id);
    if id in store.table {
      assert HistoryFits(store.h, store.enc, id, store.table[id]);
    }
  }

  // Two evidence histories that both verify and end in the same record hash have the same length and
  // content, or two of the strings hashed for them collide.
  lemma EvidenceHeadFixesHistory(h: HashFn, enc: LinkEncoder<Body>, a: seq<Version>, b: seq<Version>)
    requires InjectiveLinks(enc) && a != [] && b != []
    requires ValidChain(h, enc, a) && ValidChain(h, enc, b) && a[|a| - 1].hash == b[|b| - 1].hash
    ensures a == b || CollisionIn(h, Hashed(enc, a) + Hashed(enc, b))
  {
    hide ValidChain, Hashed, CollisionIn;
    HeadFixesHistory(h, enc, a, b);
  }
}
