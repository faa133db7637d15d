// The release-key ledger and the checkpoint chains, with the verifiers over them
// (src/ballotproof/release_governance.py, release_publication.py).
module Governance {
  import opened Outcomes
  import opened Hashing
  import opened HashChain

  type PrivateKey = Bytes

  datatype EventType = EnrollEvent | RevokeEvent

  // What a key event hashes, apart from the hash of the event before.
  datatype EventBody = EventBody(
    sequence: nat,
    eventType: EventType,
    keyId: string,
    actorId: string,
    publicKeyB64: string,
    fingerprint: Digest,
    keyLabel: Option<string>,
    performedBy: string,
    createdAt: int)

  type KeyEvent = Link<EventBody>

  datatype SigningKey = SigningKey(
    keyId: string,
    actorId: string,
    publicKeyB64: string,
    fingerprint: Digest,
    keyLabel: Option<string>,
    enrolledAt: int,
    enrolledBy: string,
    revokedAt: Option<int>,
    revokedBy: Option<string>)

  datatype Manifest = Manifest(electionId: string, releaseId: string, merkleRoot: Digest, sha256: Digest)

  datatype Payload = Payload(
    sequence: nat,
    electionId: string,
    releaseId: string,
    merkleRoot: Digest,
    manifestSha256: Digest,
    signerKeyId: string,
    signerActorId: string,
    signerFingerprint: Digest,
    enrollmentHash: Digest,
    previous: Option<Digest>,
    issuedAt: int)

  datatype Checkpoint = Checkpoint(
    payload: Payload,
    publicKeyB64: string,
    signatureB64: string,
    hash: Digest,
    storedAt: int)

  // Library functions: hashing, base64, Ed25519 and the canonical encodings that are hashed or signed.
  datatype Crypto = Crypto(
    sha: HashFn,
    decode: string -> Option<Bytes>,
    encode: Bytes -> string,
    keyIdOf: (string, Digest) -> string,
    eventBytes: LinkEncoder<EventBody>,
    payloadBytes: Payload -> Bytes,
    checkpointBytes: (Payload, string, string) -> Bytes,
    publicOf: PrivateKey -> Bytes,
    sign: (PrivateKey, Bytes) -> Bytes,
    verifies: (Bytes, Bytes, Bytes) -> bool)

  // Decoding undoes encoding, public keys have 32 bytes, and signatures verify.
  ghost predicate Sound(c: Crypto) {
    && (forall data :: c.decode(c.encode(data)) == Some(data))
    && (forall key :: |c.publicOf(key)| == 32)
    && (forall key, message :: c.verifies(c.publicOf(key), c.sign(key, message), message))
  }

  // The three tables; checkpoints are grouped by election and ordered by sequence, as every query
  // reads them.
  datatype Ledger = Ledger(
    keys: map<string, SigningKey>,
    events: seq<KeyEvent>,
    checkpoints: map<string, seq<Checkpoint>>)

  datatype Refusal =
    | UnknownIdentity
    | DisabledIdentity
    | NotBase64
    | WrongKeyLength
    | AlreadyEnrolled
    | UnknownKey
    | AlreadyRevoked
    | InvalidRelease
    | WrongSigner
    | NotAuthorized
    | UnknownEnrollment
    | HashTaken

  datatype Identity = Unknown | Disabled | Active

  function Chain(l: Ledger, election: string): seq<Checkpoint> {
    if election in l.checkpoints then l.checkpoints[election] else []
  }

  // ---------------------------------------------------------------- key events

  function EventOf(events: seq<KeyEvent>, eventType: EventType, key: SigningKey, performedBy: string,
      now: int): EventBody {
    EventBody(|events| + 1, eventType, key.keyId, key.actorId, key.publicKeyB64, key.fingerprint, key.keyLabel,
              performedBy, now)
  }

  predicate EventHashTaken(events: seq<KeyEvent>, hash: Digest) {
    exists event | event in events :: event.hash == hash
  }

  function WithEvent(c: Crypto, l: Ledger, keys: map<string, SigningKey>, body: EventBody): Result<Ledger, Refusal> {
    var event := Sealed(c.sha, c.eventBytes, l.events, body);
    if EventHashTaken(l.events, event.hash) then Err(HashTaken)
    else Ok(l.(keys := keys, events := l.events + [event]))
  }

  function NewKey(c: Crypto, actorId: string, publicKeyB64: string, raw: Bytes, performedBy: string,
      keyLabel: Option<string>, now: int): SigningKey {
    SigningKey(c.keyIdOf(actorId, c.sha(raw)), actorId, publicKeyB64, c.sha(raw), keyLabel, now, performedBy,
               None, None)
  }

  predicate FingerprintTaken(l: Ledger, fingerprint: Digest) {
    exists id | id in l.keys :: l.keys[id].fingerprint == fingerprint
  }

  function Enrolled(c: Crypto, l: Ledger, identity: Identity, actorId: string, publicKeyB64: string,
                    performedBy: string, keyLabel: Option<string>, now: int): Result<Ledger, Refusal>
  {
    if identity.Unknown? then Err(UnknownIdentity)
    else if identity.Disabled? then Err(DisabledIdentity)
    else
      var raw := c.decode(publicKeyB64);
      if raw.None? then Err(NotBase64)
      else if |raw.value| != 32 then Err(WrongKeyLength)
      else
        var key := NewKey(c, actorId, publicKeyB64, raw.value, performedBy, keyLabel, now);
        if key.keyId in l.keys || FingerprintTaken(l, key.fingerprint) then Err(AlreadyEnrolled)
        else WithEvent(c, l, l.keys[key.keyId := key], EventOf(l.events, EnrollEvent, key, performedBy, now))
  }

  function Revoked(c: Crypto, l: Ledger, keyId: string, performedBy: string, now: int): Result<Ledger, Refusal> {
    if keyId !in l.keys then Err(UnknownKey)
    else if l.keys[keyId].revokedAt.Some? then Err(AlreadyRevoked)
    else
      var key := l.keys[keyId].(revokedAt := Some(now), revokedBy := Some(performedBy));
      WithEvent(c, l, l.keys[keyId := key], EventOf(l.events, RevokeEvent, key, performedBy, now))
  }

  // ---------------------------------------------------------------- checkpoints

  ghost predicate IsActive(l: Ledger, fingerprint: Digest, id: string) {
    id in l.keys && l.keys[id].fingerprint == fingerprint && l.keys[id].revokedAt.None?
  }

  // The first enrollment event of the key.
  function EnrollmentOf(events: seq<KeyEvent>, keyId: string): Option<KeyEvent> {
    if events == [] then None
    else if events[0].body.keyId == keyId && events[0].body.eventType == EnrollEvent then Some(events[0])
    else EnrollmentOf(events[1..], keyId)
  }

  // What has been established when the transaction of append_checkpoint starts. The two lookups
  // before it are transactions of their own, so the ledger may have moved on since.
  datatype Ticket = Ticket(manifest: Manifest, key: SigningKey, enrollment: KeyEvent, privateKey: PrivateKey)

  datatype Release = Release(valid: bool, manifest: Manifest, signer: Digest)

  ghost predicate IsTicket(c: Crypto, l: Ledger, release: Release, privateKey: PrivateKey, ticket: Ticket) {
    && release.valid && c.sha(c.publicOf(privateKey)) == release.signer
    && IsActive(l, release.signer, ticket.key.keyId) && ticket.key == l.keys[ticket.key.keyId]
    && EnrollmentOf(l.events, ticket.key.keyId) == Some(ticket.enrollment)
    && ticket.manifest == release.manifest && ticket.privateKey == privateKey
  }

  function PayloadOf(ticket: Ticket, chain: seq<Checkpoint>, issuedAt: int): Payload {
    Payload(|chain| + 1, ticket.manifest.electionId, ticket.manifest.releaseId, ticket.manifest.merkleRoot,
            ticket.manifest.sha256, ticket.key.keyId, ticket.key.actorId, ticket.key.fingerprint,
            ticket.enrollment.hash, if chain == [] then None else Some(chain[|chain| - 1].hash), issuedAt)
  }

  function SignedCheckpoint(c: Crypto, payload: Payload, privateKey: PrivateKey, storedAt: int): Checkpoint {
    var publicKey := c.encode(c.publicOf(privateKey));
    var signature := c.encode(c.sign(privateKey, c.payloadBytes(payload)));
    Checkpoint(payload, publicKey, signature, c.sha(c.checkpointBytes(payload, publicKey, signature)), storedAt)
  }

  ghost predicate ManifestTaken(l: Ledger, sha256: Digest) {
    exists election, i :: election in l.checkpoints && 0 <= i < |l.checkpoints[election]|
                          && l.checkpoints[election][i].payload.manifestSha256 == sha256
  }

  predicate CheckpointHashTaken(l: Ledger, hash: Digest) {
    exists election | election in l.checkpoints :: exists item | item in l.checkpoints[election] :: item.hash == hash
  }

  function NextCheckpoint(c: Crypto, l: Ledger, ticket: Ticket, issuedAt: int, storedAt: int): Checkpoint {
    SignedCheckpoint(c, PayloadOf(ticket, Chain(l, ticket.manifest.electionId), issuedAt), ticket.privateKey, storedAt)
  }

  // A manifest that already has a checkpoint keeps it.
  ghost function Issued(c: Crypto, l: Ledger, ticket: Ticket, issuedAt: int, storedAt: int): Result<Ledger, Refusal> {
    var election, item := ticket.manifest.electionId, NextCheckpoint(c, l, ticket, issuedAt, storedAt);
    if ManifestTaken(l, ticket.manifest.sha256) then Ok(l)
    else if CheckpointHashTaken(l, item.hash) then Err(HashTaken)
    else Ok(l.(checkpoints := l.checkpoints[election := Chain(l, election) + [item]]))
  }

  // ---------------------------------------------------------------- what verifying means

  predicate KeyBytesHold(c: Crypto, publicKeyB64: string, fingerprint: Digest) {
    var raw := c.decode(publicKeyB64);
    raw.Some? && |raw.value| == 32 && c.sha(raw.value) == fingerprint
  }

  ghost predicate EventHolds(c: Crypto, events: seq<KeyEvent>, i: nat)
    requires i < |events|
  {
    Holds(c.sha, c.eventBytes, events, i) && KeyBytesHold(c, events[i].body.publicKeyB64, events[i].body.fingerprint)
  }

  ghost predicate TransparencyHolds(c: Crypto, events: seq<KeyEvent>) {
    forall i: nat :: i < |events| ==> EventHolds(c, events, i)
  }

  function HeadOf(chain: seq<Checkpoint>): Option<Digest> {
    if chain == [] then None else Some(chain[|chain| - 1].hash)
  }

  predicate SignatureHolds(c: Crypto, item: Checkpoint) {
    var raw, signature := c.decode(item.publicKeyB64), c.decode(item.signatureB64);
    && raw.Some? && signature.Some?
    && c.verifies(raw.value, signature.value, c.payloadBytes(item.payload))
  }

  // A revocation of the signing key at or before the instant of issue.
  predicate RevokesBefore(event: KeyEvent, payload: Payload) {
    && event.body.keyId == payload.signerKeyId && event.body.eventType == RevokeEvent
    && event.body.createdAt <= payload.issuedAt
  }

  ghost predicate NotRevokedYet(events: seq<KeyEvent>, payload: Payload) {
    forall event :: event in events ==> !RevokesBefore(event, payload)
  }

  // Everything a checkpoint is checked for except revocation.
  ghost predicate Anchored(c: Crypto, events: seq<KeyEvent>, election: string, chain: seq<Checkpoint>, i: nat)
    requires i < |chain|
  {
    var item := chain[i];
    var payload, enrollment := item.payload, EnrollmentOf(events, item.payload.signerKeyId);
    && payload.electionId == election && payload.sequence == i + 1
    && payload.previous == HeadOf(chain[..i])
    && enrollment.Some? && enrollment.value.hash == payload.enrollmentHash
    && enrollment.value.body.actorId == payload.signerActorId
    && enrollment.value.body.fingerprint == payload.signerFingerprint
    && KeyBytesHold(c, item.publicKeyB64, payload.signerFingerprint)
    && SignatureHolds(c, item)
    && item.hash == c.sha(c.checkpointBytes(payload, item.publicKeyB64, item.signatureB64))
  }

  ghost predicate CheckpointHolds(c: Crypto, events: seq<KeyEvent>, election: string, chain: seq<Checkpoint>, i: nat)
    requires i < |chain|
  {
    Anchored(c, events, election, chain, i) && NotRevokedYet(events, chain[i].payload)
  }

  ghost predicate HoldsUpTo(c: Crypto, events: seq<KeyEvent>, election: string, chain: seq<Checkpoint>, n: nat)
    requires n <= |chain|
  {
    forall i: nat :: i < n ==> CheckpointHolds(c, events, election, chain, i)
  }

  // The checkpoint is the next one of its chain, but its key was never enrolled.
  ghost predicate Unenrolled(events: seq<KeyEvent>, election: string, chain: seq<Checkpoint>, i: nat)
    requires i < |chain|
  {
    var payload := chain[i].payload;
    && payload.electionId == election && payload.sequence == i + 1 && payload.previous == HeadOf(chain[..i])
    && EnrollmentOf(events, payload.signerKeyId).None?
  }

  ghost predicate ChainHolds(c: Crypto, events: seq<KeyEvent>, election: string, chain: seq<Checkpoint>) {
    TransparencyHolds(c, events) && forall i: nat :: i < |chain| ==> CheckpointHolds(c, events, election, chain, i)
  }

  datatype KeyVerification = KeyVerification(valid: bool, eventsChecked: nat, head: Option<Digest>)

  datatype ChainVerification = ChainVerification(valid: bool, checkpointsChecked: nat, head: Option<Digest>)

  // The last event of `after` is the only new one: it carries this body, follows the last event of
  // `before`, and has a hash that no event of `before` has.
  ghost predicate LoggedOne(c: Crypto, before: seq<KeyEvent>, after: seq<KeyEvent>, body: EventBody) {
    && |after| == |before| + 1 && after[..|before|] == before
    && after[|before|].body == body
    && after[|before|].previous == (if before == [] then None else Some(before[|before| - 1].hash))
    && after[|before|].hash == c.sha(c.eventBytes(body, after[|before|].previous))
    && forall event :: event in before ==> event.hash != after[|before|].hash
  }

  // Some event already has the hash that the next one would carry.
  ghost predicate NextHashTaken(c: Crypto, events: seq<KeyEvent>, body: EventBody) {
    var previous := if events == [] then None else Some(events[|events| - 1].hash);
    exists event :: event in events && event.hash == c.sha(c.eventBytes(body, previous))
  }

  lemma LoggedMeans(c: Crypto, before: seq<KeyEvent>, body: EventBody)
    ensures
      var event := Sealed(c.sha, c.eventBytes, before, body);
      && (EventHashTaken(before, event.hash) <==> NextHashTaken(c, before, body))
      && (!EventHashTaken(before, event.hash) ==> LoggedOne(c, before, before + [event], body))
  {
  }

  // The chain of the election before and after one checkpoint was added to it.
  ghost predicate AddedOne(before: map<string, seq<Checkpoint>>, after: map<string, seq<Checkpoint>>,
      election: string, item: Checkpoint) {
    && election in after && after.Keys == before.Keys + {election}
    && (forall other :: other in before && other != election ==> after[other] == before[other])
    && after[election] == (if election in before then before[election] else []) + [item]
  }

  class ReleaseGovernanceStore {
    const c: Crypto
    var keys: map<string, SigningKey>
    var events: seq<KeyEvent>
    var checkpoints: map<string, seq<Checkpoint>>

    constructor (c: Crypto)
      ensures this.c == c && Contents() == Ledger(map[], [], map[]) && Filed()
    {
      this.c := c;
      keys, events, checkpoints := map[], [], map[];
    }

    function Contents(): Ledger
      reads this
    {
      Ledger(keys, events, checkpoints)
    }

    // Rows are filed under their own identifier and no two share a fingerprint.
    ghost predicate Filed()
      reads this
    {
      && (forall id :: id in keys ==> keys[id].keyId == id)
      && (forall id, other :: id in keys && other in keys && keys[id].fingerprint == keys[other].fingerprint ==>
          id == other)
    }

    method AppendKeyEvent(eventType: EventType, key: SigningKey, performedBy: string, now: int) returns (appended: bool)
      modifies this`events
      ensures var event := Sealed(c.sha, c.eventBytes, old(events),
          EventOf(old(events), eventType, key, performedBy, now));
              && (appended <==> !EventHashTaken(old(events), event.hash))
              && events == if appended then old(events) + [event] else old(events)
    {
      var body := EventOf(events, eventType, key, performedBy, now);
      var previous: Option<Digest> := None;
      if events != [] {
        previous := Some(events[|events| - 1].hash);
      }
      var event := Link(body, previous, c.sha(c.eventBytes(body, previous)));
      if EventHashTaken(events, event.hash) {
        return false;
      }
      events := events + [event];
      return true;
    }

    method EnrollKey(identity: Identity, actorId: string, publicKeyB64: string, performedBy: string,
                     keyLabel: Option<string>, now: int) returns (outcome: Result<SigningKey, Refusal>)
      modifies this`keys, this`events
      ensures var step := Enrolled(c, old(Contents()), identity, actorId, publicKeyB64, performedBy, keyLabel, now);
              && (outcome.Ok? ==>
                    && step == Ok(Contents()) && outcome.value.keyId in keys
                    && keys[outcome.value.keyId] == outcome.value)
              && (outcome.Err? ==> step == Err(outcome.error) && Contents() == old(Contents()))
      ensures old(Filed()) ==> Filed()
      ensures outcome == Err(UnknownIdentity) <==> identity.Unknown?
      ensures outcome == Err(DisabledIdentity) <==> identity.Disabled?
      ensures outcome == Err(NotBase64) <==> identity.Active? && c.decode(publicKeyB64).None?
      ensures outcome == Err(WrongKeyLength) <==>
                identity.Active? && c.decode(publicKeyB64).Some? && |c.decode(publicKeyB64).value| != 32
      ensures identity.Active? && c.decode(publicKeyB64).Some? && |c.decode(publicKeyB64).value| == 32 ==>
                var fingerprint := c.sha(c.decode(publicKeyB64).value);
                var id := c.keyIdOf(actorId, fingerprint);
                var row := SigningKey(id, actorId, publicKeyB64, fingerprint, keyLabel, now, performedBy, None, None);
                var body := EventBody(|old(events)| + 1, EnrollEvent, id, actorId, publicKeyB64, fingerprint, keyLabel,
                                      performedBy, now);
                var taken := id in old(keys) || exists other :: other in old(keys)
                                                                && old(keys)[other].fingerprint == fingerprint;
                && (outcome == Err(AlreadyEnrolled) <==> taken)
                && (outcome == Err(HashTaken) <==> !taken && NextHashTaken(c, old(events), body))
                && (outcome.Ok? ==>
                      && outcome.value == row && keys == old(keys)[id := row]
                      && LoggedOne(c, old(events), events, body))
                && (outcome.Err? ==> outcome.error in {AlreadyEnrolled, HashTaken})
    {
      if identity.Unknown? {
        return Err(UnknownIdentity);
      }
      if identity.Disabled? {
        return Err(DisabledIdentity);
      }
      var raw := c.decode(publicKeyB64);
      if raw.None? {
        return Err(NotBase64);
      }
      if |raw.value| != 32 {
        return Err(WrongKeyLength);
      }
      var key := NewKey(c, actorId, publicKeyB64, raw.value, performedBy, keyLabel, now);
      if key.keyId in keys || FingerprintTaken(Contents(), key.fingerprint) {
        return Err(AlreadyEnrolled);
      }
      LoggedMeans(c, events, EventOf(events, EnrollEvent, key, performedBy, now));
      var appended := AppendKeyEvent(EnrollEvent, key, performedBy, now);
      if !appended {
        return Err(HashTaken);
      }
      keys := keys[key.keyId := key];
      return Ok(key);
    }

    method RevokeKey(keyId: string, performedBy: string, now: int) returns (outcome: Result<SigningKey, Refusal>)
      modifies this`keys, this`events
      ensures var step := Revoked(c, old(Contents()), keyId, performedBy, now);
              && (outcome.Ok? ==> step == Ok(Contents()) && keyId in keys && keys[keyId] == outcome.value)
              && (outcome.Err? ==> step == Err(outcome.error) && Contents() == old(Contents()))
      ensures old(Filed()) ==> Filed()
      ensures outcome == Err(UnknownKey) <==> keyId !in old(keys)
      ensures outcome == Err(AlreadyRevoked) <==> keyId in old(keys) && old(keys)[keyId].revokedAt.Some?
      ensures keyId in old(keys) && old(keys)[keyId].revokedAt.None? ==>
                var row := old(keys)[keyId];
                var body := EventBody(|old(events)| + 1, RevokeEvent, row.keyId, row.actorId, row.publicKeyB64,
                                      row.fingerprint, row.keyLabel, performedBy, now);
                && (outcome == Err(HashTaken) <==> NextHashTaken(c, old(events), body))
                && (outcome.Err? ==> outcome.error == HashTaken)
                && (outcome.Ok? ==>
                      && outcome.value == row.(revokedAt := Some(now), revokedBy := Some(performedBy))
                      && keys == old(keys)[keyId := outcome.value]
                      && LoggedOne(c, old(events), events, body))
    {
      if keyId !in keys {
        return Err(UnknownKey);
      }
      if keys[keyId].revokedAt.Some? {
        return Err(AlreadyRevoked);
      }
      var revoked := keys[keyId].(revokedAt := Some(now), revokedBy := Some(performedBy));
      LoggedMeans(c, events, EventOf(events, RevokeEvent, revoked, performedBy, now));
      var appended := AppendKeyEvent(RevokeEvent, revoked, performedBy, now);
      if !appended {
        return Err(HashTaken);
      }
      keys := keys[keyId := revoked];
      return Ok(revoked);
    }

    method ActiveKey(fingerprint: Digest) returns (found: Option<SigningKey>)
      requires Filed()
      ensures found.Some? ==>
                IsActive(Contents(), fingerprint, found.value.keyId) && keys[found.value.keyId] == found.value
      ensures found.None? ==> forall id :: !IsActive(Contents(), fingerprint, id)
    {
      var pending := keys.Keys;
      while pending != {}
        invariant pending <= keys.Keys
        invariant forall id :: id in keys && id !in pending ==> !IsActive(Contents(), fingerprint, id)
      {
        var id :| id in pending;
        if keys[id].fingerprint == fingerprint && keys[id].revokedAt.None? {
          return Some(keys[id]);
        }
        pending := pending - {id};
      }
      return None;
    }

    method EnrollmentEvent(keyId: string) returns (found: Option<KeyEvent>)
      ensures found == EnrollmentOf(events, keyId)
    {
      found := FirstEnrollment(events, keyId);
    }

    // The part of append_checkpoint before its transaction.
    method Authorize(release: Release, privateKey: PrivateKey) returns (outcome: Result<Ticket, Refusal>)
      requires Filed()
      ensures outcome.Ok? ==> IsTicket(c, Contents(), release, privateKey, outcome.value)
      ensures outcome.Err? ==> forall ticket :: !IsTicket(c, Contents(), release, privateKey, ticket)
      ensures outcome == Err(InvalidRelease) <==> !release.valid
      ensures outcome == Err(WrongSigner) <==> release.valid && c.sha(c.publicOf(privateKey)) != release.signer
      ensures outcome == Err(NotAuthorized) <==>
                && release.valid && c.sha(c.publicOf(privateKey)) == release.signer
                && forall id :: id in keys ==> keys[id].fingerprint != release.signer || keys[id].revokedAt.Some?
      ensures outcome == Err(UnknownEnrollment) <==>
                && release.valid && c.sha(c.publicOf(privateKey)) == release.signer
                && exists id :: && id in keys && keys[id].fingerprint == release.signer && keys[id].revokedAt.None?
                                && EnrollmentOf(events, id).None?
      ensures outcome.Err? ==> outcome.error in {InvalidRelease, WrongSigner, NotAuthorized, UnknownEnrollment}
    {
      if !release.valid {
        return Err(InvalidRelease);
      }
      var fingerprint := c.sha(c.publicOf(privateKey));
      if fingerprint != release.signer {
        return Err(WrongSigner);
      }
      var key := ActiveKey(fingerprint);
      assert key.None? ==> forall id :: id in keys ==> !IsActive(Contents(), fingerprint, id);
      if key.None? {
        return Err(NotAuthorized);
      }
      var enrollment := EnrollmentEvent(key.value.keyId);
      if enrollment.None? {
        return Err(UnknownEnrollment);
      }
      return Ok(Ticket(release.manifest, key.value, enrollment.value, privateKey));
    }

    method ExistingCheckpoint(sha256: Digest) returns (found: Option<Checkpoint>)
      ensures found.Some? <==> ManifestTaken(Contents(), sha256)
      ensures found.Some? ==> found.value.payload.manifestSha256 == sha256
      ensures found.Some? ==> exists election :: election in checkpoints && found.value in checkpoints[election]
    {
      var pending := checkpoints.Keys;
      while pending != {}
        invariant pending <= checkpoints.Keys
        invariant forall election :: election in checkpoints && election !in pending ==>
                    forall i :: 0 <= i < |checkpoints[election]| ==>
                        checkpoints[election][i].payload.manifestSha256 != sha256
      {
        var election :| election in pending;
        for k := 0 to |checkpoints[election]|
          invariant forall i :: 0 <= i < k ==> checkpoints[election][i].payload.manifestSha256 != sha256
        {
          if checkpoints[election][k].payload.manifestSha256 == sha256 {
            return Some(checkpoints[election][k]);
          }
        }
        pending := pending - {election};
      }
      return None;
    }

    // The transaction of append_checkpoint.
    method Issue(ticket: Ticket, issuedAt: int, storedAt: int) returns (outcome: Result<Checkpoint, Refusal>)
      modifies this`checkpoints
      ensures var step := Issued(c, old(Contents()), ticket, issuedAt, storedAt);
              && (outcome.Ok? ==>
                    step == Ok(Contents()) && outcome.value.payload.manifestSha256 == ticket.manifest.sha256)
              && (outcome.Err? ==> step == Err(outcome.error) && Contents() == old(Contents()))
      ensures ManifestTaken(old(Contents()), ticket.manifest.sha256) ==>
                && outcome.Ok? && checkpoints == old(checkpoints)
                && exists election :: election in checkpoints && outcome.value in checkpoints[election]
      ensures !ManifestTaken(old(Contents()), ticket.manifest.sha256) && outcome.Ok? ==>
                var item, p := outcome.value, outcome.value.payload;
                var before := Chain(old(Contents()), p.electionId);
                && AddedOne(old(checkpoints), checkpoints, p.electionId, item)
                && ticket.manifest == Manifest(p.electionId, p.releaseId, p.merkleRoot, p.manifestSha256)
                && p.sequence == |before| + 1
                && p.previous == (if before == [] then None else Some(before[|before| - 1].hash))
                && p.signerKeyId == ticket.key.keyId && p.signerActorId == ticket.key.actorId
                && p.signerFingerprint == ticket.key.fingerprint && p.enrollmentHash == ticket.enrollment.hash
                && p.issuedAt == issuedAt && item.storedAt == storedAt
                && item.publicKeyB64 == c.encode(c.publicOf(ticket.privateKey))
                && item.signatureB64 == c.encode(c.sign(ticket.privateKey, c.payloadBytes(p)))
                && item.hash == c.sha(c.checkpointBytes(p, item.publicKeyB64, item.signatureB64))
                && !CheckpointHashTaken(old(Contents()), item.hash)
      ensures outcome.Err? ==> outcome.error == HashTaken && !ManifestTaken(old(Contents()), ticket.manifest.sha256)
    {
      var existing := ExistingCheckpoint(ticket.manifest.sha256);
      if existing.Some? {
        return Ok(existing.value);
      }
      var election := ticket.manifest.electionId;
      var chain := Chain(Contents(), election);
      var sequence, previous := 1, None;
      if chain != [] {
        sequence, previous := |chain| + 1, Some(chain[|chain| - 1].hash);
      }
      var payload := Payload(sequence, election, ticket.manifest.releaseId, ticket.manifest.merkleRoot,
                             ticket.manifest.sha256, ticket.key.keyId, ticket.key.actorId, ticket.key.fingerprint,
                             ticket.enrollment.hash, previous, issuedAt);
      var item := SignedCheckpoint(c, payload, ticket.privateKey, storedAt);
      if CheckpointHashTaken(Contents(), item.hash) {
        return Err(HashTaken);
      }
      checkpoints := checkpoints[election := chain + [item]];
      return Ok(item);
    }

    method VerifyKeyTransparency() returns (result: KeyVerification)
      ensures result.valid <==> TransparencyHolds(c, events)
      ensures result ==
              if result.valid then KeyVerification(true, |events|, LastHash(events))
              else KeyVerification(false, 0, None)
    {
      var previousHash: Option<Digest> := None;
      for i := 0 to |events|
        invariant previousHash == LastHash(events[..i])
        invariant forall j: nat :: j < i ==> EventHolds(c, events, j)
      {
        var event := events[i];
        if event.previous != previousHash || c.sha(c.eventBytes(event.body, previousHash)) != event.hash
           || !KeyBytesHold(c, event.body.publicKeyB64, event.body.fingerprint) {
          assert !EventHolds(c, events, i);
          return KeyVerification(false, 0, None);
        }
        previousHash := Some(event.hash);
        assert events[..i + 1][i] == event;
      }
      assert events[..|events|] == events;
      return KeyVerification(true, |events|, previousHash);
    }

    // Err means that looking up an enrollment event raised an error that nothing catches. An invalid
    // result names the first checkpoint that does not hold and the head before it.
    method VerifyCheckpointChain(election: string) returns (outcome: Result<ChainVerification, Refusal>)
      ensures outcome.Ok? ==> (outcome.value.valid <==> ChainHolds(c, events, election, Chain(Contents(), election)))
      ensures outcome.Ok? && outcome.value.valid ==>
                var chain := Chain(Contents(), election);
                outcome.value == ChainVerification(true, |chain|, HeadOf(chain))
      ensures !TransparencyHolds(c, events) ==> outcome == Ok(ChainVerification(false, 0, None))
      ensures TransparencyHolds(c, events) && outcome.Ok? && !outcome.value.valid ==>
                var chain, i := Chain(Contents(), election), outcome.value.checkpointsChecked;
                && i < |chain| && HoldsUpTo(c, events, election, chain, i)
                && !CheckpointHolds(c, events, election, chain, i) && !Unenrolled(events, election, chain, i)
                && outcome.value.head == HeadOf(chain[..i])
      ensures outcome.Err? ==>
                var chain := Chain(Contents(), election);
                && TransparencyHolds(c, events) && outcome.error == UnknownEnrollment
                && exists i: nat :: i < |chain| && HoldsUpTo(c, events, election, chain, i)
                                    && Unenrolled(events, election, chain, i)
    {
      var transparency := VerifyKeyTransparency();
      if !transparency.valid {
        return Ok(ChainVerification(false, 0, None));
      }
      var chain := Chain(Contents(), election);
      var previousHash: Option<Digest> := None;
      for i := 0 to |chain|
        invariant previousHash == HeadOf(chain[..i])
        invariant forall j: nat :: j < i ==> CheckpointHolds(c, events, election, chain, j)
      {
        var payload := chain[i].payload;
        var fails := payload.electionId != election || payload.sequence != i + 1 || payload.previous != previousHash;
        if !fails {
          var enrollment := EnrollmentEvent(payload.signerKeyId);
          if enrollment.None? {
            assert HoldsUpTo(c, events, election, chain, i) && Unenrolled(events, election, chain, i);
            return Err(UnknownEnrollment);
          }
          fails := CheckpointFails(c, events, enrollment.value, chain[i]);
        }
        if fails {
          assert !CheckpointHolds(c, events, election, chain, i);
          return Ok(ChainVerification(false, i, previousHash));
        }
        previousHash := Some(chain[i].hash);
        assert chain[..i + 1][i] == chain[i];
      }
      assert chain[..|chain|] == chain;
      return Ok(ChainVerification(true, |chain|, previousHash));
    }
  }

  method FirstEnrollment(events: seq<KeyEvent>, keyId: string) returns (found: Option<KeyEvent>)
    ensures found == EnrollmentOf(events, keyId)
  {
    assert events[0..] == events;
    for i := 0 to |events|
      invariant EnrollmentOf(events, keyId) == EnrollmentOf(events[i..], keyId)
    {
      assert events[i..][1..] == events[i + 1..];
      if events[i].body.keyId == keyId && events[i].body.eventType == EnrollEvent {
        return Some(events[i]);
      }
    }
    return None;
  }

  // The checks on one checkpoint after its position and its enrollment event are known.
  method CheckpointFails(c: Crypto, events: seq<KeyEvent>, enrollment: KeyEvent, item: Checkpoint) returns (fails: bool)
    ensures !fails <==>
              && enrollment.hash == item.payload.enrollmentHash
              && enrollment.body.actorId == item.payload.signerActorId
              && enrollment.body.fingerprint == item.payload.signerFingerprint
              && NotRevokedYet(events, item.payload)
              && KeyBytesHold(c, item.publicKeyB64, item.payload.signerFingerprint)
              && SignatureHolds(c, item)
              && item.hash == c.sha(c.checkpointBytes(item.payload, item.publicKeyB64, item.signatureB64))
  {
    var payload := item.payload;
    if enrollment.hash != payload.enrollmentHash || enrollment.body.actorId != payload.signerActorId
       || enrollment.body.fingerprint != payload.signerFingerprint {
      return true;
    }
    for i := 0 to |events|
      invariant forall j :: 0 <= j < i ==> !RevokesBefore(events[j], payload)
    {
      if RevokesBefore(events[i], payload) {
        return true;
      }
    }
    return || !KeyBytesHold(c, item.publicKeyB64, payload.signerFingerprint)
           || !SignatureHolds(c, item)
           || item.hash != c.sha(c.checkpointBytes(payload, item.publicKeyB64, item.signatureB64));
  }

  // ---------------------------------------------------------------- published snapshots

  datatype KeySnapshot = KeySnapshot(eventsChecked: nat, head: Digest, events: seq<KeyEvent>)

  datatype ChainSnapshot = ChainSnapshot(
    electionId: string,
    checkpointsChecked: nat,
    head: Digest,
    checkpoints: seq<Checkpoint>)

  ghost predicate NumberedEventHolds(c: Crypto, events: seq<KeyEvent>, i: nat)
    requires i < |events|
  {
    EventHolds(c, events, i) && events[i].body.sequence == i + 1
  }

  ghost predicate KeySnapshotHolds(c: Crypto, s: KeySnapshot) {
    && s.eventsChecked == |s.events| && LastHash(s.events) == Some(s.head)
    && forall i: nat :: i < |s.events| ==> NumberedEventHolds(c, s.events, i)
  }

  ghost predicate ChainSnapshotHolds(c: Crypto, s: ChainSnapshot, keys: KeySnapshot) {
    && KeySnapshotHolds(c, keys)
    && s.checkpointsChecked == |s.checkpoints| && HeadOf(s.checkpoints) == Some(s.head)
    && forall i: nat :: i < |s.checkpoints| ==> CheckpointHolds(c, keys.events, s.electionId, s.checkpoints, i)
  }

  method VerifyKeySnapshot(c: Crypto, s: KeySnapshot) returns (valid: bool)
    ensures valid <==> KeySnapshotHolds(c, s)
  {
    if s.eventsChecked != |s.events| || s.events == [] {
      return false;
    }
    var previousHash: Option<Digest> := None;
    for i := 0 to |s.events|
      invariant previousHash == LastHash(s.events[..i])
      invariant forall j: nat :: j < i ==> NumberedEventHolds(c, s.events, j)
    {
      var event := s.events[i];
      if event.body.sequence != i + 1 || event.previous != previousHash
         || !KeyBytesHold(c, event.body.publicKeyB64, event.body.fingerprint)
         || c.sha(c.eventBytes(event.body, previousHash)) != event.hash {
        assert !NumberedEventHolds(c, s.events, i);
        return false;
      }
      previousHash := Some(event.hash);
      assert s.events[..i + 1][i] == event;
    }
    assert s.events[..|s.events|] == s.events;
    return previousHash == Some(s.head);
  }

  method VerifyChainSnapshot(c: Crypto, s: ChainSnapshot, keys: KeySnapshot) returns (valid: bool)
    ensures valid <==> ChainSnapshotHolds(c, s, keys)
  {
    var keysValid := VerifyKeySnapshot(c, keys);
    if !keysValid {
      return false;
    }
    if s.checkpointsChecked != |s.checkpoints| || s.checkpoints == [] {
      return false;
    }
    var chain := s.checkpoints;
    var previousHash: Option<Digest> := None;
    for i := 0 to |chain|
      invariant previousHash == HeadOf(chain[..i])
      invariant forall j: nat :: j < i ==> CheckpointHolds(c, keys.events, s.electionId, chain, j)
    {
      var payload := chain[i].payload;
      var fails := payload.electionId != s.electionId || payload.sequence != i + 1 || payload.previous != previousHash;
      if !fails {
        var enrollment := FirstEnrollment(keys.events, payload.signerKeyId);
        if enrollment.None? {
          fails := true;
        } else {
          fails := CheckpointFails(c, keys.events, enrollment.value, chain[i]);
        }
      }
      if fails {
        assert !CheckpointHolds(c, keys.events, s.electionId, chain, i);
        return false;
      }
      previousHash := Some(chain[i].hash);
      assert chain[..i + 1][i] == chain[i];
    }
    assert chain[..|chain|] == chain;
    return previousHash == Some(s.head);
  }

  datatype MatchError = NotExactlyOne | Inconsistent

  ghost predicate OnlyMatch(checkpoints: seq<Checkpoint>, sha256: Digest, k: nat) {
    && k < |checkpoints| && checkpoints[k].payload.manifestSha256 == sha256
    && forall i :: 0 <= i < |checkpoints| && checkpoints[i].payload.manifestSha256 == sha256 ==> i == k
  }

  // The release's own checkpoint, and the chain up to it.
  method MatchingCheckpoint(checkpoints: seq<Checkpoint>, sha256: Digest)
    returns (outcome: Result<(Checkpoint, seq<Checkpoint>), MatchError>)
    ensures outcome == Err(NotExactlyOne) <==> !exists k: nat :: OnlyMatch(checkpoints, sha256, k)
    ensures forall k: nat :: OnlyMatch(checkpoints, sha256, k) ==>
              var n := checkpoints[k].payload.sequence;
              var prefix := if n <= |checkpoints| then checkpoints[..n] else checkpoints;
              outcome ==
                if HeadOf(prefix) == Some(checkpoints[k].hash) then Ok((checkpoints[k], prefix)) else Err(Inconsistent)
  {
    var matches: seq<Checkpoint> := [];
    ghost var at: nat := 0;
    for i := 0 to |checkpoints|
      invariant |matches| == 0 ==> forall j :: 0 <= j < i ==> checkpoints[j].payload.manifestSha256 != sha256
      invariant |matches| > 0 ==>
                  at < i && checkpoints[at].payload.manifestSha256 == sha256 && matches[0] == checkpoints[at]
      invariant |matches| == 1 ==> forall j :: 0 <= j < i && checkpoints[j].payload.manifestSha256 == sha256 ==> j == at
      invariant |matches| > 1 ==> exists j :: 0 <= j < i && j != at && checkpoints[j].payload.manifestSha256 == sha256
    {
      if checkpoints[i].payload.manifestSha256 == sha256 {
        if matches == [] {
          at := i;
        }
        matches := matches + [checkpoints[i]];
      }
    }
    if |matches| != 1 {
      return Err(NotExactlyOne);
    }
    assert OnlyMatch(checkpoints, sha256, at);
    var checkpoint := matches[0];
    var n := checkpoint.payload.sequence;
    var prefix := if n <= |checkpoints| then checkpoints[..n] else checkpoints;
    if prefix == [] || prefix[|prefix| - 1].hash != checkpoint.hash {
      return Err(Inconsistent);
    }
    return Ok((checkpoint, prefix));
  }
}
