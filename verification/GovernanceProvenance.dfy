// Where everything in the release ledger comes from: every checkpoint, key event and key row traces
// back to the operations of the run, field by field.
module GovernanceProvenance {
  import opened Outcomes
  import opened Hashing
  import opened HashChain
  import opened Governance
  import opened GovernanceTheorems

  // ---------------------------------------------------------------- checkpoints

  lemma {:induction false} TicketsAreAuthorized(c: Crypto, ops: seq<Op>, ticket: Ticket) returns (j: nat)
    requires ticket in Reached(c, ops).tickets
    ensures j < |ops| && ops[j].Authorize? && ops[j].ticket == ticket
  {
    var init := ops[..|ops| - 1];
    hide StepOf;
    if ticket in Reached(c, init).tickets {
      j := TicketsAreAuthorized(c, init, ticket);
    } else {
      j := |ops| - 1;
    }
  }

  // One step extends at most the chain that it issues on.
  lemma ChainsGrow(c: Crypto, s: State, op: Op, election: string)
    ensures
      var before, after := Chain(s.ledger, election), Chain(Next(c, s, op).ledger, election);
      || after == before
      || (op.Issue? && op.ticket.manifest.electionId == election
          && after == before + [NextCheckpoint(c, s.ledger, op.ticket, op.issuedAt, op.storedAt)])
  {
    hide Sealed, EventHashTaken, FingerprintTaken, ManifestTaken, CheckpointHashTaken, NextCheckpoint, EventOf, NewKey;
  }

  // The operation that issued a checkpoint.
  lemma {:induction false} IssuedBy(c: Crypto, ops: seq<Op>, election: string, i: nat) returns (k: nat)
    requires i < |Chain(Reached(c, ops).ledger, election)|
    ensures k < |ops| && ops[k].Issue? && ops[k].ticket.manifest.electionId == election
    ensures
      var chain, l := Chain(Reached(c, ops).ledger, election), Reached(c, ops[..k]).ledger;
      && Chain(l, election) == chain[..i]
      && chain[i] == NextCheckpoint(c, l, ops[k].ticket, ops[k].issuedAt, ops[k].storedAt)
  {
    if ops == [] {
      assert false;
    } else {
      var n := |ops| - 1;
      var s := Reached(c, ops[..n]);
      ChainsGrow(c, s, ops[n], election);
      hide Next, NextCheckpoint, Chain;
      if i < |Chain(s.ledger, election)| {
        k := IssuedBy(c, ops[..n], election, i);
        assert ops[..n][..k] == ops[..k];
      } else {
        k := n;
      }
    }
  }

  // What the checkpoint issued on a ticket says, after the checkpoints in `before`.
  lemma IssuedSays(c: Crypto, l: Ledger, ticket: Ticket, issuedAt: int, storedAt: int, before: seq<Checkpoint>)
    requires before == Chain(l, ticket.manifest.electionId)
    ensures
      var item := NextCheckpoint(c, l, ticket, issuedAt, storedAt);
      var p := item.payload;
      && ticket.manifest == Manifest(p.electionId, p.releaseId, p.merkleRoot, p.manifestSha256)
      && p.sequence == |before| + 1
      && p.previous == (if before == [] then None else Some(before[|before| - 1].hash))
      && p.signerKeyId == ticket.key.keyId && p.signerActorId == ticket.key.actorId
      && p.signerFingerprint == ticket.key.fingerprint && p.enrollmentHash == ticket.enrollment.hash
      && p.issuedAt == issuedAt && item.storedAt == storedAt
      && item.publicKeyB64 == c.encode(c.publicOf(ticket.privateKey))
      && item.signatureB64 == c.encode(c.sign(ticket.privateKey, c.payloadBytes(p)))
      && item.hash == c.sha(c.checkpointBytes(p, item.publicKeyB64, item.signatureB64))
  {
  }

  lemma TicketSays(c: Crypto, s: State, op: Op) returns (e: nat)
    requires op.Authorize? && Enabled(c, s, op)
    ensures
      var l, key := s.ledger, op.ticket.key;
      && op.release.valid && op.release.manifest == op.ticket.manifest && op.privateKey == op.ticket.privateKey
      && key.fingerprint == op.release.signer == c.sha(c.publicOf(op.privateKey))
      && key.keyId in l.keys && l.keys[key.keyId] == key && key.revokedAt == None
      && FirstEnrolledAt(l.events, key.keyId, e) && op.ticket.enrollment == l.events[e]
  {
    hide EnrollmentOf;
    e := EnrollmentIsFirst(s.ledger.events, op.ticket.key.keyId);
  }

  // The event at `e` is the first that enrolls the key.
  ghost predicate FirstEnrolledAt(events: seq<KeyEvent>, keyId: string, e: nat) {
    && e < |events| && events[e].body.keyId == keyId && events[e].body.eventType == EnrollEvent
    && forall i :: 0 <= i < e ==> events[i].body.keyId != keyId || events[i].body.eventType != EnrollEvent
  }

  lemma {:induction false} EnrollmentIsFirst(events: seq<KeyEvent>, keyId: string) returns (e: nat)
    ensures EnrollmentOf(events, keyId).Some? ==>
              FirstEnrolledAt(events, keyId, e) && EnrollmentOf(events, keyId) == Some(events[e])
    ensures EnrollmentOf(events, keyId).None? ==> forall i: nat :: !FirstEnrolledAt(events, keyId, i)
  {
    if events == [] || (events[0].body.keyId == keyId && events[0].body.eventType == EnrollEvent) {
      e := 0;
    } else {
      var rest := EnrollmentIsFirst(events[1..], keyId);
      e := rest + 1;
      forall i: nat ensures FirstEnrolledAt(events, keyId, i) ==> i > 0 && FirstEnrolledAt(events[1..], keyId, i - 1) {
        if FirstEnrolledAt(events, keyId, i) {
          assert forall k :: 0 <= k < i - 1 ==> events[1..][k] == events[k + 1];
        }
      }
    }
  }

  lemma IssueIsAuthorized(c: Crypto, ops: seq<Op>, k: nat) returns (j: nat)
    requires IsRun(c, ops) && k < |ops| && ops[k].Issue?
    ensures j < k && ops[j].Authorize? && ops[j].ticket == ops[k].ticket && Enabled(c, Reached(c, ops[..j]), ops[j])
  {
    RunPrefix(c, ops, k);
    hide Reached, Next, IsTicket;
    j := TicketsAreAuthorized(c, ops[..k], ops[k].ticket);
    hide Enabled;
    RunPrefix(c, ops, j);
  }

  // Over every run, each checkpoint commits to the manifest of a valid release: operation `j`
  // authorized that release for the key that signs it, the key's row being active then and its first
  // enrollment being event `e`, and operation `k` issued the checkpoint on that authorization.
  lemma CheckpointsAreAuthorized(c: Crypto, ops: seq<Op>, election: string, i: nat) returns (j: nat, k: nat, e: nat)
    requires IsRun(c, ops) && i < |Chain(Reached(c, ops).ledger, election)|
    ensures
      var chain := Chain(Reached(c, ops).ledger, election);
      var item, p := chain[i], chain[i].payload;
      && j < k < |ops| && ops[j].Authorize? && ops[k].Issue? && ops[k].ticket == ops[j].ticket
      && ops[j].release.valid
      && ops[j].release.manifest == Manifest(p.electionId, p.releaseId, p.merkleRoot, p.manifestSha256)
      && p.electionId == election && p.sequence == i + 1
      && p.previous == (if i == 0 then None else Some(chain[i - 1].hash))
      && p.issuedAt == ops[k].issuedAt && item.storedAt == ops[k].storedAt
      && item.publicKeyB64 == c.encode(c.publicOf(ops[j].privateKey))
      && item.signatureB64 == c.encode(c.sign(ops[j].privateKey, c.payloadBytes(p)))
      && item.hash == c.sha(c.checkpointBytes(p, item.publicKeyB64, item.signatureB64))
    ensures
      var p, l := Chain(Reached(c, ops).ledger, election)[i].payload, Reached(c, ops[..j]).ledger;
      && p.signerFingerprint == ops[j].release.signer == c.sha(c.publicOf(ops[j].privateKey))
      && p.signerKeyId in l.keys && l.keys[p.signerKeyId].revokedAt == None
      && l.keys[p.signerKeyId].keyId == p.signerKeyId && l.keys[p.signerKeyId].actorId == p.signerActorId
      && l.keys[p.signerKeyId].fingerprint == p.signerFingerprint
      && FirstEnrolledAt(l.events, p.signerKeyId, e) && p.enrollmentHash == l.events[e].hash
  {
    hide *;
    k := IssuedBy(c, ops, election, i);
    j := IssueIsAuthorized(c, ops, k);
    e := TicketSays(c, Reached(c, ops[..j]), ops[j]);
    IssuedSays(c, Reached(c, ops[..k]).ledger, ops[k].ticket, ops[k].issuedAt, ops[k].storedAt,
               Chain(Reached(c, ops).ledger, election)[..i]);
  }

  // ---------------------------------------------------------------- key events

  // The row that enrolling makes.
  ghost predicate IsEnrolledRow(c: Crypto, op: Op, row: SigningKey) {
    && op.Enroll? && op.identity.Active? && c.decode(op.publicKeyB64).Some?
    && |c.decode(op.publicKeyB64).value| == 32
    && row.fingerprint == c.sha(c.decode(op.publicKeyB64).value)
    && row.keyId == c.keyIdOf(op.actorId, row.fingerprint)
    && row.actorId == op.actorId && row.publicKeyB64 == op.publicKeyB64 && row.keyLabel == op.text
    && row.enrolledAt == op.now && row.enrolledBy == op.performedBy
    && row.revokedAt == None && row.revokedBy == None
  }

  // The row that revoking makes of the row before.
  ghost predicate IsRevokedRow(op: Op, before: SigningKey, row: SigningKey) {
    && op.Revoke? && before.revokedAt == None
    && row.keyId == before.keyId && row.actorId == before.actorId && row.publicKeyB64 == before.publicKeyB64
    && row.fingerprint == before.fingerprint && row.keyLabel == before.keyLabel
    && row.enrolledAt == before.enrolledAt && row.enrolledBy == before.enrolledBy
    && row.revokedAt == Some(op.now) && row.revokedBy == Some(op.performedBy)
  }

  // The event that goes with writing a row.
  ghost predicate Reports(c: Crypto, op: Op, events: seq<KeyEvent>, row: SigningKey, event: KeyEvent) {
    var b := event.body;
    && (op.Enroll? || op.Revoke?)
    && b.eventType == (if op.Enroll? then EnrollEvent else RevokeEvent)
    && b.sequence == |events| + 1 && b.performedBy == op.performedBy && b.createdAt == op.now
    && b.keyId == row.keyId && b.actorId == row.actorId && b.publicKeyB64 == row.publicKeyB64
    && b.fingerprint == row.fingerprint && b.keyLabel == row.keyLabel
    && event.previous == (if events == [] then None else Some(events[|events| - 1].hash))
    && event.hash == c.sha(c.eventBytes(b, event.previous))
    && forall i :: 0 <= i < |events| ==> events[i].hash != event.hash
  }

  ghost predicate WritesRow(c: Crypto, l: Ledger, op: Op, m: Ledger) {
    && m.checkpoints == l.checkpoints && |m.events| == |l.events| + 1 && m.events == l.events + [m.events[|l.events|]]
    && var event := m.events[|l.events|];
    var id := event.body.keyId;
    && id in m.keys && m.keys == l.keys[id := m.keys[id]] && Reports(c, op, l.events, m.keys[id], event)
    && if op.Enroll? then
         id !in l.keys && IsEnrolledRow(c, op, m.keys[id])
         && forall other :: other in l.keys ==> l.keys[other].fingerprint != m.keys[id].fingerprint
       else
         id in l.keys && op.Revoke? && id == op.keyId && IsRevokedRow(op, l.keys[id], m.keys[id])
  }

  ghost predicate RowsFiled(l: Ledger) {
    forall id :: id in l.keys ==> l.keys[id].keyId == id
  }

  // Every step leaves keys and events as they are, or writes one row and reports it in one event.
  lemma StepWritesOneRow(c: Crypto, s: State, op: Op)
    requires RowsFiled(s.ledger)
    ensures
      var l, m := s.ledger, Next(c, s, op).ledger;
      || (m.keys == l.keys && m.events == l.events)
      || WritesRow(c, l, op, m)
  {
    hide ManifestTaken, CheckpointHashTaken, NextCheckpoint, IsEnrolledRow, IsRevokedRow;
    var l := s.ledger;
    match op
    case Enroll(identity, actorId, publicKeyB64, performedBy, text, now) =>
      if StepOf(c, l, op).Ok? {
        EnrollWritesRow(c, s, op);
      }
    case Revoke(keyId, performedBy, now) =>
      if StepOf(c, l, op).Ok? {
        RevokeWritesRow(c, s, op);
      }
    case _ =>
  }

  lemma EnrollWritesRow(c: Crypto, s: State, op: Op)
    requires op.Enroll? && StepOf(c, s.ledger, op).Ok?
    ensures WritesRow(c, s.ledger, op, Next(c, s, op).ledger)
  {
  }

  lemma RevokeWritesRow(c: Crypto, s: State, op: Op)
    requires op.Revoke? && StepOf(c, s.ledger, op).Ok? && s.ledger.keys[op.keyId].keyId == op.keyId
    ensures WritesRow(c, s.ledger, op, Next(c, s, op).ledger)
  {
  }

  lemma {:induction false} RowsAreFiled(c: Crypto, ops: seq<Op>)
    ensures RowsFiled(Reached(c, ops).ledger)
  {
    if ops != [] {
      var n := |ops| - 1;
      RowsAreFiled(c, ops[..n]);
      hide WritesRow, Next, RowsFiled;
      StepWritesOneRow(c, Reached(c, ops[..n]), ops[n]);
      WrittenIsFiled(c, Reached(c, ops[..n]).ledger, ops[n], Reached(c, ops).ledger);
    }
  }

  lemma WrittenIsFiled(c: Crypto, l: Ledger, op: Op, m: Ledger)
    requires RowsFiled(l) && (m.keys == l.keys || WritesRow(c, l, op, m))
    ensures RowsFiled(m)
  {
  }

  // Every key event was logged by one enrollment or revocation of the run, in the order of the run:
  // before operation `k` there were `i` events, and operation `k` wrote the row that the event reports.
  lemma {:induction false} KeyEventsAreLogged(c: Crypto, ops: seq<Op>, i: nat) returns (k: nat)
    requires i < |Reached(c, ops).ledger.events|
    ensures k < |ops| && Reached(c, ops[..k]).ledger.events == Reached(c, ops).ledger.events[..i]
    ensures Reached(c, ops[..k + 1]).ledger.events == Reached(c, ops).ledger.events[..i + 1]
    ensures WritesRow(c, Reached(c, ops[..k]).ledger, ops[k], Reached(c, ops[..k + 1]).ledger)
  {
    if ops == [] {
      assert false;
    } else {
      var n := |ops| - 1;
      var l, events := Reached(c, ops[..n]).ledger, Reached(c, ops).ledger.events;
      RowsAreFiled(c, ops[..n]);
      StepWritesOneRow(c, Reached(c, ops[..n]), ops[n]);
      assert ops[..n + 1] == ops;
      EventsGrow(c, l, ops[n], Reached(c, ops).ledger);
      hide *;
      if i < |l.events| {
        k := KeyEventsAreLogged(c, ops[..n], i);
        assert ops[..n][..k] == ops[..k] && ops[..n][..k + 1] == ops[..k + 1];
        assert l.events[..i] == events[..i] && l.events[..i + 1] == events[..i + 1];
      } else {
        k := n;
      }
    }
  }

  lemma EventsGrow(c: Crypto, l: Ledger, op: Op, m: Ledger)
    requires (m.keys == l.keys && m.events == l.events) || WritesRow(c, l, op, m)
    ensures |l.events| <= |m.events| && m.events[..|l.events|] == l.events
    ensures |m.events| > |l.events| ==> WritesRow(c, l, op, m) && |m.events| == |l.events| + 1
    ensures m.events[..|m.events|] == m.events
  {
    hide Reports, IsEnrolledRow, IsRevokedRow;
  }

  // The key's row is the one that event `e` enrolled, revoked by event `f` if there is one, and no
  // other event is about the key.
  ghost predicate LoggedBy(l: Ledger, id: string, e: nat, f: Option<nat>) {
    && id in l.keys && e < |l.events|
    && var row, b := l.keys[id], l.events[e].body;
    && row.keyId == id && b.keyId == id && b.eventType == EnrollEvent
    && row.actorId == b.actorId && row.publicKeyB64 == b.publicKeyB64 && row.fingerprint == b.fingerprint
    && row.keyLabel == b.keyLabel && row.enrolledAt == b.createdAt && row.enrolledBy == b.performedBy
    && (forall i: nat :: i < |l.events| && l.events[i].body.keyId == id ==> i == e || f == Some(i))
    && match f
       case None => row.revokedAt == None && row.revokedBy == None
       case Some(g) =>
         && e < g < |l.events| && l.events[g].body.keyId == id && l.events[g].body.eventType == RevokeEvent
         && row.revokedAt == Some(l.events[g].body.createdAt) && row.revokedBy == Some(l.events[g].body.performedBy)
  }

  ghost predicate EventsAreFiled(l: Ledger) {
    forall i :: 0 <= i < |l.events| ==> l.events[i].body.keyId in l.keys
  }

  lemma {:induction false} EventKeysAreFiled(c: Crypto, ops: seq<Op>)
    ensures EventsAreFiled(Reached(c, ops).ledger)
  {
    if ops != [] {
      var n := |ops| - 1;
      EventKeysAreFiled(c, ops[..n]);
      RowsAreFiled(c, ops[..n]);
      hide WritesRow, Next, EventsAreFiled;
      StepWritesOneRow(c, Reached(c, ops[..n]), ops[n]);
      FiledAfter(c, Reached(c, ops[..n]).ledger, ops[n], Reached(c, ops).ledger);
    }
  }

  lemma FiledAfter(c: Crypto, l: Ledger, op: Op, m: Ledger)
    requires EventsAreFiled(l) && ((m.keys == l.keys && m.events == l.events) || WritesRow(c, l, op, m))
    ensures EventsAreFiled(m)
  {
    hide Reports, IsEnrolledRow, IsRevokedRow;
    forall i | 0 <= i < |m.events| ensures m.events[i].body.keyId in m.keys {
      if i < |l.events| {
        assert m.events[i] == l.events[i];
      }
    }
  }

  // Every key row is what its events say.
  lemma {:induction false} KeyRowsAreLogged(c: Crypto, ops: seq<Op>, id: string) returns (e: nat, f: Option<nat>)
    requires id in Reached(c, ops).ledger.keys
    ensures LoggedBy(Reached(c, ops).ledger, id, e, f)
  {
    if ops == [] {
      assert false;
    } else {
      var n := |ops| - 1;
      var l, m := Reached(c, ops[..n]).ledger, Reached(c, ops).ledger;
      RowsAreFiled(c, ops[..n]);
      EventKeysAreFiled(c, ops[..n]);
      StepWritesOneRow(c, Reached(c, ops[..n]), ops[n]);
      hide Next, LoggedBy, EventsAreFiled, WritesRow, Reached;
      if id in l.keys {
        e, f := KeyRowsAreLogged(c, ops[..n], id);
        if WritesRow(c, l, ops[n], m) {
          f := LoggedAfter(c, l, ops[n], m, id, e, f);
        } else {
          LoggedStill(l, m, id, e, f);
        }
      } else {
        e, f := |l.events|, None;
        LoggedFirst(c, l, ops[n], m, id);
      }
    }
  }

  lemma LoggedStill(l: Ledger, m: Ledger, id: string, e: nat, f: Option<nat>)
    requires LoggedBy(l, id, e, f) && m.keys == l.keys && m.events == l.events
    ensures LoggedBy(m, id, e, f)
  {
  }

  lemma LoggedFirst(c: Crypto, l: Ledger, op: Op, m: Ledger, id: string)
    requires WritesRow(c, l, op, m) && EventsAreFiled(l) && id !in l.keys && id in m.keys
    ensures LoggedBy(m, id, |l.events|, None)
  {
    forall i: nat | i < |l.events| ensures m.events[i].body.keyId != id {
      assert m.events[i] == l.events[i];
    }
  }

  lemma LoggedAfter(c: Crypto, l: Ledger, op: Op, m: Ledger, id: string, e: nat, f: Option<nat>)
    returns (g: Option<nat>)
    requires WritesRow(c, l, op, m) && LoggedBy(l, id, e, f)
    ensures LoggedBy(m, id, e, g)
  {
    g := if m.events[|l.events|].body.keyId == id then Some(|l.events|) else f;
    assert forall i: nat :: i < |l.events| ==> m.events[i] == l.events[i];
  }

  // ---------------------------------------------------------------- hashes

  ghost predicate EventHashesUnique(events: seq<KeyEvent>) {
    forall i, j :: 0 <= i < j < |events| ==> events[i].hash != events[j].hash
  }

  ghost predicate CarriesHash(l: Ledger, election: string, i: nat, hash: Digest) {
    election in l.checkpoints && i < |l.checkpoints[election]| && l.checkpoints[election][i].hash == hash
  }

  ghost predicate CheckpointHashesUnique(l: Ledger) {
    forall e, i: nat, f, j: nat, hash :: CarriesHash(l, e, i, hash) && CarriesHash(l, f, j, hash) ==> e == f && i == j
  }

  // No two key events share a hash, and no two checkpoints do, of whatever election.
  lemma {:induction false} HashesAreUnique(c: Crypto, ops: seq<Op>)
    ensures EventHashesUnique(Reached(c, ops).ledger.events) && CheckpointHashesUnique(Reached(c, ops).ledger)
  {
    if ops != [] {
      var n := |ops| - 1;
      var s := Reached(c, ops[..n]);
      HashesAreUnique(c, ops[..n]);
      RowsAreFiled(c, ops[..n]);
      hide EventHashesUnique, CheckpointHashesUnique, Next, WritesRow;
      StepWritesOneRow(c, s, ops[n]);
      EventHashesAfter(c, s.ledger, ops[n], Reached(c, ops).ledger);
      CheckpointHashesAfter(c, s, ops[n]);
    }
  }

  lemma EventHashesAfter(c: Crypto, l: Ledger, op: Op, m: Ledger)
    requires EventHashesUnique(l.events) && (m.events == l.events || WritesRow(c, l, op, m))
    ensures EventHashesUnique(m.events)
  {
    if m.events != l.events {
      assert m.events == l.events + [m.events[|l.events|]];
    }
  }

  lemma CheckpointHashesAfter(c: Crypto, s: State, op: Op)
    requires CheckpointHashesUnique(s.ledger)
    ensures CheckpointHashesUnique(Next(c, s, op).ledger)
  {
    hide Sealed, EventHashTaken, FingerprintTaken, ManifestTaken, EventOf, NewKey;
    var l, m := s.ledger, Next(c, s, op).ledger;
    if m.checkpoints != l.checkpoints {
      var election, item := op.ticket.manifest.electionId, NextCheckpoint(c, l, op.ticket, op.issuedAt, op.storedAt);
      hide NextCheckpoint;
      assert m.checkpoints == l.checkpoints[election := Chain(l, election) + [item]];
      HashesAfterIssue(l, m, election, item);
    } else {
      SameHashes(l, m);
    }
  }

  lemma SameHashes(l: Ledger, m: Ledger)
    requires CheckpointHashesUnique(l) && m.checkpoints == l.checkpoints
    ensures CheckpointHashesUnique(m)
  {
    forall e, i: nat, f, j: nat, hash | CarriesHash(m, e, i, hash) && CarriesHash(m, f, j, hash)
      ensures e == f && i == j
    {
      assert CarriesHash(l, e, i, hash) && CarriesHash(l, f, j, hash);
    }
  }

  lemma HashIsTaken(l: Ledger, election: string, i: nat, hash: Digest)
    ensures CarriesHash(l, election, i, hash) ==> CheckpointHashTaken(l, hash)
  {
    if CarriesHash(l, election, i, hash) {
      assert l.checkpoints[election][i] in l.checkpoints[election];
    }
  }

  lemma HashesAfterIssue(l: Ledger, m: Ledger, election: string, item: Checkpoint)
    requires CheckpointHashesUnique(l) && !CheckpointHashTaken(l, item.hash)
    requires m.checkpoints == l.checkpoints[election := Chain(l, election) + [item]]
    ensures CheckpointHashesUnique(m)
  {
    forall e, i: nat, hash | CarriesHash(m, e, i, hash)
      ensures CarriesHash(l, e, i, hash) || (e == election && i == |Chain(l, election)| && hash == item.hash)
    {
    }
    forall e, i: nat ensures !CarriesHash(l, e, i, item.hash) {
      HashIsTaken(l, e, i, item.hash);
    }
    hide CheckpointHashTaken, Chain;
  }

  // ---------------------------------------------------------------- what verifying checks

  // The event continues the one before it, carries its own hash, and names a key by its fingerprint.
  ghost predicate EventIsSound(c: Crypto, events: seq<KeyEvent>, i: nat)
    requires i < |events|
  {
    var event := events[i];
    && event.previous == (if i == 0 then None else Some(events[i - 1].hash))
    && event.hash == c.sha(c.eventBytes(event.body, event.previous))
    && exists raw :: c.decode(event.body.publicKeyB64) == Some(raw) && |raw| == 32
                     && c.sha(raw) == event.body.fingerprint
  }

  // The checkpoint stands at its place in the chain of its election, is signed by the key that its
  // signer enrolled first, carries its own hash, and was issued before any revocation of that key.
  ghost predicate CheckpointIsSound(c: Crypto, events: seq<KeyEvent>, election: string, chain: seq<Checkpoint>, i: nat)
    requires i < |chain|
  {
    var item, p := chain[i], chain[i].payload;
    && p.electionId == election && p.sequence == i + 1
    && p.previous == (if i == 0 then None else Some(chain[i - 1].hash))
    && (exists e: nat :: && FirstEnrolledAt(events, p.signerKeyId, e) && events[e].hash == p.enrollmentHash
                         && events[e].body.actorId == p.signerActorId
                         && events[e].body.fingerprint == p.signerFingerprint)
    && (exists raw, signature ::
          && c.decode(item.publicKeyB64) == Some(raw) && |raw| == 32 && c.sha(raw) == p.signerFingerprint
          && c.decode(item.signatureB64) == Some(signature) && c.verifies(raw, signature, c.payloadBytes(p)))
    && item.hash == c.sha(c.checkpointBytes(p, item.publicKeyB64, item.signatureB64))
    && forall event :: event in events && event.body.keyId == p.signerKeyId && event.body.eventType == RevokeEvent ==>
         p.issuedAt < event.body.createdAt
  }

  lemma EventHoldsMeans(c: Crypto, events: seq<KeyEvent>, i: nat)
    requires i < |events|
    ensures EventHolds(c, events, i) <==> EventIsSound(c, events, i)
  {
  }

  lemma CheckpointHoldsMeans(c: Crypto, events: seq<KeyEvent>, election: string, chain: seq<Checkpoint>, i: nat)
    requires i < |chain|
    ensures CheckpointHolds(c, events, election, chain, i) <==> CheckpointIsSound(c, events, election, chain, i)
  {
    hide EnrollmentOf;
    var e := EnrollmentIsFirst(events, chain[i].payload.signerKeyId);
    OnlyFirst(events, chain[i].payload.signerKeyId);
    hide FirstEnrolledAt;
  }

  lemma OnlyFirst(events: seq<KeyEvent>, keyId: string)
    ensures forall e: nat, f: nat :: FirstEnrolledAt(events, keyId, e) && FirstEnrolledAt(events, keyId, f) ==> e == f
  {
  }

  // The verifiers check exactly that.
  lemma VerifyingMeans(c: Crypto, events: seq<KeyEvent>, election: string, chain: seq<Checkpoint>)
    ensures TransparencyHolds(c, events) <==> forall i: nat :: i < |events| ==> EventIsSound(c, events, i)
    ensures ChainHolds(c, events, election, chain) <==>
              && (forall i: nat :: i < |events| ==> EventIsSound(c, events, i))
              && (forall i: nat :: i < |chain| ==> CheckpointIsSound(c, events, election, chain, i))
  {
    forall i: nat | i < |events| ensures EventHolds(c, events, i) <==> EventIsSound(c, events, i) {
      EventHoldsMeans(c, events, i);
    }
    forall i: nat | i < |chain|
      ensures CheckpointHolds(c, events, election, chain, i) <==> CheckpointIsSound(c, events, election, chain, i)
    {
      CheckpointHoldsMeans(c, events, election, chain, i);
    }
    hide EventHolds, EventIsSound, CheckpointHolds, CheckpointIsSound;
  }

  // And the verifiers of published snapshots: the stated counts and heads besides.
  lemma KeySnapshotMeans(c: Crypto, keys: KeySnapshot)
    ensures KeySnapshotHolds(c, keys) <==>
              && keys.events != [] && keys.eventsChecked == |keys.events|
              && keys.head == keys.events[|keys.events| - 1].hash
              && forall i: nat :: i < |keys.events| ==>
                   EventIsSound(c, keys.events, i) && keys.events[i].body.sequence == i + 1
  {
    hide NumberedEventHolds, EventIsSound;
    NumberedEventsMean(c, keys.events);
  }

  lemma NumberedEventsMean(c: Crypto, events: seq<KeyEvent>)
    ensures (forall i: nat :: i < |events| ==> NumberedEventHolds(c, events, i)) <==>
              forall i: nat :: i < |events| ==> EventIsSound(c, events, i) && events[i].body.sequence == i + 1
  {
    forall i: nat | i < |events|
      ensures NumberedEventHolds(c, events, i) <==> EventIsSound(c, events, i) && events[i].body.sequence == i + 1
    {
      EventHoldsMeans(c, events, i);
    }
    hide NumberedEventHolds, EventIsSound;
  }

  lemma ChainSnapshotMeans(c: Crypto, s: ChainSnapshot, keys: KeySnapshot)
    ensures ChainSnapshotHolds(c, s, keys) <==>
              && KeySnapshotHolds(c, keys)
              && s.checkpoints != [] && s.checkpointsChecked == |s.checkpoints|
              && s.head == s.checkpoints[|s.checkpoints| - 1].hash
              && forall i: nat :: i < |s.checkpoints| ==>
                   CheckpointIsSound(c, keys.events, s.electionId, s.checkpoints, i)
  {
    forall i: nat | i < |s.checkpoints|
      ensures CheckpointHolds(c, keys.events, s.electionId, s.checkpoints, i) <==>
                CheckpointIsSound(c, keys.events, s.electionId, s.checkpoints, i)
    {
      CheckpointHoldsMeans(c, keys.events, s.electionId, s.checkpoints, i);
    }
    hide KeySnapshotHolds, CheckpointHolds, CheckpointIsSound;
  }
}
