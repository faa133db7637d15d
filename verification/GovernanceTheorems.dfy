// What holds in every state that enrolling, revoking and issuing checkpoints can reach.
module GovernanceTheorems {
  import opened Outcomes
  import opened Hashing
  import opened HashChain
  import opened Governance

  // ---------------------------------------------------------------- runs

  // Besides the tables, the tickets that callers of append_checkpoint hold between its parts.
  datatype State = State(ledger: Ledger, tickets: seq<Ticket>)

  datatype Op =
    | Enroll(identity: Identity, actorId: string, publicKeyB64: string, performedBy: string, text: Option<string>,
             now: int)
    | Revoke(keyId: string, performedBy: string, now: int)
    | Authorize(release: Release, privateKey: PrivateKey, ticket: Ticket)
    | Issue(ticket: Ticket, issuedAt: int, storedAt: int)

  ghost predicate Enabled(c: Crypto, s: State, op: Op) {
    match op
    case Authorize(release, privateKey, ticket) => IsTicket(c, s.ledger, release, privateKey, ticket)
    case Issue(ticket, _, _) => ticket in s.tickets
    case _ => true
  }

  // A refused operation changes nothing.
  ghost function StepOf(c: Crypto, l: Ledger, op: Op): Result<Ledger, Refusal> {
    match op
    case Enroll(identity, actorId, publicKeyB64, performedBy, text, now) =>
      Enrolled(c, l, identity, actorId, publicKeyB64, performedBy, text, now)
    case Revoke(keyId, performedBy, now) => Revoked(c, l, keyId, performedBy, now)
    case Authorize(_, _, _) => Ok(l)
    case Issue(ticket, issuedAt, storedAt) => Issued(c, l, ticket, issuedAt, storedAt)
  }

  ghost function Next(c: Crypto, s: State, op: Op): State {
    var step := StepOf(c, s.ledger, op);
    State(if step.Ok? then step.value else s.ledger,
          if op.Authorize? then s.tickets + [op.ticket] else s.tickets)
  }

  ghost function Reached(c: Crypto, ops: seq<Op>): State {
    if ops == [] then State(Ledger(map[], [], map[]), []) else Next(c, Reached(c, ops[..|ops| - 1]), ops[|ops| - 1])
  }

  ghost predicate IsRun(c: Crypto, ops: seq<Op>) {
    forall i :: 0 <= i < |ops| ==> Enabled(c, Reached(c, ops[..i]), ops[i])
  }

  lemma RunPrefix(c: Crypto, ops: seq<Op>, n: nat)
    requires IsRun(c, ops) && n <= |ops|
    ensures IsRun(c, ops[..n])
    ensures n < |ops| ==>
              && Enabled(c, Reached(c, ops[..n]), ops[n])
              && Reached(c, ops[..n + 1]) == Next(c, Reached(c, ops[..n]), ops[n])
  {
    hide Enabled, Next;
    forall i | 0 <= i < n ensures Enabled(c, Reached(c, ops[..n][..i]), ops[..n][i]) {
      assert ops[..n][..i] == ops[..i];
    }
    if n < |ops| {
      assert ops[..n + 1][..n] == ops[..n];
    }
  }

  // ---------------------------------------------------------------- the invariant

  ghost predicate EventHasKey(l: Ledger, event: KeyEvent) {
    && event.body.keyId in l.keys
    && l.keys[event.body.keyId].actorId == event.body.actorId
    && l.keys[event.body.keyId].fingerprint == event.body.fingerprint
  }

  ghost predicate HasRevocation(events: seq<KeyEvent>, id: string) {
    exists event :: event in events && event.body.keyId == id && event.body.eventType == RevokeEvent
  }

  ghost predicate KeyFits(c: Crypto, l: Ledger, id: string)
    requires id in l.keys
  {
    && l.keys[id].keyId == id && KeyBytesHold(c, l.keys[id].publicKeyB64, l.keys[id].fingerprint)
    && EnrollmentOf(l.events, id).Some?
    && (l.keys[id].revokedAt.Some? <==> HasRevocation(l.events, id))
  }

  ghost predicate EventsFit(c: Crypto, l: Ledger) {
    forall i: nat :: i < |l.events| ==> NumberedEventHolds(c, l.events, i) && EventHasKey(l, l.events[i])
  }

  ghost predicate KeysFit(c: Crypto, l: Ledger) {
    && (forall id :: id in l.keys ==> KeyFits(c, l, id))
    && (forall id, other :: id in l.keys && other in l.keys && l.keys[id].fingerprint == l.keys[other].fingerprint ==>
        id == other)
  }

  ghost predicate ChainFits(c: Crypto, events: seq<KeyEvent>, election: string, chain: seq<Checkpoint>) {
    forall i: nat :: i < |chain| ==> Anchored(c, events, election, chain, i)
  }

  ghost predicate ChainsFit(c: Crypto, l: Ledger) {
    forall election :: election in l.checkpoints ==> ChainFits(c, l.events, election, l.checkpoints[election])
  }

  ghost predicate IsManifestAt(l: Ledger, election: string, i: nat, sha256: Digest) {
    election in l.checkpoints && i < |l.checkpoints[election]|
    && l.checkpoints[election][i].payload.manifestSha256 == sha256
  }

  ghost predicate ManifestsUnique(l: Ledger) {
    forall e, i: nat, f, j: nat, sha256 :: IsManifestAt(l, e, i, sha256) && IsManifestAt(l, f, j, sha256) ==>
        e == f && i == j
  }

  ghost predicate TicketFits(c: Crypto, l: Ledger, ticket: Ticket) {
    var id := ticket.key.keyId;
    && id in l.keys && l.keys[id].actorId == ticket.key.actorId && l.keys[id].fingerprint == ticket.key.fingerprint
    && EnrollmentOf(l.events, id) == Some(ticket.enrollment)
    && ticket.key.fingerprint == c.sha(c.publicOf(ticket.privateKey))
  }

  ghost predicate Inv(c: Crypto, s: State) {
    && EventsFit(c, s.ledger) && KeysFit(c, s.ledger) && ChainsFit(c, s.ledger) && ManifestsUnique(s.ledger)
    && forall ticket :: ticket in s.tickets ==> TicketFits(c, s.ledger, ticket)
  }

  // ---------------------------------------------------------------- appending a key event

  lemma {:induction false} EnrollmentIsEvent(events: seq<KeyEvent>, id: string)
    ensures var found := EnrollmentOf(events, id);
            && (found.Some? ==>
                  && found.value in events && found.value.body.keyId == id
                  && found.value.body.eventType == EnrollEvent)
            && (found.None? ==> forall event :: event in events ==>
                !(event.body.keyId == id && event.body.eventType == EnrollEvent))
  {
    if events != [] {
      EnrollmentIsEvent(events[1..], id);
    }
  }

  // The first enrollment stays the first.
  lemma {:induction false} EnrollmentStays(events: seq<KeyEvent>, event: KeyEvent, id: string)
    ensures var before, after := EnrollmentOf(events, id), EnrollmentOf(events + [event], id);
            after == if before.Some? then before
                     else if event.body.keyId == id && event.body.eventType == EnrollEvent then Some(event)
                     else None
  {
    if events == [] {
      assert events + [event] == [event] && [event][1..] == [];
    } else {
      assert (events + [event])[1..] == events[1..] + [event];
      EnrollmentStays(events[1..], event, id);
    }
  }

  lemma EventsHoldAfter(c: Crypto, events: seq<KeyEvent>, body: EventBody)
    requires forall i: nat :: i < |events| ==> NumberedEventHolds(c, events, i)
    requires body.sequence == |events| + 1 && KeyBytesHold(c, body.publicKeyB64, body.fingerprint)
    ensures var more := events + [Sealed(c.sha, c.eventBytes, events, body)];
            forall i: nat :: i < |more| ==> NumberedEventHolds(c, more, i)
  {
    var more := events + [Sealed(c.sha, c.eventBytes, events, body)];
    forall i: nat | i < |more| ensures NumberedEventHolds(c, more, i) {
      assert more[..i] == events[..i];
      if i < |events| {
        assert NumberedEventHolds(c, events, i);
      } else {
        assert events[..i] == events;
      }
    }
  }

  lemma AnchoredAfterEvent(c: Crypto, events: seq<KeyEvent>, event: KeyEvent, election: string, chain: seq<Checkpoint>)
    requires ChainFits(c, events, election, chain)
    ensures ChainFits(c, events + [event], election, chain)
  {
    forall i: nat | i < |chain| ensures Anchored(c, events + [event], election, chain, i) {
      assert Anchored(c, events, election, chain, i);
      hide KeyBytesHold, SignatureHolds, EnrollmentOf;
      EnrollmentStays(events, event, chain[i].payload.signerKeyId);
    }
  }

  // A key event keeps the invariant when it belongs to a key whose row it leaves consistent.
  lemma EventKeepsInv(c: Crypto, s: State, t: State, body: EventBody, key: SigningKey)
    requires Inv(c, s) && t.tickets == s.tickets
    requires t.ledger == s.ledger.(
               keys := s.ledger.keys[key.keyId := key],
               events := s.ledger.events + [Sealed(c.sha, c.eventBytes, s.ledger.events, body)])
    requires body.sequence == |s.ledger.events| + 1 && body.keyId == key.keyId
    requires body.publicKeyB64 == key.publicKeyB64 && body.actorId == key.actorId && body.fingerprint == key.fingerprint
    requires KeyBytesHold(c, key.publicKeyB64, key.fingerprint)
    requires if key.keyId in s.ledger.keys then
               var before := s.ledger.keys[key.keyId];
               && before.actorId == key.actorId && before.fingerprint == key.fingerprint
                   && before.publicKeyB64 == key.publicKeyB64
               && body.eventType == RevokeEvent && key.revokedAt.Some?
             else
               body.eventType == EnrollEvent && key.revokedAt.None? && !FingerprintTaken(s.ledger, key.fingerprint)
    ensures Inv(c, t)
  {
    hide KeyBytesHold, Anchored, NumberedEventHolds, Holds;
    var event := Sealed(c.sha, c.eventBytes, s.ledger.events, body);
    EventsFitAfter(c, s.ledger, t.ledger, body, key);
    assert KeysFit(c, t.ledger) by { KeysFitAfter(c, s.ledger, t.ledger, event, key); }
    assert ChainsFit(c, t.ledger) by { ChainsFitAfter(c, s.ledger, t.ledger, event); }
    assert ManifestsUnique(t.ledger) by { SameManifests(s.ledger, t.ledger); }
    hide EventsFit, KeysFit, ChainsFit, ManifestsUnique, TicketFits, Sealed;
    forall ticket | ticket in t.tickets ensures TicketFits(c, t.ledger, ticket) {
      TicketFitsAfter(c, s.ledger, t.ledger, event, key, ticket);
    }
  }

  lemma ChainsFitAfter(c: Crypto, l: Ledger, m: Ledger, event: KeyEvent)
    requires ChainsFit(c, l) && m.checkpoints == l.checkpoints && m.events == l.events + [event]
    ensures ChainsFit(c, m)
  {
    hide ChainFits;
    forall election | election in m.checkpoints ensures ChainFits(c, m.events, election, m.checkpoints[election]) {
      AnchoredAfterEvent(c, l.events, event, election, l.checkpoints[election]);
    }
  }

  lemma TicketFitsAfter(c: Crypto, l: Ledger, m: Ledger, event: KeyEvent, key: SigningKey, ticket: Ticket)
    requires TicketFits(c, l, ticket) && m.events == l.events + [event] && m.keys == l.keys[key.keyId := key]
    requires key.keyId in l.keys ==>
               key.actorId == l.keys[key.keyId].actorId && key.fingerprint == l.keys[key.keyId].fingerprint
    ensures TicketFits(c, m, ticket)
  {
    hide EnrollmentOf;
    EnrollmentStays(l.events, event, ticket.key.keyId);
  }

  lemma SameManifests(l: Ledger, m: Ledger)
    requires ManifestsUnique(l) && m.checkpoints == l.checkpoints
    ensures ManifestsUnique(m)
  {
    forall e, i: nat, f, j: nat, sha256 | IsManifestAt(m, e, i, sha256) && IsManifestAt(m, f, j, sha256)
      ensures e == f && i == j
    {
      assert IsManifestAt(l, e, i, sha256) && IsManifestAt(l, f, j, sha256);
    }
  }

  lemma EventsFitAfter(c: Crypto, l: Ledger, m: Ledger, body: EventBody, key: SigningKey)
    requires EventsFit(c, l) && m.events == l.events + [Sealed(c.sha, c.eventBytes, l.events, body)]
    requires m.keys == l.keys[key.keyId := key]
    requires body.sequence == |l.events| + 1 && body.keyId == key.keyId
    requires body.publicKeyB64 == key.publicKeyB64 && body.actorId == key.actorId && body.fingerprint == key.fingerprint
    requires KeyBytesHold(c, key.publicKeyB64, key.fingerprint)
    requires key.keyId in l.keys ==>
        l.keys[key.keyId].actorId == key.actorId && l.keys[key.keyId].fingerprint == key.fingerprint
    ensures EventsFit(c, m)
  {
    EventsHoldAfter(c, l.events, body);
    forall i: nat | i < |m.events| ensures EventHasKey(m, m.events[i]) {
      hide NumberedEventHolds, KeyBytesHold;
      if i < |l.events| {
        assert EventHasKey(l, l.events[i]) && m.events[i] == l.events[i];
      }
    }
    hide NumberedEventHolds, EventHasKey;
  }

  lemma KeysFitAfter(c: Crypto, l: Ledger, m: Ledger, event: KeyEvent, key: SigningKey)
    requires KeysFit(c, l) && m.keys == l.keys[key.keyId := key] && m.events == l.events + [event]
    requires EventsFit(c, l)
    requires event.body.keyId == key.keyId && KeyBytesHold(c, key.publicKeyB64, key.fingerprint)
    requires if key.keyId in l.keys then
               event.body.eventType == RevokeEvent && key.revokedAt.Some?
                   && l.keys[key.keyId].fingerprint == key.fingerprint
             else
               event.body.eventType == EnrollEvent && key.revokedAt.None? && !FingerprintTaken(l, key.fingerprint)
    ensures KeysFit(c, m)
  {
    forall id | id in m.keys ensures KeyFits(c, m, id) {
      hide KeyBytesHold, EnrollmentOf, NumberedEventHolds;
      EnrollmentStays(l.events, event, id);
      if id in l.keys {
        assert KeyFits(c, l, id);
      }
      RevocationsAfter(l.events, event, id);
      if id == key.keyId && id !in l.keys && HasRevocation(l.events, id) {
        EventsHaveKeys(c, l, id);
      }
    }
    hide KeyFits, EventsFit;
  }

  lemma RevocationsAfter(events: seq<KeyEvent>, event: KeyEvent, id: string)
    ensures HasRevocation(events + [event], id) <==>
              HasRevocation(events, id) || (event.body.keyId == id && event.body.eventType == RevokeEvent)
  {
    assert event in events + [event];
    if HasRevocation(events, id) {
      var e :| e in events && e.body.keyId == id && e.body.eventType == RevokeEvent;
      assert e in events + [event];
    }
  }

  lemma EventsHaveKeys(c: Crypto, l: Ledger, id: string)
    requires EventsFit(c, l) && HasRevocation(l.events, id)
    ensures id in l.keys
  {
    var e :| e in l.events && e.body.keyId == id && e.body.eventType == RevokeEvent;
    var i: nat :| i < |l.events| && l.events[i] == e;
    assert EventHasKey(l, l.events[i]);
  }

  lemma EnrollKeepsInv(c: Crypto, s: State, op: Op)
    requires Inv(c, s) && op.Enroll?
    ensures Inv(c, Next(c, s, op))
  {
    var t := Next(c, s, op);
    if StepOf(c, s.ledger, op).Ok? {
      var raw := c.decode(op.publicKeyB64).value;
      var key := NewKey(c, op.actorId, op.publicKeyB64, raw, op.performedBy, op.text, op.now);
      hide Inv, Sealed, EventHashTaken, FingerprintTaken;
      EventKeepsInv(c, s, t, EventOf(s.ledger.events, EnrollEvent, key, op.performedBy, op.now), key);
    } else {
      assert t == s;
    }
  }

  lemma RevokeKeepsInv(c: Crypto, s: State, op: Op)
    requires Inv(c, s) && op.Revoke?
    ensures Inv(c, Next(c, s, op))
  {
    var t := Next(c, s, op);
    if StepOf(c, s.ledger, op).Ok? {
      assert KeyFits(c, s.ledger, op.keyId);
      var key := s.ledger.keys[op.keyId].(revokedAt := Some(op.now), revokedBy := Some(op.performedBy));
      hide Inv, Sealed, EventHashTaken, FingerprintTaken, KeyBytesHold, EnrollmentOf, HasRevocation;
      EventKeepsInv(c, s, t, EventOf(s.ledger.events, RevokeEvent, key, op.performedBy, op.now), key);
    } else {
      assert t == s;
    }
  }

  lemma NewTicketFits(c: Crypto, l: Ledger, release: Release, privateKey: PrivateKey, ticket: Ticket)
    requires IsTicket(c, l, release, privateKey, ticket)
    ensures TicketFits(c, l, ticket)
  {
    hide EnrollmentOf;
  }

  lemma EnrollmentHasKey(c: Crypto, l: Ledger, id: string)
    requires EventsFit(c, l) && EnrollmentOf(l.events, id).Some?
    ensures EventHasKey(l, EnrollmentOf(l.events, id).value) && EnrollmentOf(l.events, id).value.body.keyId == id
  {
    EnrollmentIsEvent(l.events, id);
    hide EnrollmentOf, NumberedEventHolds;
    var found := EnrollmentOf(l.events, id).value;
    var i: nat :| i < |l.events| && l.events[i] == found;
    assert EventHasKey(l, l.events[i]);
  }

  // A checkpoint issued on a fitting ticket is anchored at the end of its chain.
  lemma IssuedIsAnchored(c: Crypto, l: Ledger, ticket: Ticket, issuedAt: int, storedAt: int)
    requires Sound(c) && EventsFit(c, l) && TicketFits(c, l, ticket)
    ensures var election := ticket.manifest.electionId;
            var chain := Chain(l, election) + [NextCheckpoint(c, l, ticket, issuedAt, storedAt)];
            Anchored(c, l.events, election, chain, |chain| - 1)
  {
    EnrollmentHasKey(c, l, ticket.key.keyId);
    var election := ticket.manifest.electionId;
    var item := NextCheckpoint(c, l, ticket, issuedAt, storedAt);
    var chain := Chain(l, election) + [item];
    assert chain[..|chain| - 1] == Chain(l, election);
    hide EnrollmentOf, EventsFit, Chain;
    assert c.decode(item.publicKeyB64) == Some(c.publicOf(ticket.privateKey));
    assert SignatureHolds(c, item);
  }

  lemma ChainFitsAfter(c: Crypto, events: seq<KeyEvent>, election: string, chain: seq<Checkpoint>, item: Checkpoint)
    requires ChainFits(c, events, election, chain)
    requires Anchored(c, events, election, chain + [item], |chain|)
    ensures ChainFits(c, events, election, chain + [item])
  {
    var longer := chain + [item];
    forall i: nat | i < |longer| ensures Anchored(c, events, election, longer, i) {
      if i < |chain| {
        assert Anchored(c, events, election, chain, i) && longer[..i] == chain[..i];
        hide EnrollmentOf, KeyBytesHold, SignatureHolds;
      }
    }
  }

  lemma ManifestsUniqueAfter(l: Ledger, m: Ledger, election: string, item: Checkpoint)
    requires ManifestsUnique(l) && !ManifestTaken(l, item.payload.manifestSha256)
    requires m.checkpoints == l.checkpoints[election := Chain(l, election) + [item]]
    ensures ManifestsUnique(m)
  {
    forall e, i: nat, sha256 | IsManifestAt(m, e, i, sha256)
      ensures IsManifestAt(l, e, i, sha256)
          || (e == election && i == |Chain(l, election)| && sha256 == item.payload.manifestSha256)
    {
    }
    forall e, i: nat ensures !IsManifestAt(l, e, i, item.payload.manifestSha256) {
      assert IsManifestAt(l, e, i, item.payload.manifestSha256) ==> ManifestTaken(l, item.payload.manifestSha256);
    }
    forall e, i: nat, f, j: nat, sha256 | IsManifestAt(m, e, i, sha256) && IsManifestAt(m, f, j, sha256)
      ensures e == f && i == j
    {
      hide ManifestTaken;
    }
  }

  lemma IssueKeepsInv(c: Crypto, s: State, op: Op)
    requires Sound(c) && Inv(c, s) && op.Issue? && Enabled(c, s, op)
    ensures Inv(c, Next(c, s, op))
  {
    var t, l, ticket := Next(c, s, op), s.ledger, op.ticket;
    var election, item := ticket.manifest.electionId, NextCheckpoint(c, l, ticket, op.issuedAt, op.storedAt);
    if ManifestTaken(l, ticket.manifest.sha256) || CheckpointHashTaken(l, item.hash) {
      assert t == s;
    } else {
      IssuedIsAnchored(c, l, ticket, op.issuedAt, op.storedAt);
      assert ChainFits(c, l.events, election, Chain(l, election));
      ChainFitsAfter(c, l.events, election, Chain(l, election), item);
      assert item.payload.manifestSha256 == ticket.manifest.sha256;
      hide NextCheckpoint, Anchored, Sound;
      ManifestsUniqueAfter(l, t.ledger, election, item);
      hide ManifestTaken, CheckpointHashTaken, ManifestsUnique, Chain;
      TablesKeptByIssue(c, s, t);
    }
  }

  lemma TablesKeptByIssue(c: Crypto, s: State, t: State)
    requires Inv(c, s) && t.tickets == s.tickets && t.ledger.keys == s.ledger.keys && t.ledger.events == s.ledger.events
    requires ChainsFit(c, t.ledger) && ManifestsUnique(t.ledger)
    ensures Inv(c, t)
  {
    hide ChainsFit, ManifestsUnique;
    assert EventsFit(c, t.ledger) by {
      forall i: nat | i < |t.ledger.events|
        ensures NumberedEventHolds(c, t.ledger.events, i) && EventHasKey(t.ledger, t.ledger.events[i])
      {
        assert EventHasKey(s.ledger, s.ledger.events[i]);
      }
    }
    assert KeysFit(c, t.ledger) by {
      forall id | id in t.ledger.keys ensures KeyFits(c, t.ledger, id) {
        assert KeyFits(c, s.ledger, id);
      }
    }
    forall ticket | ticket in t.tickets ensures TicketFits(c, t.ledger, ticket) {
      assert TicketFits(c, s.ledger, ticket);
    }
  }

  lemma StepsKeepInv(c: Crypto, s: State, op: Op)
    requires Sound(c) && Inv(c, s) && Enabled(c, s, op)
    ensures Inv(c, Next(c, s, op))
  {
    hide Inv, Sound, Enrolled, Revoked, Issued;
    match op
    case Enroll(_, _, _, _, _, _) => EnrollKeepsInv(c, s, op);
    case Revoke(_, _, _) => RevokeKeepsInv(c, s, op);
    case Issue(_, _, _) => IssueKeepsInv(c, s, op);
    case Authorize(release, privateKey, ticket) =>
      NewTicketFits(c, s.ledger, release, privateKey, ticket);
      TicketKeepsInv(c, s, ticket);
  }

  lemma TicketKeepsInv(c: Crypto, s: State, ticket: Ticket)
    requires Inv(c, s) && TicketFits(c, s.ledger, ticket)
    ensures Inv(c, s.(tickets := s.tickets + [ticket]))
  {
    hide EventsFit, KeysFit, ChainsFit, ManifestsUnique, TicketFits;
  }

  lemma StartFits(c: Crypto)
    ensures Inv(c, State(Ledger(map[], [], map[]), []))
  {
  }

  lemma {:induction false} InvHolds(c: Crypto, ops: seq<Op>)
    requires Sound(c) && IsRun(c, ops)
    ensures Inv(c, Reached(c, ops))
  {
    hide Inv, Next, Enabled, IsRun, Sound;
    if ops == [] {
      StartFits(c);
    } else {
      RunPrefix(c, ops, |ops| - 1);
      assert ops[..|ops|] == ops;
      InvHolds(c, ops[..|ops| - 1]);
      StepsKeepInv(c, Reached(c, ops[..|ops| - 1]), ops[|ops| - 1]);
    }
  }

  // ---------------------------------------------------------------- what verifies

  lemma TransparencyFromInv(c: Crypto, l: Ledger)
    requires EventsFit(c, l)
    ensures TransparencyHolds(c, l.events)
  {
    forall i: nat | i < |l.events| ensures EventHolds(c, l.events, i) {
      assert NumberedEventHolds(c, l.events, i);
    }
  }

  // In every reachable state, whatever the clock does and however operations interleave: the key
  // ledger verifies, no lookup of an enrollment fails, and a chain verifies exactly when none of its
  // checkpoints was issued at or after a revocation of its key.
  lemma VerifiesIffNoneLate(c: Crypto, ops: seq<Op>, election: string)
    requires Sound(c) && IsRun(c, ops)
    ensures
      var l := Reached(c, ops).ledger;
      && TransparencyHolds(c, l.events)
      && (forall item :: item in Chain(l, election) ==> EnrollmentOf(l.events, item.payload.signerKeyId).Some?)
      && (ChainHolds(c, l.events, election, Chain(l, election)) <==>
            forall item :: item in Chain(l, election) ==> NotRevokedYet(l.events, item.payload))
  {
    InvHolds(c, ops);
    var l := Reached(c, ops).ledger;
    hide Reached, IsRun;
    TransparencyFromInv(c, l);
    var chain := Chain(l, election);
    assert ChainFits(c, l.events, election, chain);
    hide Inv, TransparencyHolds, Chain;
    forall item | item in chain
      ensures EnrollmentOf(l.events, item.payload.signerKeyId).Some?
      ensures ChainHolds(c, l.events, election, chain) ==> NotRevokedYet(l.events, item.payload)
    {
      var i: nat :| i < |chain| && chain[i] == item;
      assert Anchored(c, l.events, election, chain, i);
      assert ChainHolds(c, l.events, election, chain) ==> CheckpointHolds(c, l.events, election, chain, i);
    }
    hide Anchored, NotRevokedYet;
    if forall item :: item in chain ==> NotRevokedYet(l.events, item.payload) {
      forall i: nat | i < |chain| ensures CheckpointHolds(c, l.events, election, chain, i) {
        assert chain[i] in chain && Anchored(c, l.events, election, chain, i);
      }
    }
  }

  // ---- atomic appends under an advancing clock

  function TimeOf(op: Op): Option<int> {
    match op
    case Enroll(_, _, _, _, _, now) => Some(now)
    case Revoke(_, _, now) => Some(now)
    case Authorize(_, _, _) => None
    case Issue(_, issuedAt, _) => Some(issuedAt)
  }

  ghost predicate Earlier(a: Op, b: Op) {
    TimeOf(a).Some? && TimeOf(b).Some? ==> TimeOf(a).value < TimeOf(b).value
  }

  ghost predicate ClockAdvances(ops: seq<Op>) {
    forall i, j :: 0 <= i < j < |ops| ==> Earlier(ops[i], ops[j])
  }

  // Every checkpoint is issued right after its ticket was drawn.
  ghost predicate AtomicAt(ops: seq<Op>, i: nat)
    requires i < |ops|
  {
    ops[i].Issue? ==> i > 0 && ops[i - 1].Authorize? && ops[i - 1].ticket == ops[i].ticket
  }

  ghost predicate AppendsAreAtomic(ops: seq<Op>) {
    forall i: nat :: i < |ops| ==> AtomicAt(ops, i)
  }

  ghost predicate NoneLate(l: Ledger) {
    forall election, item :: item in Chain(l, election) ==> NotRevokedYet(l.events, item.payload)
  }

  ghost predicate IssuedBefore(l: Ledger, t: int) {
    forall election, item :: item in Chain(l, election) ==> item.payload.issuedAt < t
  }

  lemma {:induction false} ClockBoundsIssues(c: Crypto, ops: seq<Op>, n: nat, t: int)
    requires n <= |ops|
    requires forall i :: 0 <= i < n && TimeOf(ops[i]).Some? ==> TimeOf(ops[i]).value < t
    ensures IssuedBefore(Reached(c, ops[..n]).ledger, t)
  {
    if n == 0 {
      assert ops[..0] == [];
    } else {
      assert ops[..n][..n - 1] == ops[..n - 1];
      ClockBoundsIssues(c, ops, n - 1, t);
      var s, op := Reached(c, ops[..n - 1]), ops[n - 1];
      assert Reached(c, ops[..n]) == Next(c, s, op);
      assert TimeOf(op).Some? ==> TimeOf(op).value < t;
      hide Reached;
      StepBoundsIssues(c, s, op, t);
    }
  }

  lemma StepBoundsIssues(c: Crypto, s: State, op: Op, t: int)
    requires IssuedBefore(s.ledger, t) && (TimeOf(op).Some? ==> TimeOf(op).value < t)
    ensures IssuedBefore(Next(c, s, op).ledger, t)
  {
    hide Sealed, EventHashTaken, FingerprintTaken, ManifestTaken, CheckpointHashTaken, NewKey, EventOf;
    var l, m := s.ledger, Next(c, s, op).ledger;
    forall election, item | item in Chain(m, election) ensures item.payload.issuedAt < t {
      if item !in Chain(l, election) {
        assert op.Issue? && item == NextCheckpoint(c, l, op.ticket, op.issuedAt, op.storedAt);
      }
    }
  }

  lemma RevokeIsNeverEarly(c: Crypto, s: State, op: Op)
    requires NoneLate(s.ledger) && op.Revoke? && IssuedBefore(s.ledger, op.now)
    ensures NoneLate(Next(c, s, op).ledger)
  {
    var l, m := s.ledger, Next(c, s, op).ledger;
    hide EventHashTaken;
    forall election, item | item in Chain(m, election) ensures NotRevokedYet(m.events, item.payload) {
      assert item in Chain(l, election);
      assert NotRevokedYet(l.events, item.payload);
    }
  }

  lemma EnrollIsHarmless(c: Crypto, s: State, op: Op)
    requires NoneLate(s.ledger) && op.Enroll?
    ensures NoneLate(Next(c, s, op).ledger)
  {
    var l, m := s.ledger, Next(c, s, op).ledger;
    hide EventHashTaken, FingerprintTaken;
    forall election, item | item in Chain(m, election) ensures NotRevokedYet(m.events, item.payload) {
      assert item in Chain(l, election);
      assert NotRevokedYet(l.events, item.payload);
    }
  }

  // While its key is active, a checkpoint cannot be late.
  lemma ActiveIssueIsTimely(c: Crypto, s: State, op: Op)
    requires Inv(c, s) && NoneLate(s.ledger) && op.Issue?
    requires IsActive(s.ledger, op.ticket.key.fingerprint, op.ticket.key.keyId)
    ensures NoneLate(Next(c, s, op).ledger)
  {
    var l, m := s.ledger, Next(c, s, op).ledger;
    assert KeyFits(c, l, op.ticket.key.keyId);
    hide Inv, ManifestTaken, CheckpointHashTaken, EnrollmentOf, KeyBytesHold;
    forall election, item | item in Chain(m, election) ensures NotRevokedYet(m.events, item.payload) {
      if item in Chain(l, election) {
        assert NotRevokedYet(l.events, item.payload);
      } else {
        assert item == NextCheckpoint(c, l, op.ticket, op.issuedAt, op.storedAt);
        assert !HasRevocation(l.events, item.payload.signerKeyId);
      }
    }
  }

  lemma {:induction false} AtomicRunsAreTimely(c: Crypto, ops: seq<Op>, n: nat)
    requires Sound(c) && IsRun(c, ops) && ClockAdvances(ops) && AppendsAreAtomic(ops) && n <= |ops|
    ensures NoneLate(Reached(c, ops[..n]).ledger)
  {
    if n == 0 {
      assert ops[..0] == [];
    } else {
      var s, op := Reached(c, ops[..n - 1]), ops[n - 1];
      AtomicRunsAreTimely(c, ops, n - 1);
      RunPrefix(c, ops, n - 1);
      assert AtomicAt(ops, n - 1);
      forall i | 0 <= i < n - 1 ensures Earlier(ops[i], op) {
      }
      hide Inv, NoneLate, Reached, IsRun, Sound, ClockAdvances, AppendsAreAtomic, IsTicket;
      match op
      case Enroll(_, _, _, _, _, _) => EnrollIsHarmless(c, s, op);
      case Authorize(_, _, _) =>
      case Revoke(_, _, now) =>
        ClockBoundsIssues(c, ops, n - 1, now);
        RevokeIsNeverEarly(c, s, op);
      case Issue(_, _, _) =>
        InvHolds(c, ops[..n - 1]);
        TicketStillActive(c, ops, n);
        ActiveIssueIsTimely(c, s, op);
    }
  }

  lemma TicketStillActive(c: Crypto, ops: seq<Op>, n: nat)
    requires IsRun(c, ops) && 1 < n <= |ops| && ops[n - 1].Issue?
    requires ops[n - 2].Authorize? && ops[n - 2].ticket == ops[n - 1].ticket
    ensures var ticket := ops[n - 1].ticket;
            IsActive(Reached(c, ops[..n - 1]).ledger, ticket.key.fingerprint, ticket.key.keyId)
  {
    hide Reached, IsRun, EnrollmentOf, Next, IsActive;
    RunPrefix(c, ops, n - 2);
    AuthorizeKeepsTables(c, Reached(c, ops[..n - 2]), ops[n - 2]);
  }

  lemma AuthorizeKeepsTables(c: Crypto, s: State, op: Op)
    requires op.Authorize? && Enabled(c, s, op)
    ensures Next(c, s, op).ledger == s.ledger
    ensures IsActive(s.ledger, op.ticket.key.fingerprint, op.ticket.key.keyId)
  {
    hide EnrollmentOf, Enrolled, Revoked, Issued;
  }

  // When appending is atomic and the clock strictly advances, the key ledger and every chain always
  // verify.
  lemma AtomicRunsVerify(c: Crypto, ops: seq<Op>, election: string)
    requires Sound(c) && IsRun(c, ops) && ClockAdvances(ops) && AppendsAreAtomic(ops)
    ensures var l := Reached(c, ops).ledger;
            TransparencyHolds(c, l.events) && ChainHolds(c, l.events, election, Chain(l, election))
  {
    AtomicRunsAreTimely(c, ops, |ops|);
    assert ops[..|ops|] == ops;
    hide Sound, IsRun, ClockAdvances, AppendsAreAtomic, Reached, ChainHolds, TransparencyHolds, NotRevokedYet;
    VerifiesIffNoneLate(c, ops, election);
  }

  // Without atomicity it can go wrong even then: a key revoked between the two parts of an append
  // leaves a chain that no longer verifies.
  lemma RaceBreaksChain(c: Crypto, ops: seq<Op>, revoke: Op, issue: Op)
    requires Sound(c) && IsRun(c, ops + [revoke, issue]) && revoke.Revoke? && issue.Issue?
    requires revoke.keyId == issue.ticket.key.keyId && issue.issuedAt >= revoke.now
    requires StepOf(c, Reached(c, ops).ledger, revoke).Ok?
    requires var l := Reached(c, ops + [revoke]).ledger;
             StepOf(c, l, issue).Ok? && !ManifestTaken(l, issue.ticket.manifest.sha256)
    ensures var l, election := Reached(c, ops + [revoke, issue]).ledger, issue.ticket.manifest.electionId;
            !ChainHolds(c, l.events, election, Chain(l, election))
  {
    var all := ops + [revoke, issue];
    assert all[..|ops| + 1] == ops + [revoke] && (ops + [revoke])[..|ops|] == ops && all[..|all| - 1] == ops + [revoke];
    assert all[..|ops|] == ops;
    RunPrefix(c, all, |ops|);
    hide IsRun, Next, Inv, Enabled;
    InvHolds(c, ops);
    LateIssueFails(c, Reached(c, ops), revoke, issue);
  }

  lemma LateIssueFails(c: Crypto, s: State, revoke: Op, issue: Op)
    requires Inv(c, s) && revoke.Revoke? && issue.Issue?
    requires revoke.keyId == issue.ticket.key.keyId && issue.issuedAt >= revoke.now
    requires StepOf(c, s.ledger, revoke).Ok?
    requires var l := Next(c, s, revoke).ledger;
             StepOf(c, l, issue).Ok? && !ManifestTaken(l, issue.ticket.manifest.sha256)
    ensures var l, election := Next(c, Next(c, s, revoke), issue).ledger, issue.ticket.manifest.electionId;
            !ChainHolds(c, l.events, election, Chain(l, election))
  {
    assert KeyFits(c, s.ledger, revoke.keyId);
    var middle := Next(c, s, revoke);
    var after, election := Next(c, middle, issue), issue.ticket.manifest.electionId;
    hide Inv, EnrollmentOf, EventHashTaken, ManifestTaken, CheckpointHashTaken, KeyBytesHold, HasRevocation;
    var event := middle.ledger.events[|middle.ledger.events| - 1];
    var item := NextCheckpoint(c, middle.ledger, issue.ticket, issue.issuedAt, issue.storedAt);
    var chain := Chain(after.ledger, election);
    assert event in after.ledger.events && RevokesBefore(event, item.payload);
    assert chain[|chain| - 1] == item;
    hide SignedCheckpoint, Sealed, EventOf, TransparencyHolds, Anchored;
    assert !NotRevokedYet(after.ledger.events, item.payload);
    assert !CheckpointHolds(c, after.ledger.events, election, chain, |chain| - 1);
  }

  // ---- the race happens

  // A key is enrolled at t0, its holder looks it up for an append, it is revoked at t1, and the
  // append goes through at t2.
  function FirstKey(c: Crypto, actorId: string, performedBy: string, text: Option<string>, privateKey: PrivateKey,
                    t0: int): SigningKey
  {
    NewKey(c, actorId, c.encode(c.publicOf(privateKey)), c.publicOf(privateKey), performedBy, text, t0)
  }

  function FirstEvent(c: Crypto, key: SigningKey): KeyEvent {
    Sealed(c.sha, c.eventBytes, [], EventOf([], EnrollEvent, key, key.enrolledBy, key.enrolledAt))
  }

  function SecondEvent(c: Crypto, key: SigningKey, t1: int): KeyEvent {
    var revoked := key.(revokedAt := Some(t1), revokedBy := Some(key.enrolledBy));
    Sealed(c.sha, c.eventBytes, [FirstEvent(c, key)],
           EventOf([FirstEvent(c, key)], RevokeEvent, revoked, key.enrolledBy, t1))
  }

  function RaceOps(c: Crypto, key: SigningKey, manifest: Manifest, privateKey: PrivateKey, t1: int, t2: int): seq<Op> {
    var ticket := Ticket(manifest, key, FirstEvent(c, key), privateKey);
    [Enroll(Active, key.actorId, key.publicKeyB64, key.enrolledBy, key.keyLabel, key.enrolledAt),
     Authorize(Release(true, manifest, key.fingerprint), privateKey, ticket),
     Revoke(key.keyId, key.enrolledBy, t1),
     Issue(ticket, t2, t2)]
  }

  function Start(): State { State(Ledger(map[], [], map[]), []) }

  function AfterEnrollment(c: Crypto, key: SigningKey): State {
    State(Ledger(map[key.keyId := key], [FirstEvent(c, key)], map[]), [])
  }

  function Ticketed(c: Crypto, key: SigningKey, ticket: Ticket): State {
    AfterEnrollment(c, key).(tickets := [ticket])
  }

  function Overtaken(c: Crypto, key: SigningKey, ticket: Ticket, t1: int): State {
    var revoked := key.(revokedAt := Some(t1), revokedBy := Some(key.enrolledBy));
    State(Ledger(map[key.keyId := revoked], [FirstEvent(c, key), SecondEvent(c, key, t1)], map[]), [ticket])
  }

  // `key` as enrolling the holder of `privateKey` makes it.
  ghost predicate IsFirstKey(c: Crypto, key: SigningKey, privateKey: PrivateKey) {
    && Sound(c)
    && key == FirstKey(c, key.actorId, key.enrolledBy, key.keyLabel, privateKey, key.enrolledAt)
  }

  lemma RaceEnrolls(c: Crypto, key: SigningKey, manifest: Manifest, privateKey: PrivateKey, t1: int, t2: int)
    requires IsFirstKey(c, key, privateKey)
    ensures var op := RaceOps(c, key, manifest, privateKey, t1, t2)[0];
      Enabled(c, Start(), op) && Next(c, Start(), op) == AfterEnrollment(c, key)
  {
    assert c.decode(key.publicKeyB64) == Some(c.publicOf(privateKey));
    hide Sealed, EventOf;
  }

  lemma RaceAuthorizes(c: Crypto, key: SigningKey, manifest: Manifest, privateKey: PrivateKey, t1: int, t2: int)
    requires IsFirstKey(c, key, privateKey)
    ensures var op := RaceOps(c, key, manifest, privateKey, t1, t2)[1];
      Enabled(c, AfterEnrollment(c, key), op) && Next(c, AfterEnrollment(c, key), op) == Ticketed(c, key, op.ticket)
  {
    var e := FirstEvent(c, key);
    assert e.body.keyId == key.keyId && e.body.eventType == EnrollEvent;
    hide Sealed, EventOf;
    assert EnrollmentOf([e], key.keyId) == Some(e);
  }

  lemma RaceRevokes(c: Crypto, key: SigningKey, manifest: Manifest, privateKey: PrivateKey, t1: int, t2: int)
    requires IsFirstKey(c, key, privateKey) && FirstEvent(c, key).hash != SecondEvent(c, key, t1).hash
    ensures var ops := RaceOps(c, key, manifest, privateKey, t1, t2);
      var s := Ticketed(c, key, ops[1].ticket);
      && Enabled(c, s, ops[2]) && StepOf(c, s.ledger, ops[2]).Ok?
      && Next(c, s, ops[2]) == Overtaken(c, key, ops[1].ticket, t1)
  {
    var l := AfterEnrollment(c, key).ledger;
    var revoked := key.(revokedAt := Some(t1), revokedBy := Some(key.enrolledBy));
    var e := SecondEvent(c, key, t1);
    assert e == Sealed(c.sha, c.eventBytes, l.events, EventOf(l.events, RevokeEvent, revoked, key.enrolledBy, t1));
    hide Sealed, EventOf, FirstEvent, SecondEvent;
    assert !EventHashTaken(l.events, e.hash);
    assert l.keys[key.keyId := revoked] == map[key.keyId := revoked];
    assert l.events + [e] == [FirstEvent(c, key), e];
  }

  lemma RaceIssues(c: Crypto, key: SigningKey, manifest: Manifest, privateKey: PrivateKey, t1: int, t2: int)
    ensures var ops := RaceOps(c, key, manifest, privateKey, t1, t2);
      var s := Overtaken(c, key, ops[1].ticket, t1);
      && Enabled(c, s, ops[3]) && StepOf(c, s.ledger, ops[3]).Ok?
      && !ManifestTaken(s.ledger, ops[3].ticket.manifest.sha256)
  {
    hide Sealed, SignedCheckpoint;
  }

  lemma FourStepRun(c: Crypto, ops: seq<Op>, s1: State, s2: State, s3: State)
    requires |ops| == 4
    requires Enabled(c, Start(), ops[0]) && Next(c, Start(), ops[0]) == s1
    requires Enabled(c, s1, ops[1]) && Next(c, s1, ops[1]) == s2
    requires Enabled(c, s2, ops[2]) && Next(c, s2, ops[2]) == s3
    requires Enabled(c, s3, ops[3])
    ensures Reached(c, ops[..2]) == s2 && Reached(c, ops[..3]) == s3 && IsRun(c, ops)
  {
    hide Enabled, Next;
    assert ops[..0] == [] && ops[..1][..0] == [] && ops[..2][..1] == ops[..1] && ops[..3][..2] == ops[..2];
    assert Reached(c, ops[..1]) == s1;
    assert Reached(c, ops[..2]) == s2;
    assert Reached(c, ops[..3]) == s3;
  }

  // Such a run exists for every actor, key and manifest, under a clock that advances throughout: all
  // it takes is that the two key events hash differently.
  lemma RaceHappens(c: Crypto, key: SigningKey, manifest: Manifest, privateKey: PrivateKey, t1: int, t2: int)
    requires IsFirstKey(c, key, privateKey) && key.enrolledAt < t1 < t2
    requires FirstEvent(c, key).hash != SecondEvent(c, key, t1).hash
    ensures
      var ops := RaceOps(c, key, manifest, privateKey, t1, t2);
      var l := Reached(c, ops).ledger;
      IsRun(c, ops) && ClockAdvances(ops)
          && !ChainHolds(c, l.events, manifest.electionId, Chain(l, manifest.electionId))
  {
    var ops := RaceOps(c, key, manifest, privateKey, t1, t2);
    var ticket := ops[1].ticket;
    RaceEnrolls(c, key, manifest, privateKey, t1, t2);
    RaceAuthorizes(c, key, manifest, privateKey, t1, t2);
    RaceRevokes(c, key, manifest, privateKey, t1, t2);
    RaceIssues(c, key, manifest, privateKey, t1, t2);
    assert ops[2].Revoke? && ops[3].Issue? && ops[2].keyId == ops[3].ticket.key.keyId
        && ops[3].ticket.manifest == manifest
           && ops[3].issuedAt >= ops[2].now && ClockAdvances(ops);
    hide Reached, Next, Enabled, StepOf, RaceOps, ManifestTaken, IsRun, AfterEnrollment, Ticketed, Overtaken;
    hide ClockAdvances, ChainHolds, FirstEvent, SecondEvent, FirstKey;
    FourStepRun(c, ops, AfterEnrollment(c, key), Ticketed(c, key, ticket), Overtaken(c, key, ticket, t1));
    assert ops[..2] + [ops[2], ops[3]] == ops && ops[..2] + [ops[2]] == ops[..3];
    RaceBreaksChain(c, ops[..2], ops[2], ops[3]);
  }

  // ---- snapshots and published prefixes

  // Every prefix of a chain, paired with the current key events, passes the self-contained verifier
  // under the same condition.
  lemma PrefixSnapshotsHold(c: Crypto, ops: seq<Op>, election: string, n: nat)
    requires Sound(c) && IsRun(c, ops)
    requires 0 < n <= |Chain(Reached(c, ops).ledger, election)|
    ensures
      var l := Reached(c, ops).ledger;
      var chain := Chain(l, election)[..n];
      && l.events != []
      && (ChainSnapshotHolds(c, ChainSnapshot(election, n, chain[n - 1].hash, chain),
                             KeySnapshot(|l.events|, l.events[|l.events| - 1].hash, l.events)) <==>
            forall item :: item in chain ==> NotRevokedYet(l.events, item.payload))
  {
    InvHolds(c, ops);
    var l := Reached(c, ops).ledger;
    hide Reached, IsRun, Sound;
    assert ChainFits(c, l.events, election, Chain(l, election));
    hide Inv;
    assert EventsFit(c, l) by { InvMeans(c, Reached(c, ops)); }
    hide Chain, EventsFit, ChainFits;
    PrefixSnapshotHolds(c, l, election, Chain(l, election), n);
  }

  lemma InvMeans(c: Crypto, s: State)
    requires Inv(c, s)
    ensures EventsFit(c, s.ledger)
  {
  }

  lemma PrefixSnapshotHolds(c: Crypto, l: Ledger, election: string, full: seq<Checkpoint>, n: nat)
    requires EventsFit(c, l) && ChainFits(c, l.events, election, full) && 0 < n <= |full|
    ensures
      var chain := full[..n];
      && l.events != []
      && (ChainSnapshotHolds(c, ChainSnapshot(election, n, chain[n - 1].hash, chain),
                             KeySnapshot(|l.events|, l.events[|l.events| - 1].hash, l.events)) <==>
            forall item :: item in chain ==> NotRevokedYet(l.events, item.payload))
  {
    assert Anchored(c, l.events, election, full, 0);
    assert l.events != [];
    PrefixHolds(c, l.events, election, full, n);
    var keys := KeySnapshot(|l.events|, l.events[|l.events| - 1].hash, l.events);
    assert KeySnapshotHolds(c, keys) by {
      forall i: nat | i < |keys.events| ensures NumberedEventHolds(c, keys.events, i) {
        assert NumberedEventHolds(c, l.events, i) && EventHasKey(l, l.events[i]);
      }
      hide NumberedEventHolds;
    }
    hide Anchored, EventsFit, ChainFits, KeySnapshotHolds, CheckpointHolds, NotRevokedYet;
  }

  lemma PrefixHolds(c: Crypto, events: seq<KeyEvent>, election: string, full: seq<Checkpoint>, n: nat)
    requires ChainFits(c, events, election, full) && n <= |full|
    ensures (forall i: nat :: i < n ==> CheckpointHolds(c, events, election, full[..n], i)) <==>
              forall item :: item in full[..n] ==> NotRevokedYet(events, item.payload)
  {
    var chain := full[..n];
    forall i: nat | i < n ensures Anchored(c, events, election, chain, i) {
      assert Anchored(c, events, election, full, i) && chain[..i] == full[..i];
      hide KeyBytesHold, SignatureHolds, EnrollmentOf;
    }
    hide Anchored, NotRevokedYet;
    if forall i: nat :: i < n ==> CheckpointHolds(c, events, election, chain, i) {
      forall item | item in chain ensures NotRevokedYet(events, item.payload) {
        var i: nat :| i < n && chain[i] == item;
        assert CheckpointHolds(c, events, election, chain, i);
      }
    }
    if forall item :: item in chain ==> NotRevokedYet(events, item.payload) {
      forall i: nat | i < n ensures CheckpointHolds(c, events, election, chain, i) {
        assert chain[i] in chain;
      }
    }
  }

  // A published release's checkpoint is found, with exactly the chain up to it.
  lemma MatchIsFound(c: Crypto, ops: seq<Op>, election: string, k: nat)
    requires Sound(c) && IsRun(c, ops) && k < |Chain(Reached(c, ops).ledger, election)|
    ensures
      var chain := Chain(Reached(c, ops).ledger, election);
      && OnlyMatch(chain, chain[k].payload.manifestSha256, k)
      && chain[k].payload.sequence == k + 1 && HeadOf(chain[..k + 1]) == Some(chain[k].hash)
  {
    InvHolds(c, ops);
    hide Reached, IsRun, Sound, EventsFit, KeysFit, TicketFits;
    MatchInLedger(c, Reached(c, ops), election, k);
  }

  lemma MatchInLedger(c: Crypto, s: State, election: string, k: nat)
    requires Inv(c, s) && k < |Chain(s.ledger, election)|
    ensures
      var chain := Chain(s.ledger, election);
      && OnlyMatch(chain, chain[k].payload.manifestSha256, k)
      && chain[k].payload.sequence == k + 1 && HeadOf(chain[..k + 1]) == Some(chain[k].hash)
  {
    var l := s.ledger;
    var chain := Chain(l, election);
    hide EventsFit, KeysFit, TicketFits, EnrollmentOf, KeyBytesHold, SignatureHolds;
    assert ChainFits(c, l.events, election, chain) && ManifestsUnique(l);
    hide Inv;
    assert Anchored(c, l.events, election, chain, k);
    hide Anchored;
    forall i | 0 <= i < |chain| && chain[i].payload.manifestSha256 == chain[k].payload.manifestSha256 ensures i == k {
      assert IsManifestAt(l, election, i, chain[k].payload.manifestSha256);
      assert IsManifestAt(l, election, k, chain[k].payload.manifestSha256);
    }
  }

  // ---- revocation is final

  lemma {:induction false} RevokedStays(c: Crypto, ops: seq<Op>, n: nat, m: nat, id: string)
    requires Sound(c) && IsRun(c, ops) && n <= m <= |ops|
    requires var l := Reached(c, ops[..n]).ledger; id in l.keys && l.keys[id].revokedAt.Some?
    ensures var l, later := Reached(c, ops[..n]).ledger, Reached(c, ops[..m]).ledger;
            id in later.keys && later.keys[id] == l.keys[id]
  {
    hide *;
    if m > n {
      RevokedStays(c, ops, n, m - 1, id);
      RunPrefix(c, ops, m - 1);
      StepKeepsRevoked(c, Reached(c, ops[..m - 1]), ops[m - 1], id);
    }
  }

  lemma StepKeepsRevoked(c: Crypto, s: State, op: Op, id: string)
    requires id in s.ledger.keys && s.ledger.keys[id].revokedAt.Some?
    ensures var later := Next(c, s, op).ledger; id in later.keys && later.keys[id] == s.ledger.keys[id]
  {
    hide Sealed, EventHashTaken, FingerprintTaken, ManifestTaken, CheckpointHashTaken;
  }

  // A revoked key is never active again, not even under another identifier.
  lemma RevokedIsFinal(c: Crypto, ops: seq<Op>, n: nat, id: string, other: string)
    requires Sound(c) && IsRun(c, ops) && n <= |ops|
    requires var l := Reached(c, ops[..n]).ledger; id in l.keys && l.keys[id].revokedAt.Some?
    ensures !IsActive(Reached(c, ops).ledger, Reached(c, ops[..n]).ledger.keys[id].fingerprint, other)
  {
    RevokedStays(c, ops, n, |ops|, id);
    assert ops[..|ops|] == ops;
    InvHolds(c, ops);
    hide Reached, IsRun, Sound, EventsFit, ChainsFit, ManifestsUnique;
  }
}
