// One observer's durable record of witness statements, and the search for witnesses that said two
// things (src/ballotproof/observer_pins.py, release_publication.py).
module ObserverPins {
  import opened Outcomes
  import opened Hashing
  import opened HashChain
  import opened Finite

  datatype Payload = Payload(
    witnessId: string,
    publicationSha256: Digest,
    releaseId: string,
    electionId: string,
    manifestSha256: Digest,
    checkpointHash: Digest,
    checkpointSequence: nat,
    keyHead: Digest,
    observedAt: int)

  datatype Statement = Statement(
    payload: Payload,
    publicKeyB64: string,
    witnessKey: Digest,
    signatureB64: string,
    statementSha256: Digest)

  // What a pin hashes, apart from the hash of the pin before; the statement itself is covered by its
  // own digest.
  datatype PinBody = PinBody(
    sequence: nat,
    observerId: string,
    witnessKey: Digest,
    electionId: string,
    checkpointSequence: nat,
    publicationSha256: Digest,
    checkpointHash: Digest,
    statementSha256: Digest,
    pinnedAt: int)

  datatype Pin = Pin(entry: Link<PinBody>, statement: Statement)

  datatype Crypto = Crypto(
    sha: HashFn,
    decode: string -> Option<Bytes>,
    verifies: (Bytes, Bytes, Bytes) -> bool,
    payloadBytes: Payload -> Bytes,
    statementBytes: (Payload, string, Digest, string) -> Bytes,
    pinBytes: LinkEncoder<PinBody>,
    isSpace: char -> bool)

  datatype PinError =
    | ObserverRequired
    | NotTrusted
    | InvalidStatement
    | ConflictingView
    | NotMonotonic
    | HashTaken

  // ---------------------------------------------------------------- statements

  predicate SignatureHolds(c: Crypto, s: Statement) {
    var raw, signature := c.decode(s.publicKeyB64), c.decode(s.signatureB64);
    && raw.Some? && |raw.value| == 32 && c.sha(raw.value) == s.witnessKey
    && signature.Some? && c.verifies(raw.value, signature.value, c.payloadBytes(s.payload))
  }

  predicate StatementHashHolds(c: Crypto, s: Statement) {
    c.sha(c.statementBytes(s.payload, s.publicKeyB64, s.witnessKey, s.signatureB64)) == s.statementSha256
  }

  predicate Authentic(c: Crypto, s: Statement) {
    SignatureHolds(c, s) && StatementHashHolds(c, s)
  }

  // A statement is signed when its key decodes to 32 bytes that hash to the witness's fingerprint and
  // its signature decodes and verifies under that key over the payload.
  ghost predicate Signed(c: Crypto, s: Statement) {
    exists raw, signature ::
      && c.decode(s.publicKeyB64) == Some(raw) && |raw| == 32 && c.sha(raw) == s.witnessKey
      && c.decode(s.signatureB64) == Some(signature) && c.verifies(raw, signature, c.payloadBytes(s.payload))
  }

  lemma AuthenticMeans(c: Crypto, s: Statement)
    ensures SignatureHolds(c, s) <==> Signed(c, s)
    ensures Authentic(c, s) <==>
              && Signed(c, s)
              && s.statementSha256 == c.sha(c.statementBytes(s.payload, s.publicKeyB64, s.witnessKey, s.signatureB64))
  {
  }

  // ---------------------------------------------------------------- the pin ledger

  // A stream is what one observer records of one witness in one election.
  type Stream = (string, Digest, string)

  function StreamOf(pin: Pin): Stream {
    (pin.entry.body.observerId, pin.entry.body.witnessKey, pin.entry.body.electionId)
  }

  function Entries(pins: seq<Pin>): seq<Link<PinBody>> {
    seq(|pins|, i requires 0 <= i < |pins| => pins[i].entry)
  }

  predicate FieldsMatch(pin: Pin) {
    var body, s := pin.entry.body, pin.statement;
    && body.witnessKey == s.witnessKey && body.electionId == s.payload.electionId
    && body.checkpointSequence == s.payload.checkpointSequence
    && body.publicationSha256 == s.payload.publicationSha256
    && body.checkpointHash == s.payload.checkpointHash && body.statementSha256 == s.statementSha256
  }

  ghost predicate Advances(pins: seq<Pin>, j: nat, i: nat)
    requires j < i < |pins|
  {
    StreamOf(pins[j]) == StreamOf(pins[i]) ==>
      pins[j].entry.body.checkpointSequence < pins[i].entry.body.checkpointSequence
  }

  ghost predicate PinHolds(c: Crypto, pins: seq<Pin>, i: nat)
    requires i < |pins|
  {
    && pins[i].entry.body.sequence == i + 1
    && pins[i].entry.previous == (if i == 0 then None else Some(pins[i - 1].entry.hash))
    && pins[i].entry.hash == c.sha(c.pinBytes(pins[i].entry.body, pins[i].entry.previous))
    && Authentic(c, pins[i].statement) && FieldsMatch(pins[i])
    && forall j: nat :: j < i ==> Advances(pins, j, i)
  }

  ghost predicate LedgerHolds(c: Crypto, pins: seq<Pin>) {
    forall i: nat :: i < |pins| ==> PinHolds(c, pins, i)
  }

  // A pin of a ledger that verifies: numbered and chained, of an authentic statement whose key,
  // election, sequence, publication, checkpoint and digest it repeats, and later in its stream than
  // every pin before it.
  lemma PinHoldsMeans(c: Crypto, pins: seq<Pin>, i: nat)
    requires i < |pins|
    ensures PinHolds(c, pins, i) <==>
              var body, s := pins[i].entry.body, pins[i].statement;
              && body.sequence == i + 1
              && pins[i].entry.previous == (if i == 0 then None else Some(pins[i - 1].entry.hash))
              && pins[i].entry.hash == c.sha(c.pinBytes(body, pins[i].entry.previous))
              && Authentic(c, s)
              && body.witnessKey == s.witnessKey && body.electionId == s.payload.electionId
              && body.checkpointSequence == s.payload.checkpointSequence
              && body.publicationSha256 == s.payload.publicationSha256
              && body.checkpointHash == s.payload.checkpointHash && body.statementSha256 == s.statementSha256
              && forall j :: && 0 <= j < i && pins[j].entry.body.observerId == body.observerId
                             && pins[j].entry.body.witnessKey == body.witnessKey
                             && pins[j].entry.body.electionId == body.electionId ==>
                   pins[j].entry.body.checkpointSequence < body.checkpointSequence
  {
    hide Authentic;
    forall j: nat | j < i
      ensures Advances(pins, j, i) <==>
                (&& pins[j].entry.body.observerId == pins[i].entry.body.observerId
                 && pins[j].entry.body.witnessKey == pins[i].entry.body.witnessKey
                 && pins[j].entry.body.electionId == pins[i].entry.body.electionId ==>
                 pins[j].entry.body.checkpointSequence < pins[i].entry.body.checkpointSequence)
    {
    }
  }

  predicate Blank(c: Crypto, text: string) {
    forall ch | ch in text :: c.isSpace(ch)
  }

  predicate SamePlace(body: PinBody, observerId: string, s: Statement) {
    body.observerId == observerId && body.witnessKey == s.witnessKey && body.electionId == s.payload.electionId
  }

  predicate SameView(body: PinBody, s: Statement) {
    && body.statementSha256 == s.statementSha256 && body.publicationSha256 == s.payload.publicationSha256
    && body.checkpointHash == s.payload.checkpointHash
  }

  function BodyFor(pins: seq<Pin>, s: Statement, observerId: string, now: int): PinBody {
    PinBody(|pins| + 1, observerId, s.witnessKey, s.payload.electionId, s.payload.checkpointSequence,
            s.payload.publicationSha256, s.payload.checkpointHash, s.statementSha256, now)
  }

  function NewPin(c: Crypto, pins: seq<Pin>, s: Statement, observerId: string, now: int): Pin {
    Pin(Sealed(c.sha, c.pinBytes, Entries(pins), BodyFor(pins, s, observerId, now)), s)
  }

  // The observer has pinned this witness on this election before, at that checkpoint sequence.
  ghost predicate PinnedAt(pins: seq<Pin>, observerId: string, s: Statement, sequence: nat, k: nat) {
    && k < |pins| && pins[k].entry.body.observerId == observerId && pins[k].entry.body.witnessKey == s.witnessKey
    && pins[k].entry.body.electionId == s.payload.electionId && pins[k].entry.body.checkpointSequence == sequence
  }

  // The pin shows what the statement says.
  ghost predicate Shows(pin: Pin, s: Statement) {
    && pin.entry.body.statementSha256 == s.statementSha256
    && pin.entry.body.publicationSha256 == s.payload.publicationSha256
    && pin.entry.body.checkpointHash == s.payload.checkpointHash
  }

  // The next pin of the ledger.
  ghost predicate IsNextPin(c: Crypto, pins: seq<Pin>, s: Statement, observerId: string, now: int, pin: Pin) {
    && pin.statement == s
    && pin.entry.body == PinBody(|pins| + 1, observerId, s.witnessKey, s.payload.electionId,
                                 s.payload.checkpointSequence, s.payload.publicationSha256, s.payload.checkpointHash,
                                 s.statementSha256, now)
    && pin.entry.previous == (if pins == [] then None else Some(pins[|pins| - 1].entry.hash))
    && pin.entry.hash == c.sha(c.pinBytes(pin.entry.body, pin.entry.previous))
  }

  lemma NewPinIsNext(c: Crypto, pins: seq<Pin>, s: Statement, observerId: string, now: int)
    ensures IsNextPin(c, pins, s, observerId, now, NewPin(c, pins, s, observerId, now))
  {
  }

  // What pinning an authentic statement of the trusted witness answers: with a pin already at its
  // sequence, that pin or the conflict; with none there but one further on, a refusal; and otherwise
  // the next pin, unless its hash is taken.
  ghost predicate Answered(c: Crypto, before: seq<Pin>, s: Statement, observerId: string, now: int, after: seq<Pin>,
      outcome: Result<Pin, PinError>) {
    var place := s.payload.checkpointSequence;
    if exists k: nat :: PinnedAt(before, observerId, s, place, k) then
      && after == before
      && forall k: nat :: PinnedAt(before, observerId, s, place, k) ==>
           outcome == if Shows(before[k], s) then Ok(before[k]) else Err(ConflictingView)
    else if exists k: nat, sequence: nat :: PinnedAt(before, observerId, s, sequence, k) && place < sequence then
      outcome == Err(NotMonotonic) && after == before
    else
      exists pin :: && IsNextPin(c, before, s, observerId, now, pin)
                    && if exists other :: other in before && other.entry.hash == pin.entry.hash then
                         outcome == Err(HashTaken) && after == before
                       else outcome == Ok(pin) && after == before + [pin]
  }

  // Nothing that the observer has pinned of this witness and election is as far on as the statement.
  ghost predicate LaterThanAll(pins: seq<Pin>, s: Statement, observerId: string) {
    forall k: nat, sequence: nat ::
      PinnedAt(pins, observerId, s, sequence, k) ==> sequence < s.payload.checkpointSequence
  }

  // In a ledger that verifies, an observer's pins of a witness on an election move on, so that it has
  // at most one of them per sequence.
  lemma LaterPinIsFurther(c: Crypto, pins: seq<Pin>, observerId: string, s: Statement, a: nat, k: nat, b: nat, m: nat)
    requires LedgerHolds(c, pins) && k < m
    requires PinnedAt(pins, observerId, s, a, k) && PinnedAt(pins, observerId, s, b, m)
    ensures a < b
  {
    hide Authentic, FieldsMatch;
    assert PinHolds(c, pins, m) && Advances(pins, k, m);
  }

  lemma OnePinPerPlace(c: Crypto, pins: seq<Pin>, observerId: string, s: Statement, sequence: nat, k: nat, m: nat)
    requires LedgerHolds(c, pins)
    requires PinnedAt(pins, observerId, s, sequence, k) && PinnedAt(pins, observerId, s, sequence, m)
    ensures k == m
  {
    hide LedgerHolds, PinnedAt;
    if k < m {
      LaterPinIsFurther(c, pins, observerId, s, sequence, k, sequence, m);
    } else if m < k {
      LaterPinIsFurther(c, pins, observerId, s, sequence, m, sequence, k);
    }
  }

  datatype ChainVerification = ChainVerification(valid: bool, pinsChecked: nat, head: Option<Digest>)

  class ObserverPinStore {
    const c: Crypto
    var pins: seq<Pin>

    constructor (c: Crypto)
      ensures this.c == c && pins == [] && Valid()
    {
      this.c := c;
      pins := [];
    }

    ghost predicate Valid()
      reads this
    {
      LedgerHolds(c, pins)
    }

    // A statement is pinned once; pinning it again returns the pin there is, and any other view of the
    // same checkpoint or an older checkpoint is refused.
    method PinStatement(s: Statement, observerId: string, trusted: Digest, now: int)
      returns (outcome: Result<Pin, PinError>)
      requires Valid()
      modifies this`pins
      ensures Valid()
      ensures outcome.Err? ==> pins == old(pins)
      ensures outcome == Err(ObserverRequired) <==> forall ch :: ch in observerId ==> c.isSpace(ch)
      ensures outcome == Err(NotTrusted) <==> !Blank(c, observerId) && Signed(c, s) && s.witnessKey != trusted
      ensures outcome == Err(InvalidStatement) <==>
                && !Blank(c, observerId)
                && (!Signed(c, s) || (s.witnessKey == trusted && !Authentic(c, s)))
      ensures !Blank(c, observerId) && Authentic(c, s) && s.witnessKey == trusted ==>
                Answered(c, old(pins), s, observerId, now, pins, outcome)
    {
      if Blank(c, observerId) {
        return Err(ObserverRequired);
      }
      AuthenticMeans(c, s);
      if !SignatureHolds(c, s) {
        return Err(InvalidStatement);
      }
      if s.witnessKey != trusted {
        return Err(NotTrusted);
      }
      if !StatementHashHolds(c, s) {
        return Err(InvalidStatement);
      }
      hide LedgerHolds, SignatureHolds, StatementHashHolds, NewPin, Signed;
      for i := 0 to |pins|
        invariant forall j: nat :: j < i ==> !PinnedAt(pins, observerId, s, s.payload.checkpointSequence, j)
      {
        var body := pins[i].entry.body;
        if SamePlace(body, observerId, s) && body.checkpointSequence == s.payload.checkpointSequence {
          assert PinnedAt(pins, observerId, s, s.payload.checkpointSequence, i);
          forall k: nat | PinnedAt(pins, observerId, s, s.payload.checkpointSequence, k) ensures k == i {
            OnePinPerPlace(c, pins, observerId, s, s.payload.checkpointSequence, k, i);
          }
          return if SameView(body, s) then Ok(pins[i]) else Err(ConflictingView);
        }
      }
      var latest: Option<nat> := None;
      for i := 0 to |pins|
        invariant forall j: nat, sequence: nat :: j < i && PinnedAt(pins, observerId, s, sequence, j) ==>
                    latest.Some? && sequence <= latest.value
        invariant latest.Some? ==> exists j: nat :: PinnedAt(pins, observerId, s, latest.value, j)
      {
        var body := pins[i].entry.body;
        if SamePlace(body, observerId, s) && (latest.None? || latest.value < body.checkpointSequence) {
          latest := Some(body.checkpointSequence);
          assert PinnedAt(pins, observerId, s, body.checkpointSequence, i);
        }
      }
      if latest.Some? && s.payload.checkpointSequence <= latest.value {
        return Err(NotMonotonic);
      }
      var pin := NewPin(c, pins, s, observerId, now);
      NewPinIsNext(c, pins, s, observerId, now);
      if exists other | other in pins :: other.entry.hash == pin.entry.hash {
        return Err(HashTaken);
      }
      assert LaterThanAll(pins, s, observerId);
      NewPinFits(c, pins, s, observerId, now);
      pins := pins + [pin];
      return Ok(pin);
    }

    method VerifyChain() returns (result: ChainVerification)
      ensures result.valid <==> LedgerHolds(c, pins)
      ensures result.valid ==> result == ChainVerification(true, |pins|, LastHash(Entries(pins)))
      ensures !result.valid ==>
                var i := result.pinsChecked;
                && i < |pins| && !PinHolds(c, pins, i) && (forall j: nat :: j < i ==> PinHolds(c, pins, j))
                && result.head == if i == 0 then None else Some(pins[i - 1].entry.hash)
    {
      hide Authentic, FieldsMatch;
      var previousHash: Option<Digest> := None;
      var streamHeads: map<Stream, nat> := map[];
      for i := 0 to |pins|
        invariant previousHash == if i == 0 then None else Some(pins[i - 1].entry.hash)
        invariant forall j: nat :: j < i ==> PinHolds(c, pins, j)
        invariant forall j :: 0 <= j < i ==>
                    StreamOf(pins[j]) in streamHeads
                    && pins[j].entry.body.checkpointSequence <= streamHeads[StreamOf(pins[j])]
        invariant forall stream :: stream in streamHeads ==>
                    exists j :: 0 <= j < i && StreamOf(pins[j]) == stream
                                && pins[j].entry.body.checkpointSequence == streamHeads[stream]
      {
        var pin := pins[i];
        var stream := StreamOf(pin);
        var fails := pin.entry.body.sequence != i + 1 || pin.entry.previous != previousHash
                     || !Authentic(c, pin.statement) || !FieldsMatch(pin);
        if !fails && stream in streamHeads && pin.entry.body.checkpointSequence <= streamHeads[stream] {
          ghost var j: nat :| j < i && StreamOf(pins[j]) == stream
                              && pins[j].entry.body.checkpointSequence == streamHeads[stream];
          assert !Advances(pins, j, i);
          fails := true;
        }
        if fails || c.sha(c.pinBytes(pin.entry.body, previousHash)) != pin.entry.hash {
          assert !PinHolds(c, pins, i);
          return ChainVerification(false, i, previousHash);
        }
        streamHeads := streamHeads[stream := pin.entry.body.checkpointSequence];
        previousHash := Some(pin.entry.hash);
      }
      return ChainVerification(true, |pins|, previousHash);
    }
  }

  lemma NewPinFits(c: Crypto, pins: seq<Pin>, s: Statement, observerId: string, now: int)
    requires LedgerHolds(c, pins) && Authentic(c, s)
    requires LaterThanAll(pins, s, observerId)
    ensures LedgerHolds(c, pins + [NewPin(c, pins, s, observerId, now)])
  {
    hide Authentic;
    var pin := NewPin(c, pins, s, observerId, now);
    var longer := pins + [pin];
    forall i: nat | i < |longer| ensures PinHolds(c, longer, i) {
      if i < |pins| {
        assert PinHolds(c, pins, i);
        forall j: nat | j < i ensures Advances(longer, j, i) {
          assert Advances(pins, j, i);
        }
      } else {
        forall j: nat | j < i ensures Advances(longer, j, i) {
          assert StreamOf(pins[j]) == StreamOf(pin) ==>
              PinnedAt(pins, observerId, s, pins[j].entry.body.checkpointSequence, j);
        }
      }
    }
  }

  // ---------------------------------------------------------------- equivocation

  // Whose word, on which election, at which checkpoint.
  type Topic = (Digest, string, nat)

  function TopicOf(s: Statement): Topic {
    (s.witnessKey, s.payload.electionId, s.payload.checkpointSequence)
  }

  type View = (Digest, Digest)

  function ViewOf(s: Statement): View {
    (s.payload.publicationSha256, s.payload.checkpointHash)
  }

  datatype Equivocation = Equivocation(
    witnessKey: Digest,
    electionId: string,
    checkpointSequence: nat,
    statements: multiset<Digest>,
    publications: set<Digest>,
    checkpointHashes: set<Digest>)

  datatype DetectError = RequiresValidStatements

  // Two statements of one witness on one checkpoint that show different things.
  ghost predicate Contradict(a: Statement, b: Statement) {
    TopicOf(a) == TopicOf(b) && ViewOf(a) != ViewOf(b)
  }

  ghost predicate Contested(statements: seq<Statement>, topic: Topic) {
    exists a, b :: a in statements && b in statements && TopicOf(a) == topic && Contradict(a, b)
  }

  function Group(statements: seq<Statement>, topic: Topic): seq<Statement> {
    if statements == [] then []
    else
      var last := statements[|statements| - 1];
      Group(statements[..|statements| - 1], topic) + if TopicOf(last) == topic then [last] else []
  }

  lemma {:induction false} GroupMembers(statements: seq<Statement>, topic: Topic)
    ensures forall s :: s in Group(statements, topic) <==> s in statements && TopicOf(s) == topic
  {
    if statements != [] {
      GroupMembers(statements[..|statements| - 1], topic);
      assert statements == statements[..|statements| - 1] + [statements[|statements| - 1]];
    }
  }

  function Digests(group: seq<Statement>): seq<Digest> {
    seq(|group|, i requires 0 <= i < |group| => group[i].statementSha256)
  }

  function ReportOn(topic: Topic, group: seq<Statement>): Equivocation {
    Equivocation(topic.0, topic.1, topic.2, multiset(Digests(group)),
                 set s | s in group :: s.payload.publicationSha256, set s | s in group :: s.payload.checkpointHash)
  }

  function Views(group: seq<Statement>): set<View> {
    set s | s in group :: ViewOf(s)
  }

  lemma ManyViews(statements: seq<Statement>, topic: Topic)
    ensures |Views(Group(statements, topic))| > 1 <==> Contested(statements, topic)
  {
    GroupMembers(statements, topic);
    var group := Group(statements, topic);
    hide Group;
    if Contested(statements, topic) {
      var a, b :| a in statements && b in statements && TopicOf(a) == topic && Contradict(a, b);
      assert ViewOf(a) in Views(group) && ViewOf(b) in Views(group);
      SubsetSize({ViewOf(a), ViewOf(b)}, Views(group));
    }
    if |Views(group)| > 1 {
      var v :| v in Views(group);
      assert (forall w :: w in Views(group) ==> w == v) ==> Views(group) == {v};
      var w :| w in Views(group) && w != v;
      var a :| a in group && ViewOf(a) == v;
      var b :| b in group && ViewOf(b) == w;
      assert Contradict(a, b);
    }
  }

  lemma GroupOfNothing()
    ensures forall topic :: Group([], topic) == []
  {
  }

  lemma GroupsGrow(statements: seq<Statement>, i: nat)
    requires i < |statements|
    ensures forall topic :: Group(statements[..i + 1], topic) ==
              Group(statements[..i], topic) + if TopicOf(statements[i]) == topic then [statements[i]] else []
  {
    assert statements[..i + 1][..i] == statements[..i];
  }

  method GroupByTopic(c: Crypto, statements: seq<Statement>) returns (outcome: Result<map<Topic, seq<Statement>>,
      DetectError>)
    ensures outcome.Err? <==> exists s :: s in statements && !Authentic(c, s)
    ensures outcome.Ok? ==> forall topic :: topic in outcome.value ==> outcome.value[topic] == Group(statements, topic)
    ensures outcome.Ok? ==> forall topic :: topic !in outcome.value ==> Group(statements, topic) == []
  {
    hide Authentic, TopicOf, Group;
    GroupOfNothing();
    var groups: map<Topic, seq<Statement>> := map[];
    for i := 0 to |statements|
      invariant forall j :: 0 <= j < i ==> Authentic(c, statements[j])
      invariant forall topic :: topic in groups ==> groups[topic] == Group(statements[..i], topic)
      invariant forall topic :: topic !in groups ==> Group(statements[..i], topic) == []
    {
      var s := statements[i];
      GroupsGrow(statements, i);
      if !Authentic(c, s) {
        return Err(RequiresValidStatements);
      }
      var topic := TopicOf(s);
      groups := groups[topic := (if topic in groups then groups[topic] else []) + [s]];
    }
    assert statements[..|statements|] == statements;
    return Ok(groups);
  }

  // The statement is of this witness, on this election, at this checkpoint sequence.
  ghost predicate Concerns(s: Statement, witnessKey: Digest, electionId: string, sequence: nat) {
    s.witnessKey == witnessKey && s.payload.electionId == electionId && s.payload.checkpointSequence == sequence
  }

  // Some two of the statements on the topic name different publications or different checkpoints.
  ghost predicate Disputed(statements: seq<Statement>, witnessKey: Digest, electionId: string, sequence: nat) {
    exists a, b :: && a in statements && b in statements && Concerns(a, witnessKey, electionId, sequence)
                   && Concerns(b, witnessKey, electionId, sequence)
                   && (a.payload.publicationSha256 != b.payload.publicationSha256
                       || a.payload.checkpointHash != b.payload.checkpointHash)
  }

  // The report names the topic, every publication and every checkpoint named on it, and the digest of
  // each statement on it as often as statements carry it.
  ghost predicate ReportsOn(statements: seq<Statement>, topic: Topic, r: Equivocation) {
    && r.witnessKey == topic.0 && r.electionId == topic.1 && r.checkpointSequence == topic.2
    && (forall p :: p in r.publications <==> exists s :: s in statements && Concerns(s, topic.0, topic.1, topic.2)
                                                         && s.payload.publicationSha256 == p)
    && (forall h :: h in r.checkpointHashes <==> exists s :: s in statements && Concerns(s, topic.0, topic.1, topic.2)
                                                             && s.payload.checkpointHash == h)
    && forall d :: r.statements[d] == |set i | && 0 <= i < |statements|
                                               && Concerns(statements[i], topic.0, topic.1, topic.2)
                                               && statements[i].statementSha256 == d|
  }

  lemma DisputedIsContested(statements: seq<Statement>, topic: Topic)
    ensures Contested(statements, topic) <==> Disputed(statements, topic.0, topic.1, topic.2)
  {
    if Disputed(statements, topic.0, topic.1, topic.2) {
      var a, b :| && a in statements && b in statements && Concerns(a, topic.0, topic.1, topic.2)
                  && Concerns(b, topic.0, topic.1, topic.2)
                  && (a.payload.publicationSha256 != b.payload.publicationSha256
                      || a.payload.checkpointHash != b.payload.checkpointHash);
      assert Contradict(a, b);
    }
  }

  function Mentions(statements: seq<Statement>, topic: Topic, d: Digest): set<nat> {
    set i: nat | && i < |statements| && TopicOf(statements[i]) == topic && statements[i].statementSha256 == d
  }

  lemma {:induction false} DigestsAreCounted(statements: seq<Statement>, topic: Topic, d: Digest)
    ensures multiset(Digests(Group(statements, topic)))[d] == |Mentions(statements, topic, d)|
  {
    if statements == [] {
      assert Mentions(statements, topic, d) == {};
    } else {
      var n := |statements| - 1;
      var init, last := statements[..n], statements[n];
      DigestsAreCounted(init, topic, d);
      assert Mentions(statements, topic, d) ==
             Mentions(init, topic, d) + if TopicOf(last) == topic && last.statementSha256 == d then {n} else {};
      hide Mentions;
      DigestsGrow(Group(init, topic), last);
      if TopicOf(last) != topic {
        assert Group(statements, topic) == Group(init, topic);
      }
    }
  }

  lemma DigestsGrow(group: seq<Statement>, s: Statement)
    ensures multiset(Digests(group + [s])) == multiset(Digests(group)) + multiset{s.statementSha256}
  {
    assert Digests(group + [s]) == Digests(group) + [s.statementSha256];
  }

  lemma ReportIsRight(statements: seq<Statement>, topic: Topic)
    ensures ReportsOn(statements, topic, ReportOn(topic, Group(statements, topic)))
  {
    GroupMembers(statements, topic);
    hide Group;
    forall d ensures ReportOn(topic, Group(statements, topic)).statements[d] ==
                     |set i | && 0 <= i < |statements| && Concerns(statements[i], topic.0, topic.1, topic.2)
                              && statements[i].statementSha256 == d|
    {
      DigestsAreCounted(statements, topic, d);
      assert Mentions(statements, topic, d) ==
             set i | && 0 <= i < |statements| && Concerns(statements[i], topic.0, topic.1, topic.2)
                     && statements[i].statementSha256 == d;
    }
    hide Digests;
  }

  // Reports exactly the topics on which some witness contradicts itself, each with everything said on it.
  method DetectWitnessEquivocations(c: Crypto, statements: seq<Statement>)
    returns (outcome: Result<map<Topic, Equivocation>, DetectError>)
    ensures outcome.Err? <==> exists s :: s in statements && !Authentic(c, s)
    ensures outcome.Ok? ==> forall topic :: topic in outcome.value <==> Contested(statements, topic)
    ensures outcome.Ok? ==> forall topic: Topic ::
              topic in outcome.value <==> Disputed(statements, topic.0, topic.1, topic.2)
    ensures outcome.Ok? ==> forall topic :: topic in outcome.value ==>
              ReportsOn(statements, topic, outcome.value[topic])
  {
    hide Authentic, Contested, ReportOn, Views, Group;
    var grouped := GroupByTopic(c, statements);
    if grouped.Err? {
      return Err(RequiresValidStatements);
    }
    var groups := grouped.value;
    var conflicts: map<Topic, Equivocation> := map[];
    var pending := groups.Keys;
    while pending != {}
      invariant pending <= groups.Keys
      invariant forall topic :: topic in conflicts <==>
          topic in groups && topic !in pending && Contested(statements, topic)
      invariant forall topic :: topic in conflicts ==> conflicts[topic] == ReportOn(topic, Group(statements, topic))
    {
      var topic :| topic in pending;
      pending := pending - {topic};
      ManyViews(statements, topic);
      if |Views(groups[topic])| > 1 {
        conflicts := conflicts[topic := ReportOn(topic, groups[topic])];
      }
    }
    forall topic | Contested(statements, topic) ensures topic in conflicts {
      ContestedIsGrouped(statements, topic);
    }
    hide Disputed, ReportsOn;
    forall topic: Topic ensures Contested(statements, topic) <==> Disputed(statements, topic.0, topic.1, topic.2) {
      DisputedIsContested(statements, topic);
    }
    forall topic ensures ReportsOn(statements, topic, ReportOn(topic, Group(statements, topic))) {
      ReportIsRight(statements, topic);
    }
    return Ok(conflicts);
  }

  lemma ContestedIsGrouped(statements: seq<Statement>, topic: Topic)
    requires Contested(statements, topic)
    ensures Group(statements, topic) != []
  {
    GroupMembers(statements, topic);
    var a, b :| a in statements && b in statements && TopicOf(a) == topic && Contradict(a, b);
    assert a in Group(statements, topic);
  }

  function StatementsOf(pins: seq<Pin>, observerId: string): seq<Statement> {
    if pins == [] then []
    else
      var last := pins[|pins| - 1];
      StatementsOf(pins[..|pins| - 1], observerId)
      + if last.entry.body.observerId == observerId then [last.statement] else []
  }

  lemma {:induction false} StatementIsPinned(pins: seq<Pin>, observerId: string, s: Statement)
    requires s in StatementsOf(pins, observerId)
    ensures exists i: nat :: i < |pins| && pins[i].entry.body.observerId == observerId && pins[i].statement == s
  {
    var last, init := pins[|pins| - 1], pins[..|pins| - 1];
    if s in StatementsOf(init, observerId) {
      StatementIsPinned(init, observerId, s);
      var i: nat :| i < |init| && init[i].entry.body.observerId == observerId && init[i].statement == s;
      assert pins[i] == init[i];
    } else {
      assert pins[|pins| - 1].statement == s;
    }
  }

  // The statements of an observer are those of its pins, one for each.
  lemma StatementsArePinned(pins: seq<Pin>, observerId: string)
    ensures forall s :: s in StatementsOf(pins, observerId) <==>
              exists i: nat :: i < |pins| && pins[i].entry.body.observerId == observerId && pins[i].statement == s
    ensures |StatementsOf(pins, observerId)| == |PinsOf(pins, observerId)|
  {
    hide StatementsOf, PinsOf;
    forall s ensures s in StatementsOf(pins, observerId) <==>
      exists i: nat :: i < |pins| && pins[i].entry.body.observerId == observerId && pins[i].statement == s
    {
      if s in StatementsOf(pins, observerId) {
        StatementIsPinned(pins, observerId, s);
      }
      if i: nat :| i < |pins| && pins[i].entry.body.observerId == observerId && pins[i].statement == s {
        PinnedIsStatement(pins, observerId, i);
      }
    }
    OneStatementEach(pins, observerId);
  }

  function PinsOf(pins: seq<Pin>, observerId: string): set<nat> {
    set i: nat | i < |pins| && pins[i].entry.body.observerId == observerId
  }

  lemma {:induction false} PinnedIsStatement(pins: seq<Pin>, observerId: string, i: nat)
    requires i < |pins| && pins[i].entry.body.observerId == observerId
    ensures pins[i].statement in StatementsOf(pins, observerId)
  {
    if i < |pins| - 1 {
      PinnedIsStatement(pins[..|pins| - 1], observerId, i);
    }
  }

  lemma {:induction false} OneStatementEach(pins: seq<Pin>, observerId: string)
    ensures |StatementsOf(pins, observerId)| == |PinsOf(pins, observerId)|
  {
    if pins == [] {
      assert PinsOf(pins, observerId) == {};
    } else {
      var n := |pins| - 1;
      OneStatementEach(pins[..n], observerId);
      assert PinsOf(pins, observerId) ==
             PinsOf(pins[..n], observerId) + if pins[n].entry.body.observerId == observerId then {n} else {};
      assert n !in PinsOf(pins[..n], observerId);
      hide PinsOf;
    }
  }

  lemma SamePinOnTopic(c: Crypto, pins: seq<Pin>, i: nat, j: nat)
    requires LedgerHolds(c, pins) && i < |pins| && j < |pins|
    requires pins[i].entry.body.observerId == pins[j].entry.body.observerId
    requires TopicOf(pins[i].statement) == TopicOf(pins[j].statement)
    ensures i == j
  {
    hide Authentic;
    assert PinHolds(c, pins, i) && PinHolds(c, pins, j);
    assert i < j ==> Advances(pins, i, j);
    assert j < i ==> Advances(pins, j, i);
  }

  // What one observer has pinned never contains a contradiction.
  lemma OneObserverSeesNoEquivocation(c: Crypto, pins: seq<Pin>, observerId: string, topic: Topic)
    requires LedgerHolds(c, pins)
    ensures !Contested(StatementsOf(pins, observerId), topic)
    ensures forall s :: s in StatementsOf(pins, observerId) ==> Authentic(c, s)
  {
    var statements := StatementsOf(pins, observerId);
    if Contested(statements, topic) {
      var a, b :| a in statements && b in statements && TopicOf(a) == topic && Contradict(a, b);
      hide LedgerHolds, StatementsOf;
      StatementIsPinned(pins, observerId, a);
      StatementIsPinned(pins, observerId, b);
      var i: nat :| i < |pins| && pins[i].entry.body.observerId == observerId && pins[i].statement == a;
      var j: nat :| j < |pins| && pins[j].entry.body.observerId == observerId && pins[j].statement == b;
      SamePinOnTopic(c, pins, i, j);
      assert false;
    }
    forall s | s in statements ensures Authentic(c, s) {
      StatementIsPinned(pins, observerId, s);
      var i: nat :| i < |pins| && pins[i].entry.body.observerId == observerId && pins[i].statement == s;
      assert PinHolds(c, pins, i);
    }
  }

  // In every store filled by pinning, the ledger verifies and each observer's own pins are free of
  // contradictions.
  method ObserverNeverEquivocates(store: ObserverPinStore, observerId: string)
    returns (chain: ChainVerification, conflicts: Result<map<Topic, Equivocation>, DetectError>)
    requires store.Valid()
    ensures chain.valid && chain.pinsChecked == |store.pins|
    ensures conflicts == Ok(map[])
  {
    chain := store.VerifyChain();
    var statements := StatementsOf(store.pins, observerId);
    conflicts := DetectWitnessEquivocations(store.c, statements);
    forall topic: Topic ensures !Contested(statements, topic) {
      OneObserverSeesNoEquivocation(store.c, store.pins, observerId, topic);
    }
    forall s | s in statements ensures Authentic(store.c, s) {
      OneObserverSeesNoEquivocation(store.c, store.pins, observerId, TopicOf(s));
    }
    hide Contested, Authentic, StatementsOf, LedgerHolds;
    assert conflicts.value == map[];
  }

  // The checkpoint sequence of a stream strictly increases along the ledger.
  lemma StreamsStrictlyIncrease(c: Crypto, pins: seq<Pin>, i: nat, j: nat)
    requires LedgerHolds(c, pins) && i < j < |pins| && StreamOf(pins[i]) == StreamOf(pins[j])
    ensures pins[i].statement.payload.checkpointSequence < pins[j].statement.payload.checkpointSequence
  {
    hide Authentic;
    assert PinHolds(c, pins, i) && PinHolds(c, pins, j) && Advances(pins, i, j);
  }

  lemma LedgerIsChain(c: Crypto, pins: seq<Pin>)
    requires LedgerHolds(c, pins)
    ensures ValidChain(c.sha, c.pinBytes, Entries(pins))
  {
    hide Authentic, FieldsMatch, Advances;
    forall i: nat | i < |pins| ensures Holds(c.sha, c.pinBytes, Entries(pins), i) {
      assert PinHolds(c, pins, i);
    }
  }

  // Two ledgers that verify and end in the same pin hash pin the same things in the same order, or
  // two of the strings hashed for them collide.
  lemma PinHeadFixesLedger(c: Crypto, a: seq<Pin>, b: seq<Pin>)
    requires LedgerHolds(c, a) && LedgerHolds(c, b) && InjectiveLinks(c.pinBytes)
    requires LastHash(Entries(a)) == LastHash(Entries(b))
    ensures Entries(a) == Entries(b)
        || CollisionIn(c.sha, Hashed(c.pinBytes, Entries(a)) + Hashed(c.pinBytes, Entries(b)))
  {
    LedgerIsChain(c, a);
    LedgerIsChain(c, b);
    hide *;
    HeadFixesHistory(c.sha, c.pinBytes, Entries(a), Entries(b));
  }
}
