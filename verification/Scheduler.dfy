// Reservation of requests to a source: attempt order, exponential backoff and the rate limit
// over a sliding minute (src/ballotproof/source_scheduler.py).
module Scheduler {
  import opened Outcomes
  import opened Ordering

  // Instants and durations are whole microseconds.
  const MINUTE: int := 60_000_000

  type Positive = n: int | n > 0 witness 1

  datatype Policy = Policy(
    sourceId: string,
    approved: bool,
    requestsPerMinute: Positive,
    maxAttempts: nat,
    backoff: nat,
    retryStatusCodes: set<int>)

  datatype Snapshot = Snapshot(policy: Policy, version: int, hash: string)

  datatype Request = Request(
    policyVersion: int,
    snapshotHash: string,
    key: string,
    url: string,
    httpMethod: string,
    attempt: Positive)

  datatype Reservation = Reservation(
    reservationId: string,
    sourceId: string,
    policyVersion: int,
    snapshotHash: string,
    key: string,
    url: string,
    httpMethod: string,
    attempt: Positive,
    reservedAt: int)

  datatype Receipt = Receipt(
    receiptId: string,
    sourceId: string,
    key: Option<string>,
    url: string,
    attempt: int,
    statusCode: int,
    retrievedAt: int,
    storedAt: int,
    reservationId: Option<string>)

  datatype BlockReason =
    | PolicySnapshotMismatch
    | PolicyNotApproved
    | RequestNotPermitted
    | AttemptsExhausted
    | RetrySequenceInvalid
    | DuplicateReservation
    | Backoff
    | RateLimit

  datatype Decision =
    | Allowed(reservation: Reservation)
    | Refused(reason: BlockReason, nextAllowedAt: Option<int>, retryAfter: int)

  // Scheme, host, port and address rules for a request under a policy.
  type RequestCheck = (Policy, string, string) -> bool

  // ---------------------------------------------------------------- backoff

  function Power2(n: nat): (p: nat)
    ensures p >= 1
  {
    if n == 0 then 1 else 2 * Power2(n - 1)
  }

  // Waits of which the first is given and each other is twice the one before.
  ghost predicate Doubling(waits: seq<int>, first: int) {
    waits != [] && waits[0] == first && forall i :: 0 < i < |waits| ==> waits[i] == 2 * waits[i - 1]
  }

  // At `at` the wait that precedes the attempt is over, counted from `since`. Attempt 2 waits for the
  // policy's backoff, and every further attempt twice as long as the one before it.
  ghost predicate WaitIsOver(policy: Policy, attempt: int, since: int, at: int) {
    exists waits :: Doubling(waits, policy.backoff) && |waits| == attempt - 1 && at >= since + waits[|waits| - 1]
  }

  lemma {:induction false} DoublingIsPower(waits: seq<int>, first: int, i: nat)
    requires Doubling(waits, first) && i < |waits|
    ensures waits[i] == first * Power2(i)
  {
    if i > 0 {
      DoublingIsPower(waits, first, i - 1);
    }
  }

  function Waits(first: nat, n: nat): seq<int> {
    seq(n, i requires 0 <= i < n => first * Power2(i))
  }

  lemma WaitsDouble(first: nat, n: nat)
    requires n > 0
    ensures Doubling(Waits(first, n), first)
  {
    forall i | 0 < i < n ensures Waits(first, n)[i] == 2 * Waits(first, n)[i - 1] {
      assert Power2(i) == 2 * Power2(i - 1);
    }
  }

  lemma WaitIsOverMeans(policy: Policy, attempt: int, since: int, at: int)
    requires attempt > 1
    ensures WaitIsOver(policy, attempt, since, at) <==> at >= since + policy.backoff * Power2(attempt - 2)
  {
    hide Power2;
    if waits :| Doubling(waits, policy.backoff) && |waits| == attempt - 1 && at >= since + waits[|waits| - 1] {
      DoublingIsPower(waits, policy.backoff, attempt - 2);
    }
    WaitsDouble(policy.backoff, attempt - 1);
    assert |Waits(policy.backoff, attempt - 1)| == attempt - 1;
  }

  predicate IsMatch(policy: Policy, request: Request, now: int, receipt: Receipt) {
    && receipt.sourceId == policy.sourceId
    && receipt.key == Some(request.key)
    && receipt.url == request.url
    && receipt.retrievedAt <= now
  }

  function Matching(policy: Policy, request: Request, now: int, receipts: seq<Receipt>): (r: seq<Receipt>)
    ensures forall receipt :: receipt in r <==>
              && receipt in receipts && receipt.sourceId == policy.sourceId && receipt.key == Some(request.key)
              && receipt.url == request.url && receipt.retrievedAt <= now
  {
    if receipts == [] then []
    else
      var last := receipts[|receipts| - 1];
      assert receipts == receipts[..|receipts| - 1] + [last];
      Matching(policy, request, now, receipts[..|receipts| - 1])
      + if IsMatch(policy, request, now, last) then [last] else []
  }

  predicate ReceiptLe(a: Receipt, b: Receipt) {
    if a.retrievedAt != b.retrievedAt then a.retrievedAt < b.retrievedAt
    else if a.storedAt != b.storedAt then a.storedAt < b.storedAt
    else StrLe(a.receiptId, b.receiptId)
  }

  lemma ReceiptLeIsTotalPreorder()
    ensures TotalPreorder(ReceiptLe)
  {
    StrLeIsTotalOrder();
    hide StrLe;
  }

  // The receipt a retry follows: the last in order of retrieval, storage and identifier.
  function Latest(matching: seq<Receipt>): Option<Receipt> {
    var sorted := Sort(ReceiptLe, matching);
    if sorted == [] then None else Some(sorted[|sorted| - 1])
  }

  // Until when a retry has to wait, or that it may not follow what came before.
  function BackoffUntil(policy: Policy, request: Request, receipts: seq<Receipt>, now: int): Result<Option<int>,
      BlockReason> {
    if request.attempt == 1 then Ok(None)
    else
      var latest := Latest(Matching(policy, request, now, receipts));
      if latest.None? then Err(RetrySequenceInvalid)
      else if latest.value.attempt != request.attempt - 1
              || latest.value.statusCode !in policy.retryStatusCodes then Err(RetrySequenceInvalid)
      else Ok(Some(latest.value.retrievedAt + policy.backoff * Power2(request.attempt - 2)))
  }

  // ---------------------------------------------------------------- the rate limit

  predicate IntLe(a: int, b: int) { a <= b }

  predicate InWindow(row: Reservation, source: string, after: int, upTo: int) {
    row.sourceId == source && after < row.reservedAt <= upTo
  }

  // The instants of a source's reservations within (after, upTo], in order.
  function TimesIn(rows: seq<Reservation>, source: string, after: int, upTo: int): seq<int> {
    if rows == [] then []
    else
      var last := rows[|rows| - 1];
      TimesIn(rows[..|rows| - 1], source, after, upTo)
      + if InWindow(last, source, after, upTo) then [last.reservedAt] else []
  }

  function RateLimitUntil(rows: seq<Reservation>, policy: Policy, now: int): Option<int> {
    var times := Sort(IntLe, TimesIn(rows, policy.sourceId, now - MINUTE, now));
    if policy.requestsPerMinute <= |times| then Some(times[|times| - policy.requestsPerMinute] + MINUTE) else None
  }

  // ---------------------------------------------------------------- the decision

  function Precheck(check: RequestCheck, snapshot: Snapshot, request: Request): Option<BlockReason> {
    if request.policyVersion != snapshot.version || request.snapshotHash != snapshot.hash then
      Some(PolicySnapshotMismatch)
    else if !snapshot.policy.approved then Some(PolicyNotApproved)
    else if !check(snapshot.policy, request.url, request.httpMethod) then Some(RequestNotPermitted)
    else if request.attempt > snapshot.policy.maxAttempts then Some(AttemptsExhausted)
    else None
  }

  predicate Duplicate(rows: seq<Reservation>, source: string, key: string, attempt: int) {
    exists row :: row in rows && row.sourceId == source && row.key == key && row.attempt == attempt
  }

  // The later of those instants that are still ahead.
  function LastAhead(a: Option<int>, b: Option<int>, now: int): Option<int> {
    var a, b := if a.Some? && a.value > now then a else None, if b.Some? && b.value > now then b else None;
    if a.None? then b
    else if b.None? then a
    else if a.value >= b.value then a
    else b
  }

  function NewReservation(snapshot: Snapshot, request: Request, now: int, id: string): Reservation {
    Reservation(id, snapshot.policy.sourceId, snapshot.version, snapshot.hash, request.key, request.url,
                request.httpMethod, request.attempt, now)
  }

  function Decide(check: RequestCheck, rows: seq<Reservation>, snapshot: Snapshot, request: Request,
                  receipts: seq<Receipt>, now: int, id: string): Decision
  {
    var policy := snapshot.policy;
    var block := Precheck(check, snapshot, request);
    if block.Some? then Refused(block.value, None, 0)
    else
      var backoff := BackoffUntil(policy, request, receipts, now);
      if backoff.Err? then Refused(backoff.error, None, 0)
      else if Duplicate(rows, policy.sourceId, request.key, request.attempt) then Refused(DuplicateReservation, None, 0)
      else
        var next := LastAhead(backoff.value, RateLimitUntil(rows, policy, now), now);
        if next.None? then Allowed(NewReservation(snapshot, request, now, id))
        else Refused(if backoff.value == next then Backoff else RateLimit, next, next.value - now)
  }

  lemma GrantedIs(check: RequestCheck, rows: seq<Reservation>, snapshot: Snapshot, request: Request,
                  receipts: seq<Receipt>, now: int, id: string)
    requires Decide(check, rows, snapshot, request, receipts, now, id).Allowed?
    ensures Decide(check, rows, snapshot, request, receipts, now, id) ==
        Allowed(NewReservation(snapshot, request, now, id))
    ensures NewReservation(snapshot, request, now, id) ==
            Reservation(id, snapshot.policy.sourceId, snapshot.version, snapshot.hash, request.key, request.url,
                        request.httpMethod, request.attempt, now)
  {
    hide BackoffUntil, RateLimitUntil, Precheck, Duplicate;
  }

  function Granted(decision: Decision): seq<Reservation> {
    if decision.Allowed? then [decision.reservation] else []
  }

  class SourceSchedulerStore {
    const check: RequestCheck
    var rows: seq<Reservation>

    constructor (check: RequestCheck)
      ensures this.check == check && rows == []
    {
      this.check := check;
      rows := [];
    }

    // One transaction; `id` is the identifier drawn for a new row.
    method Reserve(snapshot: Snapshot, request: Request, receipts: seq<Receipt>, now: int, id: string)
      returns (decision: Decision)
      modifies this
      ensures decision == Decide(check, old(rows), snapshot, request, receipts, now, id)
      ensures rows == old(rows) + Granted(decision)
      ensures decision.Allowed? ==>
                rows == old(rows) + [Reservation(id, snapshot.policy.sourceId, snapshot.version, snapshot.hash,
                                                 request.key, request.url, request.httpMethod, request.attempt, now)]
      ensures decision.Refused? ==> rows == old(rows)
    {
      hide Matching, Sort, TimesIn, ReceiptLe, StrLe, Power2, Doubling;
      var policy := snapshot.policy;
      if request.policyVersion != snapshot.version || request.snapshotHash != snapshot.hash {
        return Refused(PolicySnapshotMismatch, None, 0);
      }
      if !policy.approved {
        return Refused(PolicyNotApproved, None, 0);
      }
      if !check(policy, request.url, request.httpMethod) {
        return Refused(RequestNotPermitted, None, 0);
      }
      if request.attempt > policy.maxAttempts {
        return Refused(AttemptsExhausted, None, 0);
      }

      var matching := SelectMatching(policy, request, now, receipts);
      var backoffUntil: Option<int> := None;
      if request.attempt > 1 {
        ReceiptLeIsTotalPreorder();
        LastIsGreatest(ReceiptLe, matching);
        if matching == [] {
          return Refused(RetrySequenceInvalid, None, 0);
        }
        var sorted := Sort(ReceiptLe, matching);
        var latest := sorted[|sorted| - 1];
        var retryablePredecessor :=
          latest.attempt == request.attempt - 1 && latest.statusCode in policy.retryStatusCodes;
        if !retryablePredecessor {
          return Refused(RetrySequenceInvalid, None, 0);
        }
        backoffUntil := Some(latest.retrievedAt + policy.backoff * Power2(latest.attempt - 1));
      }

      if exists row | row in rows :: row.sourceId == policy.sourceId && row.key == request.key
                                     && row.attempt == request.attempt {
        return Refused(DuplicateReservation, None, 0);
      }
      var times := SelectTimes(rows, policy.sourceId, now - MINUTE, now);
      var rateLimitUntil: Option<int> := None;
      if |times| >= policy.requestsPerMinute {
        rateLimitUntil := Some(times[|times| - policy.requestsPerMinute] + MINUTE);
      }
      var next := LastAhead(backoffUntil, rateLimitUntil, now);
      if next.Some? {
        var reason := if backoffUntil == next then Backoff else RateLimit;
        return Refused(reason, next, next.value - now);
      }
      var reservation := NewReservation(snapshot, request, now, id);
      rows := rows + [reservation];
      return Allowed(reservation);
    }

    static method SelectMatching(policy: Policy, request: Request, now: int, receipts: seq<Receipt>)
      returns (matching: seq<Receipt>)
      ensures matching == Matching(policy, request, now, receipts)
    {
      matching := [];
      for i := 0 to |receipts|
        invariant matching == Matching(policy, request, now, receipts[..i])
      {
        assert receipts[..i + 1][..i] == receipts[..i];
        if IsMatch(policy, request, now, receipts[i]) {
          matching := matching + [receipts[i]];
        }
      }
      assert receipts[..|receipts|] == receipts;
    }

    static method SelectTimes(rows: seq<Reservation>, source: string, after: int, upTo: int) returns (times: seq<int>)
      ensures times == Sort(IntLe, TimesIn(rows, source, after, upTo))
    {
      times := [];
      for i := 0 to |rows|
        invariant times == TimesIn(rows[..i], source, after, upTo)
      {
        assert rows[..i + 1][..i] == rows[..i];
        if InWindow(rows[i], source, after, upTo) {
          times := times + [rows[i].reservedAt];
        }
      }
      assert rows[..|rows|] == rows;
      times := Sort(IntLe, times);
    }
  }
}
