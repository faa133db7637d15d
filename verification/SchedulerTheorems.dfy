// The sliding-window bound and the exact retry time.
module SchedulerTheorems {
  import opened Outcomes
  import opened Finite
  import opened Ordering
  import opened Scheduler

  // ---------------------------------------------------------------- counting instants

  function Above(x: int): int -> int {
    v => if v > x then 1 else 0
  }

  // How many of the instants lie after `x`.
  function CountAbove(times: seq<int>, x: int): int {
    Sum(Above(x), times)
  }

  lemma {:induction false} NoneAbove(times: seq<int>, x: int)
    requires forall i :: 0 <= i < |times| ==> times[i] <= x
    ensures CountAbove(times, x) == 0
  {
    if times != [] {
      NoneAbove(times[1..], x);
    }
  }

  lemma {:induction false} CountFalls(times: seq<int>, x: int, y: int)
    requires x <= y
    ensures CountAbove(times, y) <= CountAbove(times, x)
  {
    if times != [] {
      CountFalls(times[1..], x, y);
    }
  }

  // The k-th newest instant is the threshold at which the count of newer ones drops below k.
  lemma {:induction false} NewestIsThreshold(times: seq<int>, k: nat, x: int)
    requires SortedBy(IntLe, times) && 0 < k <= |times|
    ensures CountAbove(times, x) >= k <==> x < times[|times| - k]
  {
    var last, init := times[|times| - 1], times[..|times| - 1];
    assert times == init + [last];
    SumLast(Above(x), times);
    forall i | 0 <= i < |times| ensures times[i] <= last {
      assert i == |times| - 1 || IntLe(times[i], last);
    }
    if x >= last {
      NoneAbove(times, x);
    } else if k > 1 {
      NewestIsThreshold(init, k - 1, x);
    } else {
      CountIsNatural(init, x);
    }
  }

  lemma {:induction false} CountIsNatural(times: seq<int>, x: int)
    ensures 0 <= CountAbove(times, x) <= |times|
  {
    if times != [] {
      CountIsNatural(times[1..], x);
    }
  }

  lemma SortKeepsCount(times: seq<int>, x: int)
    ensures SortedBy(IntLe, Sort(IntLe, times)) && |Sort(IntLe, times)| == |times|
    ensures CountAbove(Sort(IntLe, times), x) == CountAbove(times, x)
  {
    assert TotalPreorder(IntLe);
    SortProperties(IntLe, times);
    SumPermutation(Above(x), Sort(IntLe, times), times);
  }

  // ---------------------------------------------------------------- the exact retry time

  function AllTimes(rows: seq<Reservation>, source: string): seq<int> {
    if rows == [] then []
    else
      var last := rows[|rows| - 1];
      AllTimes(rows[..|rows| - 1], source) + if last.sourceId == source then [last.reservedAt] else []
  }

  ghost predicate NoneAfter(rows: seq<Reservation>, source: string, now: int) {
    forall row :: row in rows && row.sourceId == source ==> row.reservedAt <= now
  }

  ghost predicate NoReceiptAfter(receipts: seq<Receipt>, source: string, now: int) {
    forall receipt :: receipt in receipts && receipt.sourceId == source ==> receipt.retrievedAt <= now
  }

  function Max(x: int, y: int): int {
    if x >= y then x else y
  }

  lemma {:induction false} WindowCounts(rows: seq<Reservation>, source: string, after: int, upTo: int, x: int)
    requires NoneAfter(rows, source, upTo)
    ensures CountAbove(TimesIn(rows, source, after, upTo), x) == CountAbove(AllTimes(rows, source), Max(x, after))
    ensures |TimesIn(rows, source, after, upTo)| == CountAbove(AllTimes(rows, source), after)
  {
    if rows != [] {
      var last, init := rows[|rows| - 1], rows[..|rows| - 1];
      assert last in rows && forall row :: row in init ==> row in rows;
      WindowCounts(init, source, after, upTo, x);
      var t: seq<int> := if InWindow(last, source, after, upTo) then [last.reservedAt] else [];
      var a: seq<int> := if last.sourceId == source then [last.reservedAt] else [];
      SumAppend(Above(x), TimesIn(init, source, after, upTo), t);
      SumAppend(Above(Max(x, after)), AllTimes(init, source), a);
      SumAppend(Above(after), AllTimes(init, source), a);
      assert [last.reservedAt][1..] == [];
    }
  }

  // What the rate limit says in terms of counts: it applies while the k-th newest reservation is
  // less than a minute old.
  lemma LimitIsThreshold(rows: seq<Reservation>, policy: Policy, now: int, x: int)
    requires NoneAfter(rows, policy.sourceId, now)
    ensures
      var k, all, until := policy.requestsPerMinute, AllTimes(rows, policy.sourceId), RateLimitUntil(rows, policy, now);
      && (until.Some? <==> CountAbove(all, now - MINUTE) >= k)
      && (until.Some? ==> (CountAbove(all, Max(x, now - MINUTE)) >= k <==> x < until.value - MINUTE))
  {
    var times := TimesIn(rows, policy.sourceId, now - MINUTE, now);
    WindowCounts(rows, policy.sourceId, now - MINUTE, now, x);
    SortKeepsCount(times, x);
    if policy.requestsPerMinute <= |times| {
      NewestIsThreshold(Sort(IntLe, times), policy.requestsPerMinute, x);
    }
  }

  // With no new reservations the limit neither moves nor comes back: it stays until its instant.
  lemma LimitStays(rows: seq<Reservation>, policy: Policy, now: int, t: int)
    requires NoneAfter(rows, policy.sourceId, now) && now <= t
    ensures
      var before, after := RateLimitUntil(rows, policy, now), RateLimitUntil(rows, policy, t);
      if before.Some? && t < before.value then after == before else after.None?
  {
    var all, before := AllTimes(rows, policy.sourceId), RateLimitUntil(rows, policy, now);
    var after := RateLimitUntil(rows, policy, t);
    hide RateLimitUntil, CountAbove, AllTimes;
    LimitIsThreshold(rows, policy, now, t - MINUTE);
    LimitIsThreshold(rows, policy, t, t - MINUTE);
    if before.None? {
      CountFalls(all, now - MINUTE, t - MINUTE);
    } else if after.Some? {
      var b := before.value - MINUTE;
      LimitIsThreshold(rows, policy, now, b);
      LimitIsThreshold(rows, policy, now, b - 1);
      LimitIsThreshold(rows, policy, t, b);
      LimitIsThreshold(rows, policy, t, b - 1);
    }
  }

  lemma {:induction false} MatchingStays(policy: Policy, request: Request, receipts: seq<Receipt>, now: int, t: int)
    requires NoReceiptAfter(receipts, policy.sourceId, now) && now <= t
    ensures Matching(policy, request, now, receipts) == Matching(policy, request, t, receipts)
  {
    if receipts != [] {
      var last, init := receipts[|receipts| - 1], receipts[..|receipts| - 1];
      assert last in receipts && forall receipt :: receipt in init ==> receipt in receipts;
      MatchingStays(policy, request, init, now, t);
    }
  }

  // A refusal that names an instant is exact: asked again, the same request is refused with the
  // same reason and instant before it, and allowed from it on.
  lemma RetryTimeIsExact(check: RequestCheck, rows: seq<Reservation>, snapshot: Snapshot, request: Request,
                         receipts: seq<Receipt>, now: int, t: int, id: string)
    requires NoneAfter(rows, snapshot.policy.sourceId, now) && NoReceiptAfter(receipts, snapshot.policy.sourceId, now)
    requires now <= t
    requires Decide(check, rows, snapshot, request, receipts, now, id).Refused?
    requires Decide(check, rows, snapshot, request, receipts, now, id).nextAllowedAt.Some?
    ensures
      var refusal := Decide(check, rows, snapshot, request, receipts, now, id);
      var later := Decide(check, rows, snapshot, request, receipts, t, id);
      && refusal.reason in {Backoff, RateLimit} && refusal.nextAllowedAt.value > now
      && refusal.retryAfter == refusal.nextAllowedAt.value - now
      && (refusal.reason == Backoff <==>
          BackoffUntil(snapshot.policy, request, receipts, now) == Ok(refusal.nextAllowedAt))
      && (t < refusal.nextAllowedAt.value ==>
            later == Refused(refusal.reason, refusal.nextAllowedAt, refusal.nextAllowedAt.value - t))
      && (t >= refusal.nextAllowedAt.value ==> later == Allowed(NewReservation(snapshot, request, t, id)))
  {
    MatchingStays(snapshot.policy, request, receipts, now, t);
    LimitStays(rows, snapshot.policy, now, t);
    LimitIsAhead(rows, snapshot.policy, now);
    assert BackoffUntil(snapshot.policy, request, receipts, now) == BackoffUntil(snapshot.policy, request, receipts, t);
    hide BackoffUntil, RateLimitUntil, NewReservation, Precheck, Duplicate;
  }

  lemma LimitIsAhead(rows: seq<Reservation>, policy: Policy, now: int)
    requires NoneAfter(rows, policy.sourceId, now)
    ensures var until := RateLimitUntil(rows, policy, now); until.Some? ==> until.value > now
  {
    hide RateLimitUntil, CountAbove;
    LimitIsThreshold(rows, policy, now, now - MINUTE);
  }

  // ---------------------------------------------------------------- what a grant requires

  // By retrieval, then by storage, then by identifier.
  ghost predicate NotNewer(q: Receipt, r: Receipt) {
    || q.retrievedAt < r.retrievedAt
    || (q.retrievedAt == r.retrievedAt && q.storedAt < r.storedAt)
    || (q.retrievedAt == r.retrievedAt && q.storedAt == r.storedAt && NoLater(q.receiptId, r.receiptId))
  }

  ghost predicate IsLatest(policy: Policy, request: Request, receipts: seq<Receipt>, now: int, r: Receipt) {
    && r in Matching(policy, request, now, receipts)
    && forall q :: q in Matching(policy, request, now, receipts) ==> NotNewer(q, r)
  }

  // The receipt a retry is measured by is the greatest of the matching ones.
  lemma LatestIsGreatest(policy: Policy, request: Request, receipts: seq<Receipt>, now: int)
    ensures var latest := Latest(Matching(policy, request, now, receipts));
            && (latest.None? <==> Matching(policy, request, now, receipts) == [])
            && (latest.Some? ==> IsLatest(policy, request, receipts, now, latest.value))
  {
    hide ReceiptLe, Sort, IsMatch, Matching, NotNewer;
    ReceiptLeIsTotalPreorder();
    var matching := Matching(policy, request, now, receipts);
    LastIsGreatest(ReceiptLe, matching);
    forall q, r | ReceiptLe(q, r) ensures NotNewer(q, r) {
      ReceiptOrderMeans(q, r);
    }
  }

  lemma ReceiptOrderMeans(q: Receipt, r: Receipt)
    ensures ReceiptLe(q, r) <==> NotNewer(q, r)
  {
    hide StrLe, NoLater;
    StrLeMeans(q.receiptId, r.receiptId);
  }

  // Where the source's reservations of the last sixty seconds stand.
  ghost function RecentAt(rows: seq<Reservation>, source: string, now: int): set<int> {
    set i | 0 <= i < |rows| && rows[i].sourceId == source && now - 60_000_000 < rows[i].reservedAt <= now
  }

  lemma {:induction false} RecentAreCounted(rows: seq<Reservation>, source: string, now: int)
    ensures |TimesIn(rows, source, now - MINUTE, now)| == |RecentAt(rows, source, now)|
  {
    if rows != [] {
      RecentAreCounted(rows[..|rows| - 1], source, now);
      RecentGrow(rows, source, now);
      hide RecentAt, InWindow;
    }
  }

  lemma RecentGrow(rows: seq<Reservation>, source: string, now: int)
    requires rows != []
    ensures |RecentAt(rows, source, now)| ==
            |RecentAt(rows[..|rows| - 1], source, now)|
            + if InWindow(rows[|rows| - 1], source, now - MINUTE, now) then 1 else 0
  {
    var n := |rows| - 1;
    assert RecentAt(rows, source, now) ==
           RecentAt(rows[..n], source, now) + if InWindow(rows[n], source, now - MINUTE, now) then {n} else {};
    assert n !in RecentAt(rows[..n], source, now);
  }

  ghost predicate Reserved(rows: seq<Reservation>, source: string, key: string, attempt: int) {
    exists i :: 0 <= i < |rows| && rows[i].sourceId == source && rows[i].key == key && rows[i].attempt == attempt
  }

  lemma DuplicateMeans(rows: seq<Reservation>, source: string, key: string, attempt: int)
    ensures Duplicate(rows, source, key, attempt) <==> Reserved(rows, source, key, attempt)
  {
    if row :| row in rows && row.sourceId == source && row.key == key && row.attempt == attempt {
      var i :| 0 <= i < |rows| && rows[i] == row;
    }
  }

  // The request names the policy in force.
  ghost predicate Bound(snapshot: Snapshot, request: Request) {
    request.policyVersion == snapshot.version && request.snapshotHash == snapshot.hash
  }

  // The retry conditions but for time: the latest response was to the attempt before and may be retried.
  ghost predicate InSequence(policy: Policy, request: Request, receipts: seq<Receipt>, now: int) {
    var latest := Latest(Matching(policy, request, now, receipts));
    request.attempt > 1 ==>
      && latest.Some? && latest.value.attempt == request.attempt - 1
      && latest.value.statusCode in policy.retryStatusCodes
  }

  ghost predicate Waited(policy: Policy, request: Request, receipts: seq<Receipt>, now: int)
    requires InSequence(policy, request, receipts, now)
  {
    request.attempt > 1 ==>
      WaitIsOver(policy, request.attempt, Latest(Matching(policy, request, now, receipts)).value.retrievedAt, now)
  }

  // A request is granted exactly when every condition holds: bound to the approved current policy,
  // permitted, within its attempts, in sequence, not reserved before, waited for, and under the limit
  // of the last minute. What is granted is the request itself.
  lemma GrantedIffDue(check: RequestCheck, rows: seq<Reservation>, snapshot: Snapshot, request: Request,
                      receipts: seq<Receipt>, now: int, id: string)
    ensures
      var policy, decision := snapshot.policy, Decide(check, rows, snapshot, request, receipts, now, id);
      && (decision.Allowed? <==>
            && Bound(snapshot, request) && policy.approved && check(policy, request.url, request.httpMethod)
            && request.attempt <= policy.maxAttempts && InSequence(policy, request, receipts, now)
            && Waited(policy, request, receipts, now)
            && !Reserved(rows, policy.sourceId, request.key, request.attempt)
            && |RecentAt(rows, policy.sourceId, now)| < policy.requestsPerMinute)
      && (decision.Allowed? ==>
            decision.reservation == Reservation(id, policy.sourceId, snapshot.version, snapshot.hash, request.key,
                                                request.url, request.httpMethod, request.attempt, now))
  {
    var policy := snapshot.policy;
    BlockersAreAhead(rows, policy, now);
    SortKeepsCount(TimesIn(rows, policy.sourceId, now - MINUTE, now), 0);
    RecentAreCounted(rows, policy.sourceId, now);
    DuplicateMeans(rows, policy.sourceId, request.key, request.attempt);
    BackoffMeans(policy, request, receipts, now);
    hide Sort, TimesIn, Matching, Latest, Power2, Duplicate, Reserved, RecentAt, BackoffUntil, InSequence, Waited;
  }

  // The backoff: no retry out of sequence, none for a first attempt, and otherwise until the wait is over.
  lemma BackoffMeans(policy: Policy, request: Request, receipts: seq<Receipt>, now: int)
    ensures
      var until := BackoffUntil(policy, request, receipts, now);
      && (until.Err? <==> !InSequence(policy, request, receipts, now))
      && (until.Err? ==> until.error == RetrySequenceInvalid)
      && (until.Ok? ==> (until.value.None? <==> request.attempt == 1))
      && (until.Ok? ==> (Waited(policy, request, receipts, now) <==> until.value.None? || until.value.value <= now))
  {
    if request.attempt > 1 && InSequence(policy, request, receipts, now) {
      var since := Latest(Matching(policy, request, now, receipts)).value.retrievedAt;
      WaitIsOverMeans(policy, request.attempt, since, now);
    }
    hide Sort, Matching, Latest, Power2, WaitIsOver;
  }

  // The reason of a refusal is the first condition that fails, and only a wait comes with an instant.
  lemma RefusalNamesFirstFailure(check: RequestCheck, rows: seq<Reservation>, snapshot: Snapshot, request: Request,
                                 receipts: seq<Receipt>, now: int, id: string)
    requires Decide(check, rows, snapshot, request, receipts, now, id).Refused?
    ensures
      var policy, refusal := snapshot.policy, Decide(check, rows, snapshot, request, receipts, now, id);
      if !Bound(snapshot, request) then refusal == Refused(PolicySnapshotMismatch, None, 0)
      else if !policy.approved then refusal == Refused(PolicyNotApproved, None, 0)
      else if !check(policy, request.url, request.httpMethod) then refusal == Refused(RequestNotPermitted, None, 0)
      else if request.attempt > policy.maxAttempts then refusal == Refused(AttemptsExhausted, None, 0)
      else if !InSequence(policy, request, receipts, now) then refusal == Refused(RetrySequenceInvalid, None, 0)
      else if Reserved(rows, policy.sourceId, request.key, request.attempt) then
        refusal == Refused(DuplicateReservation, None, 0)
      else
        && refusal.reason in {Backoff, RateLimit} && refusal.nextAllowedAt.Some?
        && refusal.retryAfter == refusal.nextAllowedAt.value - now > 0
        && (refusal.reason == Backoff ==> !Waited(policy, request, receipts, now))
        && (refusal.reason == RateLimit ==> |RecentAt(rows, policy.sourceId, now)| >= policy.requestsPerMinute)
  {
    var policy := snapshot.policy;
    BlockersAreAhead(rows, policy, now);
    SortKeepsCount(TimesIn(rows, policy.sourceId, now - MINUTE, now), 0);
    RecentAreCounted(rows, policy.sourceId, now);
    DuplicateMeans(rows, policy.sourceId, request.key, request.attempt);
    BackoffMeans(policy, request, receipts, now);
    hide Sort, TimesIn, Matching, Latest, Power2, Duplicate, Reserved, RecentAt, BackoffUntil, InSequence, Waited;
  }

  // ---------------------------------------------------------------- the sliding-window bound

  // A reservation together with the rate limit under which it was granted.
  datatype Entry = Entry(reservation: Reservation, limit: nat)

  datatype Call = Call(snapshot: Snapshot, request: Request, receipts: seq<Receipt>, now: int, id: string)

  function Rows(log: seq<Entry>): seq<Reservation> {
    seq(|log|, i requires 0 <= i < |log| => log[i].reservation)
  }

  function DecideCall(check: RequestCheck, rows: seq<Reservation>, call: Call): Decision {
    Decide(check, rows, call.snapshot, call.request, call.receipts, call.now, call.id)
  }

  function Extend(check: RequestCheck, log: seq<Entry>, call: Call): seq<Entry> {
    var decision := DecideCall(check, Rows(log), call);
    log + if decision.Allowed? then [Entry(decision.reservation, call.snapshot.policy.requestsPerMinute)] else []
  }

  // The log of a run: any calls, one transaction after the other.
  function LogOf(check: RequestCheck, calls: seq<Call>): seq<Entry> {
    if calls == [] then [] else Extend(check, LogOf(check, calls[..|calls| - 1]), calls[|calls| - 1])
  }

  lemma RowsOfExtend(check: RequestCheck, log: seq<Entry>, call: Call)
    ensures Rows(Extend(check, log, call)) == Rows(log) + Granted(DecideCall(check, Rows(log), call))
  {
    hide Decide;
  }

  // A run of the store itself: the rows of the log are the rows it holds.
  method ReserveAll(store: SourceSchedulerStore, calls: seq<Call>)
    requires store.rows == []
    modifies store
    ensures store.rows == Rows(LogOf(store.check, calls))
  {
    assert calls[..0] == [];
    for i := 0 to |calls|
      invariant store.rows == Rows(LogOf(store.check, calls[..i]))
    {
      assert calls[..i + 1][..i] == calls[..i];
      RowsOfExtend(store.check, LogOf(store.check, calls[..i]), calls[i]);
      hide Decide, Extend, Rows;
      var _ := store.Reserve(calls[i].snapshot, calls[i].request, calls[i].receipts, calls[i].now, calls[i].id);
    }
    assert calls[..|calls|] == calls;
  }

  // Every entry of the log stands for one call: the reservation that the call was granted on the rows
  // logged before it, under the limit of its own policy and at its own reading of the clock.
  lemma {:induction false} EntriesAreCalls(check: RequestCheck, calls: seq<Call>, j: nat) returns (i: nat)
    requires j < |LogOf(check, calls)|
    ensures i < |calls| && LogOf(check, calls[..i]) == LogOf(check, calls)[..j]
    ensures
      var entry, call := LogOf(check, calls)[j], calls[i];
      && DecideCall(check, Rows(LogOf(check, calls[..i])), call) == Allowed(entry.reservation)
      && entry.limit == call.snapshot.policy.requestsPerMinute
      && entry.reservation.sourceId == call.snapshot.policy.sourceId && entry.reservation.reservedAt == call.now
  {
    if calls == [] {
      assert false;
    } else {
      var n := |calls| - 1;
      var before := LogOf(check, calls[..n]);
      ExtendSays(check, before, calls[n]);
      hide Extend, DecideCall, Rows;
      if j < |before| {
        i := EntriesAreCalls(check, calls[..n], j);
        assert calls[..n][..i] == calls[..i];
      } else {
        i := n;
      }
    }
  }

  lemma ExtendSays(check: RequestCheck, log: seq<Entry>, call: Call)
    ensures
      var decision, more := DecideCall(check, Rows(log), call), Extend(check, log, call);
      && (decision.Refused? ==> more == log)
      && (decision.Allowed? ==>
           && |more| == |log| + 1 && more[..|log|] == log && more[|log|].reservation == decision.reservation
           && more[|log|].limit == call.snapshot.policy.requestsPerMinute
           && decision.reservation.sourceId == call.snapshot.policy.sourceId
           && decision.reservation.reservedAt == call.now)
  {
    hide BackoffUntil, RateLimitUntil, Precheck, Duplicate;
  }

  function Readings(calls: seq<Call>): seq<int> {
    seq(|calls|, i requires 0 <= i < |calls| => calls[i].now)
  }

  // No reading falls behind an earlier one by less than a minute.
  ghost predicate Steady(times: seq<int>) {
    forall i, j :: 0 <= i < j < |times| ==> times[i] <= times[j] || times[i] - times[j] >= MINUTE
  }

  // The reservations of the same source in the minute up to and including entry `j`.
  function MinuteUpTo(log: seq<Entry>, j: nat): seq<int>
    requires j < |log|
  {
    var last := log[j].reservation;
    TimesIn(Rows(log[..j + 1]), last.sourceId, last.reservedAt - MINUTE, last.reservedAt)
  }

  ghost predicate WithinLimit(log: seq<Entry>, j: nat)
    requires j < |log|
  {
    |MinuteUpTo(log, j)| <= log[j].limit
  }

  lemma GrantedWithinLimit(check: RequestCheck, log: seq<Entry>, call: Call)
    requires DecideCall(check, Rows(log), call).Allowed?
    ensures WithinLimit(Extend(check, log, call), |log|)
  {
    var policy, rows, more := call.snapshot.policy, Rows(log), Extend(check, log, call);
    assert more[..|log| + 1] == more && Rows(more)[..|log|] == rows;
    BlockersAreAhead(rows, policy, call.now);
    SortKeepsCount(TimesIn(rows, policy.sourceId, call.now - MINUTE, call.now), 0);
    hide TimesIn, Sort, BackoffUntil;
    assert RateLimitUntil(rows, policy, call.now).None?;
    hide *;
    LastOfTimes(Rows(more), policy.sourceId, call.now - MINUTE, call.now);
  }

  lemma LastOfTimes(rows: seq<Reservation>, source: string, after: int, upTo: int)
    requires rows != []
    ensures |TimesIn(rows, source, after, upTo)| <= |TimesIn(rows[..|rows| - 1], source, after, upTo)| + 1
  {
  }

  // What the window holds is less than a minute old, whatever order the rows are in.
  lemma BlockersAreAhead(rows: seq<Reservation>, policy: Policy, now: int)
    ensures var until := RateLimitUntil(rows, policy, now); until.Some? ==> until.value > now
  {
    var times := TimesIn(rows, policy.sourceId, now - MINUTE, now);
    assert TotalPreorder(IntLe);
    SortProperties(IntLe, times);
    if policy.requestsPerMinute <= |times| {
      var b := Sort(IntLe, times)[|times| - policy.requestsPerMinute];
      assert b in multiset(times);
      TimesLieInWindow(rows, policy.sourceId, now - MINUTE, now, b);
    }
  }

  lemma {:induction false} TimesLieInWindow(rows: seq<Reservation>, source: string, after: int, upTo: int, t: int)
    requires t in TimesIn(rows, source, after, upTo)
    ensures after < t <= upTo
  {
    var last, init := rows[|rows| - 1], rows[..|rows| - 1];
    if t in TimesIn(init, source, after, upTo) {
      TimesLieInWindow(init, source, after, upTo, t);
    }
  }

  // Under any clock, every reservation respects the limit it was granted under at its own instant.
  lemma {:induction false} EveryGrantWithinLimit(check: RequestCheck, calls: seq<Call>, j: nat)
    requires j < |LogOf(check, calls)|
    ensures WithinLimit(LogOf(check, calls), j)
  {
    var init, call := calls[..|calls| - 1], calls[|calls| - 1];
    var before, log := LogOf(check, init), LogOf(check, calls);
    hide Decide;
    if j < |before| {
      EveryGrantWithinLimit(check, init, j);
      assert log[..j + 1] == before[..j + 1];
    } else {
      GrantedWithinLimit(check, before, call);
    }
  }

  lemma {:induction false} LogFollowsClock(check: RequestCheck, calls: seq<Call>, i: nat) returns (k: nat)
    requires i < |LogOf(check, calls)|
    ensures k < |calls| && LogOf(check, calls)[i].reservation.reservedAt == calls[k].now
    ensures i < |LogOf(check, calls[..|calls| - 1])| ==> k < |calls| - 1
    ensures i == |LogOf(check, calls[..|calls| - 1])| ==> k == |calls| - 1
  {
    hide Decide;
    var init, call := calls[..|calls| - 1], calls[|calls| - 1];
    if i < |LogOf(check, init)| {
      k := LogFollowsClock(check, init, i);
    } else {
      k := |calls| - 1;
      GrantedIs(check, Rows(LogOf(check, init)), call.snapshot, call.request, call.receipts, call.now, call.id);
    }
  }

  lemma {:induction false} LogIsSteady(check: RequestCheck, calls: seq<Call>, i: nat, j: nat)
    requires Steady(Readings(calls)) && i < j < |LogOf(check, calls)|
    ensures var s, t := LogOf(check, calls)[i].reservation.reservedAt, LogOf(check, calls)[j].reservation.reservedAt;
      s <= t || s - t >= MINUTE
  {
    hide Extend;
    var init := calls[..|calls| - 1];
    ExtendKeeps(check, LogOf(check, init), calls[|calls| - 1]);
    if j < |LogOf(check, init)| {
      assert Steady(Readings(init)) by {
        assert forall k :: 0 <= k < |init| ==> Readings(init)[k] == Readings(calls)[k];
      }
      LogIsSteady(check, init, i, j);
    } else {
      var k := LogFollowsClock(check, calls, i);
      var m := LogFollowsClock(check, calls, j);
      assert Readings(calls)[k] == calls[k].now && Readings(calls)[m] == calls[m].now;
    }
  }

  lemma ExtendKeeps(check: RequestCheck, log: seq<Entry>, call: Call)
    ensures log <= Extend(check, log, call) && |Extend(check, log, call)| <= |log| + 1
  {
    hide Decide;
  }

  lemma {:induction false} NothingInWindow(rows: seq<Reservation>, k: nat, source: string, after: int, upTo: int)
    requires k <= |rows|
    requires forall i :: k <= i < |rows| ==> !InWindow(rows[i], source, after, upTo)
    ensures TimesIn(rows, source, after, upTo) == TimesIn(rows[..k], source, after, upTo)
  {
    if k == |rows| {
      assert rows[..k] == rows;
    } else {
      NothingInWindow(rows[..|rows| - 1], k, source, after, upTo);
      assert rows[..|rows| - 1][..k] == rows[..k];
    }
  }

  lemma {:induction false} WiderWindow(rows: seq<Reservation>, source: string, after: int, upTo: int,
      after': int, upTo': int)
    requires forall i :: 0 <= i < |rows| && InWindow(rows[i], source, after, upTo) ==>
        InWindow(rows[i], source, after', upTo')
    ensures |TimesIn(rows, source, after, upTo)| <= |TimesIn(rows, source, after', upTo')|
  {
    if rows != [] {
      WiderWindow(rows[..|rows| - 1], source, after, upTo, after', upTo');
    }
  }

  // Entry `j` is the last reservation of the source in the minute up to and including `t`.
  ghost predicate IsLastIn(log: seq<Entry>, source: string, t: int, j: nat) {
    && j < |log| && InWindow(log[j].reservation, source, t - MINUTE, t)
    && forall k :: j < k < |log| ==> !InWindow(log[k].reservation, source, t - MINUTE, t)
  }

  // Every minute (t - 60s, t] holds, for each source, at most as many reservations as the policy
  // behind the last of them allows.
  ghost predicate BoundHolds(check: RequestCheck, calls: seq<Call>) {
    var log := LogOf(check, calls);
    forall source, t, j: nat :: IsLastIn(log, source, t, j) ==>
        |TimesIn(Rows(log), source, t - MINUTE, t)| <= log[j].limit
  }

  // The bound holds in every run in which no clock reading falls behind an earlier one by less than
  // a minute.
  lemma SlidingWindowBound(check: RequestCheck, calls: seq<Call>)
    requires Steady(Readings(calls))
    ensures BoundHolds(check, calls)
    ensures var rows := Rows(LogOf(check, calls));
            forall source, t, j: nat ::
              j in RecentAt(rows, source, t) && (forall k :: k in RecentAt(rows, source, t) ==> k <= j) ==>
                |RecentAt(rows, source, t)| <= LogOf(check, calls)[j].limit
  {
    BoundByCounting(check, calls);
    hide LogOf, TimesIn, Steady, InWindow;
    var log := LogOf(check, calls);
    forall source, t, j: nat | IsLastIn(log, source, t, j)
      ensures |TimesIn(Rows(log), source, t - MINUTE, t)| <= log[j].limit
    {
      BoundAt(check, calls, source, t, j);
    }
  }

  lemma BoundByCounting(check: RequestCheck, calls: seq<Call>)
    requires Steady(Readings(calls))
    ensures var rows := Rows(LogOf(check, calls));
            forall source, t, j: nat ::
              j in RecentAt(rows, source, t) && (forall k :: k in RecentAt(rows, source, t) ==> k <= j) ==>
                |RecentAt(rows, source, t)| <= LogOf(check, calls)[j].limit
  {
    hide LogOf, TimesIn, Steady;
    var log := LogOf(check, calls);
    var rows := Rows(log);
    forall source, t, j: nat
      | j in RecentAt(rows, source, t) && (forall k :: k in RecentAt(rows, source, t) ==> k <= j)
      ensures |RecentAt(rows, source, t)| <= log[j].limit
    {
      forall k | j < k < |log| ensures !InWindow(log[k].reservation, source, t - MINUTE, t) {
        assert InWindow(log[k].reservation, source, t - MINUTE, t) ==> k in RecentAt(rows, source, t);
      }
      BoundAt(check, calls, source, t, j);
      RecentAreCounted(rows, source, t);
    }
  }

  lemma BoundAt(check: RequestCheck, calls: seq<Call>, source: string, t: int, j: nat)
    requires Steady(Readings(calls)) && IsLastIn(LogOf(check, calls), source, t, j)
    ensures |TimesIn(Rows(LogOf(check, calls)), source, t - MINUTE, t)| <= LogOf(check, calls)[j].limit
  {
    hide LogOf, TimesIn, Steady;
    var log := LogOf(check, calls);
    var rows, at := Rows(log), log[j].reservation.reservedAt;
    NothingInWindow(rows, j + 1, source, t - MINUTE, t);
    assert rows[..j + 1] == Rows(log[..j + 1]);
    EveryGrantWithinLimit(check, calls, j);
    forall i | 0 <= i < j + 1 && InWindow(rows[i], source, t - MINUTE, t)
      ensures InWindow(rows[i], source, at - MINUTE, at)
    {
      if i < j {
        LogIsSteady(check, calls, i, j);
      }
    }
    WiderWindow(rows[..j + 1], source, t - MINUTE, t, at - MINUTE, at);
  }

  // ---------------------------------------------------------------- unsteady clocks

  // The policy allows first requests for the address at all.
  ghost predicate Permits(check: RequestCheck, snapshot: Snapshot, url: string, httpMethod: string) {
    && snapshot.policy.approved && snapshot.policy.maxAttempts >= 1
    && check(snapshot.policy, url, httpMethod)
  }

  // A first request under the current policy, which only time and other requests can hold back.
  function FirstCall(snapshot: Snapshot, url: string, httpMethod: string, key: string, now: int, id: string): Call {
    Call(snapshot, Request(snapshot.version, snapshot.hash, key, url, httpMethod, 1), [], now, id)
  }

  // A call under a policy version that is not the current one: it is refused.
  function StaleCall(snapshot: Snapshot, url: string, httpMethod: string, now: int, id: string): Call {
    Call(snapshot, Request(snapshot.version + 1, snapshot.hash, "", url, httpMethod, 1), [], now, id)
  }

  function EntryOf(call: Call): Entry {
    Entry(NewReservation(call.snapshot, call.request, call.now, call.id), call.snapshot.policy.requestsPerMinute)
  }

  lemma FirstCallIsGranted(check: RequestCheck, log: seq<Entry>, snapshot: Snapshot, url: string, httpMethod: string,
                           key: string, now: int, id: string)
    requires Permits(check, snapshot, url, httpMethod)
    requires forall e :: e in log ==> e.reservation.key != key
    requires |TimesIn(Rows(log), snapshot.policy.sourceId, now - MINUTE, now)| < snapshot.policy.requestsPerMinute
    ensures var call := FirstCall(snapshot, url, httpMethod, key, now, id);
      Extend(check, log, call) == log + [EntryOf(call)]
  {
    hide TimesIn, Decide;
    var call := FirstCall(snapshot, url, httpMethod, key, now, id);
    forall i | 0 <= i < |log| ensures Rows(log)[i].key != key {
      assert log[i] in log;
    }
    RecentAreCounted(Rows(log), snapshot.policy.sourceId, now);
    GrantedIffDue(check, Rows(log), snapshot, call.request, [], now, id);
    GrantedIs(check, Rows(log), snapshot, call.request, [], now, id);
  }

  lemma StaleCallIsRefused(check: RequestCheck, log: seq<Entry>, snapshot: Snapshot, url: string, httpMethod: string,
                           now: int, id: string)
    ensures Extend(check, log, StaleCall(snapshot, url, httpMethod, now, id)) == log
  {
    var call := StaleCall(snapshot, url, httpMethod, now, id);
    hide Decide;
    GrantedIffDue(check, Rows(log), snapshot, call.request, [], now, id);
  }

  // A run with the given readings in which only the calls at `i` and `j` are made in earnest.
  function TwoCalls(snapshot: Snapshot, url: string, httpMethod: string, times: seq<int>, i: nat, j: nat): seq<Call> {
    seq(|times|, n requires 0 <= n < |times| =>
      if n == i then FirstCall(snapshot, url, httpMethod, "", times[n], "")
      else if n == j then FirstCall(snapshot, url, httpMethod, "x", times[n], "x")
      else StaleCall(snapshot, url, httpMethod, times[n], ""))
  }

  lemma {:induction false} LogOfTwoCalls(check: RequestCheck, snapshot: Snapshot, url: string, httpMethod: string,
                                         times: seq<int>, i: nat, j: nat, n: nat)
    requires Permits(check, snapshot, url, httpMethod) && snapshot.policy.requestsPerMinute == 1
    requires i < j < |times| && n <= |times| && times[i] > times[j]
    ensures var calls := TwoCalls(snapshot, url, httpMethod, times, i, j);
      LogOf(check, calls[..n]) == (if n > i then [EntryOf(calls[i])] else [])
                                  + (if n > j then [EntryOf(calls[j])] else [])
  {
    hide Extend, Permits, TimesIn;
    var calls := TwoCalls(snapshot, url, httpMethod, times, i, j);
    if n > 0 {
      LogOfTwoCalls(check, snapshot, url, httpMethod, times, i, j, n - 1);
      assert calls[..n][..n - 1] == calls[..n - 1];
      var log, source := LogOf(check, calls[..n - 1]), snapshot.policy.sourceId;
      if n - 1 == i {
        NoRowsNoTimes(source, times[i] - MINUTE, times[i]);
        FirstCallIsGranted(check, log, snapshot, url, httpMethod, "", times[i], "");
      } else if n - 1 == j {
        assert log == [EntryOf(calls[i])];
        OneRowTimes(EntryOf(calls[i]), source, times[j] - MINUTE, times[j]);
        FirstCallIsGranted(check, log, snapshot, url, httpMethod, "x", times[j], "x");
      } else {
        StaleCallIsRefused(check, log, snapshot, url, httpMethod, times[n - 1], "");
      }
    }
  }

  lemma NoRowsNoTimes(source: string, after: int, upTo: int)
    ensures TimesIn(Rows([]), source, after, upTo) == []
  {
  }

  lemma OneRowTimes(e: Entry, source: string, after: int, upTo: int)
    requires !InWindow(e.reservation, source, after, upTo)
    ensures TimesIn(Rows([e]), source, after, upTo) == []
  {
    assert Rows([e]) == [e.reservation] && [e.reservation][..0] == [];
  }

  lemma {:induction false} AllInWindow(rows: seq<Reservation>, source: string, after: int, upTo: int)
    requires forall i :: 0 <= i < |rows| ==> InWindow(rows[i], source, after, upTo)
    ensures |TimesIn(rows, source, after, upTo)| == |rows|
  {
    if rows != [] {
      AllInWindow(rows[..|rows| - 1], source, after, upTo);
    }
  }

  lemma UnsteadyClockBreaksBound(check: RequestCheck, snapshot: Snapshot, url: string, httpMethod: string,
                                 times: seq<int>, i: nat, j: nat)
    requires Permits(check, snapshot, url, httpMethod) && snapshot.policy.requestsPerMinute == 1
    requires i < j < |times| && 0 < times[i] - times[j] < MINUTE
    ensures Readings(TwoCalls(snapshot, url, httpMethod, times, i, j)) == times
    ensures !BoundHolds(check, TwoCalls(snapshot, url, httpMethod, times, i, j))
  {
    hide Permits, TimesIn, LogOf;
    var calls, source, t := TwoCalls(snapshot, url, httpMethod, times, i, j), snapshot.policy.sourceId, times[i];
    LogOfTwoCalls(check, snapshot, url, httpMethod, times, i, j, |times|);
    assert calls[..|times|] == calls;
    var log := LogOf(check, calls);
    assert log == [EntryOf(calls[i]), EntryOf(calls[j])];
    assert IsLastIn(log, source, t, 1);
    AllInWindow(Rows(log), source, t - MINUTE, t);
  }

  // The exact clock condition: for any check that lets some request through under a limit of one,
  // the bound holds in all runs with the given clock readings exactly when the readings are steady.
  lemma BoundIffSteady(check: RequestCheck, snapshot: Snapshot, url: string, httpMethod: string, times: seq<int>)
    requires Permits(check, snapshot, url, httpMethod) && snapshot.policy.requestsPerMinute == 1
    ensures Steady(times) <==> forall calls :: Readings(calls) == times ==> BoundHolds(check, calls)
  {
    hide BoundHolds, Permits, Readings, TwoCalls;
    if Steady(times) {
      forall calls | Readings(calls) == times ensures BoundHolds(check, calls) {
        SlidingWindowBound(check, calls);
      }
    } else {
      var i, j :| 0 <= i < j < |times| && 0 < times[i] - times[j] < MINUTE;
      UnsteadyClockBreaksBound(check, snapshot, url, httpMethod, times, i, j);
    }
  }

  // As many requests as the limit allows at `t`, and one more after the clock fell by `d`.
  function Burst(snapshot: Snapshot, url: string, httpMethod: string, keys: seq<string>, t: int, d: int): seq<Call> {
    seq(|keys|, n requires 0 <= n < |keys| =>
      FirstCall(snapshot, url, httpMethod, keys[n], if n < |keys| - 1 then t else t - d, keys[n]))
  }

  function EntriesOf(calls: seq<Call>): seq<Entry> {
    seq(|calls|, n requires 0 <= n < |calls| => EntryOf(calls[n]))
  }

  lemma {:induction false} BurstIsGranted(check: RequestCheck, snapshot: Snapshot, url: string, httpMethod: string,
                                          keys: seq<string>, t: int, d: int, n: nat)
    requires Permits(check, snapshot, url, httpMethod) && snapshot.policy.requestsPerMinute == |keys| - 1
    requires NoDuplicates(keys) && 0 < d && n <= |keys|
    ensures var calls := Burst(snapshot, url, httpMethod, keys, t, d);
      LogOf(check, calls[..n]) == EntriesOf(calls[..n])
  {
    hide Extend, Permits, TimesIn;
    var calls := Burst(snapshot, url, httpMethod, keys, t, d);
    if n > 0 {
      BurstIsGranted(check, snapshot, url, httpMethod, keys, t, d, n - 1);
      assert calls[..n][..n - 1] == calls[..n - 1];
      assert EntriesOf(calls[..n]) == EntriesOf(calls[..n - 1]) + [EntryOf(calls[n - 1])];
      var log, now := LogOf(check, calls[..n - 1]), calls[n - 1].now;
      TimesNotMore(Rows(log), snapshot.policy.sourceId, now - MINUTE, now);
      if n == |keys| {
        NothingInWindow(Rows(log), 0, snapshot.policy.sourceId, now - MINUTE, now);
        TimesNotMore(Rows(log)[..0], snapshot.policy.sourceId, now - MINUTE, now);
      }
      forall e | e in log ensures e.reservation.key != keys[n - 1] {
        var i :| 0 <= i < n - 1 && log[i] == e;
        assert keys[i] != keys[n - 1];
      }
      FirstCallIsGranted(check, log, snapshot, url, httpMethod, keys[n - 1], now, keys[n - 1]);
    }
  }

  lemma {:induction false} TimesNotMore(rows: seq<Reservation>, source: string, after: int, upTo: int)
    ensures |TimesIn(rows, source, after, upTo)| <= |rows|
  {
    if rows != [] {
      TimesNotMore(rows[..|rows| - 1], source, after, upTo);
    }
  }

  // Whatever the limit, a clock that falls by any part of a minute lets one reservation too many
  // into the same minute.
  lemma FallingClockBreaksBound(check: RequestCheck, snapshot: Snapshot, url: string, httpMethod: string,
                                keys: seq<string>, t: int, d: int)
    requires Permits(check, snapshot, url, httpMethod) && snapshot.policy.requestsPerMinute == |keys| - 1
    requires NoDuplicates(keys) && 0 < d < MINUTE
    ensures var log := LogOf(check, Burst(snapshot, url, httpMethod, keys, t, d));
      && |log| == |keys| && (forall e :: e in log ==> e.limit == |keys| - 1)
      && |TimesIn(Rows(log), snapshot.policy.sourceId, t - MINUTE, t)| == |keys|
  {
    hide Permits, TimesIn, LogOf;
    var calls := Burst(snapshot, url, httpMethod, keys, t, d);
    BurstIsGranted(check, snapshot, url, httpMethod, keys, t, d, |keys|);
    assert calls[..|keys|] == calls;
    var log := LogOf(check, calls);
    AllInWindow(Rows(log), snapshot.policy.sourceId, t - MINUTE, t);
  }
}
