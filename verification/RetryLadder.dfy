// Runs in which receipts come only from executed reservations: the attempts for a key climb a
// ladder whose rungs are at least as far apart as the doubling backoff demands.
module RetryLadder {
  import opened Outcomes
  import opened Finite
  import opened Ordering
  import opened Scheduler

  // A reservation and the policy it was granted under.
  datatype Grant = Grant(row: Reservation, policy: Policy)

  datatype State = State(grants: seq<Grant>, receipts: seq<Receipt>)

  datatype Event =
    | Reserve(snapshot: Snapshot, request: Request, receipts: seq<Receipt>, now: int, id: string)
    | Respond(of: Reservation, receipt: Receipt)

  function Rows(grants: seq<Grant>): seq<Reservation> {
    seq(|grants|, i requires 0 <= i < |grants| => grants[i].row)
  }

  // The receipt of a response to the reservation; a response does not predate its request.
  ghost predicate Answers(receipt: Receipt, row: Reservation) {
    && receipt.sourceId == row.sourceId && receipt.key == Some(row.key) && receipt.url == row.url
    && receipt.attempt == row.attempt && receipt.retrievedAt >= row.reservedAt
  }

  // Reserving may see any of the stored receipts, in any order.
  ghost predicate Enabled(s: State, e: Event) {
    match e
    case Reserve(_, _, receipts, _, _) => forall receipt :: receipt in receipts ==> receipt in s.receipts
    case Respond(of, receipt) => of in Rows(s.grants) && Answers(receipt, of)
  }

  function Next(check: RequestCheck, s: State, e: Event): State {
    match e
    case Reserve(snapshot, request, receipts, now, id) =>
      var decision := Decide(check, Rows(s.grants), snapshot, request, receipts, now, id);
      if decision.Allowed? then s.(grants := s.grants + [Grant(decision.reservation, snapshot.policy)]) else s
    case Respond(_, receipt) => s.(receipts := s.receipts + [receipt])
  }

  function Reached(check: RequestCheck, events: seq<Event>): State {
    if events == [] then State([], []) else Next(check, Reached(check, events[..|events| - 1]), events[|events| - 1])
  }

  ghost predicate IsRun(check: RequestCheck, events: seq<Event>) {
    forall i :: 0 <= i < |events| ==> Enabled(Reached(check, events[..i]), events[i])
  }

  lemma RunPrefix(check: RequestCheck, events: seq<Event>)
    requires IsRun(check, events) && events != []
    ensures IsRun(check, events[..|events| - 1])
    ensures Enabled(Reached(check, events[..|events| - 1]), events[|events| - 1])
  {
    var init := events[..|events| - 1];
    forall i | 0 <= i < |init| ensures Enabled(Reached(check, init[..i]), init[i]) {
      assert init[..i] == events[..i];
    }
  }

  // A run of the store itself: the rows of the grants are the rows it holds.
  method ReserveAlong(store: SourceSchedulerStore, events: seq<Event>)
    requires store.rows == []
    modifies store
    ensures store.rows == Rows(Reached(store.check, events).grants)
  {
    assert events[..0] == [];
    for i := 0 to |events|
      invariant store.rows == Rows(Reached(store.check, events[..i]).grants)
    {
      assert events[..i + 1][..i] == events[..i];
      RowsAfter(store.check, Reached(store.check, events[..i]), events[i]);
      hide Decide, Next, Rows;
      match events[i] {
        case Reserve(snapshot, request, receipts, now, id) =>
          var _ := store.Reserve(snapshot, request, receipts, now, id);
        case Respond(_, _) =>
      }
    }
    assert events[..|events|] == events;
  }

  // A grant remembers the policy it was made under, and a response is stored as it came.
  lemma RowsAfter(check: RequestCheck, s: State, e: Event)
    ensures
      var t, rows := Next(check, s, e), Rows(s.grants);
      match e
      case Reserve(snapshot, request, receipts, now, id) =>
        && var decision := Decide(check, rows, snapshot, request, receipts, now, id);
        && t.receipts == s.receipts && Rows(t.grants) == rows + Granted(decision)
        && t.grants == s.grants + (if decision.Allowed? then [Grant(decision.reservation, snapshot.policy)] else [])
      case Respond(_, receipt) => t.grants == s.grants && t.receipts == s.receipts + [receipt]
  {
    hide Decide;
  }

  // ---------------------------------------------------------------- one rung

  // Grant `j` retries grant `i`, whose response drew a retryable status, after the backoff.
  ghost predicate Retries(s: State, i: nat, receipt: Receipt, j: nat) {
    && i < j < |s.grants| && receipt in s.receipts
    && var first, second := s.grants[i].row, s.grants[j].row;
    && first.sourceId == second.sourceId && first.key == second.key && first.url == second.url
    && second.attempt == first.attempt + 1
    && Answers(receipt, first)
    && receipt.statusCode in s.grants[j].policy.retryStatusCodes
    && WaitIsOver(s.grants[j].policy, second.attempt, receipt.retrievedAt, second.reservedAt)
  }

  ghost predicate HasRung(s: State, j: nat) {
    exists i: nat, receipt :: Retries(s, i, receipt, j)
  }

  ghost predicate Answered(s: State, receipt: Receipt) {
    exists i: nat :: i < |s.grants| && Answers(receipt, s.grants[i].row)
  }

  ghost predicate Distinct(a: Reservation, b: Reservation) {
    a.sourceId != b.sourceId || a.key != b.key || a.attempt != b.attempt
  }

  ghost predicate AllAnswered(s: State) {
    forall receipt :: receipt in s.receipts ==> Answered(s, receipt)
  }

  // A first attempt stands on its own; any other has a rung below it.
  ghost predicate Based(s: State, j: nat)
    requires j < |s.grants|
  {
    s.grants[j].row.attempt == 1 || HasRung(s, j)
  }

  ghost predicate AllRungs(s: State) {
    forall j: nat :: j < |s.grants| ==> Based(s, j)
  }

  ghost predicate AllDistinct(s: State) {
    forall i, j :: 0 <= i < j < |s.grants| ==> Distinct(s.grants[i].row, s.grants[j].row)
  }

  ghost predicate Inv(s: State) {
    AllAnswered(s) && AllRungs(s) && AllDistinct(s)
  }

  ghost predicate Grows(s: State, t: State) {
    && |s.grants| <= |t.grants| && (forall i :: 0 <= i < |s.grants| ==> t.grants[i] == s.grants[i])
    && (forall receipt :: receipt in s.receipts ==> receipt in t.receipts)
  }

  lemma GrowthKeepsFacts(s: State, t: State)
    requires Grows(s, t)
    ensures forall j: nat :: j < |s.grants| && Based(s, j) ==> Based(t, j)
    ensures forall receipt :: Answered(s, receipt) ==> Answered(t, receipt)
  {
    forall j: nat | j < |s.grants| && Based(s, j) && s.grants[j].row.attempt != 1 ensures HasRung(t, j) {
      var i: nat, receipt :| Retries(s, i, receipt, j);
      hide WaitIsOver, Answers;
      assert Retries(t, i, receipt, j);
    }
    forall receipt | Answered(s, receipt) ensures Answered(t, receipt) {
      var i: nat :| i < |s.grants| && Answers(receipt, s.grants[i].row);
      assert t.grants[i] == s.grants[i];
    }
  }

  // What the latest matching receipt is: one of the matching ones.
  lemma LatestIsMatching(matching: seq<Receipt>)
    ensures Latest(matching).None? <==> matching == []
    ensures Latest(matching).Some? ==> Latest(matching).value in matching
  {
    ReceiptLeIsTotalPreorder();
    LastIsGreatest(ReceiptLe, matching);
    hide ReceiptLe, Sort;
  }

  // A retry that is granted has a rung below it.
  lemma GrantedRetryHasRung(check: RequestCheck, s: State, e: Event)
    requires Inv(s) && e.Reserve? && Enabled(s, e) && e.request.attempt > 1
    requires Decide(check, Rows(s.grants), e.snapshot, e.request, e.receipts, e.now, e.id).Allowed?
    ensures HasRung(Next(check, s, e), |s.grants|)
  {
    hide Matching, Latest, RateLimitUntil, Precheck, Duplicate, Power2, WaitIsOver;
    var policy, t := e.snapshot.policy, Next(check, s, e);
    var matching := Matching(policy, e.request, e.now, e.receipts);
    LatestIsMatching(matching);
    var latest := Latest(matching).value;
    assert latest in s.receipts && Answered(s, latest);
    var i: nat :| i < |s.grants| && Answers(latest, s.grants[i].row);
    WaitIsOverMeans(policy, e.request.attempt, latest.retrievedAt, e.now);
    assert Retries(t, i, latest, |s.grants|);
  }

  lemma GrantIsDistinct(check: RequestCheck, s: State, e: Event, i: nat)
    requires e.Reserve? && i < |s.grants|
    requires Decide(check, Rows(s.grants), e.snapshot, e.request, e.receipts, e.now, e.id).Allowed?
    ensures Distinct(s.grants[i].row, NewReservation(e.snapshot, e.request, e.now, e.id))
  {
    hide BackoffUntil, RateLimitUntil, Precheck;
    assert Rows(s.grants)[i] in Rows(s.grants);
  }

  lemma InvKept(check: RequestCheck, s: State, e: Event)
    requires Inv(s) && Enabled(s, e)
    ensures Inv(Next(check, s, e))
  {
    var t := Next(check, s, e);
    match e
    case Respond(of, receipt) =>
      var i :| 0 <= i < |s.grants| && Rows(s.grants)[i] == of;
      ResponseKeepsInv(s, t, receipt, i);
    case Reserve(snapshot, request, receipts, now, id) =>
      if Decide(check, Rows(s.grants), snapshot, request, receipts, now, id).Allowed? {
        GrantKeepsInv(check, s, e);
      } else {
        hide *;
        assert t == s by { RefusalKeepsState(check, s, e); }
      }
  }

  lemma RefusalKeepsState(check: RequestCheck, s: State, e: Event)
    requires e.Reserve?
    requires !Decide(check, Rows(s.grants), e.snapshot, e.request, e.receipts, e.now, e.id).Allowed?
    ensures Next(check, s, e) == s
  {
    hide Decide;
  }

  lemma ResponseKeepsInv(s: State, t: State, receipt: Receipt, i: nat)
    requires Inv(s) && t == s.(receipts := s.receipts + [receipt])
    requires i < |s.grants| && Answers(receipt, s.grants[i].row)
    ensures Inv(t)
  {
    GrowthKeepsFacts(s, t);
    hide Based, Answers, Distinct;
    assert Answers(receipt, t.grants[i].row);
    hide Answered;
  }

  lemma GrantKeepsInv(check: RequestCheck, s: State, e: Event)
    requires Inv(s) && e.Reserve? && Enabled(s, e)
    requires Decide(check, Rows(s.grants), e.snapshot, e.request, e.receipts, e.now, e.id).Allowed?
    ensures Inv(Next(check, s, e))
  {
    var t, n := Next(check, s, e), |s.grants|;
    GrowthKeepsFacts(s, t);
    GrantedIs(check, Rows(s.grants), e.snapshot, e.request, e.receipts, e.now, e.id);
    assert t.grants[n].row == NewReservation(e.snapshot, e.request, e.now, e.id);
    if e.request.attempt > 1 {
      GrantedRetryHasRung(check, s, e);
    }
    forall i: nat | i < n ensures Distinct(s.grants[i].row, t.grants[n].row) {
      GrantIsDistinct(check, s, e, i);
    }
    assert Based(t, n);
    hide Decide, Distinct, Based, Answered, Enabled;
  }

  lemma {:induction false} InvHolds(check: RequestCheck, events: seq<Event>)
    requires IsRun(check, events)
    ensures Inv(Reached(check, events))
  {
    if events != [] {
      RunPrefix(check, events);
      InvHolds(check, events[..|events| - 1]);
      InvKept(check, Reached(check, events[..|events| - 1]), events[|events| - 1]);
    }
  }

  // ---------------------------------------------------------------- the ladder

  // Grants for attempts 1, 2, ... of one key at one URL, each retrying the one before on account
  // of the response between them.
  ghost predicate Ladder(s: State, rungs: seq<nat>, responses: seq<Receipt>) {
    && |rungs| == |responses| + 1
    && rungs[0] < |s.grants| && s.grants[rungs[0]].row.attempt == 1
    && forall k: nat :: k < |responses| ==> Climbs(s, rungs, responses, k)
  }

  ghost predicate Climbs(s: State, rungs: seq<nat>, responses: seq<Receipt>, k: nat)
    requires |rungs| == |responses| + 1 && k < |responses|
  {
    Retries(s, rungs[k], responses[k], rungs[k + 1])
  }

  lemma {:induction false} LadderBelow(s: State, j: nat) returns (rungs: seq<nat>, responses: seq<Receipt>)
    requires Inv(s) && j < |s.grants|
    ensures Ladder(s, rungs, responses) && rungs[|rungs| - 1] == j && |rungs| == s.grants[j].row.attempt
    decreases j
  {
    assert Based(s, j);
    if s.grants[j].row.attempt == 1 {
      rungs, responses := [j], [];
    } else {
      var i: nat, receipt :| Retries(s, i, receipt, j);
      hide Inv, Answers, WaitIsOver, HasRung;
      var lower, earlier := LadderBelow(s, i);
      rungs, responses := lower + [j], earlier + [receipt];
      forall k: nat | k < |responses| ensures Climbs(s, rungs, responses, k) {
        if k < |earlier| {
          assert Climbs(s, lower, earlier, k);
        }
      }
    }
  }

  ghost predicate SameKey(a: Reservation, b: Reservation) {
    a.sourceId == b.sourceId && a.key == b.key
  }

  // Every grant for the same key was made under a policy that backs off by at least `b`.
  ghost predicate BackedOff(s: State, row: Reservation, b: nat) {
    forall i: nat :: i < |s.grants| && SameKey(s.grants[i].row, row) ==> s.grants[i].policy.backoff >= b
  }

  lemma {:induction false} KeyUpTheLadder(s: State, rungs: seq<nat>, responses: seq<Receipt>, k: nat)
    requires Ladder(s, rungs, responses) && k < |rungs|
    requires rungs[|rungs| - 1] < |s.grants| && rungs[k] < |s.grants|
    ensures SameKey(s.grants[rungs[k]].row, s.grants[rungs[|rungs| - 1]].row)
    decreases |rungs| - k
  {
    if k + 1 < |rungs| {
      assert Climbs(s, rungs, responses, k);
      KeyUpTheLadder(s, rungs, responses, k + 1);
    }
  }

  lemma {:induction false} LadderTakesTime(s: State, rungs: seq<nat>, responses: seq<Receipt>, b: nat, k: nat)
    requires Ladder(s, rungs, responses) && 0 < k < |rungs|
    requires rungs[|rungs| - 1] < |s.grants| && BackedOff(s, s.grants[rungs[|rungs| - 1]].row, b)
    ensures rungs[k] < |s.grants| && s.grants[rungs[k]].row.attempt == k + 1
    ensures s.grants[rungs[k]].row.reservedAt >= responses[0].retrievedAt + b * (Power2(k) - 1)
  {
    hide Inv, WaitIsOver, Power2;
    assert Climbs(s, rungs, responses, k - 1);
    KeyUpTheLadder(s, rungs, responses, k);
    var policy := s.grants[rungs[k]].policy;
    WaitIsOverMeans(policy, k + 1, responses[k - 1].retrievedAt, s.grants[rungs[k]].row.reservedAt);
    if k > 1 {
      LadderTakesTime(s, rungs, responses, b, k - 1);
    }
    WaitsAddUp(b, policy.backoff, k);
  }

  lemma WaitsAddUp(b: nat, backoff: nat, k: nat)
    requires k > 0 && backoff >= b
    ensures Power2(0) == 1 && b * (Power2(k - 1) - 1) + backoff * Power2(k - 1) >= b * (Power2(k) - 1)
  {
    var p := Power2(k - 1);
    assert Power2(k) == 2 * p;
    Products(b, backoff, p);
  }

  // The waits of a ladder are the first one, twice it, and so on.
  lemma {:induction false} SumOfWaits(b: nat, n: nat)
    ensures Sum(x => x, Waits(b, n)) == b * (Power2(n) - 1)
  {
    if n > 0 {
      SumOfWaits(b, n - 1);
      SumLast(x => x, Waits(b, n));
      assert Waits(b, n)[..n - 1] == Waits(b, n - 1);
      assert Power2(n) == 2 * Power2(n - 1);
      OneMoreWait(b, Power2(n - 1));
    }
  }

  lemma OneMoreWait(b: nat, p: nat)
    ensures b * (p - 1) + b * p == b * (2 * p - 1)
  {
  }

  lemma Products(b: nat, backoff: nat, p: nat)
    requires backoff >= b
    ensures b * (p - 1) + backoff * p >= b * (2 * p - 1)
  {
    assert backoff * p >= b * p;
    assert b * (p - 1) + b * p == b * (2 * p - 1);
  }

  // In every run, a reservation for attempt m of a key stands on reservations for attempts
  // 1 .. m - 1 of that key at the same URL, each of which drew a retryable status, and waits for the
  // last response as long as its own policy demands; and it is made no earlier after the first
  // response than m - 1 waits, the first of the least backoff and each twice the one before, add up to.
  lemma RetryLadder(check: RequestCheck, events: seq<Event>, j: nat, b: nat)
    returns (rungs: seq<nat>, responses: seq<Receipt>)
    requires IsRun(check, events)
    requires var s := Reached(check, events);
             && j < |s.grants|
             && BackedOff(s, s.grants[j].row, b)
    ensures
      var s := Reached(check, events);
      var m := s.grants[j].row.attempt;
      && Ladder(s, rungs, responses) && |rungs| == m && rungs[m - 1] == j
      && (m > 1 ==>
            && WaitIsOver(s.grants[j].policy, m, responses[m - 2].retrievedAt, s.grants[j].row.reservedAt)
            && exists waits :: Doubling(waits, b) && |waits| == m - 1
                               && s.grants[j].row.reservedAt >= responses[0].retrievedAt + Sum(x => x, waits))
  {
    hide Reached, IsRun, Inv, BackedOff, Climbs, Power2, WaitIsOver, Doubling, Waits;
    var s := Reached(check, events);
    InvHolds(check, events);
    rungs, responses := LadderBelow(s, j);
    if |rungs| > 1 {
      var m := |rungs|;
      LadderTakesTime(s, rungs, responses, b, m - 1);
      LastRungWaits(s, rungs, responses);
      WaitsDouble(b, m - 1);
      SumOfWaits(b, m - 1);
      WaitsLength(b, m - 1);
    }
  }

  lemma WaitsLength(b: nat, n: nat)
    ensures |Waits(b, n)| == n
  {
  }

  lemma LastRungWaits(s: State, rungs: seq<nat>, responses: seq<Receipt>)
    requires Ladder(s, rungs, responses) && |rungs| > 1
    requires rungs[|rungs| - 1] < |s.grants| && s.grants[rungs[|rungs| - 1]].row.attempt == |rungs|
    ensures var m, last := |rungs|, s.grants[rungs[|rungs| - 1]];
      WaitIsOver(last.policy, m, responses[m - 2].retrievedAt, last.row.reservedAt)
  {
    hide WaitIsOver, Answers;
    assert Climbs(s, rungs, responses, |responses| - 1);
  }

  // No attempt of a key is ever reserved twice.
  lemma AttemptsAreUnique(check: RequestCheck, events: seq<Event>, i: nat, j: nat)
    requires IsRun(check, events)
    requires var s := Reached(check, events); i < j < |s.grants| && SameKey(s.grants[i].row, s.grants[j].row)
    ensures Reached(check, events).grants[i].row.attempt != Reached(check, events).grants[j].row.attempt
  {
    InvHolds(check, events);
    assert Distinct(Reached(check, events).grants[i].row, Reached(check, events).grants[j].row);
  }
}
