// Automatic acquisition: plans, runs and transport executions in their stores, and the steps a
// worker takes between them (src/ballotproof/source_automation.py, source_transport.py).
module Acquisition {
  import opened Outcomes
  import opened Finite
  import opened Ordering
  import opened Scheduler

  // The next run is stored as a text, which keeps the offset from UTC along with the instant.
  datatype Plan = Plan(
    planId: string,
    sourceId: string,
    policyVersion: int,
    snapshotHash: string,
    url: string,
    httpMethod: string,
    interval: Positive,
    nextRunAt: int,
    offset: int,
    enabled: bool)

  datatype RunStatus =
    | RunCompleted
    | RunDeferred
    | RunFailed
    | PolicyBlocked
    | NoTransport
    | AmbiguousExecution

  datatype Run = Run(
    planId: string,
    scheduledFor: int,
    status: RunStatus,
    reservationId: Option<string>,
    receiptId: Option<string>,
    blockReason: Option<BlockReason>)

  datatype ExecutionStatus = Claimed | Completed | TransportError | CaptureError

  datatype Execution = Execution(status: ExecutionStatus, receiptId: Option<string>)

  type Plans = map<string, Plan>

  type Executions = map<string, Execution>

  // ---------------------------------------------------------------- the plan store

  // The first instant after `now` that lies a whole number of intervals after `start`.
  ghost predicate IsNextRun(start: int, interval: Positive, now: int, next: int) {
    && next > now
    && exists k: nat :: next == start + k * interval && (k > 0 ==> start + (k - 1) * interval <= now)
  }

  function GridPoint(start: int, interval: Positive, j: nat): int { start + j * interval }

  lemma GridRises(start: int, interval: Positive, i: nat, j: nat)
    requires i < j
    ensures GridPoint(start, interval, i) + interval <= GridPoint(start, interval, j)
  {
    assert (j - i) * interval >= interval by { AtLeastOnce(j - i, interval); }
    assert j * interval == i * interval + (j - i) * interval;
  }

  lemma AtLeastOnce(n: Positive, interval: Positive)
    ensures n * interval >= interval
  {
    assert n * interval == (n - 1) * interval + interval;
  }

  // The next run is the earliest point of the plan's grid that is still ahead.
  lemma NextRunIsEarliest(start: int, interval: Positive, now: int, next: int)
    ensures IsNextRun(start, interval, now, next) <==>
              && next > now && (exists j: nat :: next == GridPoint(start, interval, j))
              && forall j: nat :: GridPoint(start, interval, j) > now ==> next <= GridPoint(start, interval, j)
  {
    if IsNextRun(start, interval, now, next) {
      var k: nat :| next == start + k * interval && (k > 0 ==> start + (k - 1) * interval <= now);
      assert next == GridPoint(start, interval, k);
      forall j: nat | GridPoint(start, interval, j) > now ensures next <= GridPoint(start, interval, j) {
        if j < k - 1 {
          GridRises(start, interval, j, k - 1);
        } else if k < j {
          GridRises(start, interval, k, j);
        }
      }
    }
    if && next > now && (exists j: nat :: next == GridPoint(start, interval, j))
       && forall j: nat :: GridPoint(start, interval, j) > now ==> next <= GridPoint(start, interval, j) {
      var k: nat :| next == GridPoint(start, interval, k);
      if k > 0 {
        GridRises(start, interval, k - 1, k);
        assert GridPoint(start, interval, k - 1) <= now;
      }
    }
  }

  predicate Due(plan: Plan, now: int) {
    plan.enabled && plan.nextRunAt <= now
  }

  predicate PlanLe(a: Plan, b: Plan) {
    if a.nextRunAt != b.nextRunAt then a.nextRunAt < b.nextRunAt else StrLe(a.planId, b.planId)
  }

  // The earlier plan comes first, and of two at one instant the one whose name is no later.
  ghost predicate RunsFirst(a: Plan, b: Plan) {
    a.nextRunAt < b.nextRunAt || (a.nextRunAt == b.nextRunAt && NoLater(a.planId, b.planId))
  }

  lemma PlanLeMeans(a: Plan, b: Plan)
    ensures PlanLe(a, b) <==> RunsFirst(a, b)
  {
    hide StrLe, NoLater;
    StrLeMeans(a.planId, b.planId);
  }

  function Rescheduled(plans: Plans, planId: string, at: int, offset: int): Plans {
    if planId in plans then plans[planId := plans[planId].(nextRunAt := at, offset := offset)] else plans
  }

  function Switched(plans: Plans, planId: string, enabled: bool): Plans {
    if planId in plans then plans[planId := plans[planId].(enabled := enabled)] else plans
  }

  class SourceAutomationStore {
    var plans: Plans
    var runs: seq<Run>

    constructor ()
      ensures plans == map[] && runs == []
    {
      plans, runs := map[], [];
    }

    ghost predicate Valid()
      reads this
    {
      forall id :: id in plans ==> plans[id].planId == id
    }

    method Defer(planId: string, nextRunAt: int, offset: int)
      modifies this`plans
      ensures plans == Rescheduled(old(plans), planId, nextRunAt, offset)
      ensures planId !in old(plans) ==> plans == old(plans)
      ensures planId in old(plans) ==>
                plans == old(plans)[planId := old(plans)[planId].(nextRunAt := nextRunAt, offset := offset)]
    {
      if planId in plans {
        plans := plans[planId := plans[planId].(nextRunAt := nextRunAt, offset := offset)];
      }
    }

    // Skips the slots that were missed; the copy of the plan decides, not the stored row.
    method Advance(plan: Plan, evaluatedAt: int)
      modifies this`plans
      ensures exists next :: IsNextRun(plan.nextRunAt, plan.interval, evaluatedAt, next)
                             && plans == Rescheduled(old(plans), plan.planId, next, plan.offset)
    {
      var nextRun := plan.nextRunAt;
      ghost var k: nat := 0;
      while nextRun <= evaluatedAt
        invariant nextRun == plan.nextRunAt + k * plan.interval
        invariant k > 0 ==> plan.nextRunAt + (k - 1) * plan.interval <= evaluatedAt
        decreases evaluatedAt - nextRun
      {
        nextRun := nextRun + plan.interval;
        k := k + 1;
      }
      Defer(plan.planId, nextRun, plan.offset);
      assert IsNextRun(plan.nextRunAt, plan.interval, evaluatedAt, nextRun);
    }

    method SetEnabled(planId: string, enabled: bool) returns (known: bool)
      modifies this`plans
      ensures known <==> planId in old(plans)
      ensures plans == Switched(old(plans), planId, enabled)
      ensures plans == if known then old(plans)[planId := old(plans)[planId].(enabled := enabled)] else old(plans)
    {
      known := planId in plans;
      if known {
        plans := plans[planId := plans[planId].(enabled := enabled)];
      }
    }

    method AddRun(run: Run)
      modifies this`runs
      ensures runs == old(runs) + [run]
    {
      runs := runs + [run];
    }

    // The first `limit` due plans, by time and then by identifier.
    method DuePlans(evaluatedAt: int, limit: nat) returns (due: seq<Plan>)
      requires Valid()
      ensures |due| <= limit && NoDuplicates(due)
      ensures forall i, j :: 0 <= i < j < |due| ==> RunsFirst(due[i], due[j])
      ensures forall plan :: plan in due ==> plan in plans.Values && plan.enabled && plan.nextRunAt <= evaluatedAt
      ensures forall id ::
                id in plans && plans[id].enabled && plans[id].nextRunAt <= evaluatedAt && plans[id] !in due ==>
                |due| == limit && forall plan :: plan in due ==> RunsFirst(plan, plans[id])
    {
      hide PlanLe, Due;
      var all: seq<Plan> := [];
      var pending := plans.Keys;
      while pending != {}
        invariant pending <= plans.Keys && NoDuplicates(all)
        invariant forall plan :: plan in all ==>
            plan in plans.Values && Due(plan, evaluatedAt) && plan.planId !in pending
        invariant forall id :: id in plans && id !in pending && Due(plans[id], evaluatedAt) ==> plans[id] in all
      {
        var id :| id in pending;
        if Due(plans[id], evaluatedAt) {
          NoDuplicatesAppend(all, plans[id]);
          all := all + [plans[id]];
        }
        pending := pending - {id};
      }
      var sorted := Sort(PlanLe, all);
      PlanLeIsTotalPreorder();
      SortProperties(PlanLe, all);
      SameBagSameElements(sorted, all);
      SameBagNoDuplicates(all, sorted);
      var taken := if |sorted| < limit then |sorted| else limit;
      due := sorted[..taken];
      assert |due| < limit ==> due == sorted;
      RestComesLater(PlanLe, sorted, taken);
      hide SortedBy, NoDuplicates, RunsFirst;
      forall a, b ensures PlanLe(a, b) <==> RunsFirst(a, b) {
        PlanLeMeans(a, b);
      }
      assert forall i, j :: 0 <= i < j < |due| ==> PlanLe(due[i], due[j]) by { InOrder(PlanLe, due); }
      assert forall plan :: Due(plan, evaluatedAt) <==> plan.enabled && plan.nextRunAt <= evaluatedAt by {
        DueMeans(evaluatedAt);
      }
    }
  }

  lemma DueMeans(now: int)
    ensures forall plan :: Due(plan, now) <==> plan.enabled && plan.nextRunAt <= now
  {
  }

  lemma InOrder<T>(le: (T, T) -> bool, s: seq<T>)
    requires SortedBy(le, s)
    ensures forall i, j :: 0 <= i < j < |s| ==> le(s[i], s[j])
  {
  }

  lemma PlanLeIsTotalPreorder()
    ensures TotalPreorder(PlanLe)
  {
    StrLeIsTotalOrder();
    hide StrLe;
  }

  lemma RestComesLater<T>(le: (T, T) -> bool, s: seq<T>, n: nat)
    requires SortedBy(le, s) && n <= |s|
    ensures SortedBy(le, s[..n])
    ensures forall x, y :: x in s[..n] && y in s && y !in s[..n] ==> le(x, y)
  {
    forall x, y | x in s[..n] && y in s && y !in s[..n] ensures le(x, y) {
      var i :| 0 <= i < n && s[i] == x;
      var j :| 0 <= j < |s| && s[j] == y;
      forall k | 0 <= k < n ensures s[k] != y {
        assert s[..n][k] == s[k];
      }
    }
  }

  // ---------------------------------------------------------------- the execution table

  class SourceTransportStore {
    var executions: Executions

    constructor ()
      ensures executions == map[]
    {
      executions := map[];
    }

    // The reservation identifier is the primary key, so only one insertion succeeds.
    method Claim(reservationId: string) returns (claimed: bool)
      modifies this
      ensures claimed <==> reservationId !in old(executions)
      ensures executions ==
                if claimed then old(executions)[reservationId := Execution(Claimed, None)] else old(executions)
    {
      if reservationId in executions {
        return false;
      }
      executions := executions[reservationId := Execution(Claimed, None)];
      return true;
    }

    method Finish(reservationId: string, status: ExecutionStatus, receiptId: Option<string>)
      modifies this
      ensures executions == Finished(old(executions), reservationId, status, receiptId)
      ensures executions == if reservationId !in old(executions) then old(executions)
                            else old(executions)[reservationId := Execution(status, receiptId)]
    {
      if reservationId in executions {
        executions := executions[reservationId := Execution(status, receiptId)];
      }
    }
  }

  function Finished(executions: Executions, id: string, status: ExecutionStatus,
      receiptId: Option<string>): Executions {
    if id in executions then executions[id := Execution(status, receiptId)] else executions
  }

  // ---------------------------------------------------------------- the worker's program

  // What an execution is for: a plan's slot, or a reservation some other client holds.
  datatype Context = ForSlot(plan: Plan) | Direct

  datatype Response = Response(receivedAt: int, statusCode: int)

  datatype Move = Advance | DeferTo(at: int) | Disable

  // Where a worker stands. Everything it carries is a copy that may have become stale.
  datatype Pc =
    | Idle
    | Picked(plan: Plan)
    | Checked(plan: Plan, latest: Snapshot)
    | Absent(plan: Plan, latest: Snapshot)
    | Found(plan: Plan, latest: Snapshot, row: Reservation)
    | Executing(context: Context, snapshot: Snapshot, row: Reservation)
    | Bound(context: Context, current: Snapshot, row: Reservation)
    | Holding(context: Context, current: Snapshot, row: Reservation)
    | Answered(context: Context, row: Reservation, response: Response)
    | Stored(context: Context, row: Reservation, receiptId: string)
    | Erring(context: Context, row: Reservation, error: ExecutionStatus)
    | Moving(plan: Plan, move: Move, run: Run)
    | Recording(run: Run)

  datatype Worker = Worker(queue: seq<Plan>, now: int, pc: Pc)

  // One call of the transport: for which reservation, and on account of what.
  datatype Send = Send(reservationId: string, context: Context)

  datatype System = System(
    policies: map<string, Snapshot>,
    plans: Plans,
    runs: seq<Run>,
    rows: seq<Reservation>,
    receipts: seq<Receipt>,
    executions: Executions,
    sends: seq<Send>,
    workers: map<nat, Worker>)

  // The parts the model leaves open: how an instant with its offset is written and which requests
  // are permitted.
  datatype Setting = Setting(iso: (int, int) -> string, check: RequestCheck)

  // The slot of a plan is its next run as written: one instant at two offsets is two slots.
  function SlotText(setting: Setting, plan: Plan): string {
    setting.iso(plan.nextRunAt, plan.offset)
  }

  function SlotKey(setting: Setting, plan: Plan): string {
    plan.planId + ":" + SlotText(setting, plan)
  }

  function SlotRequest(setting: Setting, plan: Plan, latest: Snapshot): Request {
    Request(latest.version, latest.hash, SlotKey(setting, plan), plan.url, plan.httpMethod, 1)
  }

  function NewRun(plan: Plan, status: RunStatus): Run {
    Run(plan.planId, plan.nextRunAt, status, None, None, None)
  }

  // The transport's guard: the reservation must still be bound to the current policy.
  predicate BindingHolds(setting: Setting, policies: map<string, Snapshot>, snapshot: Snapshot, row: Reservation) {
    && row.sourceId in policies
    && var current := policies[row.sourceId];
    && current.policy.approved && row.sourceId == current.policy.sourceId
    && snapshot.policy.sourceId == current.policy.sourceId && snapshot.version == current.version
    && snapshot.hash == current.hash
    && row.policyVersion == current.version && row.snapshotHash == current.hash
    && row.attempt <= current.policy.maxAttempts && setting.check(current.policy, row.url, row.httpMethod)
  }

  function FirstAttempt(rows: seq<Reservation>, source: string, key: string): Option<Reservation> {
    if rows == [] then None
    else
      var last := rows[|rows| - 1];
      if last.sourceId == source && last.key == key && last.attempt == 1 then Some(last)
      else FirstAttempt(rows[..|rows| - 1], source, key)
  }

  function ReceiptsOf(receipts: seq<Receipt>, source: string): seq<Receipt> {
    if receipts == [] then []
    else
      var last := receipts[|receipts| - 1];
      ReceiptsOf(receipts[..|receipts| - 1], source) + if last.sourceId == source then [last] else []
  }

  // What a slot that was given up or failed leads to.
  function AfterFailure(context: Context, row: Reservation): Pc {
    match context
    case Direct => Idle
    case ForSlot(plan) => Moving(plan, Advance, NewRun(plan, RunFailed).(reservationId := Some(row.reservationId)))
  }

  function AfterSuccess(context: Context, row: Reservation, receiptId: string): Pc {
    match context
    case Direct => Idle
    case ForSlot(plan) =>
      Moving(plan, Advance,
             NewRun(plan, RunCompleted).(reservationId := Some(row.reservationId), receiptId := Some(receiptId)))
  }

  // Events: each is one database transaction, one call of the transport, or one crash. The worker
  // and everything the environment decides are parameters.
  datatype Event =
    | Poll(w: nat, now: int, due: seq<Plan>)
    | Begin(w: nat)
    | CheckPolicy(w: nat, hasTransport: bool)
    | FindReservation(w: nat)
    | Reserve(w: nat, id: string)
    | FindExecution(w: nat)
    | Execute(w: nat, row: Reservation, snapshot: Snapshot)
    | CheckBinding(w: nat)
    | Claim(w: nat)
    | CallTransport(w: nat, outcome: Option<Response>)
    | Capture(w: nat, receiptId: Option<string>, storedAt: int)
    | Finish(w: nat)
    | Fault(w: nat)
    | Reschedule(w: nat, next: int, offset: int)
    | Record(w: nat)
    | Crash(w: nat)
    | CreatePlan(plan: Plan)
    | SwitchPlan(planId: string, enabled: bool)
    | ChangePolicy(source: string, snapshot: Snapshot)
    | ReserveOther(snapshot: Snapshot, request: Request, receipts: seq<Receipt>, now: int, id: string)

  function PcOf(s: System, w: nat): Pc {
    if w in s.workers then s.workers[w].pc else Idle
  }

  function Goes(s: System, w: nat, pc: Pc): System {
    var worker := if w in s.workers then s.workers[w] else Worker([], 0, Idle);
    s.(workers := s.workers[w := worker.(pc := pc)])
  }

  function NowOf(s: System, w: nat): int {
    if w in s.workers then s.workers[w].now else 0
  }

  // Identifiers drawn at random are new, as the primary keys enforce.
  ghost predicate NewReservationId(s: System, id: string) {
    forall row :: row in s.rows ==> row.reservationId != id
  }

  ghost predicate Enabled(s: System, e: Event) {
    match e
    case Poll(w, now, due) =>
      PcOf(s, w).Idle? && forall plan :: plan in due ==> plan in s.plans.Values && Due(plan, now)
    case Begin(w) => PcOf(s, w).Idle? && w in s.workers && s.workers[w].queue != []
    case CheckPolicy(w, _) => PcOf(s, w).Picked?
    case FindReservation(w) => PcOf(s, w).Checked?
    case Reserve(w, id) => PcOf(s, w).Absent? && NewReservationId(s, id)
    case FindExecution(w) => PcOf(s, w).Found?
    case Execute(w, row, _) => PcOf(s, w).Idle? && row in s.rows
    case CheckBinding(w) => PcOf(s, w).Executing?
    case Claim(w) => PcOf(s, w).Bound?
    case CallTransport(w, _) => PcOf(s, w).Holding?
    case Capture(w, _, _) => PcOf(s, w).Answered?
    case Finish(w) => PcOf(s, w).Stored? || PcOf(s, w).Erring?
    case Fault(w) =>
      var pc := PcOf(s, w);
      pc.Executing? || pc.Bound? || pc.Holding? || pc.Answered? || pc.Stored? || pc.Erring?
    case Reschedule(w, next, _) =>
      && PcOf(s, w).Moving?
      && (PcOf(s, w).move.Advance? ==>
            IsNextRun(PcOf(s, w).plan.nextRunAt, PcOf(s, w).plan.interval, NowOf(s, w), next))
    case Record(w) => PcOf(s, w).Recording?
    case Crash(_) => true
    case CreatePlan(plan) => plan.planId !in s.plans && ':' !in plan.planId
    case SwitchPlan(_, _) => true
    case ChangePolicy(source, snapshot) => snapshot.policy.sourceId == source
    case ReserveOther(_, _, _, _, id) => NewReservationId(s, id)
  }

  function AfterPolicy(s: System, plan: Plan, hasTransport: bool): Pc {
    if plan.sourceId !in s.policies then Moving(plan, Disable, NewRun(plan, PolicyBlocked))
    else
      var latest := s.policies[plan.sourceId];
      if latest.version != plan.policyVersion || latest.hash != plan.snapshotHash || !latest.policy.approved then
        Moving(plan, Disable, NewRun(plan, PolicyBlocked))
      else if !hasTransport then Moving(plan, Disable, NewRun(plan, NoTransport))
      else Checked(plan, latest)
  }

  function DecideSlot(setting: Setting, s: System, w: nat, plan: Plan, latest: Snapshot, id: string): Decision {
    Decide(setting.check, s.rows, latest, SlotRequest(setting, plan, latest),
           ReceiptsOf(s.receipts, plan.sourceId), NowOf(s, w), id)
  }

  function AfterReserve(plan: Plan, latest: Snapshot, decision: Decision): Pc {
    match decision
    case Allowed(row) => Found(plan, latest, row)
    case Refused(reason, next, _) =>
      var run := NewRun(plan, RunDeferred).(blockReason := Some(reason));
      Moving(plan, if next.Some? then DeferTo(next.value) else Advance, run)
  }

  function AfterFindExecution(s: System, plan: Plan, latest: Snapshot, row: Reservation): Pc {
    var run := NewRun(plan, RunFailed).(reservationId := Some(row.reservationId));
    if row.reservationId !in s.executions then Executing(ForSlot(plan), latest, row)
    else
      var execution := s.executions[row.reservationId];
      match execution.status
      case Completed => Moving(plan, Advance, run.(status := RunCompleted, receiptId := execution.receiptId))
      case Claimed => Moving(plan, Disable, run.(status := AmbiguousExecution))
      case _ => Moving(plan, Advance, run)
  }

  function StoredReceipt(row: Reservation, response: Response, receiptId: string, storedAt: int): Receipt {
    Receipt(receiptId, row.sourceId, Some(row.key), row.url, row.attempt, response.statusCode,
            response.receivedAt, storedAt, Some(row.reservationId))
  }

  // Advancing keeps the offset of the worker's copy; a deferral writes whatever offset its instant has.
  function AfterMove(s: System, pc: Pc, next: int, offset: int): Plans
    requires pc.Moving?
  {
    match pc.move
    case Advance => Rescheduled(s.plans, pc.plan.planId, next, pc.plan.offset)
    case DeferTo(at) => Rescheduled(s.plans, pc.plan.planId, at, offset)
    case Disable => Switched(s.plans, pc.plan.planId, false)
  }

  ghost function Next(setting: Setting, s: System, e: Event): System
    requires Enabled(s, e)
  {
    match e
    case Poll(w, now, due) => s.(workers := s.workers[w := Worker(due, now, Idle)])
    case Begin(w) =>
      var worker := s.workers[w];
      s.(workers := s.workers[w := Worker(worker.queue[1..], worker.now, Picked(worker.queue[0]))])
    case CheckPolicy(w, hasTransport) => Goes(s, w, AfterPolicy(s, PcOf(s, w).plan, hasTransport))
    case FindReservation(w) =>
      var pc := PcOf(s, w);
      var found := FirstAttempt(s.rows, pc.plan.sourceId, SlotKey(setting, pc.plan));
      Goes(s, w, if found.Some? then Found(pc.plan, pc.latest, found.value) else Absent(pc.plan, pc.latest))
    case Reserve(w, id) =>
      var pc := PcOf(s, w);
      var decision := DecideSlot(setting, s, w, pc.plan, pc.latest, id);
      Goes(s.(rows := s.rows + Granted(decision)), w, AfterReserve(pc.plan, pc.latest, decision))
    case FindExecution(w) =>
      var pc := PcOf(s, w);
      Goes(s, w, AfterFindExecution(s, pc.plan, pc.latest, pc.row))
    case Execute(w, row, snapshot) => Goes(s, w, Executing(Direct, snapshot, row))
    case CheckBinding(w) =>
      var pc := PcOf(s, w);
      Goes(s, w, if BindingHolds(setting, s.policies, pc.snapshot, pc.row)
                 then Bound(pc.context, s.policies[pc.row.sourceId], pc.row)
                 else AfterFailure(pc.context, pc.row))
    case Claim(w) =>
      var pc := PcOf(s, w);
      var id := pc.row.reservationId;
      if id in s.executions then Goes(s, w, AfterFailure(pc.context, pc.row))
      else
        Goes(s.(executions := s.executions[id := Execution(Claimed, None)]), w, Holding(pc.context, pc.current, pc.row))
    case CallTransport(w, outcome) =>
      var pc := PcOf(s, w);
      var called := s.(sends := s.sends + [Send(pc.row.reservationId, pc.context)]);
      Goes(called, w, if outcome.Some? then Answered(pc.context, pc.row, outcome.value)
                      else Erring(pc.context, pc.row, TransportError))
    case Capture(w, receiptId, storedAt) =>
      var pc := PcOf(s, w);
      if receiptId.None? then Goes(s, w, Erring(pc.context, pc.row, CaptureError))
      else
        Goes(s.(receipts := s.receipts + [StoredReceipt(pc.row, pc.response, receiptId.value, storedAt)]), w,
             Stored(pc.context, pc.row, receiptId.value))
    case Finish(w) =>
      var pc := PcOf(s, w);
      var id := pc.row.reservationId;
      if pc.Stored? then
        Goes(s.(executions := Finished(s.executions, id, Completed, Some(pc.receiptId))), w,
             AfterSuccess(pc.context, pc.row, pc.receiptId))
      else
        Goes(s.(executions := Finished(s.executions, id, pc.error, None)), w, AfterFailure(pc.context, pc.row))
    case Fault(w) => Goes(s, w, AfterFailure(PcOf(s, w).context, PcOf(s, w).row))
    case Reschedule(w, next, offset) =>
      var pc := PcOf(s, w);
      Goes(s.(plans := AfterMove(s, pc, next, offset)), w, Recording(pc.run))
    case Record(w) => Goes(s.(runs := s.runs + [PcOf(s, w).run]), w, Idle)
    case Crash(w) => s.(workers := s.workers[w := Worker([], 0, Idle)])
    case CreatePlan(plan) => s.(plans := s.plans[plan.planId := plan])
    case SwitchPlan(planId, enabled) => s.(plans := Switched(s.plans, planId, enabled))
    case ChangePolicy(source, snapshot) => s.(policies := s.policies[source := snapshot])
    case ReserveOther(snapshot, request, receipts, now, id) =>
      s.(rows := s.rows + Granted(Decide(setting.check, s.rows, snapshot, request, receipts, now, id)))
  }

  function Start(): System {
    System(map[], map[], [], [], [], map[], [], map[])
  }

  ghost predicate IsRun(setting: Setting, states: seq<System>, events: seq<Event>) {
    && |states| == |events| + 1 && states[0] == Start()
    && forall i: nat :: i < |events| ==> IsStep(setting, states, events, i)
  }

  ghost predicate IsStep(setting: Setting, states: seq<System>, events: seq<Event>, i: nat)
    requires |states| == |events| + 1 && i < |events|
  {
    Enabled(states[i], events[i]) && states[i + 1] == Next(setting, states[i], events[i])
  }
}
