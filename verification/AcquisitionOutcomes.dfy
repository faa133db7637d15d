// What becomes of a slot: how each answer a worker gets, and each trace a crashed worker left, ends up
// in the plan table and in the record of runs.
module AcquisitionOutcomes {
  import opened Outcomes
  import opened Scheduler
  import opened Acquisition
  import opened AcquisitionTheorems

  // ---------------------------------------------------------------- a worker between its own steps

  // The event is a step, or the crash, of worker `w`.
  predicate IsStepOf(e: Event, w: nat) {
    match e
    case CreatePlan(_) => false
    case SwitchPlan(_, _) => false
    case ChangePolicy(_, _) => false
    case ReserveOther(_, _, _, _, _) => false
    case _ => e.w == w
  }

  predicate IsOperators(e: Event) {
    e.CreatePlan? || e.SwitchPlan? || e.ChangePolicy? || e.ReserveOther?
  }

  lemma OperatorsLeaveWorkers(setting: Setting, s: System, e: Event)
    requires Enabled(s, e) && IsOperators(e)
    ensures Next(setting, s, e).workers == s.workers
  {
    hide Decide, Switched, NewReservationId;
  }

  lemma WorkersLeaveOthers(setting: Setting, s: System, e: Event, w: nat)
    requires Enabled(s, e) && !IsOperators(e) && e.w != w
    ensures var t := Next(setting, s, e);
      (w in t.workers <==> w in s.workers) && (w in s.workers ==> t.workers[w] == s.workers[w])
  {
    hide DecideSlot, Decide, FirstAttempt, BindingHolds, SlotKey, Rescheduled, Switched, AfterMove, ReceiptsOf, Due;
    hide AfterPolicy, AfterReserve, AfterFindExecution, AfterFailure, AfterSuccess, StoredReceipt, Finished, IsNextRun;
    hide NewReservationId;
  }

  // Nothing of a worker changes in a step that is not its own.
  lemma OthersLeaveWorker(setting: Setting, s: System, e: Event, w: nat)
    requires Enabled(s, e) && !IsStepOf(e, w)
    ensures var t := Next(setting, s, e);
      && (w in t.workers <==> w in s.workers) && (w in s.workers ==> t.workers[w] == s.workers[w])
      && PcOf(t, w) == PcOf(s, w) && NowOf(t, w) == NowOf(s, w)
  {
    hide Next, Enabled;
    if IsOperators(e) {
      OperatorsLeaveWorkers(setting, s, e);
    } else {
      WorkersLeaveOthers(setting, s, e, w);
    }
  }

  // The next step of worker `w` after event `n` is event `m`.
  ghost predicate NextStepOf(events: seq<Event>, w: nat, n: nat, m: nat) {
    && n < m < |events| && IsStepOf(events[m], w)
    && forall k :: n < k < m ==> !IsStepOf(events[k], w)
  }

  lemma {:induction false} WorkerWaits(setting: Setting, states: seq<System>, events: seq<Event>, w: nat, n: nat,
      m: nat)
    requires IsRun(setting, states, events) && n < m < |states|
    requires forall k :: n < k < m ==> !IsStepOf(events[k], w)
    ensures PcOf(states[m], w) == PcOf(states[n + 1], w) && NowOf(states[m], w) == NowOf(states[n + 1], w)
    decreases m
  {
    if m > n + 1 {
      WorkerWaits(setting, states, events, w, n, m - 1);
      assert IsStep(setting, states, events, m - 1);
      hide Next, Enabled, IsRun;
      OthersLeaveWorker(setting, states[m - 1], events[m - 1], w);
    }
  }

  lemma PlansOnlyGrow(setting: Setting, s: System, e: Event)
    requires Enabled(s, e)
    ensures s.plans.Keys <= Next(setting, s, e).plans.Keys
  {
    hide DecideSlot, Decide, FirstAttempt, BindingHolds, SlotKey, ReceiptsOf;
    hide AfterPolicy, AfterReserve, AfterFindExecution, AfterFailure, AfterSuccess, StoredReceipt, Finished;
  }

  lemma {:induction false} PlanStays(setting: Setting, states: seq<System>, events: seq<Event>, id: string, n: nat,
      m: nat)
    requires IsRun(setting, states, events) && n <= m < |states| && id in states[n].plans
    ensures id in states[m].plans
    decreases m
  {
    if m > n {
      PlanStays(setting, states, events, id, n, m - 1);
      assert IsStep(setting, states, events, m - 1);
      hide Next, Enabled, IsRun;
      PlansOnlyGrow(setting, states[m - 1], events[m - 1]);
    }
  }

  // ---------------------------------------------------------------- how a slot is settled

  // What the plan table looks like once the plan has been moved. The plan is the worker's copy; the
  // stored row is what changes.
  ghost predicate PlanMoved(before: Plans, after: Plans, plan: Plan, move: Move, now: int) {
    && plan.planId in before
    && match move
       case Disable => after == before[plan.planId := before[plan.planId].(enabled := false)]
       case Advance =>
         exists next ::
           && IsNextRun(plan.nextRunAt, plan.interval, now, next)
           && after == before[plan.planId := before[plan.planId].(nextRunAt := next, offset := plan.offset)]
       case DeferTo(at) =>
         exists offset :: after == before[plan.planId := before[plan.planId].(nextRunAt := at, offset := offset)]
  }

  // After event `n`, worker `w` first moves the plan and then records the run, whatever others do in
  // between, unless it crashes.
  ghost predicate Settles(states: seq<System>, events: seq<Event>, n: nat, w: nat, plan: Plan, move: Move, run: Run)
    requires |states| == |events| + 1
  {
    forall m: nat :: NextStepOf(events, w, n, m) && !events[m].Crash? ==>
      && events[m].Reschedule? && states[m + 1].runs == states[m].runs
      && PlanMoved(states[m].plans, states[m + 1].plans, plan, move, NowOf(states[n + 1], w))
      && Records(states, events, m, w, run)
  }

  ghost predicate Records(states: seq<System>, events: seq<Event>, m: nat, w: nat, run: Run)
    requires |states| == |events| + 1
  {
    forall k: nat :: NextStepOf(events, w, m, k) && !events[k].Crash? ==>
      && events[k].Record? && states[k + 1].plans == states[k].plans
      && states[k + 1].runs == states[k].runs + [run]
  }

  lemma MovedAsSaid(setting: Setting, s: System, e: Event, w: nat)
    requires Enabled(s, e) && IsStepOf(e, w) && !e.Crash? && PcOf(s, w).Moving? && PcOf(s, w).plan.planId in s.plans
    ensures var pc, t := PcOf(s, w), Next(setting, s, e);
      && e.Reschedule? && t.runs == s.runs && PlanMoved(s.plans, t.plans, pc.plan, pc.move, NowOf(s, w))
      && PcOf(t, w) == Recording(pc.run)
  {
    hide DecideSlot, Decide, FirstAttempt, BindingHolds, SlotKey, ReceiptsOf, IsNextRun;
    hide AfterPolicy, AfterReserve, AfterFindExecution, AfterFailure, AfterSuccess, StoredReceipt, Finished;
    match PcOf(s, w).move
    case Advance => assert IsNextRun(PcOf(s, w).plan.nextRunAt, PcOf(s, w).plan.interval, NowOf(s, w), e.next);
    case _ =>
  }

  lemma RecordedAsSaid(setting: Setting, s: System, e: Event, w: nat)
    requires Enabled(s, e) && IsStepOf(e, w) && !e.Crash? && PcOf(s, w).Recording?
    ensures e.Record? && Next(setting, s, e).plans == s.plans && Next(setting, s, e).runs == s.runs + [PcOf(s, w).run]
  {
    hide DecideSlot, Decide, FirstAttempt, BindingHolds, SlotKey, ReceiptsOf, IsNextRun;
    hide AfterPolicy, AfterReserve, AfterFindExecution, AfterFailure, AfterSuccess, StoredReceipt, Finished;
  }

  lemma RecordingIsRecorded(setting: Setting, states: seq<System>, events: seq<Event>, m: nat, w: nat, run: Run)
    requires IsRun(setting, states, events) && m < |events| && PcOf(states[m + 1], w) == Recording(run)
    ensures Records(states, events, m, w, run)
  {
    forall k: nat | NextStepOf(events, w, m, k) && !events[k].Crash?
      ensures events[k].Record? && states[k + 1].plans == states[k].plans
      ensures states[k + 1].runs == states[k].runs + [run]
    {
      assert IsStep(setting, states, events, k);
      hide Next, Enabled, IsRun;
      WorkerWaits(setting, states, events, w, m, k);
      RecordedAsSaid(setting, states[k], events[k], w);
    }
  }

  lemma MovingSettles(setting: Setting, states: seq<System>, events: seq<Event>, n: nat, w: nat,
                      plan: Plan, move: Move, run: Run)
    requires IsRun(setting, states, events) && n < |events| && plan.planId in states[n + 1].plans
    requires PcOf(states[n + 1], w) == Moving(plan, move, run)
    ensures Settles(states, events, n, w, plan, move, run)
  {
    forall m: nat | NextStepOf(events, w, n, m) && !events[m].Crash?
      ensures events[m].Reschedule? && states[m + 1].runs == states[m].runs
      ensures PlanMoved(states[m].plans, states[m + 1].plans, plan, move, NowOf(states[n + 1], w))
      ensures Records(states, events, m, w, run)
    {
      assert IsStep(setting, states, events, m);
      hide Next, Enabled, IsRun, PlanMoved, Records;
      WorkerWaits(setting, states, events, w, n, m);
      PlanStays(setting, states, events, plan.planId, n + 1, m);
      MovedAsSaid(setting, states[m], events[m], w);
      RecordingIsRecorded(setting, states, events, m, w, run);
    }
  }

  // ---------------------------------------------------------------- one round of a worker

  ghost predicate RestartsRound(e: Event, w: nat) {
    (e.Poll? || e.Crash?) && e.w == w
  }

  ghost function Begun(events: seq<Event>, w: nat, n: nat, m: nat): set<nat>
    requires m <= |events|
  {
    set i: nat | n < i < m && events[i] == Begin(w)
  }

  lemma BegunGrows(events: seq<Event>, w: nat, n: nat, m: nat)
    requires n + 1 < m <= |events|
    ensures |Begun(events, w, n, m)| == |Begun(events, w, n, m - 1)| + if events[m - 1] == Begin(w) then 1 else 0
  {
    assert Begun(events, w, n, m) ==
           Begun(events, w, n, m - 1) + if events[m - 1] == Begin(w) then {m - 1} else {};
  }

  lemma QueueStep(setting: Setting, s: System, e: Event, w: nat)
    requires Enabled(s, e) && w in s.workers && !RestartsRound(e, w)
    ensures var t := Next(setting, s, e);
      && w in t.workers && t.workers[w].now == s.workers[w].now
      && (e != Begin(w) ==> t.workers[w].queue == s.workers[w].queue)
      && (e == Begin(w) ==>
           s.workers[w].queue != [] && t.workers[w].queue == s.workers[w].queue[1..]
           && t.workers[w].pc == Picked(s.workers[w].queue[0]))
  {
    if !IsStepOf(e, w) {
      hide Next, Enabled;
      OthersLeaveWorker(setting, s, e, w);
    } else {
      hide DecideSlot, Decide, FirstAttempt, BindingHolds, SlotKey, Rescheduled, Switched, AfterMove, ReceiptsOf, Due;
      hide AfterPolicy, AfterReserve, AfterFindExecution, AfterFailure, AfterSuccess, StoredReceipt, Finished;
      hide NewReservationId, IsNextRun;
    }
  }

  // A worker that has read the due plans takes them one after the other, each once and in that order,
  // and measures all of them against the instant of the reading.
  lemma {:induction false} RoundIsWorkedOff(setting: Setting, states: seq<System>, events: seq<Event>, w: nat, now: int,
      due: seq<Plan>, n: nat, m: nat)
    requires IsRun(setting, states, events) && n < m <= |events| && events[n] == Poll(w, now, due)
    requires forall i :: n < i < m ==> !RestartsRound(events[i], w)
    ensures forall plan :: plan in due ==> plan in states[n].plans.Values && plan.enabled && plan.nextRunAt <= now
    ensures var k := |Begun(events, w, n, m)|;
      && k <= |due| && w in states[m].workers && states[m].workers[w].queue == due[k..]
      && NowOf(states[m], w) == now
      && (m < |events| && events[m] == Begin(w) ==> k < |due| && PcOf(states[m + 1], w) == Picked(due[k]))
    decreases m
  {
    hide IsRun, Next, Enabled;
    RunStep(setting, states, events, n);
    PollStarts(setting, states[n], events[n]);
    if m == n + 1 {
      assert Begun(events, w, n, m) == {};
    } else {
      RoundIsWorkedOff(setting, states, events, w, now, due, n, m - 1);
      RunStep(setting, states, events, m - 1);
      QueueStep(setting, states[m - 1], events[m - 1], w);
      BegunGrows(events, w, n, m);
      hide Begun;
    }
    if m < |events| && events[m] == Begin(w) {
      RunStep(setting, states, events, m);
      QueueStep(setting, states[m], events[m], w);
    }
  }

  lemma RunStep(setting: Setting, states: seq<System>, events: seq<Event>, i: nat)
    requires IsRun(setting, states, events) && i < |events|
    ensures |states| == |events| + 1
    ensures Enabled(states[i], events[i]) && states[i + 1] == Next(setting, states[i], events[i])
  {
    assert IsStep(setting, states, events, i);
    hide Next, Enabled;
  }

  lemma PollStarts(setting: Setting, s: System, e: Event)
    requires Enabled(s, e) && e.Poll?
    ensures forall plan :: plan in e.due ==> plan in s.plans.Values && plan.enabled && plan.nextRunAt <= e.now
    ensures var t := Next(setting, s, e); e.w in t.workers && t.workers[e.w] == Worker(e.due, e.now, Idle)
  {
    hide DecideSlot, Decide, FirstAttempt, BindingHolds, SlotKey, Rescheduled, Switched, AfterMove, ReceiptsOf;
  }

  // ---------------------------------------------------------------- the laws

  // The plan a worker has in hand is in the table before and after its step.
  lemma PlanIsKnown(setting: Setting, states: seq<System>, events: seq<Event>, n: nat, w: nat, plan: Plan)
    requires IsRun(setting, states, events) && n < |events|
    requires var pc := PcOf(states[n], w);
      || (pc.Picked? && pc.plan == plan) || (pc.Absent? && pc.plan == plan) || (pc.Found? && pc.plan == plan)
      || ((pc.Executing? || pc.Bound? || pc.Holding? || pc.Answered? || pc.Stored? || pc.Erring?)
          && pc.context == ForSlot(plan))
    ensures plan.planId in states[n + 1].plans
  {
    InvHolds(setting, states, events, n);
    ExistingFitsIfKnown(states[n], w, setting);
    hide IsRun, Inv, SlotRow, HasReceipt;
    PlanStays(setting, states, events, plan.planId, n, n + 1);
  }

  // The plan's own policy is the one in force, and approved.
  ghost predicate PolicyStands(s: System, plan: Plan) {
    && plan.sourceId in s.policies
    && var current := s.policies[plan.sourceId];
       current.version == plan.policyVersion && current.hash == plan.snapshotHash && current.policy.approved
  }

  // A plan whose policy is missing, changed or not approved, or whose source has no transport, is
  // switched off and the reason recorded.
  lemma BlockedPlanIsDisabled(setting: Setting, states: seq<System>, events: seq<Event>, n: nat, w: nat,
                              hasTransport: bool)
    requires IsRun(setting, states, events) && n < |events| && events[n] == CheckPolicy(w, hasTransport)
    ensures PcOf(states[n], w).Picked?
    ensures
      var s, plan := states[n], PcOf(states[n], w).plan;
      && (!PolicyStands(s, plan) ==>
           Settles(states, events, n, w, plan, Disable,
                   Run(plan.planId, plan.nextRunAt, PolicyBlocked, None, None, None)))
      && (PolicyStands(s, plan) && !hasTransport ==>
           Settles(states, events, n, w, plan, Disable,
                   Run(plan.planId, plan.nextRunAt, NoTransport, None, None, None)))
      && (PolicyStands(s, plan) && hasTransport ==>
           PcOf(states[n + 1], w) == Checked(plan, s.policies[plan.sourceId]))
  {
    assert IsStep(setting, states, events, n);
    var plan := PcOf(states[n], w).plan;
    PlanIsKnown(setting, states, events, n, w, plan);
    hide IsRun, Settles;
    if !PolicyStands(states[n], plan) {
      MovingSettles(setting, states, events, n, w, plan, Disable,
                    Run(plan.planId, plan.nextRunAt, PolicyBlocked, None, None, None));
    } else if !hasTransport {
      MovingSettles(setting, states, events, n, w, plan, Disable,
                    Run(plan.planId, plan.nextRunAt, NoTransport, None, None, None));
    }
  }

  // The row is the first attempt of the plan's slot: its key is the plan's name and the slot as written.
  ghost predicate IsSlotRow(setting: Setting, plan: Plan, row: Reservation) {
    && row.sourceId == plan.sourceId && row.attempt == 1
    && row.key == plan.planId + ":" + setting.iso(plan.nextRunAt, plan.offset)
  }

  // A slot goes on with the reservation it has, and only without one is a new one asked for.
  lemma ReservationIsLookedUp(setting: Setting, states: seq<System>, events: seq<Event>, n: nat, w: nat)
    requires IsRun(setting, states, events) && n < |events| && events[n] == FindReservation(w)
    ensures PcOf(states[n], w).Checked?
    ensures
      var s, plan, latest := states[n], PcOf(states[n], w).plan, PcOf(states[n], w).latest;
      && states[n + 1].rows == s.rows
      && (forall row :: row in s.rows && IsSlotRow(setting, plan, row) ==>
            PcOf(states[n + 1], w) == Found(plan, latest, row))
      && ((forall row :: row in s.rows ==> !IsSlotRow(setting, plan, row)) ==>
            PcOf(states[n + 1], w) == Absent(plan, latest))
  {
    assert IsStep(setting, states, events, n);
    var s, plan, latest := states[n], PcOf(states[n], w).plan, PcOf(states[n], w).latest;
    FirstAttemptIs(s.rows, plan.sourceId, SlotKey(setting, plan));
    var found := FirstAttempt(s.rows, plan.sourceId, SlotKey(setting, plan));
    hide FirstAttempt;
    if found.Some? {
      assert IsSlotRow(setting, plan, found.value);
    }
    forall row | row in s.rows && IsSlotRow(setting, plan, row)
      ensures PcOf(states[n + 1], w) == Found(plan, latest, row)
    {
      assert IsFirstAttempt(row, plan.sourceId, SlotKey(setting, plan));
      assert SlotRow(setting, plan, row);
      SlotIsResumed(setting, states, events, n, w, row);
    }
  }

  // The request for a slot is a first attempt under the policy that was just checked.
  lemma SlotIsReservedOrDeferred(setting: Setting, states: seq<System>, events: seq<Event>, n: nat, w: nat, id: string)
    requires IsRun(setting, states, events) && n < |events| && events[n] == Acquisition.Reserve(w, id)
    ensures PcOf(states[n], w).Absent?
    ensures
      var s, t, pc := states[n], states[n + 1], PcOf(states[n], w);
      var plan, latest := pc.plan, pc.latest;
      var key := plan.planId + ":" + setting.iso(plan.nextRunAt, plan.offset);
      var request := Request(latest.version, latest.hash, key, plan.url, plan.httpMethod, 1);
      var decision := Decide(setting.check, s.rows, latest, request, [], NowOf(s, w), id);
      match decision
      case Allowed(row) => t.rows == s.rows + [row] && PcOf(t, w) == Found(plan, latest, row)
      case Refused(reason, next, _) =>
        && t.rows == s.rows
        && Settles(states, events, n, w, plan, if next.Some? then DeferTo(next.value) else Advance,
                   Run(plan.planId, plan.nextRunAt, RunDeferred, None, None, Some(reason)))
  {
    assert IsStep(setting, states, events, n);
    var s, pc := states[n], PcOf(states[n], w);
    var plan, latest := pc.plan, pc.latest;
    PlanIsKnown(setting, states, events, n, w, plan);
    var decision := DecideSlot(setting, s, w, plan, latest, id);
    FirstAttemptsNeedNoReceipts(setting, s, w, plan, latest, id);
    hide IsRun, Settles, Decide, DecideSlot, SlotRequest;
    match decision
    case Allowed(row) =>
    case Refused(reason, next, _) =>
      MovingSettles(setting, states, events, n, w, plan, if next.Some? then DeferTo(next.value) else Advance,
                    Run(plan.planId, plan.nextRunAt, RunDeferred, None, None, Some(reason)));
  }

  lemma FirstAttemptsNeedNoReceipts(setting: Setting, s: System, w: nat, plan: Plan, latest: Snapshot, id: string)
    ensures var key := plan.planId + ":" + setting.iso(plan.nextRunAt, plan.offset);
      DecideSlot(setting, s, w, plan, latest, id) ==
        Decide(setting.check, s.rows, latest,
               Request(latest.version, latest.hash, key, plan.url, plan.httpMethod, 1), [], NowOf(s, w), id)
  {
    hide RateLimitUntil, Duplicate, Matching, Latest, Power2, ReceiptsOf;
  }

  // Crash recovery. An execution that is found decides what becomes of the slot: none is started, a
  // completed one is taken over with its receipt, a failed one is given up, and one that is still
  // claimed, by a worker that may be gone, switches the plan off and is reported as ambiguous.
  lemma FoundExecutionDecides(setting: Setting, states: seq<System>, events: seq<Event>, n: nat, w: nat)
    requires IsRun(setting, states, events) && n < |events| && events[n] == FindExecution(w)
    ensures PcOf(states[n], w).Found?
    ensures
      var s, t, pc := states[n], states[n + 1], PcOf(states[n], w);
      var plan, id := pc.plan, pc.row.reservationId;
      && t.executions == s.executions && t.plans == s.plans && t.runs == s.runs && t.rows == s.rows
      && (id !in s.executions ==> PcOf(t, w) == Executing(ForSlot(plan), pc.latest, pc.row))
      && (id in s.executions ==>
           match s.executions[id].status
           case Claimed =>
             Settles(states, events, n, w, plan, Disable,
                     Run(plan.planId, plan.nextRunAt, AmbiguousExecution, Some(id), None, None))
           case Completed =>
             Settles(states, events, n, w, plan, Advance,
                     Run(plan.planId, plan.nextRunAt, RunCompleted, Some(id), s.executions[id].receiptId, None))
           case TransportError =>
             Settles(states, events, n, w, plan, Advance,
                     Run(plan.planId, plan.nextRunAt, RunFailed, Some(id), None, None))
           case CaptureError =>
             Settles(states, events, n, w, plan, Advance,
                     Run(plan.planId, plan.nextRunAt, RunFailed, Some(id), None, None)))
  {
    assert IsStep(setting, states, events, n);
    var s, pc := states[n], PcOf(states[n], w);
    var plan, id := pc.plan, pc.row.reservationId;
    PlanIsKnown(setting, states, events, n, w, plan);
    hide IsRun, Settles;
    if id in s.executions {
      var status, receiptId := s.executions[id].status, s.executions[id].receiptId;
      MovingSettles(setting, states, events, n, w, plan,
                    if status == Claimed then Disable else Advance,
                    Run(plan.planId, plan.nextRunAt,
                        if status == Claimed then AmbiguousExecution
                        else if status == Completed then RunCompleted else RunFailed,
                        Some(id), if status == Completed then receiptId else None, None));
    }
  }

  // However long a claim has been abandoned: whoever takes the slot up finds it, switches the plan off
  // and reports it as ambiguous, and the transport has not been called for it since.
  lemma AbandonedClaimIsReported(setting: Setting, states: seq<System>, events: seq<Event>, n: nat, m: nat, w: nat,
                                 id: string)
    requires IsRun(setting, states, events) && n <= m < |events| && events[m] == FindExecution(w)
    requires Abandoned(states[n], id) && states[n].executions[id].status == Claimed
    requires PcOf(states[m], w).Found? && PcOf(states[m], w).row.reservationId == id
    ensures var plan := PcOf(states[m], w).plan;
      Settles(states, events, m, w, plan, Disable,
              Run(plan.planId, plan.nextRunAt, AmbiguousExecution, Some(id), None, None))
    ensures states[n].sends <= states[m].sends
    ensures forall k :: |states[n].sends| <= k < |states[m].sends| ==> states[m].sends[k].reservationId != id
  {
    hide IsRun, Settles, Next, Enabled;
    RunStep(setting, states, events, m);
    AbandonedClaimStays(setting, states, events, n, m, id);
    assert id in states[m].executions && states[m].executions[id].status == Claimed;
    hide Untouched;
    FoundExecutionDecides(setting, states, events, m, w);
  }

  // A slot that failed is given up: the plan advances and the failure is recorded. A reservation that
  // another client executes leaves plans and runs alone.
  ghost predicate GivenUp(states: seq<System>, events: seq<Event>, n: nat, w: nat, context: Context, row: Reservation)
    requires |states| == |events| + 1 && n < |events|
  {
    match context
    case Direct => PcOf(states[n + 1], w) == Idle
    case ForSlot(plan) =>
      Settles(states, events, n, w, plan, Advance,
              Run(plan.planId, plan.nextRunAt, RunFailed, Some(row.reservationId), None, None))
  }

  ghost predicate CarriedOut(states: seq<System>, events: seq<Event>, n: nat, w: nat, context: Context,
                             row: Reservation, receiptId: string)
    requires |states| == |events| + 1 && n < |events|
  {
    match context
    case Direct => PcOf(states[n + 1], w) == Idle
    case ForSlot(plan) =>
      Settles(states, events, n, w, plan, Advance,
              Run(plan.planId, plan.nextRunAt, RunCompleted, Some(row.reservationId), Some(receiptId), None))
  }

  lemma FailureIsGivenUp(setting: Setting, states: seq<System>, events: seq<Event>, n: nat, w: nat,
                         context: Context, row: Reservation)
    requires IsRun(setting, states, events) && n < |events|
    requires context.ForSlot? ==> context.plan.planId in states[n + 1].plans
    requires PcOf(states[n + 1], w) == AfterFailure(context, row)
    ensures GivenUp(states, events, n, w, context, row)
  {
    hide IsRun, Settles;
    match context
    case Direct =>
    case ForSlot(plan) =>
      MovingSettles(setting, states, events, n, w, plan, Advance,
                    Run(plan.planId, plan.nextRunAt, RunFailed, Some(row.reservationId), None, None));
  }

  // Before the transport is called: an outdated binding or a claim that exists already ends the
  // attempt, and otherwise exactly the claim is stored.
  lemma ClaimComesFirst(setting: Setting, states: seq<System>, events: seq<Event>, n: nat, w: nat)
    requires IsRun(setting, states, events) && n < |events|
    requires events[n] == CheckBinding(w) || events[n] == Acquisition.Claim(w)
    ensures
      var s, t, pc := states[n], states[n + 1], PcOf(states[n], w);
      && t.sends == s.sends && t.receipts == s.receipts && t.plans == s.plans && t.runs == s.runs
      && (events[n] == CheckBinding(w) ==>
           && pc.Executing? && t.executions == s.executions
           && var policies, row := s.policies, pc.row;
              if && row.sourceId in policies && policies[row.sourceId].policy.approved
                 && policies[row.sourceId].policy.sourceId == pc.snapshot.policy.sourceId == row.sourceId
                 && policies[row.sourceId].version == pc.snapshot.version == row.policyVersion
                 && policies[row.sourceId].hash == pc.snapshot.hash == row.snapshotHash
                 && row.attempt <= policies[row.sourceId].policy.maxAttempts
                 && setting.check(policies[row.sourceId].policy, row.url, row.httpMethod) then
                PcOf(t, w) == Bound(pc.context, policies[row.sourceId], row)
              else GivenUp(states, events, n, w, pc.context, row))
      && (events[n] == Acquisition.Claim(w) ==>
           && pc.Bound?
           && if pc.row.reservationId in s.executions then
                t.executions == s.executions && GivenUp(states, events, n, w, pc.context, pc.row)
              else
                && t.executions == s.executions[pc.row.reservationId := Execution(Claimed, None)]
                && PcOf(t, w) == Holding(pc.context, pc.current, pc.row))
  {
    assert IsStep(setting, states, events, n);
    var s, pc := states[n], PcOf(states[n], w);
    if pc.context.ForSlot? {
      PlanIsKnown(setting, states, events, n, w, pc.context.plan);
    }
    hide IsRun, GivenUp, AfterFailure;
    if events[n] == CheckBinding(w) && !BindingHolds(setting, s.policies, pc.snapshot, pc.row) {
      FailureIsGivenUp(setting, states, events, n, w, pc.context, pc.row);
    }
    if events[n] == Acquisition.Claim(w) && pc.row.reservationId in s.executions {
      FailureIsGivenUp(setting, states, events, n, w, pc.context, pc.row);
    }
  }

  // The call: one send, and then a response or a transport error; a response is stored under the
  // reservation it answers, or a capture error noted.
  lemma ResponseIsCaptured(setting: Setting, states: seq<System>, events: seq<Event>, n: nat, w: nat)
    requires IsRun(setting, states, events) && n < |events|
    requires (events[n].CallTransport? || events[n].Capture?) && events[n].w == w
    ensures
      var s, t, pc, e := states[n], states[n + 1], PcOf(states[n], w), events[n];
      && t.executions == s.executions && t.plans == s.plans && t.runs == s.runs
      && (e.CallTransport? ==>
           && pc.Holding? && t.sends == s.sends + [Send(pc.row.reservationId, pc.context)] && t.receipts == s.receipts
           && (e.outcome.Some? ==> PcOf(t, w) == Answered(pc.context, pc.row, e.outcome.value))
           && (e.outcome.None? ==> PcOf(t, w) == Erring(pc.context, pc.row, TransportError)))
      && (e.Capture? ==>
           && pc.Answered? && t.sends == s.sends
           && (e.receiptId.Some? ==>
                && PcOf(t, w) == Stored(pc.context, pc.row, e.receiptId.value)
                && t.receipts == s.receipts
                                 + [Receipt(e.receiptId.value, pc.row.sourceId, Some(pc.row.key), pc.row.url,
                                            pc.row.attempt, pc.response.statusCode, pc.response.receivedAt,
                                            e.storedAt, Some(pc.row.reservationId))])
           && (e.receiptId.None? ==>
                t.receipts == s.receipts && PcOf(t, w) == Erring(pc.context, pc.row, CaptureError)))
  {
    assert IsStep(setting, states, events, n);
    hide IsRun;
  }

  // The end: the execution is marked with what happened, and the slot is recorded as completed with
  // its receipt or given up; whatever breaks off in between gives the slot up and leaves the mark as
  // it is.
  lemma ExecutionIsSettled(setting: Setting, states: seq<System>, events: seq<Event>, n: nat, w: nat)
    requires IsRun(setting, states, events) && n < |events|
    requires events[n] == Acquisition.Finish(w) || events[n] == Fault(w)
    ensures
      var s, t, pc := states[n], states[n + 1], PcOf(states[n], w);
      && t.sends == s.sends && t.receipts == s.receipts && t.plans == s.plans && t.runs == s.runs
      && (events[n] == Fault(w) ==>
           && (pc.Executing? || pc.Bound? || pc.Holding? || pc.Answered? || pc.Stored? || pc.Erring?)
           && t.executions == s.executions && GivenUp(states, events, n, w, pc.context, pc.row))
      && (events[n] == Acquisition.Finish(w) ==>
           && (pc.Stored? || pc.Erring?) && pc.row.reservationId in s.executions
           && (pc.Stored? ==>
                && t.executions == s.executions[pc.row.reservationId := Execution(Completed, Some(pc.receiptId))]
                && CarriedOut(states, events, n, w, pc.context, pc.row, pc.receiptId))
           && (pc.Erring? ==>
                && t.executions == s.executions[pc.row.reservationId := Execution(pc.error, None)]
                && GivenUp(states, events, n, w, pc.context, pc.row)))
  {
    assert IsStep(setting, states, events, n);
    var s, pc := states[n], PcOf(states[n], w);
    if pc.context.ForSlot? {
      PlanIsKnown(setting, states, events, n, w, pc.context.plan);
    }
    ClaimIsOnRecord(setting, states, events, n, w);
    hide IsRun, GivenUp, AfterFailure, Settles;
    if events[n] == Fault(w) || pc.Erring? {
      FailureIsGivenUp(setting, states, events, n, w, pc.context, pc.row);
    } else if pc.context.ForSlot? {
      var plan := pc.context.plan;
      MovingSettles(setting, states, events, n, w, plan, Advance,
                    Run(plan.planId, plan.nextRunAt, RunCompleted, Some(pc.row.reservationId), Some(pc.receiptId),
                        None));
    }
  }

  lemma ClaimIsOnRecord(setting: Setting, states: seq<System>, events: seq<Event>, n: nat, w: nat)
    requires IsRun(setting, states, events) && n < |events|
    ensures var pc := PcOf(states[n], w); pc.Stored? || pc.Erring? ==> pc.row.reservationId in states[n].executions
  {
    InvHolds(setting, states, events, n);
    ExistingFitsIfKnown(states[n], w, setting);
    hide IsRun, Inv, ContextFits, HasReceipt;
  }

  // What happens around a worker's slots. A crash loses the worker's round and nothing that is stored;
  // a client that executes a reservation of its own starts from a row there is; operators change one
  // plan or one policy; and a reservation made by anyone else is granted or refused as any other.
  lemma SurroundingSteps(setting: Setting, states: seq<System>, events: seq<Event>, n: nat)
    requires IsRun(setting, states, events) && n < |events|
    ensures
      var s, t := states[n], states[n + 1];
      match events[n]
      case Crash(w) => t == s.(workers := s.workers[w := Worker([], 0, Idle)])
      case Execute(w, row, snapshot) =>
        && row in s.rows && PcOf(s, w) == Idle && PcOf(t, w) == Executing(Direct, snapshot, row)
        && t == s.(workers := t.workers)
      case CreatePlan(plan) => plan.planId !in s.plans && t == s.(plans := s.plans[plan.planId := plan])
      case SwitchPlan(planId, enabled) =>
        t == s.(plans := if planId in s.plans then s.plans[planId := s.plans[planId].(enabled := enabled)] else s.plans)
      case ChangePolicy(source, snapshot) =>
        snapshot.policy.sourceId == source && t == s.(policies := s.policies[source := snapshot])
      case ReserveOther(snapshot, request, receipts, now, id) =>
        && (forall row :: row in s.rows ==> row.reservationId != id)
        && t == s.(rows := match Decide(setting.check, s.rows, snapshot, request, receipts, now, id)
                           case Allowed(row) => s.rows + [row]
                           case Refused(_, _, _) => s.rows)
      case _ => true
  {
    RunStep(setting, states, events, n);
    hide IsRun, Decide;
  }
}
