// Over every interleaving of workers and every crash, a slot's transport is called at most once.
module AcquisitionTheorems {
  import opened Outcomes
  import opened Scheduler
  import opened Acquisition

  // ---------------------------------------------------------------- what a state satisfies

  ghost predicate HasReceipt(s: System, receiptId: string, id: string) {
    exists receipt :: receipt in s.receipts && receipt.receiptId == receiptId && receipt.reservationId == Some(id)
  }

  ghost predicate KnownPlan(s: System, plan: Plan) {
    && plan.planId in s.plans && s.plans[plan.planId].sourceId == plan.sourceId
    && ':' !in plan.planId
  }

  ghost predicate SlotRow(setting: Setting, plan: Plan, row: Reservation) {
    row.sourceId == plan.sourceId && row.key == SlotKey(setting, plan) && row.attempt == 1
  }

  ghost predicate ContextFits(setting: Setting, s: System, context: Context, row: Reservation) {
    && row in s.rows
    && (context.ForSlot? ==> KnownPlan(s, context.plan) && SlotRow(setting, context.plan, row))
  }

  // A run that is recorded as completed names a stored receipt of its own reservation.
  ghost predicate RunFits(s: System, run: Run) {
    run.status == RunCompleted ==>
      run.reservationId.Some? && run.receiptId.Some? && HasReceipt(s, run.receiptId.value, run.reservationId.value)
  }

  predicate Owns(pc: Pc) {
    pc.Holding? || pc.Answered? || pc.Stored? || pc.Erring?
  }

  predicate OwnsId(pc: Pc, id: string) {
    Owns(pc) && pc.row.reservationId == id
  }

  ghost predicate LatestFits(plan: Plan, latest: Snapshot) {
    latest.policy.sourceId == plan.sourceId
  }

  ghost predicate PcFits(setting: Setting, s: System, pc: Pc) {
    match pc
    case Idle => true
    case Picked(plan) => KnownPlan(s, plan)
    case Checked(plan, latest) => KnownPlan(s, plan) && LatestFits(plan, latest)
    case Absent(plan, latest) => KnownPlan(s, plan) && LatestFits(plan, latest)
    case Found(plan, _, row) => ContextFits(setting, s, ForSlot(plan), row)
    case Executing(context, _, row) => ContextFits(setting, s, context, row)
    case Bound(context, _, row) => ContextFits(setting, s, context, row)
    case Holding(context, _, row) => ContextFits(setting, s, context, row) && row.reservationId in s.executions
    case Answered(context, row, _) => ContextFits(setting, s, context, row) && row.reservationId in s.executions
    case Stored(context, row, receiptId) =>
      && ContextFits(setting, s, context, row) && row.reservationId in s.executions
      && HasReceipt(s, receiptId, row.reservationId)
    case Erring(context, row, error) =>
      ContextFits(setting, s, context, row) && row.reservationId in s.executions && error != Completed
    case Moving(plan, _, run) => RunFits(s, run)
    case Recording(run) => RunFits(s, run)
  }

  ghost predicate WorkerFits(setting: Setting, s: System, worker: Worker) {
    PcFits(setting, s, worker.pc) && forall plan :: plan in worker.queue ==> KnownPlan(s, plan)
  }

  ghost predicate Unsent(s: System, id: string) {
    forall send :: send in s.sends ==> send.reservationId != id
  }

  ghost predicate HoldingIsUnsent(s: System, pc: Pc) {
    pc.Holding? ==> Unsent(s, pc.row.reservationId)
  }

  ghost predicate Apart(a: Pc, b: Pc) {
    Owns(a) && Owns(b) ==> a.row.reservationId != b.row.reservationId
  }

  ghost predicate WorkersFit(setting: Setting, s: System) {
    && (forall w :: w in s.workers ==> WorkerFits(setting, s, s.workers[w]))
    && (forall w :: w in s.workers ==> HoldingIsUnsent(s, s.workers[w].pc))
    && (forall v, w :: v in s.workers && w in s.workers && v != w ==> Apart(s.workers[v].pc, s.workers[w].pc))
  }

  ghost predicate Differ(a: Reservation, b: Reservation) {
    && a.reservationId != b.reservationId
    && (a.sourceId != b.sourceId || a.key != b.key || a.attempt != b.attempt)
  }

  ghost predicate RowsDiffer(rows: seq<Reservation>) {
    forall i, j :: 0 <= i < j < |rows| ==> Differ(rows[i], rows[j])
  }

  ghost predicate SendFits(setting: Setting, s: System, send: Send) {
    && send.reservationId in s.executions
    && exists row: Reservation :: row.reservationId == send.reservationId && ContextFits(setting, s, send.context, row)
  }

  ghost predicate SendsFit(setting: Setting, s: System) {
    && (forall send :: send in s.sends ==> SendFits(setting, s, send))
    && (forall i, j :: 0 <= i < j < |s.sends| ==> s.sends[i].reservationId != s.sends[j].reservationId)
  }

  ghost predicate ExecutionFits(s: System, id: string)
    requires id in s.executions
  {
    s.executions[id].status == Completed ==>
      s.executions[id].receiptId.Some? && HasReceipt(s, s.executions[id].receiptId.value, id)
  }

  ghost predicate TablesFit(s: System) {
    && RowsDiffer(s.rows)
    && (forall source :: source in s.policies ==> s.policies[source].policy.sourceId == source)
    && (forall id :: id in s.plans ==> s.plans[id].planId == id && ':' !in id)
    && (forall id :: id in s.executions ==> ExecutionFits(s, id))
    && (forall run :: run in s.runs ==> RunFits(s, run))
  }

  ghost predicate Inv(setting: Setting, s: System) {
    TablesFit(s) && SendsFit(setting, s) && WorkersFit(setting, s)
  }

  // ---------------------------------------------------------------- growth keeps facts

  // No step takes anything away from these tables.
  ghost predicate Grows(s: System, t: System) {
    && (forall row :: row in s.rows ==> row in t.rows)
    && (forall receipt :: receipt in s.receipts ==> receipt in t.receipts)
    && s.executions.Keys <= t.executions.Keys
    && (forall id :: id in s.plans ==> id in t.plans && t.plans[id].sourceId == s.plans[id].sourceId)
  }

  lemma PcFitsLater(setting: Setting, s: System, t: System, pc: Pc)
    requires Grows(s, t) && PcFits(setting, s, pc)
    ensures PcFits(setting, t, pc)
  {
    hide SlotRow, LatestFits;
  }

  lemma WorkerFitsLater(setting: Setting, s: System, t: System, worker: Worker)
    requires Grows(s, t) && WorkerFits(setting, s, worker)
    ensures WorkerFits(setting, t, worker)
  {
    PcFitsLater(setting, s, t, worker.pc);
    hide PcFits;
  }

  lemma SendFitsLater(setting: Setting, s: System, t: System, send: Send)
    requires Grows(s, t) && SendFits(setting, s, send)
    ensures SendFits(setting, t, send)
  {
    hide SlotRow;
    var row: Reservation :| row.reservationId == send.reservationId && ContextFits(setting, s, send.context, row);
    assert ContextFits(setting, t, send.context, row);
  }

  lemma RunFitsLater(s: System, t: System, run: Run)
    requires Grows(s, t) && RunFits(s, run)
    ensures RunFits(t, run)
  {
  }

  // A step that changes at most worker `w`, in a way its new position allows, keeps the workers fit.
  lemma WorkersStayFit(setting: Setting, s: System, t: System, w: nat, worker: Worker)
    requires WorkersFit(setting, s) && Grows(s, t)
    requires t.workers == s.workers[w := worker] && WorkerFits(setting, t, worker)
    requires HoldingIsUnsent(t, worker.pc)
    requires forall v :: v in s.workers && v != w && HoldingIsUnsent(s, s.workers[v].pc) ==>
        HoldingIsUnsent(t, s.workers[v].pc)
    requires forall v :: v in s.workers && v != w ==> Apart(s.workers[v].pc, worker.pc)
    ensures WorkersFit(setting, t)
  {
    forall v | v in t.workers ensures WorkerFits(setting, t, t.workers[v]) {
      hide PcFits, Grows, WorkerFits, Apart, HoldingIsUnsent;
      if v != w {
        WorkerFitsLater(setting, s, t, s.workers[v]);
      }
    }
    hide WorkerFits, HoldingIsUnsent, Grows;
    forall u, v | u in t.workers && v in t.workers && u != v ensures Apart(t.workers[u].pc, t.workers[v].pc) {
      if u != w && v != w {
        assert Apart(s.workers[u].pc, s.workers[v].pc);
      } else if v == w {
        assert Apart(s.workers[u].pc, worker.pc);
      } else {
        assert Apart(s.workers[v].pc, worker.pc);
      }
    }
  }

  lemma TablesStayFit(s: System, t: System)
    requires TablesFit(s) && Grows(s, t)
    requires t.executions == s.executions && t.runs == s.runs && t.policies == s.policies
    requires t.plans == s.plans && t.rows == s.rows
    ensures TablesFit(t)
  {
    forall id | id in t.executions ensures ExecutionFits(t, id) {
      hide RunFits;
      assert ExecutionFits(s, id);
    }
    forall run | run in t.runs ensures RunFits(t, run) {
      RunFitsLater(s, t, run);
    }
    hide ExecutionFits, RunFits, RowsDiffer;
  }

  lemma SendsStayFit(setting: Setting, s: System, t: System)
    requires SendsFit(setting, s) && Grows(s, t) && t.sends == s.sends
    ensures SendsFit(setting, t)
  {
    forall send | send in t.sends ensures SendFits(setting, t, send) {
      SendFitsLater(setting, s, t, send);
    }
  }

  // ---------------------------------------------------------------- every step keeps the invariant

  function WorkerOf(s: System, w: nat): Worker {
    if w in s.workers then s.workers[w] else Worker([], 0, Idle)
  }

  // A worker that is not at its transport call moves on without touching a table.
  lemma MoveKeepsInv(setting: Setting, s: System, w: nat, worker: Worker)
    requires Inv(setting, s) && WorkerFits(setting, s, worker) && !worker.pc.Holding?
    requires Owns(worker.pc) ==> OwnsId(PcOf(s, w), worker.pc.row.reservationId)
    ensures Inv(setting, s.(workers := s.workers[w := worker]))
  {
    var t := s.(workers := s.workers[w := worker]);
    hide RunFits, RowsDiffer, SlotRow;
    TablesStayFit(s, t);
    SendsStayFit(setting, s, t);
    WorkerFitsLater(setting, s, t, worker);
    hide TablesFit, SendsFit, WorkerFits;
    OwnershipMoves(setting, s, w, worker.pc);
    WorkersStayFit(setting, s, t, w, worker);
  }

  // No other worker owns what worker `w` owned, nor what nobody has claimed yet.
  lemma OwnershipMoves(setting: Setting, s: System, w: nat, pc: Pc)
    requires WorkersFit(setting, s)
    requires Owns(pc) ==> OwnsId(PcOf(s, w), pc.row.reservationId) || pc.row.reservationId !in s.executions
    ensures forall v :: v in s.workers && v != w ==> Apart(s.workers[v].pc, pc)
  {
    forall v | v in s.workers && v != w ensures Apart(s.workers[v].pc, pc) {
      assert WorkerFits(setting, s, s.workers[v]);
      if w in s.workers {
        assert Apart(s.workers[v].pc, s.workers[w].pc);
      }
      hide WorkersFit, ContextFits, HasReceipt;
    }
  }

  lemma FindsSlotRow(setting: Setting, s: System, plan: Plan)
    ensures var found := FirstAttempt(s.rows, plan.sourceId, SlotKey(setting, plan));
            found.Some? ==> found.value in s.rows && SlotRow(setting, plan, found.value)
  {
    FirstAttemptIs(s.rows, plan.sourceId, SlotKey(setting, plan));
  }

  lemma {:induction false} FirstAttemptIs(rows: seq<Reservation>, source: string, key: string)
    ensures var found := FirstAttempt(rows, source, key);
            && (found.Some? ==> found.value in rows && IsFirstAttempt(found.value, source, key))
            && (found.None? ==> forall row :: row in rows ==> !IsFirstAttempt(row, source, key))
  {
    if rows != [] {
      FirstAttemptIs(rows[..|rows| - 1], source, key);
    }
  }

  ghost predicate IsFirstAttempt(row: Reservation, source: string, key: string) {
    row.sourceId == source && row.key == key && row.attempt == 1
  }

  lemma ExistingFitsIfKnown(s: System, w: nat, setting: Setting)
    requires WorkersFit(setting, s)
    ensures WorkerFits(setting, s, WorkerOf(s, w)) && PcFits(setting, s, PcOf(s, w))
  {
    hide PcFits;
    if w !in s.workers {
      IdleFits(setting, s);
    }
  }

  lemma IdleFits(setting: Setting, s: System)
    ensures PcFits(setting, s, Idle)
  {
  }

  lemma GoesKeepsInv(setting: Setting, s: System, w: nat, pc: Pc)
    requires Inv(setting, s) && PcFits(setting, s, pc) && !Owns(pc)
    ensures Inv(setting, Goes(s, w, pc))
  {
    ExistingFitsIfKnown(s, w, setting);
    hide Inv, PcFits;
    MoveKeepsInv(setting, s, w, WorkerOf(s, w).(pc := pc));
  }

  lemma FailureFits(setting: Setting, s: System, context: Context, row: Reservation)
    ensures PcFits(setting, s, AfterFailure(context, row)) && !Owns(AfterFailure(context, row))
  {
  }

  lemma CheckPolicyKeepsInv(setting: Setting, s: System, e: Event)
    requires Inv(setting, s) && Enabled(s, e) && e.CheckPolicy?
    ensures Inv(setting, Next(setting, s, e))
  {
    var pc := PcOf(s, e.w);
    ExistingFitsIfKnown(s, e.w, setting);
    assert TablesFit(s);
    hide Inv, Goes, KnownPlan;
    GoesKeepsInv(setting, s, e.w, AfterPolicy(s, pc.plan, e.hasTransport));
  }

  lemma FindReservationKeepsInv(setting: Setting, s: System, e: Event)
    requires Inv(setting, s) && Enabled(s, e) && e.FindReservation?
    ensures Inv(setting, Next(setting, s, e))
  {
    var pc := PcOf(s, e.w);
    ExistingFitsIfKnown(s, e.w, setting);
    FindsSlotRow(setting, s, pc.plan);
    var found := FirstAttempt(s.rows, pc.plan.sourceId, SlotKey(setting, pc.plan));
    hide Inv, Goes, KnownPlan, SlotRow, FirstAttempt, SlotKey;
    GoesKeepsInv(setting, s, e.w,
                 if found.Some? then Found(pc.plan, pc.latest, found.value) else Absent(pc.plan, pc.latest));
  }

  lemma FindExecutionKeepsInv(setting: Setting, s: System, e: Event)
    requires Inv(setting, s) && Enabled(s, e) && e.FindExecution?
    ensures Inv(setting, Next(setting, s, e))
  {
    var pc := PcOf(s, e.w);
    ExistingFitsIfKnown(s, e.w, setting);
    assert pc.row.reservationId in s.executions ==> ExecutionFits(s, pc.row.reservationId);
    hide Inv, Goes, KnownPlan, SlotRow, HasReceipt;
    GoesKeepsInv(setting, s, e.w, AfterFindExecution(s, pc.plan, pc.latest, pc.row));
  }

  lemma CheckBindingKeepsInv(setting: Setting, s: System, e: Event)
    requires Inv(setting, s) && Enabled(s, e) && e.CheckBinding?
    ensures Inv(setting, Next(setting, s, e))
  {
    var pc := PcOf(s, e.w);
    ExistingFitsIfKnown(s, e.w, setting);
    FailureFits(setting, s, pc.context, pc.row);
    hide Inv, Goes, ContextFits;
    if BindingHolds(setting, s.policies, pc.snapshot, pc.row) {
      GoesKeepsInv(setting, s, e.w, Bound(pc.context, s.policies[pc.row.sourceId], pc.row));
    } else {
      GoesKeepsInv(setting, s, e.w, AfterFailure(pc.context, pc.row));
    }
  }

  lemma OtherMovesKeepInv(setting: Setting, s: System, e: Event)
    requires Inv(setting, s) && Enabled(s, e)
    requires e.Poll? || e.Begin? || e.Execute? || e.Fault? || e.Crash?
    ensures Inv(setting, Next(setting, s, e))
  {
    ExistingFitsIfKnown(s, e.w, setting);
    assert TablesFit(s);
    hide Inv, SlotRow, HasReceipt, AfterFailure, RowsDiffer, ExecutionFits, RunFits;
    match e
    case Poll(w, now, due) => MoveKeepsInv(setting, s, w, Worker(due, now, Idle));
    case Begin(w) =>
      var worker := s.workers[w];
      MoveKeepsInv(setting, s, w, Worker(worker.queue[1..], worker.now, Picked(worker.queue[0])));
    case Execute(w, row, snapshot) => GoesKeepsInv(setting, s, w, Executing(Direct, snapshot, row));
    case Crash(w) => MoveKeepsInv(setting, s, w, Worker([], 0, Idle));
    case Fault(w) =>
      FailureFits(setting, s, PcOf(s, w).context, PcOf(s, w).row);
      GoesKeepsInv(setting, s, w, AfterFailure(PcOf(s, w).context, PcOf(s, w).row));
  }

  // ---- reservations

  lemma GrantDiffers(check: RequestCheck, rows: seq<Reservation>, snapshot: Snapshot, request: Request,
                     receipts: seq<Receipt>, now: int, id: string)
    requires RowsDiffer(rows) && forall row :: row in rows ==> row.reservationId != id
    ensures RowsDiffer(rows + Granted(Decide(check, rows, snapshot, request, receipts, now, id)))
  {
    var decision := Decide(check, rows, snapshot, request, receipts, now, id);
    var more := rows + Granted(decision);
    hide BackoffUntil, RateLimitUntil, Precheck;
    forall i, j | 0 <= i < j < |more| ensures Differ(more[i], more[j]) {
      if j < |rows| {
        assert Differ(rows[i], rows[j]);
      } else {
        assert more[i] == rows[i] && rows[i] in rows && more[j] == decision.reservation;
      }
    }
  }

  lemma MoreRowsKeepInv(setting: Setting, s: System, rows: seq<Reservation>)
    requires Inv(setting, s) && RowsDiffer(rows) && forall row :: row in s.rows ==> row in rows
    ensures Inv(setting, s.(rows := rows))
  {
    var t := s.(rows := rows);
    TablesFitWithRows(s, rows);
    SendsStayFit(setting, s, t);
    AllWorkersFitLater(setting, s, t);
  }

  lemma TablesFitWithRows(s: System, rows: seq<Reservation>)
    requires TablesFit(s) && RowsDiffer(rows)
    ensures TablesFit(s.(rows := rows))
  {
    hide RowsDiffer;
    forall id | id in s.executions ensures ExecutionFits(s.(rows := rows), id) {
      assert ExecutionFits(s, id);
    }
  }

  // A step that changes no worker.
  lemma AllWorkersFitLater(setting: Setting, s: System, t: System)
    requires WorkersFit(setting, s) && Grows(s, t) && t.workers == s.workers && t.sends == s.sends
    ensures WorkersFit(setting, t)
  {
    forall w | w in t.workers ensures WorkerFits(setting, t, t.workers[w]) && HoldingIsUnsent(t, t.workers[w].pc) {
      assert HoldingIsUnsent(s, s.workers[w].pc);
      hide PcFits, Grows, WorkerFits, Apart;
      WorkerFitsLater(setting, s, t, s.workers[w]);
    }
    hide WorkerFits, HoldingIsUnsent, Grows, Apart;
  }

  lemma ReserveOtherKeepsInv(setting: Setting, s: System, e: Event)
    requires Inv(setting, s) && Enabled(s, e) && e.ReserveOther?
    ensures Inv(setting, Next(setting, s, e))
  {
    var rows := s.rows + Granted(Decide(setting.check, s.rows, e.snapshot, e.request, e.receipts, e.now, e.id));
    hide Decide, Granted, WorkersFit, SendsFit, RowsDiffer;
    GrantDiffers(setting.check, s.rows, e.snapshot, e.request, e.receipts, e.now, e.id);
    MoreRowsKeepInv(setting, s, rows);
  }

  lemma SlotGrantFits(setting: Setting, s: System, w: nat, plan: Plan, latest: Snapshot, id: string)
    requires LatestFits(plan, latest)
    ensures var decision := DecideSlot(setting, s, w, plan, latest, id);
            decision.Allowed? ==> SlotRow(setting, plan, decision.reservation)
  {
    hide BackoffUntil, RateLimitUntil, Precheck, Duplicate, SlotKey;
  }

  lemma ReserveKeepsInv(setting: Setting, s: System, e: Event)
    requires Inv(setting, s) && Enabled(s, e) && e.Reserve?
    ensures Inv(setting, Next(setting, s, e))
  {
    var pc := PcOf(s, e.w);
    ExistingFitsIfKnown(s, e.w, setting);
    var decision := DecideSlot(setting, s, e.w, pc.plan, pc.latest, e.id);
    var t := s.(rows := s.rows + Granted(decision));
    GrantDiffers(setting.check, s.rows, pc.latest, SlotRequest(setting, pc.plan, pc.latest),
                 ReceiptsOf(s.receipts, pc.plan.sourceId), NowOf(s, e.w), e.id);
    SlotGrantFits(setting, s, e.w, pc.plan, pc.latest, e.id);
    hide Inv, RowsDiffer, SlotRow, Decide, DecideSlot, SlotRequest, ReceiptsOf;
    assert RowsDiffer(s.rows + Granted(decision)) by { DecisionIs(setting, s, e.w, pc.plan, pc.latest, e.id); }
    MoreRowsKeepInv(setting, s, t.rows);
    assert PcFits(setting, t, AfterReserve(pc.plan, pc.latest, decision));
    hide PcFits, AfterReserve;
    NeverOwns(pc.plan, pc.latest, decision);
    GoesKeepsInv(setting, t, e.w, AfterReserve(pc.plan, pc.latest, decision));
  }

  lemma NeverOwns(plan: Plan, latest: Snapshot, decision: Decision)
    ensures !Owns(AfterReserve(plan, latest, decision))
  {
  }

  lemma DecisionIs(setting: Setting, s: System, w: nat, plan: Plan, latest: Snapshot, id: string)
    ensures DecideSlot(setting, s, w, plan, latest, id) ==
              Decide(setting.check, s.rows, latest, SlotRequest(setting, plan, latest),
                     ReceiptsOf(s.receipts, plan.sourceId), NowOf(s, w), id)
  {
    hide Decide, SlotRequest, ReceiptsOf;
  }

  // ---- executions

  // A step of worker `w` that leaves the sends alone.
  lemma StepKeepsInv(setting: Setting, s: System, t: System, w: nat, pc: Pc)
    requires Inv(setting, s) && Grows(s, t) && TablesFit(t) && t.sends == s.sends
    requires t.workers == s.workers && PcFits(setting, t, pc)
    requires Owns(pc) ==> OwnsId(PcOf(s, w), pc.row.reservationId) || pc.row.reservationId !in s.executions
    requires HoldingIsUnsent(s, pc)
    ensures Inv(setting, Goes(t, w, pc))
  {
    var worker := WorkerOf(s, w).(pc := pc);
    var u := Goes(t, w, pc);
    assert u == t.(workers := t.workers[w := worker]);
    SendsStayFit(setting, s, u);
    OwnershipMoves(setting, s, w, pc);
    ExistingFitsIfKnown(s, w, setting);
    assert WorkerFits(setting, u, worker) by {
      WorkerFitsLater(setting, s, t, WorkerOf(s, w));
      WorkerFitsLater(setting, t, u, worker);
    }
    assert TablesFit(u) by { TablesStayFit(t, u); }
    hide TablesFit, SendsFit, WorkerFits, Apart, PcFits;
    WorkersStayFit(setting, s, u, w, worker);
  }

  lemma ClaimKeepsInv(setting: Setting, s: System, e: Event)
    requires Inv(setting, s) && Enabled(s, e) && e.Claim?
    ensures Inv(setting, Next(setting, s, e))
  {
    var pc := PcOf(s, e.w);
    var id := pc.row.reservationId;
    ExistingFitsIfKnown(s, e.w, setting);
    if id in s.executions {
      FailureFits(setting, s, pc.context, pc.row);
      hide Inv, PcFits, Goes;
      GoesKeepsInv(setting, s, e.w, AfterFailure(pc.context, pc.row));
    } else {
      var t := s.(executions := s.executions[id := Execution(Claimed, None)]);
      ExecutionsFitAfter(s, id, Execution(Claimed, None));
      assert Unsent(s, id);
      hide Inv, TablesFit, SendsFit, WorkersFit, SlotRow, Goes;
      StepKeepsInv(setting, s, t, e.w, Holding(pc.context, pc.current, pc.row));
    }
  }

  lemma ExecutionsFitAfter(s: System, id: string, execution: Execution)
    requires TablesFit(s)
    requires execution.status == Completed ==> execution.receiptId.Some? && HasReceipt(s, execution.receiptId.value, id)
    ensures TablesFit(s.(executions := s.executions[id := execution]))
  {
    var t := s.(executions := s.executions[id := execution]);
    hide RowsDiffer;
    forall other | other in t.executions ensures ExecutionFits(t, other) {
      if other != id {
        assert ExecutionFits(s, other);
      }
    }
    forall run | run in t.runs ensures RunFits(t, run) {
      RunFitsLater(s, t, run);
    }
  }

  lemma FinishKeepsInv(setting: Setting, s: System, e: Event)
    requires Inv(setting, s) && Enabled(s, e) && e.Finish?
    ensures Inv(setting, Next(setting, s, e))
  {
    var pc := PcOf(s, e.w);
    var id := pc.row.reservationId;
    ExistingFitsIfKnown(s, e.w, setting);
    var last := if pc.Stored? then Execution(Completed, Some(pc.receiptId)) else Execution(pc.error, None);
    ExecutionsFitAfter(s, id, last);
    FinishIs(setting, s, e, last);
    FinishedFits(setting, s, pc, last);
    hide Inv, TablesFit, SendsFit, WorkersFit, SlotRow, Goes, Next, Enabled, AfterFinish, PcFits;
    StepKeepsInv(setting, s, s.(executions := s.executions[id := last]), e.w, AfterFinish(pc));
  }

  function AfterFinish(pc: Pc): Pc
    requires pc.Stored? || pc.Erring?
  {
    if pc.Stored? then AfterSuccess(pc.context, pc.row, pc.receiptId) else AfterFailure(pc.context, pc.row)
  }

  lemma FinishedFits(setting: Setting, s: System, pc: Pc, last: Execution)
    requires (pc.Stored? || pc.Erring?) && PcFits(setting, s, pc)
    ensures PcFits(setting, s.(executions := s.executions[pc.row.reservationId := last]), AfterFinish(pc))
    ensures !Owns(AfterFinish(pc))
  {
    hide ContextFits;
  }

  lemma FinishIs(setting: Setting, s: System, e: Event, last: Execution)
    requires Enabled(s, e) && e.Finish? && PcOf(s, e.w).row.reservationId in s.executions
    requires var pc := PcOf(s, e.w);
             last == if pc.Stored? then Execution(Completed, Some(pc.receiptId)) else Execution(pc.error, None)
    ensures Next(setting, s, e) ==
              Goes(s.(executions := s.executions[PcOf(s, e.w).row.reservationId := last]), e.w,
                  AfterFinish(PcOf(s, e.w)))
  {
    hide Goes, AfterSuccess, AfterFailure;
  }

  lemma CaptureKeepsInv(setting: Setting, s: System, e: Event)
    requires Inv(setting, s) && Enabled(s, e) && e.Capture?
    ensures Inv(setting, Next(setting, s, e))
  {
    var pc := PcOf(s, e.w);
    ExistingFitsIfKnown(s, e.w, setting);
    if e.receiptId.None? {
      hide Inv, TablesFit, SendsFit, WorkersFit, SlotRow, Goes;
      assert TablesFit(s) by { InvParts(setting, s); }
      StepKeepsInv(setting, s, s, e.w, Erring(pc.context, pc.row, CaptureError));
    } else {
      var receipt := StoredReceipt(pc.row, pc.response, e.receiptId.value, e.storedAt);
      var t := s.(receipts := s.receipts + [receipt]);
      TablesFitWithReceipt(s, receipt);
      assert receipt in t.receipts;
      hide Inv, TablesFit, SendsFit, WorkersFit, SlotRow, Goes;
      StepKeepsInv(setting, s, t, e.w, Stored(pc.context, pc.row, e.receiptId.value));
    }
  }

  lemma InvParts(setting: Setting, s: System)
    requires Inv(setting, s)
    ensures TablesFit(s) && SendsFit(setting, s) && WorkersFit(setting, s)
  {
  }

  lemma TablesFitWithReceipt(s: System, receipt: Receipt)
    requires TablesFit(s)
    ensures TablesFit(s.(receipts := s.receipts + [receipt]))
  {
    TablesStayFit(s, s.(receipts := s.receipts + [receipt]));
  }

  lemma TransportKeepsInv(setting: Setting, s: System, e: Event)
    requires Inv(setting, s) && Enabled(s, e) && e.CallTransport?
    ensures Inv(setting, Next(setting, s, e))
  {
    var pc := PcOf(s, e.w);
    var id := pc.row.reservationId;
    ExistingFitsIfKnown(s, e.w, setting);
    var onward := if e.outcome.Some? then Answered(pc.context, pc.row, e.outcome.value)
                else Erring(pc.context, pc.row, TransportError);
    var worker := WorkerOf(s, e.w).(pc := onward);
    var t := s.(sends := s.sends + [Send(id, pc.context)], workers := s.workers[e.w := worker]);
    assert e.w in s.workers && HoldingIsUnsent(s, pc);
    SentKeepsSendsFit(setting, s, t, pc);
    OwnershipMoves(setting, s, e.w, onward);
    assert forall v :: v in s.workers && v != e.w ==> Apart(s.workers[v].pc, s.workers[e.w].pc);
    assert TablesFit(t) by { TablesStayFit(s, t); }
    assert WorkerFits(setting, t, worker) by { WorkerFitsLater(setting, s, t, worker); }
    hide TablesFit, SendsFit, WorkerFits, PcFits;
    WorkersStayFit(setting, s, t, e.w, worker);
  }

  lemma SentKeepsSendsFit(setting: Setting, s: System, t: System, pc: Pc)
    requires SendsFit(setting, s) && Grows(s, t) && pc.Holding? && PcFits(setting, s, pc)
    requires Unsent(s, pc.row.reservationId) && t.sends == s.sends + [Send(pc.row.reservationId, pc.context)]
    ensures SendsFit(setting, t)
  {
    var last := Send(pc.row.reservationId, pc.context);
    assert SendFits(setting, s, last) by {
      assert ContextFits(setting, s, last.context, pc.row);
    }
    hide PcFits, ContextFits;
    forall send | send in t.sends ensures SendFits(setting, t, send) {
      hide Grows, SendFits;
      SendFitsLater(setting, s, t, send);
    }
    forall i | 0 <= i < |s.sends| ensures s.sends[i].reservationId != last.reservationId {
      assert s.sends[i] in s.sends;
    }
  }

  // ---- plans, runs and policies

  lemma PlansKeepInv(setting: Setting, s: System, plans: Plans)
    requires Inv(setting, s) && Grows(s, s.(plans := plans))
    requires forall id :: id in plans ==> plans[id].planId == id && ':' !in id
    ensures Inv(setting, s.(plans := plans))
  {
    var t := s.(plans := plans);
    assert TablesFit(t) by {
      hide RowsDiffer;
      forall id | id in t.executions ensures ExecutionFits(t, id) {
        assert ExecutionFits(s, id);
      }
    }
    SendsStayFit(setting, s, t);
    hide TablesFit, SendsFit;
    AllWorkersFitLater(setting, s, t);
  }

  lemma RescheduleKeepsInv(setting: Setting, s: System, e: Event)
    requires Inv(setting, s) && Enabled(s, e) && e.Reschedule?
    ensures Inv(setting, Next(setting, s, e))
  {
    var pc := PcOf(s, e.w);
    ExistingFitsIfKnown(s, e.w, setting);
    assert TablesFit(s);
    var plans := AfterMove(s, pc, e.next, e.offset);
    var t := s.(plans := plans);
    hide RowsDiffer, ExecutionFits, HasReceipt, SendsFit, WorkersFit;
    assert RunFits(t, pc.run);
    PlansKeepInv(setting, s, plans);
    hide Inv, Goes;
    GoesKeepsInv(setting, t, e.w, Recording(pc.run));
  }

  lemma RecordKeepsInv(setting: Setting, s: System, e: Event)
    requires Inv(setting, s) && Enabled(s, e) && e.Record?
    ensures Inv(setting, Next(setting, s, e))
  {
    var pc := PcOf(s, e.w);
    ExistingFitsIfKnown(s, e.w, setting);
    var t := s.(runs := s.runs + [pc.run]);
    assert TablesFit(t) by {
      hide RowsDiffer;
      forall id | id in t.executions ensures ExecutionFits(t, id) {
        assert ExecutionFits(s, id);
      }
    }
    hide Inv, Goes, TablesFit, RunFits;
    StepKeepsInv(setting, s, t, e.w, Idle);
  }

  lemma OperatorsKeepInv(setting: Setting, s: System, e: Event)
    requires Inv(setting, s) && Enabled(s, e)
    requires e.CreatePlan? || e.SwitchPlan? || e.ChangePolicy?
    ensures Inv(setting, Next(setting, s, e))
  {
    assert TablesFit(s);
    hide RowsDiffer, RunFits, SendsFit, WorkersFit;
    match e
    case CreatePlan(plan) => PlansKeepInv(setting, s, s.plans[plan.planId := plan]);
    case SwitchPlan(planId, enabled) => PlansKeepInv(setting, s, Switched(s.plans, planId, enabled));
    case ChangePolicy(source, snapshot) => PoliciesKeepInv(setting, s, source, snapshot);
  }

  lemma PoliciesKeepInv(setting: Setting, s: System, source: string, snapshot: Snapshot)
    requires Inv(setting, s) && snapshot.policy.sourceId == source
    ensures Inv(setting, s.(policies := s.policies[source := snapshot]))
  {
    var t := s.(policies := s.policies[source := snapshot]);
    assert TablesFit(t) by {
      hide RowsDiffer;
      forall id | id in t.executions ensures ExecutionFits(t, id) {
        assert ExecutionFits(s, id);
      }
    }
    SendsStayFit(setting, s, t);
    hide TablesFit, SendsFit;
    AllWorkersFitLater(setting, s, t);
  }

  lemma StepsKeepInv(setting: Setting, s: System, e: Event)
    requires Inv(setting, s) && Enabled(s, e)
    ensures Inv(setting, Next(setting, s, e))
  {
    hide *;
    match e
    case CheckPolicy(_, _) => CheckPolicyKeepsInv(setting, s, e);
    case FindReservation(_) => FindReservationKeepsInv(setting, s, e);
    case Reserve(_, _) => ReserveKeepsInv(setting, s, e);
    case FindExecution(_) => FindExecutionKeepsInv(setting, s, e);
    case CheckBinding(_) => CheckBindingKeepsInv(setting, s, e);
    case Claim(_) => ClaimKeepsInv(setting, s, e);
    case CallTransport(_, _) => TransportKeepsInv(setting, s, e);
    case Capture(_, _, _) => CaptureKeepsInv(setting, s, e);
    case Finish(_) => FinishKeepsInv(setting, s, e);
    case Reschedule(_, _, _) => RescheduleKeepsInv(setting, s, e);
    case Record(_) => RecordKeepsInv(setting, s, e);
    case ReserveOther(_, _, _, _, _) => ReserveOtherKeepsInv(setting, s, e);
    case CreatePlan(_) => OperatorsKeepInv(setting, s, e);
    case SwitchPlan(_, _) => OperatorsKeepInv(setting, s, e);
    case ChangePolicy(_, _) => OperatorsKeepInv(setting, s, e);
    case _ => OtherMovesKeepInv(setting, s, e);
  }

  lemma {:induction false} InvHolds(setting: Setting, states: seq<System>, events: seq<Event>, i: nat)
    requires IsRun(setting, states, events) && i < |states|
    ensures Inv(setting, states[i])
  {
    if i == 0 {
    } else {
      assert IsStep(setting, states, events, i - 1);
      InvHolds(setting, states, events, i - 1);
      hide Inv, Next, Enabled, Start;
      StepsKeepInv(setting, states[i - 1], events[i - 1]);
    }
  }

  // ---------------------------------------------------------------- the theorems

  lemma ShorterDiffers(p: string, q: string, a: string, b: string)
    requires |p| < |q| && ':' !in q
    ensures p + ":" + a != q + ":" + b
  {
    assert (p + ":" + a)[|p|] == ':';
    assert (q + ":" + b)[|p|] == q[|p|];
  }

  // The request key determines the plan and the text of the slot.
  lemma SlotKeyInjective(setting: Setting, a: Plan, b: Plan)
    requires ':' !in a.planId && ':' !in b.planId
    requires SlotKey(setting, a) == SlotKey(setting, b)
    ensures a.planId == b.planId && SlotText(setting, a) == SlotText(setting, b)
  {
    hide SlotText;
    var x, y := SlotKey(setting, a), SlotKey(setting, b);
    if |a.planId| < |b.planId| {
      ShorterDiffers(a.planId, b.planId, SlotText(setting, a), SlotText(setting, b));
      assert false;
    }
    if |b.planId| < |a.planId| {
      ShorterDiffers(b.planId, a.planId, SlotText(setting, b), SlotText(setting, a));
      assert false;
    }
    assert a.planId == x[..|a.planId|] && b.planId == y[..|b.planId|];
    assert SlotText(setting, a) == x[|a.planId| + 1..] && SlotText(setting, b) == y[|b.planId| + 1..];
  }

  // The same plan and the same text of the instant.
  ghost predicate SameSlot(setting: Setting, a: Send, b: Send) {
    && a.context.ForSlot? && b.context.ForSlot?
    && a.context.plan.planId == b.context.plan.planId
    && SlotText(setting, a.context.plan) == SlotText(setting, b.context.plan)
  }

  // In every reachable state the transport was called at most once per reservation, and at most
  // once on account of any plan's slot.
  lemma AtMostOneSend(setting: Setting, states: seq<System>, events: seq<Event>, n: nat, i: nat, j: nat)
    requires IsRun(setting, states, events) && n < |states| && i < j < |states[n].sends|
    ensures states[n].sends[i].reservationId != states[n].sends[j].reservationId
    ensures !SameSlot(setting, states[n].sends[i], states[n].sends[j])
  {
    InvHolds(setting, states, events, n);
    var s := states[n];
    var a, b := s.sends[i], s.sends[j];
    assert a in s.sends && b in s.sends && SendFits(setting, s, a) && SendFits(setting, s, b);
    if SameSlot(setting, a, b) {
      var p: Reservation :| p.reservationId == a.reservationId && ContextFits(setting, s, a.context, p);
      var q: Reservation :| q.reservationId == b.reservationId && ContextFits(setting, s, b.context, q);
      assert p.key == q.key && p.sourceId == q.sourceId && p.attempt == q.attempt;
      OneRow(s.rows, p, q);
      assert false;
    }
  }

  lemma OneRow(rows: seq<Reservation>, p: Reservation, q: Reservation)
    requires RowsDiffer(rows) && p in rows && q in rows
    requires p.key == q.key && p.sourceId == q.sourceId && p.attempt == q.attempt
    ensures p == q
  {
    var i :| 0 <= i < |rows| && rows[i] == p;
    var j :| 0 <= j < |rows| && rows[j] == q;
    assert Differ(rows[i], rows[j]) || i >= j;
    assert Differ(rows[j], rows[i]) || j >= i;
  }

  // Calls for different slots are calls for different reservations, so one slot never uses up another's.
  lemma SlotsDoNotShare(setting: Setting, states: seq<System>, events: seq<Event>, n: nat, send: Send)
    requires IsRun(setting, states, events) && n < |states|
    requires send in states[n].sends && send.context.ForSlot?
    ensures exists row :: row in states[n].rows && row.reservationId == send.reservationId
                          && row.key == SlotKey(setting, send.context.plan)
    ensures forall plan: Plan, row ::
              row in states[n].rows && row.reservationId == send.reservationId && ':' !in plan.planId
              && row.key == SlotKey(setting, plan) ==>
                plan.planId == send.context.plan.planId
                    && SlotText(setting, plan) == SlotText(setting, send.context.plan)
  {
    InvHolds(setting, states, events, n);
    var s := states[n];
    assert SendFits(setting, s, send);
    var p: Reservation :| p.reservationId == send.reservationId && ContextFits(setting, s, send.context, p);
    forall plan: Plan, row | row in s.rows && row.reservationId == send.reservationId && ':' !in plan.planId
                       && row.key == SlotKey(setting, plan)
      ensures plan.planId == send.context.plan.planId && SlotText(setting, plan) == SlotText(setting, send.context.plan)
    {
      OneRowPerId(s.rows, p, row);
      SlotKeyInjective(setting, plan, send.context.plan);
    }
  }

  lemma OneRowPerId(rows: seq<Reservation>, p: Reservation, q: Reservation)
    requires RowsDiffer(rows) && p in rows && q in rows && p.reservationId == q.reservationId
    ensures p == q
  {
    var i :| 0 <= i < |rows| && rows[i] == p;
    var j :| 0 <= j < |rows| && rows[j] == q;
    assert Differ(rows[i], rows[j]) || i >= j;
    assert Differ(rows[j], rows[i]) || j >= i;
  }

  // Crash recovery: when a slot is taken up again, the reservation made for it before is found, so
  // nothing is reserved twice.
  lemma SlotIsResumed(setting: Setting, states: seq<System>, events: seq<Event>, n: nat, w: nat, row: Reservation)
    requires IsRun(setting, states, events) && n < |events| && events[n] == FindReservation(w)
    requires PcOf(states[n], w).Checked? && row in states[n].rows && SlotRow(setting, PcOf(states[n], w).plan, row)
    ensures PcOf(states[n + 1], w) == Found(PcOf(states[n], w).plan, PcOf(states[n], w).latest, row)
    ensures states[n + 1].rows == states[n].rows
  {
    InvHolds(setting, states, events, n);
    assert IsStep(setting, states, events, n);
    var s, plan := states[n], PcOf(states[n], w).plan;
    FirstAttemptIs(s.rows, plan.sourceId, SlotKey(setting, plan));
    hide IsRun, FirstAttempt, SlotKey, WorkersFit, SendsFit, RowsDiffer;
    assert IsFirstAttempt(row, plan.sourceId, SlotKey(setting, plan));
    OneRow(s.rows, row, FirstAttempt(s.rows, plan.sourceId, SlotKey(setting, plan)).value);
  }

  // An execution marked completed, and a run recorded as completed, name a stored receipt that
  // carries the reservation.
  lemma CompletedNamesReceipt(setting: Setting, states: seq<System>, events: seq<Event>, n: nat)
    requires IsRun(setting, states, events) && n < |states|
    ensures forall id :: id in states[n].executions && states[n].executions[id].status == Completed ==>
              states[n].executions[id].receiptId.Some?
                  && HasReceipt(states[n], states[n].executions[id].receiptId.value, id)
    ensures forall run :: run in states[n].runs && run.status == RunCompleted ==>
              && run.reservationId.Some? && run.receiptId.Some?
              && HasReceipt(states[n], run.receiptId.value, run.reservationId.value)
  {
    InvHolds(setting, states, events, n);
    var s := states[n];
    forall id | id in s.executions && s.executions[id].status == Completed
      ensures s.executions[id].receiptId.Some? && HasReceipt(s, s.executions[id].receiptId.value, id)
    {
      assert ExecutionFits(s, id);
    }
    hide HasReceipt, ExecutionFits;
    forall run | run in s.runs && run.status == RunCompleted
      ensures run.reservationId.Some? && run.receiptId.Some?
          && HasReceipt(s, run.receiptId.value, run.reservationId.value)
    {
      assert RunFits(s, run);
    }
  }

  // ---------------------------------------------------------------- abandoned claims

  ghost predicate Abandoned(s: System, id: string) {
    id in s.executions && forall w :: w in s.workers ==> !OwnsId(s.workers[w].pc, id)
  }

  // The execution of an abandoned claim, and the calls made for it, no longer change.
  ghost predicate Untouched(s: System, t: System, id: string) {
    && Abandoned(t, id) && id in s.executions && t.executions[id] == s.executions[id]
    && s.sends <= t.sends && forall k :: |s.sends| <= k < |t.sends| ==> t.sends[k].reservationId != id
  }

  lemma OwnersStepUntouched(setting: Setting, s: System, e: Event, id: string)
    requires Abandoned(s, id) && Enabled(s, e)
    requires e.Claim? || e.CallTransport? || e.Capture? || e.Finish?
    ensures Untouched(s, Next(setting, s, e), id)
  {
    var pc := PcOf(s, e.w);
    assert e.w in s.workers;
    assert !OwnsId(pc, id);
    hide AfterFailure, AfterSuccess;
    FailureOwnsNothing(id);
    match e
    case Claim(w) =>
    case CallTransport(w, outcome) =>
    case Capture(w, receiptId, storedAt) =>
    case Finish(w) =>
  }

  lemma FailureOwnsNothing(id: string)
    ensures forall context, row :: !OwnsId(AfterFailure(context, row), id)
    ensures forall context, row, receiptId :: !OwnsId(AfterSuccess(context, row, receiptId), id)
  {
  }

  lemma OthersStepUntouched(setting: Setting, s: System, e: Event, id: string)
    requires Abandoned(s, id) && Enabled(s, e)
    requires !(e.Claim? || e.CallTransport? || e.Capture? || e.Finish?)
    ensures Untouched(s, Next(setting, s, e), id)
  {
    hide DecideSlot, Decide, FirstAttempt, BindingHolds, SlotKey, Rescheduled, Switched, AfterMove, ReceiptsOf;
    match e
    case CheckPolicy(_, _) =>
    case FindReservation(_) =>
    case Reserve(_, _) =>
    case FindExecution(_) =>
    case CheckBinding(_) =>
    case _ =>
  }

  // Once its worker has crashed or given up, a claimed reservation keeps its execution record for
  // ever and its transport is never called again.
  lemma {:induction false} AbandonedClaimStays(setting: Setting, states: seq<System>, events: seq<Event>, n: nat,
      m: nat, id: string)
    requires IsRun(setting, states, events) && n <= m < |states| && Abandoned(states[n], id)
    ensures Untouched(states[n], states[m], id)
    decreases m
  {
    if m > n {
      AbandonedClaimStays(setting, states, events, n, m - 1, id);
      assert IsStep(setting, states, events, m - 1);
      hide Next, Enabled, Abandoned, IsRun;
      StepUntouched(setting, states[m - 1], events[m - 1], id);
      hide Untouched;
      UntouchedTwice(states[n], states[m - 1], states[m], id);
    }
  }

  lemma UntouchedTwice(s: System, t: System, u: System, id: string)
    requires Untouched(s, t, id) && Untouched(t, u, id)
    ensures Untouched(s, u, id)
  {
    hide Abandoned;
  }

  lemma StepUntouched(setting: Setting, s: System, e: Event, id: string)
    requires Abandoned(s, id) && Enabled(s, e)
    ensures Untouched(s, Next(setting, s, e), id)
  {
    hide *;
    if e.Claim? || e.CallTransport? || e.Capture? || e.Finish? {
      OwnersStepUntouched(setting, s, e, id);
    } else {
      OthersStepUntouched(setting, s, e, id);
    }
  }

  // ---------------------------------------------------------------- permission

  // At state `m` the policy in force was `current`, it was approved, and the reservation was bound to it.
  ghost predicate PermittedAt(setting: Setting, states: seq<System>, m: nat, current: Snapshot, row: Reservation)
    requires m < |states|
  {
    && row.sourceId in states[m].policies && states[m].policies[row.sourceId] == current
    && current.policy.approved && row.policyVersion == current.version && row.snapshotHash == current.hash
    && row.attempt <= current.policy.maxAttempts && setting.check(current.policy, row.url, row.httpMethod)
  }

  ghost predicate Permitted(setting: Setting, states: seq<System>, n: nat, current: Snapshot, row: Reservation)
    requires n < |states|
  {
    exists m: nat :: m <= n && PermittedAt(setting, states, m, current, row)
  }

  // Only these two steps lead to holding a claim or to the point before it.
  lemma WhereClaimsComeFrom(setting: Setting, s: System, e: Event, w: nat)
    requires Enabled(s, e)
    ensures var before, after := PcOf(s, w), PcOf(Next(setting, s, e), w);
            && (after.Bound? ==> after == before
                                 || (e == CheckBinding(w) && before.Executing? && after.row == before.row
                                     && BindingHolds(setting, s.policies, before.snapshot, before.row)
                                     && after.current == s.policies[before.row.sourceId]))
            && (after.Holding? ==> after == before
                                   || (e == Claim(w) && before.Bound? && after.row == before.row
                                       && after.current == before.current))
  {
    hide Decide, BindingHolds;
    if !e.CheckBinding? && !e.Claim? {
      hide Next, Enabled;
      OtherStepsClaimNothing(setting, s, e, w);
    }
  }

  lemma OtherStepsClaimNothing(setting: Setting, s: System, e: Event, w: nat)
    requires Enabled(s, e) && !e.CheckBinding? && !e.Claim?
    ensures var after := PcOf(Next(setting, s, e), w); after.Bound? || after.Holding? ==> after == PcOf(s, w)
  {
    hide DecideSlot, Decide, FirstAttempt, BindingHolds, Rescheduled, Switched, AfterMove, SlotKey, Finished,
        ReceiptsOf;
  }

  lemma {:induction false} ClaimsArePermitted(setting: Setting, states: seq<System>, events: seq<Event>, n: nat, w: nat)
    requires IsRun(setting, states, events) && n < |states|
    requires PcOf(states[n], w).Bound? || PcOf(states[n], w).Holding?
    ensures Permitted(setting, states, n, PcOf(states[n], w).current, PcOf(states[n], w).row)
  {
    var pc := PcOf(states[n], w);
    if n > 0 {
      assert IsStep(setting, states, events, n - 1);
      var before := PcOf(states[n - 1], w);
      hide Next, Enabled, IsRun, BindingHolds;
      WhereClaimsComeFrom(setting, states[n - 1], events[n - 1], w);
      if before.Bound? || before.Holding? {
        ClaimsArePermitted(setting, states, events, n - 1, w);
        var m: nat :| m <= n - 1 && PermittedAt(setting, states, m, before.current, before.row);
        assert PermittedAt(setting, states, m, pc.current, pc.row);
      } else {
        BindingPermits(setting, states, n - 1, before.snapshot, pc.row);
      }
    }
  }

  lemma BindingPermits(setting: Setting, states: seq<System>, m: nat, snapshot: Snapshot, row: Reservation)
    requires m < |states| && BindingHolds(setting, states[m].policies, snapshot, row)
    ensures PermittedAt(setting, states, m, states[m].policies[row.sourceId], row)
  {
  }

  // The transport is called only for a reservation that was bound to the policy then in force, which
  // was approved and permitted the request.
  lemma SendsArePermitted(setting: Setting, states: seq<System>, events: seq<Event>, n: nat, w: nat,
      outcome: Option<Response>)
    requires IsRun(setting, states, events) && n < |events| && events[n] == CallTransport(w, outcome)
    ensures PcOf(states[n], w).Holding?
    ensures Permitted(setting, states, n, PcOf(states[n], w).current, PcOf(states[n], w).row)
  {
    assert IsStep(setting, states, events, n);
    hide Next, IsRun;
    ClaimsArePermitted(setting, states, events, n, w);
  }
}
