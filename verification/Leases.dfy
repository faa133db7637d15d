// The fenced worker lease (src/ballotproof/postgres_leases.py).
module Leases {
  import opened Outcomes

  // The single lease row; a lease handed to a worker is a copy of it.
  datatype Lease = Lease(worker: string, token: nat, acquiredAt: int, expiresAt: int)

  // The readings of the database clock within one transaction, in the order they are taken.
  datatype Readings = Readings(selected: int, tested: int, stamped: int, based: int)

  predicate ActiveAt(row: Lease, now: int) {
    row.expiresAt > now
  }

  // The row after an attempt that succeeds.
  function Acquired(row: Option<Lease>, worker: string, r: Readings, duration: int): Option<Lease> {
    if row.None? then Some(Lease(worker, 1, r.stamped, r.based + duration))
    else
      var held := row.value;
      var active := ActiveAt(held, r.selected);
      if active && held.worker != worker then None
      else
        Some(Lease(worker, if active then held.token else held.token + 1,
                   if held.worker == worker && ActiveAt(held, r.tested) then held.acquiredAt else r.stamped,
                   r.based + duration))
  }

  predicate Passes(row: Option<Lease>, lease: Lease, now: int) {
    row.Some? && row.value.worker == lease.worker && row.value.token == lease.token && ActiveAt(row.value, now)
  }

  // A release deletes the row only under the worker and the token the process remembers.
  function Released(row: Option<Lease>, worker: string, token: nat): Option<Lease> {
    if row.Some? && row.value.worker == worker && row.value.token == token then None else row
  }

  datatype Refusal = InvalidDuration | HeldByAnother | RowVanished

  // The table all processes share.
  class LeaseTable {
    var row: Option<Lease>

    constructor ()
      ensures row == None
    {
      row := None;
    }
  }

  class PostgresFencedLeaseStore {
    const table: LeaseTable
    var heldTokens: map<string, nat>

    constructor (table: LeaseTable)
      ensures this.table == table && heldTokens == map[]
    {
      this.table := table;
      heldTokens := map[];
    }

    // An unexpired lease is never taken from another worker; a change of holder raises the token.
    // `vanishes` says that the holder deletes the row between the insertion and the selection.
    method TryAcquire(worker: string, r: Readings, duration: int, vanishes: bool)
      returns (outcome: Result<Lease, Refusal>)
      modifies this`heldTokens, table
      ensures outcome == Err(InvalidDuration) <==> duration <= 0
      ensures outcome == Err(RowVanished) <==> duration > 0 && old(table.row).Some? && vanishes
      ensures outcome == Err(HeldByAnother) <==>
                duration > 0 && old(table.row).Some? && !vanishes && old(table.row).value.worker != worker
                && old(table.row).value.expiresAt > r.selected
      ensures outcome.Err? ==>
                && heldTokens == old(heldTokens)
                && table.row == if outcome.error.RowVanished? then None else old(table.row)
      ensures outcome.Ok? ==>
                && table.row == Some(outcome.value) == Acquired(old(table.row), worker, r, duration)
                && outcome.value.worker == worker && outcome.value.expiresAt == r.based + duration
                && heldTokens == old(heldTokens)[worker := outcome.value.token]
      ensures outcome.Ok? && old(table.row).Some? ==>
                && outcome.value.token >= old(table.row).value.token
                && (old(table.row).value.worker != worker ==> outcome.value.token > old(table.row).value.token)
      ensures duration > 0 && !vanishes ==> (outcome.Err? <==> Acquired(old(table.row), worker, r, duration).None?)
      ensures outcome.Ok? && old(table.row).None? ==> outcome.value.token == 1 && outcome.value.acquiredAt == r.stamped
      ensures outcome.Ok? && old(table.row).Some? ==>
                var row := old(table.row).value;
                && outcome.value.token ==
                   (if row.worker == worker && row.expiresAt > r.selected then row.token else row.token + 1)
                && outcome.value.acquiredAt ==
                   (if row.worker == worker && row.expiresAt > r.tested then row.acquiredAt else r.stamped)
    {
      if duration <= 0 {
        return Err(InvalidDuration);
      }
      var lease;
      if table.row.None? {
        lease := Lease(worker, 1, r.stamped, r.based + duration);
      } else if vanishes {
        table.row := None;
        return Err(RowVanished);
      } else {
        var row := table.row.value;
        var active := row.expiresAt > r.selected;
        if active && row.worker != worker {
          return Err(HeldByAnother);
        }
        var sameActiveHolder := active && row.worker == worker;
        var token := if sameActiveHolder then row.token else row.token + 1;
        var acquiredAt := if row.worker == worker && row.expiresAt > r.tested then row.acquiredAt else r.stamped;
        lease := Lease(worker, token, acquiredAt, r.based + duration);
      }
      table.row := Some(lease);
      heldTokens := heldTokens[worker := lease.token];
      return Ok(lease);
    }

    method AssertCurrent(lease: Lease, now: int) returns (current: bool)
      ensures current <==> Passes(table.row, lease, now)
      ensures current <==>
                && table.row.Some? && table.row.value.worker == lease.worker && table.row.value.token == lease.token
                && now < table.row.value.expiresAt
    {
      if table.row.None? {
        return false;
      }
      var row := table.row.value;
      if row.worker != lease.worker || row.token != lease.token || row.expiresAt <= now {
        return false;
      }
      return true;
    }

    // Whatever the row says, a worker forgets its token; the row goes only if it is still its own.
    method Release(worker: string) returns (deleted: bool)
      modifies this`heldTokens, table
      ensures heldTokens == old(heldTokens) - {worker}
      ensures table.row ==
              if worker in old(heldTokens) then Released(old(table.row), worker, old(heldTokens)[worker])
              else old(table.row)
      ensures deleted <==>
                && worker in old(heldTokens) && old(table.row).Some? && old(table.row).value.worker == worker
                && old(table.row).value.token == old(heldTokens)[worker]
      ensures table.row == if deleted then None else old(table.row)
    {
      if worker !in heldTokens {
        return false;
      }
      var token := heldTokens[worker];
      heldTokens := heldTokens - {worker};
      deleted := table.row.Some? && table.row.value.worker == worker && table.row.value.token == token;
      if deleted {
        table.row := None;
      }
    }
  }

  // ---------------------------------------------------------------- runs of several processes

  datatype State = State(row: Option<Lease>, held: map<nat, map<string, nat>>)

  datatype Event =
    | Acquire(process: nat, worker: string, readings: Readings, duration: int)
    | Release(process: nat, worker: string)
    | Restart(process: nat)

  function TokensOf(s: State, process: nat): map<string, nat> {
    if process in s.held then s.held[process] else map[]
  }

  // An acquisition during which the row vanishes changes nothing itself: the deletion is the event.
  function Next(s: State, e: Event): State {
    var tokens := TokensOf(s, e.process);
    match e
    case Acquire(p, worker, readings, duration) =>
      var lease := Acquired(s.row, worker, readings, duration);
      if duration <= 0 || lease.None? then s
      else State(lease, s.held[p := tokens[worker := lease.value.token]])
    case Release(p, worker) =>
      if worker !in tokens then s
      else State(Released(s.row, worker, tokens[worker]), s.held[p := tokens - {worker}])
    case Restart(p) => s.(held := s.held[p := map[]])
  }

  // What one event does: an acquisition takes a row that is missing, expired or the worker's own, and
  // the process remembers the token; a release forgets it and deletes only the row it was for; a
  // restart forgets everything. No event touches what other processes remember.
  lemma StepSays(s: State, e: Event)
    ensures
      var t, mine := Next(s, e), TokensOf(s, e.process);
      && (forall p :: p != e.process ==> TokensOf(t, p) == TokensOf(s, p))
      && match e
         case Acquire(_, worker, r, duration) =>
           if duration > 0
              && (s.row.Some? && s.row.value.expiresAt > r.selected ==> s.row.value.worker == worker) then
             && t.row.Some? && t.row.value.worker == worker && t.row.value.expiresAt == r.based + duration
             && t.row.value.token == (if s.row.None? then 1
                                      else if s.row.value.expiresAt > r.selected then s.row.value.token
                                      else s.row.value.token + 1)
             && t.row.value.acquiredAt == (if s.row.Some? && s.row.value.worker == worker
                                              && s.row.value.expiresAt > r.tested then s.row.value.acquiredAt
                                           else r.stamped)
             && TokensOf(t, e.process) == mine[worker := t.row.value.token]
           else t == s
         case Release(_, worker) =>
           && TokensOf(t, e.process) == mine - {worker}
           && t.row == (if worker in mine && s.row.Some? && s.row.value.worker == worker
                           && s.row.value.token == mine[worker] then None
                        else s.row)
         case Restart(_) => TokensOf(t, e.process) == map[] && t.row == s.row
  {
  }

  // The state after the first `n` events.
  function At(events: seq<Event>, n: nat): State
    requires n <= |events|
  {
    if n == 0 then State(None, map[]) else Next(At(events, n - 1), events[n - 1])
  }

  // The row is there throughout.
  ghost predicate Survives(events: seq<Event>, n: nat, m: nat)
    requires n <= m <= |events|
  {
    forall k: nat :: n <= k <= m ==> At(events, k).row.Some?
  }

  function RowAt(events: seq<Event>, n: nat): Lease
    requires n <= |events| && At(events, n).row.Some?
  {
    At(events, n).row.value
  }

  // At any moment at most one worker and token pass.
  lemma OneLeasePasses(row: Option<Lease>, a: Lease, b: Lease, now: int)
    requires Passes(row, a, now) && Passes(row, b, now)
    ensures a.worker == b.worker && a.token == b.token
  {
  }

  lemma StepRaisesTokens(s: State, e: Event)
    requires s.row.Some? && Next(s, e).row.Some?
    ensures var before, after := s.row.value, Next(s, e).row.value;
            after.token >= before.token && (after.worker != before.worker ==> after.token > before.token)
  {
  }

  // While the row survives tokens never fall, and they have risen if any other worker held the lease
  // in between.
  lemma {:induction false} TokensRise(events: seq<Event>, n: nat, k: nat, m: nat)
    requires n <= k <= m <= |events| && Survives(events, n, m)
    ensures At(events, n).row.Some? && At(events, k).row.Some? && At(events, m).row.Some?
    ensures RowAt(events, n).token <= RowAt(events, k).token <= RowAt(events, m).token
    ensures RowAt(events, k).worker != RowAt(events, n).worker ==> RowAt(events, n).token < RowAt(events, m).token
    decreases m
  {
    hide Acquired, Released, TokensOf;
    assert At(events, m).row.Some?;
    if m > n {
      assert Survives(events, n, m - 1);
      assert At(events, m) == Next(At(events, m - 1), events[m - 1]);
      if k < m {
        TokensRise(events, n, k, m - 1);
      } else {
        TokensRise(events, n, k - 1, m - 1);
      }
      hide At, Next;
      StepRaisesTokens(At(events, m - 1), events[m - 1]);
    }
  }

  ghost predicate AcquiredBy(events: seq<Event>, k: nat, worker: string)
    requires k < |events|
  {
    events[k].Acquire? && events[k].worker == worker
  }

  // A worker's name is on the row only through that worker's own acquisition.
  lemma {:induction false} HolderAcquired(events: seq<Event>, n: nat, m: nat, worker: string)
    requires n <= m <= |events| && At(events, m).row.Some? && At(events, m).row.value.worker == worker
    requires At(events, n).row.Some? ==> At(events, n).row.value.worker != worker
    ensures exists k: nat :: n <= k < m && AcquiredBy(events, k, worker)
    decreases m
  {
    if m > n {
      var before := At(events, m - 1);
      assert At(events, m) == Next(before, events[m - 1]);
      if before.row.Some? && before.row.value.worker == worker {
        HolderAcquired(events, n, m - 1, worker);
      } else {
        assert AcquiredBy(events, m - 1, worker);
      }
    }
  }

  // Once another worker holds the lease, an old lease is refused in every later state until its own
  // worker acquires again.
  lemma OldLeaseRefused(events: seq<Event>, n: nat, m: nat, lease: Lease, now: int)
    requires n <= m <= |events|
    requires At(events, n).row.Some? && At(events, n).row.value.worker != lease.worker
    requires forall k: nat :: n <= k < m ==> !AcquiredBy(events, k, lease.worker)
    ensures !Passes(At(events, m).row, lease, now)
  {
    if Passes(At(events, m).row, lease, now) {
      HolderAcquired(events, n, m, lease.worker);
    }
  }

  // A lease that still passes while the row survived was its worker's throughout: nobody else held
  // it in between, and the token never moved.
  lemma PassingLeaseWasHeld(events: seq<Event>, n: nat, k: nat, m: nat, lease: Lease, now: int)
    requires n <= k <= m <= |events| && Survives(events, n, m)
    requires At(events, n).row == Some(lease) && Passes(At(events, m).row, lease, now)
    ensures At(events, k).row.Some?
    ensures RowAt(events, k).worker == lease.worker && RowAt(events, k).token == lease.token
  {
    TokensRise(events, n, k, m);
  }

  // A release removes only the releasing worker's own row.
  lemma ReleaseRemovesOwnRow(s: State, e: Event)
    requires s.row.Some? && Next(s, e).row.None?
    ensures e.Release? && s.row.value.worker == e.worker
  {
  }

  // ---------------------------------------------------------------- whole runs

  // Over the whole run, deletions included, the token never falls from one holder to a later one and
  // rises when the worker is another.
  ghost predicate Fenced(events: seq<Event>) {
    forall n: nat, m: nat :: n <= m <= |events| ==> FencedBetween(events, n, m)
  }

  ghost predicate FencedBetween(events: seq<Event>, n: nat, m: nat)
    requires n <= m <= |events|
  {
    At(events, n).row.Some? && At(events, m).row.Some? ==>
      && RowAt(events, n).token <= RowAt(events, m).token
      && (RowAt(events, n).worker != RowAt(events, m).worker ==> RowAt(events, n).token < RowAt(events, m).token)
  }

  // The row is held at `k`, deleted by the next event, and next held again at `m`.
  ghost predicate Gap(events: seq<Event>, k: nat, m: nat) {
    && k < m <= |events| && At(events, k).row.Some? && At(events, m).row.Some?
    && k + 1 < m && forall i: nat :: k < i < m ==> At(events, i).row.None?
  }

  // Every deletion before another acquisition removed a row that never changed hands, and the next
  // holder is the same worker.
  ghost predicate HarmlessDeletions(events: seq<Event>) {
    forall k: nat, m: nat :: Gap(events, k, m) ==>
      RowAt(events, k).token == 1 && RowAt(events, m).worker == RowAt(events, k).worker
  }

  lemma {:induction false} TokensArePositive(events: seq<Event>, n: nat)
    requires n <= |events|
    ensures At(events, n).row.Some? ==> RowAt(events, n).token >= 1
  {
    if n > 0 {
      TokensArePositive(events, n - 1);
    }
  }

  // A row that was not there a moment ago has token one: a deletion makes the count start again.
  lemma RestartsAtOne(events: seq<Event>, k: nat, m: nat)
    requires Gap(events, k, m)
    ensures RowAt(events, m).token == 1
  {
    assert At(events, m - 1).row.None?;
    assert At(events, m) == Next(At(events, m - 1), events[m - 1]);
  }

  lemma {:induction false} LastHeld(events: seq<Event>, n: nat, m: nat) returns (k: nat)
    requires n < m <= |events| && At(events, n).row.Some?
    ensures n <= k < m && At(events, k).row.Some?
    ensures forall i: nat :: k < i < m ==> At(events, i).row.None?
    decreases m
  {
    hide At;
    if At(events, m - 1).row.Some? {
      k := m - 1;
    } else {
      assert n != m - 1;
      k := LastHeld(events, n, m - 1);
    }
  }

  lemma {:induction false} HarmlessIsFenced(events: seq<Event>, n: nat, m: nat)
    requires HarmlessDeletions(events) && n <= m <= |events|
    ensures FencedBetween(events, n, m)
    decreases m
  {
    if n < m && At(events, n).row.Some? && At(events, m).row.Some? {
      hide HarmlessDeletions;
      var k := LastHeld(events, n, m);
      HarmlessIsFenced(events, n, k);
      if k == m - 1 {
        assert At(events, m) == Next(At(events, k), events[k]);
        hide At, Next;
        StepRaisesTokens(At(events, k), events[k]);
      } else {
        assert Gap(events, k, m);
        HarmlessGap(events, k, m);
      }
    }
  }

  lemma HarmlessGap(events: seq<Event>, k: nat, m: nat)
    requires HarmlessDeletions(events) && Gap(events, k, m)
    ensures RowAt(events, k).token == RowAt(events, m).token && RowAt(events, m).worker == RowAt(events, k).worker
  {
    hide At;
    RestartsAtOne(events, k, m);
  }

  lemma FencedIsHarmless(events: seq<Event>, k: nat, m: nat)
    requires Fenced(events) && Gap(events, k, m)
    ensures RowAt(events, k).token == 1 && RowAt(events, m).worker == RowAt(events, k).worker
  {
    hide At;
    RestartsAtOne(events, k, m);
    TokensArePositive(events, k);
    assert FencedBetween(events, k, m);
  }

  // Over a whole run the tokens fence every earlier holder off exactly when every deletion was
  // harmless.
  lemma FencedIffHarmless(events: seq<Event>)
    ensures Fenced(events) <==> HarmlessDeletions(events)
  {
    hide At;
    if HarmlessDeletions(events) {
      forall n: nat, m: nat | n <= m <= |events| ensures FencedBetween(events, n, m) {
        HarmlessIsFenced(events, n, m);
      }
    }
    if Fenced(events) {
      forall k: nat, m: nat | Gap(events, k, m)
        ensures RowAt(events, k).token == 1 && RowAt(events, m).worker == RowAt(events, k).worker
      {
        FencedIsHarmless(events, k, m);
      }
    }
  }

  // ---------------------------------------------------------------- deletion revives old leases

  lemma {:induction false} AtPrefix(events: seq<Event>, more: seq<Event>, n: nat)
    requires n <= |events|
    ensures At(events + more, n) == At(events, n)
  {
    if n > 0 {
      AtPrefix(events, more, n - 1);
    }
  }

  function Final(events: seq<Event>): State { At(events, |events|) }

  lemma OneMore(events: seq<Event>, e: Event)
    ensures Final(events + [e]) == Next(Final(events), e)
  {
    AtPrefix(events, [e], |events|);
  }

  // A transaction of worker `worker` at one instant of the database clock, for one microsecond.
  function AcquireAt(process: nat, worker: string, time: int): Event {
    Acquire(process, worker, Readings(time, time, time, time), 1)
  }

  // A holder whose lease keeps expiring raises its own token to any number.
  lemma {:induction false} TokenClimbs(events: seq<Event>, process: nat, lease: Lease, time: int)
    returns (more: seq<Event>, now: int)
    requires Final(events).row.Some? && Final(events).row.value.worker == lease.worker
    requires Final(events).row.value.expiresAt == time + 1 && Final(events).row.value.token <= lease.token
    ensures now >= time && Passes(Final(events + more).row, lease, now)
    decreases lease.token - Final(events).row.value.token
  {
    if Final(events).row.value.token == lease.token {
      more, now := [], time;
      assert events + more == events;
    } else {
      var e := AcquireAt(process, lease.worker, time + 1);
      OneMore(events, e);
      hide At;
      more, now := TokenClimbs(events + [e], process, lease, time + 1);
      assert events + ([e] + more) == events + [e] + more;
      more := [e] + more;
    }
  }

  // Every run in which a worker holds the lease can go on so that another worker holds it and the old
  // lease, worker and token, passes again all the same: the holder releases it, the other takes it
  // and releases it, and the first takes it back, if need be until its token is the old one.
  lemma TokensRestart(events: seq<Event>, process: nat, lease: Lease, other: nat, rival: string, start: int)
    returns (more: seq<Event>, k: nat, now: int)
    requires Final(events).row == Some(lease) && rival != lease.worker
    requires lease.worker in TokensOf(Final(events), process)
    requires TokensOf(Final(events), process)[lease.worker] == lease.token
    ensures |events| < k < |events + more| && now >= start
    ensures At(events + more, k).row.Some? && At(events + more, k).row.value.worker == rival
    ensures Passes(Final(events + more).row, lease, now)
  {
    TokensArePositive(events, |events|);
    var released := events + [Release(process, lease.worker)];
    OneMore(events, Release(process, lease.worker));
    var taken := released + [AcquireAt(other, rival, start)];
    OneMore(released, AcquireAt(other, rival, start));
    var free := taken + [Release(other, rival)];
    OneMore(taken, Release(other, rival));
    var again := free + [AcquireAt(process, lease.worker, start)];
    OneMore(free, AcquireAt(process, lease.worker, start));
    hide At;
    assert Final(again).row == Some(Lease(lease.worker, 1, start, start + 1));
    var climb;
    climb, now := TokenClimbs(again, process, lease, start);
    more := [Release(process, lease.worker), AcquireAt(other, rival, start), Release(other, rival),
             AcquireAt(process, lease.worker, start)] + climb;
    k := |taken|;
    assert events + more == again + climb;
    assert again + climb == taken + (again[k..] + climb);
    AtPrefix(taken, again[k..] + climb, k);
  }
}
