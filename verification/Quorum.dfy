// Immutable objects kept on several replicas, written and read by quorum
// (src/ballotproof/object_storage.py).
module Quorum {
  import opened Outcomes
  import opened Hashing
  import opened Finite

  // `good` says which paths are normalized relative paths.
  datatype Config = Config(replicas: nat, minimum: nat, good: string -> bool, sha: HashFn)

  ghost predicate WellFormed(cfg: Config) {
    cfg.replicas >= 2 && 1 <= cfg.minimum <= cfg.replicas
  }

  type Store = map<string, Bytes>

  // A replica may be out before it does anything, or fail after it has stored the object.
  datatype Fault = Works | FailsBefore | FailsAfter

  datatype Reference = Reference(path: string, sha256: Digest, size: nat)

  datatype Failure = TooFewReplicas | Inconsistent | Diverged

  // ---------------------------------------------------------------- one replica: put if absent

  predicate Accepts(cfg: Config, store: Store, path: string, data: Bytes) {
    data != [] && cfg.good(path) && (path !in store || store[path] == data)
  }

  function Written(cfg: Config, store: Store, path: string, data: Bytes, fault: Fault): Store {
    if fault != FailsBefore && Accepts(cfg, store, path, data) then store[path := data] else store
  }

  predicate Succeeds(cfg: Config, store: Store, path: string, data: Bytes, fault: Fault) {
    fault == Works && Accepts(cfg, store, path, data)
  }

  predicate Readable(cfg: Config, store: Store, path: string, works: bool) {
    works && cfg.good(path) && path in store
  }

  // A replica that is reached takes the bytes where nothing is stored, confirms the same bytes again,
  // and keeps whatever it has against anything else; an outage afterwards only loses the confirmation.
  lemma PutIfAbsent(cfg: Config, store: Store, path: string, data: Bytes, fault: Fault)
    ensures
      var after, confirmed := Written(cfg, store, path, data, fault), Succeeds(cfg, store, path, data, fault);
      && (forall other :: other != path ==> (other in after <==> other in store))
      && (forall other :: other in store ==> other in after && after[other] == store[other])
      && (path in after ==> path in store || after[path] == data)
      && (path !in store ==> (path in after <==> fault != FailsBefore && data != [] && cfg.good(path)))
      && (confirmed <==>
            && fault == Works && data != [] && cfg.good(path)
            && (path in store ==> store[path] == data))
      && (confirmed ==> path in after && after[path] == data)
  {
  }

  lemma WrittenIsStored(cfg: Config, store: Store, path: string, data: Bytes, fault: Fault)
    ensures Written(cfg, store, path, data, fault) ==
            if fault != FailsBefore && data != [] && cfg.good(path) && path !in store then store[path := data]
            else store
  {
  }

  // ---------------------------------------------------------------- one whole operation

  function WrittenUpTo(cfg: Config, stores: seq<Store>, path: string, data: Bytes, faults: seq<Fault>,
      k: nat): seq<Store>
    requires |faults| == |stores|
  {
    seq(|stores|, i requires 0 <= i < |stores| =>
      if i < k then Written(cfg, stores[i], path, data, faults[i]) else stores[i])
  }

  function Successes(cfg: Config, stores: seq<Store>, path: string, data: Bytes, faults: seq<Fault>, k: nat): set<nat>
    requires |faults| == |stores| && k <= |stores|
  {
    set i: nat | i < k && Succeeds(cfg, stores[i], path, data, faults[i])
  }

  function Values(cfg: Config, stores: seq<Store>, path: string, works: seq<bool>, k: nat): map<nat, Bytes>
    requires |works| == |stores| && k <= |stores|
  {
    map i: nat | i < k && Readable(cfg, stores[i], path, works[i]) :: stores[i][path]
  }

  predicate OneDigest(cfg: Config, values: map<nat, Bytes>) {
    forall i, j | i in values && j in values :: cfg.sha(values[i]) == cfg.sha(values[j])
  }

  class ReplicatedBackend {
    const cfg: Config
    var stores: seq<Store>

    constructor (cfg: Config)
      requires WellFormed(cfg)
      ensures this.cfg == cfg && Valid() && forall store :: store in stores ==> store == map[]
    {
      this.cfg := cfg;
      stores := seq(cfg.replicas, _ => map[]);
    }

    ghost predicate Valid()
      reads this
    {
      WellFormed(cfg) && |stores| == cfg.replicas
    }

    method PutBytes(path: string, data: Bytes, faults: seq<Fault>) returns (outcome: Result<Reference, Failure>)
      requires Valid() && |faults| == |stores|
      modifies this`stores
      ensures Valid() && stores == WrittenUpTo(cfg, old(stores), path, data, faults, |faults|)
      ensures outcome ==
                if |Successes(cfg, old(stores), path, data, faults, |faults|)| >= cfg.minimum
                then Ok(Reference(path, cfg.sha(data), |data|)) else Err(TooFewReplicas)
      ensures forall i :: 0 <= i < |stores| ==>
                var before := old(stores)[i];
                stores[i] ==
                  if faults[i] != FailsBefore && data != [] && cfg.good(path) && path !in before
                  then before[path := data] else before
      ensures var confirmed := set i: nat | && i < |faults| && faults[i] == Works && data != [] && cfg.good(path)
                                            && (path !in old(stores)[i] || old(stores)[i][path] == data);
              outcome == if |confirmed| >= cfg.minimum then Ok(Reference(path, cfg.sha(data), |data|))
                         else Err(TooFewReplicas)
    {
      var successes: map<nat, Reference> := map[];
      for i := 0 to |faults|
        invariant |stores| == |faults| && stores == WrittenUpTo(cfg, old(stores), path, data, faults, i)
        invariant successes.Keys == Successes(cfg, old(stores), path, data, faults, i)
        invariant forall j :: j in successes ==> successes[j] == Reference(path, cfg.sha(data), |data|)
      {
        var before := stores[i];
        stores := stores[i := Written(cfg, before, path, data, faults[i])];
        if Succeeds(cfg, before, path, data, faults[i]) {
          successes := successes[i := Reference(path, cfg.sha(data), |data|)];
        }
      }
      PutSays(cfg, old(stores), path, data, faults);
      if |successes.Keys| < cfg.minimum {
        return Err(TooFewReplicas);
      }
      var expected := Reference(path, cfg.sha(data), |data|);
      if exists j | j in successes :: successes[j] != expected {
        return Err(Inconsistent);
      }
      return Ok(expected);
    }

    method ReadBytes(path: string, works: seq<bool>) returns (outcome: Result<Bytes, Failure>)
      requires Valid() && |works| == |stores|
      ensures var values := Values(cfg, stores, path, works, |works|);
              match outcome
              case Ok(data) =>
                && |values.Keys| >= cfg.minimum && OneDigest(cfg, values)
                && exists i :: i in values && data == values[i] && forall j :: j in values ==> i <= j
              case Err(failure) =>
                if |values.Keys| < cfg.minimum then failure == TooFewReplicas
                else failure == Diverged && !OneDigest(cfg, values)
      ensures var values :=
                map i: nat | i < |works| && works[i] && cfg.good(path) && path in stores[i] :: stores[i][path];
              match outcome
              case Ok(data) =>
                && |values.Keys| >= cfg.minimum
                && (forall i :: i in values ==> cfg.sha(values[i]) == cfg.sha(data))
                && exists i :: i in values && data == values[i] && forall j :: j in values ==> i <= j
              case Err(failure) =>
                if |values.Keys| < cfg.minimum then failure == TooFewReplicas
                else
                  && failure == Diverged
                  && exists i, j :: i in values && j in values && cfg.sha(values[i]) != cfg.sha(values[j])
    {
      var values: map<nat, Bytes> := map[];
      for i := 0 to |works|
        invariant values == Values(cfg, stores, path, works, i)
      {
        if Readable(cfg, stores[i], path, works[i]) {
          values := values[i := stores[i][path]];
        }
      }
      ReadSays(cfg, stores, path, works);
      hide Values, Readable;
      if |values.Keys| < cfg.minimum {
        return Err(TooFewReplicas);
      }
      var unique := set i | i in values :: cfg.sha(values[i]);
      OneDigestIffOneMember(cfg, values, unique);
      if |unique| != 1 {
        return Err(Diverged);
      }
      // The values keep the order of the replicas, and the first one is returned.
      var first := FirstIn(values);
      return Ok(values[first]);
    }

    static method FirstIn(values: map<nat, Bytes>) returns (first: nat)
      requires |values.Keys| > 0
      ensures first in values && forall j :: j in values ==> first <= j
    {
      ghost var some: nat :| some in values.Keys;
      first := 0;
      while first !in values
        invariant first <= some && forall j :: j in values ==> first <= j
        decreases some - first
      {
        first := first + 1;
      }
    }
  }

  lemma PutSays(cfg: Config, stores: seq<Store>, path: string, data: Bytes, faults: seq<Fault>)
    requires |faults| == |stores|
    ensures
      var after := WrittenUpTo(cfg, stores, path, data, faults, |faults|);
      forall i :: 0 <= i < |stores| ==>
        after[i] == if faults[i] != FailsBefore && data != [] && cfg.good(path) && path !in stores[i]
                    then stores[i][path := data] else stores[i]
    ensures
      Successes(cfg, stores, path, data, faults, |faults|) ==
      set i: nat | && i < |faults| && faults[i] == Works && data != [] && cfg.good(path)
                   && (path !in stores[i] || stores[i][path] == data)
  {
    forall i | 0 <= i < |stores| {
      WrittenIsStored(cfg, stores[i], path, data, faults[i]);
    }
  }

  lemma ReadSays(cfg: Config, stores: seq<Store>, path: string, works: seq<bool>)
    requires |works| == |stores|
    ensures Values(cfg, stores, path, works, |works|) ==
            map i: nat | i < |works| && works[i] && cfg.good(path) && path in stores[i] :: stores[i][path]
  {
  }

  lemma OneDigestIffOneMember(cfg: Config, values: map<nat, Bytes>, unique: set<Digest>)
    requires unique == (set i | i in values :: cfg.sha(values[i])) && |values.Keys| > 0
    ensures |unique| == 1 <==> OneDigest(cfg, values)
  {
    var first :| first in values.Keys;
    var d := cfg.sha(values[first]);
    assert d in unique;
    if OneDigest(cfg, values) {
      assert unique == {d};
    }
    if |unique| == 1 {
      forall i | i in values ensures cfg.sha(values[i]) == d {
        if cfg.sha(values[i]) != d {
          SubsetSize({cfg.sha(values[i]), d}, unique);
        }
      }
    }
  }

  // ---------------------------------------------------------------- interleaved clients

  datatype Client =
    | Idle
    | Putting(path: string, data: Bytes, next: nat, successes: set<nat>)
    | Reading(path: string, next: nat, values: map<nat, Bytes>)

  // What an operation returned to its caller.
  datatype Returned = PutReturned(path: string, data: Bytes) | ReadReturned(path: string, data: Bytes)

  datatype System = System(stores: seq<Store>, clients: map<nat, Client>, returned: seq<Returned>)

  // Each event touches at most one replica; the client, the outage and the order are arbitrary.
  datatype Event =
    | BeginPut(w: nat, path: string, data: Bytes)
    | PutAt(w: nat, fault: Fault)
    | EndPut(w: nat)
    | BeginRead(w: nat, path: string)
    | ReadAt(w: nat, works: bool)
    | EndRead(w: nat, pick: nat)
    | Abandon(w: nat)

  function ClientOf(s: System, w: nat): Client {
    if w in s.clients then s.clients[w] else Idle
  }

  function Start(cfg: Config): System {
    System(seq(cfg.replicas, _ => map[]), map[], [])
  }

  // An event whose client is not at that point does nothing.
  function Next(cfg: Config, s: System, e: Event): System {
    var client := ClientOf(s, e.w);
    match e
    case BeginPut(w, path, data) =>
      if client.Idle? then s.(clients := s.clients[w := Putting(path, data, 0, {})]) else s
    case PutAt(w, fault) =>
      if client.Putting? && client.next < |s.stores| then
        var before := s.stores[client.next];
        var successes :=
          if Succeeds(cfg, before, client.path, client.data, fault) then client.successes + {client.next}
          else client.successes;
        s.(stores := s.stores[client.next := Written(cfg, before, client.path, client.data, fault)],
           clients := s.clients[w := client.(next := client.next + 1, successes := successes)])
      else s
    case EndPut(w) =>
      if client.Putting? && client.next == |s.stores| then
        s.(clients := s.clients[w := Idle],
           returned := s.returned
                       + if |client.successes| >= cfg.minimum then [PutReturned(client.path, client.data)] else [])
      else s
    case BeginRead(w, path) => if client.Idle? then s.(clients := s.clients[w := Reading(path, 0, map[])]) else s
    case ReadAt(w, works) =>
      if client.Reading? && client.next < |s.stores| then
        var store := s.stores[client.next];
        var values :=
          if Readable(cfg, store, client.path, works) then client.values[client.next := store[client.path]]
          else client.values;
        s.(clients := s.clients[w := client.(next := client.next + 1, values := values)])
      else s
    case EndRead(w, pick) =>
      if client.Reading? && client.next == |s.stores| then
        var read := |client.values.Keys| >= cfg.minimum && OneDigest(cfg, client.values) && pick in client.values;
        s.(clients := s.clients[w := Idle],
           returned := s.returned + if read then [ReadReturned(client.path, client.values[pick])] else [])
      else s
    case Abandon(w) => s.(clients := s.clients[w := Idle])
  }

  // What one event does. Nobody else's operation moves; replicas change only by a put that reaches its
  // next one; an operation returns once it has been through all replicas with enough of them behind
  // it; and a client that gives up leaves the replicas as they are.
  lemma StepSays(cfg: Config, s: System, e: Event)
    ensures
      var t, before, after := Next(cfg, s, e), ClientOf(s, e.w), ClientOf(Next(cfg, s, e), e.w);
      && (forall v :: v != e.w ==> ClientOf(t, v) == ClientOf(s, v))
      && (!e.PutAt? ==> t.stores == s.stores)
      && (!e.EndPut? && !e.EndRead? ==> t.returned == s.returned)
      && match e
         case BeginPut(_, path, data) => after == if before.Idle? then Putting(path, data, 0, {}) else before
         case BeginRead(_, path) => after == if before.Idle? then Reading(path, 0, map[]) else before
         case PutAt(_, fault) =>
           if before.Putting? && before.next < |s.stores| then
             var i := before.next;
             && |t.stores| == |s.stores| && (forall j :: 0 <= j < |s.stores| && j != i ==> t.stores[j] == s.stores[j])
             && t.stores[i] == Written(cfg, s.stores[i], before.path, before.data, fault)
             && after.Putting? && after.path == before.path && after.data == before.data && after.next == i + 1
             && after.successes == (if Succeeds(cfg, s.stores[i], before.path, before.data, fault)
                                    then before.successes + {i} else before.successes)
           else t == s
         case ReadAt(_, works) =>
           if before.Reading? && before.next < |s.stores| then
             var i := before.next;
             && after.Reading? && after.path == before.path && after.next == i + 1
             && after.values == (if works && cfg.good(before.path) && before.path in s.stores[i]
                                 then before.values[i := s.stores[i][before.path]] else before.values)
           else t == s
         case EndPut(_) =>
           if before.Putting? && before.next == |s.stores| then
             && after == Idle
             && t.returned == s.returned + if |before.successes| >= cfg.minimum
                                           then [PutReturned(before.path, before.data)] else []
           else t == s
         case EndRead(_, pick) =>
           if before.Reading? && before.next == |s.stores| then
             && after == Idle
             && t.returned ==
                s.returned
                + (if && |before.values.Keys| >= cfg.minimum && pick in before.values
                      && (forall i, j :: i in before.values && j in before.values ==>
                            cfg.sha(before.values[i]) == cfg.sha(before.values[j]))
                   then [ReadReturned(before.path, before.values[pick])] else [])
           else t == s
         case Abandon(_) => after == Idle
  {
  }

  function After(cfg: Config, s: System, events: seq<Event>): System {
    if events == [] then s else Next(cfg, After(cfg, s, events[..|events| - 1]), events[|events| - 1])
  }

  // ---------------------------------------------------------------- what a state satisfies

  ghost predicate Held(s: System, i: nat, path: string, data: Bytes) {
    i < |s.stores| && path in s.stores[i] && s.stores[i][path] == data
  }

  ghost predicate ClientFits(s: System, client: Client) {
    match client
    case Idle => true
    case Putting(path, data, _, successes) => forall i :: i in successes ==> Held(s, i, path, data)
    case Reading(path, _, values) => forall i :: i in values ==> Held(s, i, path, values[i])
  }

  // A quorum of replicas holds the digest; for a put, they hold the very data.
  ghost predicate Backs(cfg: Config, s: System, quorum: set<nat>, path: string, digest: Digest) {
    |quorum| >= cfg.minimum
    && forall i :: i in quorum ==> i < |s.stores| && path in s.stores[i] && cfg.sha(s.stores[i][path]) == digest
  }

  ghost predicate BacksData(cfg: Config, s: System, quorum: set<nat>, path: string, data: Bytes) {
    |quorum| >= cfg.minimum && forall i :: i in quorum ==> Held(s, i, path, data)
  }

  ghost predicate ReturnFits(cfg: Config, s: System, r: Returned) {
    match r
    case PutReturned(path, data) => exists quorum :: BacksData(cfg, s, quorum, path, data)
    case ReadReturned(path, data) => exists quorum :: Backs(cfg, s, quorum, path, cfg.sha(data))
  }

  ghost predicate Inv(cfg: Config, s: System) {
    && |s.stores| == cfg.replicas
    && (forall w :: w in s.clients ==> ClientFits(s, s.clients[w]))
    && (forall r :: r in s.returned ==> ReturnFits(cfg, s, r))
  }

  // Nothing that is stored is ever changed or removed.
  ghost predicate Keeps(s: System, t: System) {
    && |t.stores| == |s.stores|
    && forall i: nat, path, data :: Held(s, i, path, data) ==> Held(t, i, path, data)
  }

  lemma FitsLater(cfg: Config, s: System, t: System)
    requires Keeps(s, t)
    ensures forall client :: ClientFits(s, client) ==> ClientFits(t, client)
    ensures forall r :: ReturnFits(cfg, s, r) ==> ReturnFits(cfg, t, r)
  {
    forall r | ReturnFits(cfg, s, r) ensures ReturnFits(cfg, t, r) {
      match r
      case PutReturned(path, data) =>
        var quorum :| BacksData(cfg, s, quorum, path, data);
        assert BacksData(cfg, t, quorum, path, data);
      case ReadReturned(path, data) =>
        var quorum :| Backs(cfg, s, quorum, path, cfg.sha(data));
        forall i | i in quorum
          ensures i < |t.stores| && path in t.stores[i] && cfg.sha(t.stores[i][path]) == cfg.sha(data)
        {
          assert Held(s, i, path, s.stores[i][path]);
        }
        assert Backs(cfg, t, quorum, path, cfg.sha(data));
    }
  }

  lemma StepKeeps(cfg: Config, s: System, e: Event)
    ensures Keeps(s, Next(cfg, s, e))
  {
  }

  lemma StepKeepsInv(cfg: Config, s: System, e: Event)
    requires Inv(cfg, s)
    ensures Inv(cfg, Next(cfg, s, e))
  {
    var t := Next(cfg, s, e);
    StepKeeps(cfg, s, e);
    FitsLater(cfg, s, t);
    assert ClientFits(s, ClientOf(s, e.w));
    assert ClientFits(t, ClientOf(t, e.w)) by { ActorFits(cfg, s, e); }
    assert forall r :: r in t.returned && r !in s.returned ==> ReturnFits(cfg, t, r) by { NewReturnFits(cfg, s, e); }
    hide ClientFits, ReturnFits, Keeps, Written, Succeeds, Readable, OneDigest;
  }

  lemma ActorFits(cfg: Config, s: System, e: Event)
    requires ClientFits(s, ClientOf(s, e.w)) && Keeps(s, Next(cfg, s, e))
    ensures ClientFits(Next(cfg, s, e), ClientOf(Next(cfg, s, e), e.w))
  {
    var client, t := ClientOf(s, e.w), Next(cfg, s, e);
    hide OneDigest;
    match e
    case PutAt(w, fault) =>
      if client.Putting? && client.next < |s.stores|
          && Succeeds(cfg, s.stores[client.next], client.path, client.data, fault) {
        assert Held(t, client.next, client.path, client.data);
      }
    case ReadAt(w, works) =>
    case _ =>
  }

  lemma NewReturnFits(cfg: Config, s: System, e: Event)
    requires ClientFits(s, ClientOf(s, e.w))
    ensures forall r :: r in Next(cfg, s, e).returned && r !in s.returned ==> ReturnFits(cfg, Next(cfg, s, e), r)
  {
    var client, t := ClientOf(s, e.w), Next(cfg, s, e);
    forall r | r in t.returned && r !in s.returned ensures ReturnFits(cfg, t, r) {
      match e
      case EndPut(_) => assert BacksData(cfg, t, client.successes, client.path, client.data);
      case EndRead(_, pick) => assert Backs(cfg, t, client.values.Keys, client.path, cfg.sha(client.values[pick]));
      case _ =>
    }
  }

  lemma {:induction false} InvHolds(cfg: Config, events: seq<Event>)
    ensures Inv(cfg, After(cfg, Start(cfg), events))
  {
    if events != [] {
      InvHolds(cfg, events[..|events| - 1]);
      hide Inv, Next;
      StepKeepsInv(cfg, After(cfg, Start(cfg), events[..|events| - 1]), events[|events| - 1]);
    }
  }

  // ---------------------------------------------------------------- quorums meet

  lemma {:induction false} IntervalSize(s: set<nat>, a: nat, b: nat)
    requires a <= b && forall i: nat :: i in s <==> a <= i < b
    ensures |s| == b - a
  {
    if a == b {
      assert s == {};
    } else {
      IntervalSize(s - {b - 1}, a, b - 1);
      assert s == (s - {b - 1}) + {b - 1};
    }
  }

  lemma QuorumsMeet(n: nat, a: set<nat>, b: set<nat>) returns (i: nat)
    requires |a| + |b| > n
    requires (forall j :: j in a ==> j < n) && (forall j :: j in b ==> j < n)
    ensures i in a && i in b
  {
    var all := Elements(seq(n, k => k));
    assert forall k: nat :: k in all <==> k < n by {
      forall k: nat | k < n ensures k in all {
        assert seq(n, j => j)[k] == k;
      }
    }
    IntervalSize(all, 0, n);
    SubsetSize(a + b, all);
    assert |a + b| == |a| + |b| - |a * b|;
    i :| i in a * b;
  }

  function DigestOf(cfg: Config, r: Returned): Digest {
    cfg.sha(r.data)
  }

  ghost predicate HasBacking(cfg: Config, s: System, r: Returned) {
    exists quorum :: Backs(cfg, s, quorum, r.path, DigestOf(cfg, r))
  }

  lemma ReturnsAreBacked(cfg: Config, s: System, r: Returned)
    requires ReturnFits(cfg, s, r)
    ensures HasBacking(cfg, s, r)
  {
    if r.PutReturned? {
      var quorum :| BacksData(cfg, s, quorum, r.path, r.data);
      assert Backs(cfg, s, quorum, r.path, DigestOf(cfg, r));
    } else {
      var quorum :| Backs(cfg, s, quorum, r.path, cfg.sha(r.data));
      assert Backs(cfg, s, quorum, r.path, DigestOf(cfg, r));
    }
  }

  // With majority quorums, whatever fails and whatever failed puts leave behind: any two operations
  // on one path that ever return, put or read, in either order, agree on the digest.
  lemma ReturnsAgree(cfg: Config, events: seq<Event>, a: Returned, b: Returned)
    requires 2 * cfg.minimum > cfg.replicas
    requires a in After(cfg, Start(cfg), events).returned && b in After(cfg, Start(cfg), events).returned
    requires a.path == b.path
    ensures cfg.sha(a.data) == cfg.sha(b.data)
  {
    var s := After(cfg, Start(cfg), events);
    InvHolds(cfg, events);
    ReturnsAreBacked(cfg, s, a);
    ReturnsAreBacked(cfg, s, b);
    var p :| Backs(cfg, s, p, a.path, DigestOf(cfg, a));
    var q :| Backs(cfg, s, q, b.path, DigestOf(cfg, b));
    var i := QuorumsMeet(|s.stores|, p, q);
  }

  // Two puts on one path that return have put the same bytes.
  lemma PutsAgree(cfg: Config, events: seq<Event>, path: string, x: Bytes, y: Bytes)
    requires 2 * cfg.minimum > cfg.replicas
    requires PutReturned(path, x) in After(cfg, Start(cfg), events).returned
    requires PutReturned(path, y) in After(cfg, Start(cfg), events).returned
    ensures x == y
  {
    var s := After(cfg, Start(cfg), events);
    InvHolds(cfg, events);
    assert ReturnFits(cfg, s, PutReturned(path, x)) && ReturnFits(cfg, s, PutReturned(path, y));
    var p :| BacksData(cfg, s, p, path, x);
    var q :| BacksData(cfg, s, q, path, y);
    var i := QuorumsMeet(|s.stores|, p, q);
  }

  // ---------------------------------------------------------------- without a majority

  lemma {:induction false} AfterBoth(cfg: Config, s: System, a: seq<Event>, b: seq<Event>)
    ensures After(cfg, s, a + b) == After(cfg, After(cfg, s, a), b)
  {
    if b == [] {
      assert a + b == a;
    } else {
      assert (a + b)[..|a + b| - 1] == a + b[..|b| - 1];
      AfterBoth(cfg, s, a, b[..|b| - 1]);
    }
  }

  function MidPut(cfg: Config, s: System, w: nat, path: string, data: Bytes, faults: seq<Fault>, k: nat): System
    requires |faults| == |s.stores| && k <= |s.stores|
  {
    s.(stores := WrittenUpTo(cfg, s.stores, path, data, faults, k),
       clients := s.clients[w := Putting(path, data, k, Successes(cfg, s.stores, path, data, faults, k))])
  }

  lemma {:induction false} PutStepByStep(cfg: Config, s: System, w: nat, path: string, data: Bytes,
      faults: seq<Fault>, k: nat)
    returns (events: seq<Event>)
    requires ClientOf(s, w).Idle? && |faults| == |s.stores| && k <= |s.stores|
    ensures After(cfg, s, events) == MidPut(cfg, s, w, path, data, faults, k)
  {
    if k == 0 {
      events := [BeginPut(w, path, data)];
      assert events[..0] == [];
      assert WrittenUpTo(cfg, s.stores, path, data, faults, 0) == s.stores;
      assert Successes(cfg, s.stores, path, data, faults, 0) == {};
      assert After(cfg, s, events) == Next(cfg, s, BeginPut(w, path, data));
    } else {
      var before := PutStepByStep(cfg, s, w, path, data, faults, k - 1);
      events := before + [PutAt(w, faults[k - 1])];
      assert events[..|events| - 1] == before;
      NextReplica(cfg, s, w, path, data, faults, k);
    }
  }

  lemma NextReplica(cfg: Config, s: System, w: nat, path: string, data: Bytes, faults: seq<Fault>, k: nat)
    requires |faults| == |s.stores| && 0 < k <= |s.stores|
    ensures Next(cfg, MidPut(cfg, s, w, path, data, faults, k - 1), PutAt(w, faults[k - 1])) ==
              MidPut(cfg, s, w, path, data, faults, k)
  {
    hide Succeeds, Written;
    var before, after := MidPut(cfg, s, w, path, data, faults, k - 1), MidPut(cfg, s, w, path, data, faults, k);
    var t := Next(cfg, before, PutAt(w, faults[k - 1]));
    assert before.stores[k - 1] == s.stores[k - 1];
    assert t.stores == after.stores;
    assert Successes(cfg, s.stores, path, data, faults, k) ==
           Successes(cfg, s.stores, path, data, faults, k - 1)
           + if Succeeds(cfg, s.stores[k - 1], path, data, faults[k - 1]) then {k - 1} else {};
    assert t.clients[w] == after.clients[w];
    assert t.clients == after.clients;
  }

  // An undisturbed put, run as single steps, is the put of the backend.
  lemma PutAsSteps(cfg: Config, s: System, w: nat, path: string, data: Bytes, faults: seq<Fault>)
    returns (events: seq<Event>)
    requires ClientOf(s, w).Idle? && |faults| == |s.stores|
    ensures
      var t, n := After(cfg, s, events), |s.stores|;
      var confirmed := set i: nat | && i < n && faults[i] == Works && data != [] && cfg.good(path)
                                    && (path !in s.stores[i] || s.stores[i][path] == data);
      var done := |confirmed| >= cfg.minimum;
      && t.stores == WrittenUpTo(cfg, s.stores, path, data, faults, n) && ClientOf(t, w).Idle?
      && t.returned == s.returned + if done then [PutReturned(path, data)] else []
  {
    var steps := PutStepByStep(cfg, s, w, path, data, faults, |s.stores|);
    PutSays(cfg, s.stores, path, data, faults);
    events := steps + [EndPut(w)];
    assert events[..|events| - 1] == steps;
  }

  function MidRead(cfg: Config, s: System, w: nat, path: string, works: seq<bool>, k: nat): System
    requires |works| == |s.stores| && k <= |s.stores|
  {
    s.(clients := s.clients[w := Reading(path, k, Values(cfg, s.stores, path, works, k))])
  }

  lemma {:induction false} ReadStepByStep(cfg: Config, s: System, w: nat, path: string, works: seq<bool>, k: nat)
    returns (events: seq<Event>)
    requires ClientOf(s, w).Idle? && |works| == |s.stores| && k <= |s.stores|
    ensures After(cfg, s, events) == MidRead(cfg, s, w, path, works, k)
  {
    if k == 0 {
      events := [BeginRead(w, path)];
      assert events[..0] == [];
      assert Values(cfg, s.stores, path, works, 0) == map[];
      assert After(cfg, s, events) == Next(cfg, s, BeginRead(w, path));
    } else {
      var before := ReadStepByStep(cfg, s, w, path, works, k - 1);
      events := before + [ReadAt(w, works[k - 1])];
      assert events[..|events| - 1] == before;
      NextRead(cfg, s, w, path, works, k);
    }
  }

  lemma NextRead(cfg: Config, s: System, w: nat, path: string, works: seq<bool>, k: nat)
    requires |works| == |s.stores| && 0 < k <= |s.stores|
    ensures Next(cfg, MidRead(cfg, s, w, path, works, k - 1), ReadAt(w, works[k - 1])) ==
              MidRead(cfg, s, w, path, works, k)
  {
    var before, after := Values(cfg, s.stores, path, works, k - 1), Values(cfg, s.stores, path, works, k);
    assert after == if Readable(cfg, s.stores[k - 1], path, works[k - 1]) then before[k - 1 := s.stores[k - 1][path]]
                    else before;
    var t := Next(cfg, MidRead(cfg, s, w, path, works, k - 1), ReadAt(w, works[k - 1]));
    assert t.clients == s.clients[w := Reading(path, k, after)];
  }

  // An undisturbed read, run as single steps, returns what the backend's read returns: with enough
  // answers of one digest the answer that it picks, and otherwise nothing.
  lemma ReadAsSteps(cfg: Config, s: System, w: nat, path: string, works: seq<bool>, pick: nat)
    returns (events: seq<Event>)
    requires ClientOf(s, w).Idle? && |works| == |s.stores|
    ensures
      var t := After(cfg, s, events);
      var values := map i: nat | i < |works| && works[i] && cfg.good(path) && path in s.stores[i] :: s.stores[i][path];
      var agree := forall i, j :: i in values && j in values ==> cfg.sha(values[i]) == cfg.sha(values[j]);
      && t.stores == s.stores && ClientOf(t, w).Idle?
      && t.returned == s.returned + if |values.Keys| >= cfg.minimum && agree && pick in values
                                    then [ReadReturned(path, values[pick])] else []
  {
    var steps := ReadStepByStep(cfg, s, w, path, works, |s.stores|);
    events := steps + [EndRead(w, pick)];
    assert events[..|events| - 1] == steps;
    ReadSays(cfg, s.stores, path, works);
  }

  function Fails(n: nat, from: nat, to: nat): seq<Fault> {
    seq(n, i => if from <= i < to then Works else FailsBefore)
  }

  // Without a majority the guarantee is lost: for every such configuration there is a run in which
  // two different objects are put at one path and both puts return.
  lemma MinorityQuorumsSplit(cfg: Config, path: string, x: Bytes, y: Bytes) returns (events: seq<Event>)
    requires WellFormed(cfg) && 2 * cfg.minimum <= cfg.replicas
    requires cfg.good(path) && x != [] && y != [] && x != y
    ensures PutReturned(path, x) in After(cfg, Start(cfg), events).returned
    ensures PutReturned(path, y) in After(cfg, Start(cfg), events).returned
  {
    var n, m := cfg.replicas, cfg.minimum;
    var s, f, g := Start(cfg), Fails(n, 0, m), Fails(n, m, 2 * m);
    var first := PutAsSteps(cfg, s, 0, path, x, f);
    var t := After(cfg, s, first);
    IntervalSize(Successes(cfg, s.stores, path, x, f, n), 0, m);
    PutSays(cfg, s.stores, path, x, f);
    assert PutReturned(path, x) in t.returned;
    hide After, Next, WrittenUpTo;
    var second := PutAsSteps(cfg, t, 0, path, y, g);
    IntervalSize(Successes(cfg, t.stores, path, y, g, n), m, 2 * m);
    PutSays(cfg, t.stores, path, y, g);
    events := first + second;
    AfterBoth(cfg, s, first, second);
  }
}
