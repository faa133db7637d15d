// One collation step: the totals received from the expected units are added up and compared
// with what was declared (src/ballotproof/collation.py).
module Collation {
  import opened Outcomes
  import opened Finite

  // Votes per candidate.
  type Tally = map<string, int>

  datatype Input = Input(unitId: string, candidateTotals: Tally)

  datatype Request = Request(
    level: string,
    nodeId: string,
    expectedUnitIds: seq<string>,
    expectedCandidateIds: Option<seq<string>>,
    inputs: seq<Input>,
    declaredTotals: Option<Tally>)

  datatype Status = VERIFIED | INCOMPLETE | FAILED

  datatype Delta = Delta(candidateId: string, computedVotes: int, declaredVotes: int, delta: int)

  // Identifier lists that the source sorts before reporting are sets here.
  datatype Report = Report(
    level: string,
    nodeId: string,
    status: Status,
    expectedUnits: nat,
    receivedExpectedUnits: nat,
    coverageFraction: real,
    complete: bool,
    missingUnitIds: set<string>,
    unexpectedUnitIds: set<string>,
    expectedCandidateIds: Option<seq<string>>,
    missingCandidateIdsByUnit: map<string, set<string>>,
    unexpectedCandidateIdsByUnit: map<string, set<string>>,
    computedTotals: Tally,
    declaredTotals: Option<Tally>,
    declaredMissingCandidateIds: set<string>,
    declaredUnexpectedCandidateIds: set<string>,
    declaredMatch: Option<bool>,
    declaredDifferences: set<Delta>)

  datatype Refusal = InvalidRequest

  // ---------------------------------------------------------------- what a request may be

  predicate NonNegative(t: Tally) {
    forall c :: c in t ==> t[c] >= 0
  }

  function UnitIds(inputs: seq<Input>): seq<string> {
    seq(|inputs|, i requires 0 <= i < |inputs| => inputs[i].unitId)
  }

  ghost predicate IdsUnique(ids: seq<string>) {
    ids != [] && NoDuplicates(ids)
  }

  const ID_LIMIT: nat := 256
  const LEVEL_LIMIT: nat := 128

  predicate Fits(text: string, limit: nat) {
    1 <= |text| <= limit
  }

  ghost predicate Acceptable(r: Request) {
    && Fits(r.level, LEVEL_LIMIT) && Fits(r.nodeId, ID_LIMIT)
    && (forall input :: input in r.inputs ==> Fits(input.unitId, ID_LIMIT))
    && IdsUnique(r.expectedUnitIds)
    && (r.expectedCandidateIds.Some? ==> IdsUnique(r.expectedCandidateIds.value))
    && NoDuplicates(UnitIds(r.inputs))
    && (forall input :: input in r.inputs ==> NonNegative(input.candidateTotals))
    && (r.declaredTotals.Some? ==> NonNegative(r.declaredTotals.value))
  }

  // Names within their limits, no list empty that must not be, nothing listed or reported twice, and no
  // negative counts.
  lemma AcceptableMeans(r: Request)
    ensures Acceptable(r) <==>
              && 1 <= |r.level| <= 128 && 1 <= |r.nodeId| <= 256
              && (forall input :: input in r.inputs ==> 1 <= |input.unitId| <= 256)
              && r.expectedUnitIds != []
              && (forall i, j :: 0 <= i < j < |r.expectedUnitIds| ==> r.expectedUnitIds[i] != r.expectedUnitIds[j])
              && (r.expectedCandidateIds.Some? ==>
                    var ids := r.expectedCandidateIds.value;
                    ids != [] && forall i, j :: 0 <= i < j < |ids| ==> ids[i] != ids[j])
              && (forall i, j :: 0 <= i < j < |r.inputs| ==> r.inputs[i].unitId != r.inputs[j].unitId)
              && (forall input, c :: input in r.inputs && c in input.candidateTotals ==> input.candidateTotals[c] >= 0)
              && (r.declaredTotals.Some? ==>
                    forall c :: c in r.declaredTotals.value ==> r.declaredTotals.value[c] >= 0)
  {
    UnitsUnique(r.inputs);
    assert IdsUnique(r.expectedUnitIds) <==>
           r.expectedUnitIds != []
           && forall i, j :: 0 <= i < j < |r.expectedUnitIds| ==> r.expectedUnitIds[i] != r.expectedUnitIds[j];
    assert r.expectedCandidateIds.Some? ==>
           (IdsUnique(r.expectedCandidateIds.value) <==>
              var ids := r.expectedCandidateIds.value;
              ids != [] && forall i, j :: 0 <= i < j < |ids| ==> ids[i] != ids[j]);
    hide IdsUnique, UnitIds, NoDuplicates;
  }

  lemma UnitsUnique(inputs: seq<Input>)
    ensures NoDuplicates(UnitIds(inputs)) <==>
            forall i, j :: 0 <= i < j < |inputs| ==> inputs[i].unitId != inputs[j].unitId
  {
    var ids := UnitIds(inputs);
    assert forall i :: 0 <= i < |inputs| ==> ids[i] == inputs[i].unitId;
    if NoDuplicates(ids) {
      forall i, j | 0 <= i < j < |inputs| ensures inputs[i].unitId != inputs[j].unitId {
        assert ids[i] != ids[j];
      }
    }
  }

  method Validate(r: Request) returns (ok: bool)
    ensures ok <==> Acceptable(r)
  {
    SizeShowsDuplicates(r.expectedUnitIds);
    SizeShowsDuplicates(UnitIds(r.inputs));
    if r.expectedCandidateIds.Some? {
      SizeShowsDuplicates(r.expectedCandidateIds.value);
    }
    ok := && Fits(r.level, LEVEL_LIMIT) && Fits(r.nodeId, ID_LIMIT)
          && (forall input | input in r.inputs :: Fits(input.unitId, ID_LIMIT))
          && r.expectedUnitIds != [] && |r.expectedUnitIds| == |Elements(r.expectedUnitIds)|
          && (r.expectedCandidateIds.Some? ==>
                && r.expectedCandidateIds.value != []
                && |r.expectedCandidateIds.value| == |Elements(r.expectedCandidateIds.value)|)
          && |UnitIds(r.inputs)| == |Elements(UnitIds(r.inputs))|
          && (forall input | input in r.inputs :: NonNegative(input.candidateTotals))
          && (r.declaredTotals.Some? ==> NonNegative(r.declaredTotals.value));
  }

  // ---------------------------------------------------------------- what a report says

  function Votes(t: Tally, candidate: string): int {
    if candidate in t then t[candidate] else 0
  }

  type Received = map<string, Tally>

  function ByUnit(inputs: seq<Input>): Received {
    if inputs == [] then map[]
    else
      var last := inputs[|inputs| - 1];
      ByUnit(inputs[..|inputs| - 1])[last.unitId := last.candidateTotals]
  }

  // How much each unit contributes to a candidate's total.
  function Contribution(units: Received, candidate: string): string -> int {
    unit => if unit in units then Votes(units[unit], candidate) else 0
  }

  function Seen(units: Received, among: set<string>): set<string> {
    set u, c | u in among && u in units && c in units[u] :: c
  }

  ghost function ComputedFrom(units: Received, ids: seq<string>): Tally {
    map c | c in Seen(units, Elements(ids)) :: Sum(Contribution(units, c), ids)
  }

  function MissingAmong(units: Received, register: set<string>, among: set<string>): map<string, set<string>> {
    map u | u in among && u in units && register - units[u].Keys != {} :: register - units[u].Keys
  }

  function UnexpectedAmong(units: Received, register: set<string>, among: set<string>): map<string, set<string>> {
    map u | u in among && u in units && units[u].Keys - register != {} :: units[u].Keys - register
  }

  function DifferencesAmong(computed: Tally, declared: Tally, among: set<string>): set<Delta> {
    set c | c in among && c in computed && c in declared && computed[c] != declared[c]
      :: Delta(c, computed[c], declared[c], declared[c] - computed[c])
  }

  function Members(ids: Option<seq<string>>): set<string> {
    if ids.Some? then Elements(ids.value) else {}
  }

  // The candidates whose declared total may be held against the computed one.
  function Comparable(r: Request, computed: Tally, missing: map<string, set<string>>): set<string>
    requires r.declaredTotals.Some?
  {
    if r.expectedCandidateIds.Some? then
      Members(r.expectedCandidateIds) * r.declaredTotals.value.Keys - set u, c | u in missing && c in missing[u] :: c
    else
      computed.Keys * r.declaredTotals.value.Keys
  }

  ghost function ReportOf(r: Request): Report
    requires r.expectedUnitIds != []
  {
    var units := ByUnit(r.inputs);
    var expected := Elements(r.expectedUnitIds);
    var included := expected * units.Keys;
    var known := r.expectedCandidateIds.Some?;
    var register := Members(r.expectedCandidateIds);
    var missing := if known then MissingAmong(units, register, included) else map[];
    var unexpected := if known then UnexpectedAmong(units, register, included) else map[];
    var computed := ComputedFrom(units, r.expectedUnitIds);
    var declared := if r.declaredTotals.Some? then r.declaredTotals.value else map[];
    var declaredMissing := if r.declaredTotals.Some? && known then register - declared.Keys else {};
    var declaredUnexpected := if r.declaredTotals.Some? && known then declared.Keys - register else {};
    var differences :=
      if r.declaredTotals.Some? then DifferencesAmong(computed, declared, Comparable(r, computed, missing)) else {};
    var status :=
      if units.Keys - expected != {} || unexpected != map[] || declaredUnexpected != {} || differences != {} then FAILED
      else if expected - units.Keys != {} || !known || missing != map[] || declaredMissing != {} then INCOMPLETE
      else VERIFIED;
    NonEmptySize(r.expectedUnitIds);
    Report(r.level, r.nodeId, status, |expected|, |included|, |included| as real / |expected| as real,
           status == VERIFIED, expected - units.Keys, units.Keys - expected, r.expectedCandidateIds,
           missing, unexpected, computed, r.declaredTotals, declaredMissing, declaredUnexpected,
           if r.declaredTotals.Some? then Some(status == VERIFIED) else None, differences)
  }

  lemma NonEmptySize(ids: seq<string>)
    requires ids != []
    ensures |Elements(ids)| > 0
  {
    assert ids[0] in Elements(ids);
  }

  lemma {:induction false} SumOfCounts(units: Received, ids: seq<string>, c: string)
    requires forall u :: u in units ==> NonNegative(units[u])
    ensures Sum(Contribution(units, c), ids) >= 0
  {
    if ids != [] {
      SumOfCounts(units, ids[1..], c);
    }
  }

  lemma {:induction false} GroupedIsNonNegative(inputs: seq<Input>)
    requires forall input :: input in inputs ==> NonNegative(input.candidateTotals)
    ensures forall u :: u in ByUnit(inputs) ==> NonNegative(ByUnit(inputs)[u])
  {
    if inputs != [] {
      GroupedIsNonNegative(inputs[..|inputs| - 1]);
      assert inputs[|inputs| - 1] in inputs;
    }
  }

  lemma ComputedIsNonNegative(r: Request)
    requires Acceptable(r)
    ensures NonNegative(ReportOf(r).computedTotals)
  {
    GroupedIsNonNegative(r.inputs);
    hide NonNegative;
    forall c ensures Sum(Contribution(ByUnit(r.inputs), c), r.expectedUnitIds) >= 0 {
      SumOfCounts(ByUnit(r.inputs), r.expectedUnitIds, c);
    }
    CountsOnly(ReportOf(r).computedTotals);
  }

  lemma CountsOnly(t: Tally)
    requires forall c :: c in t ==> t[c] >= 0
    ensures NonNegative(t)
  {
  }

  // ---------------------------------------------------------------- the replay

  method AddInto(computed: Tally, more: Tally) returns (total: Tally)
    ensures total.Keys == computed.Keys + more.Keys
    ensures forall c :: Votes(total, c) == Votes(computed, c) + Votes(more, c)
  {
    total := computed;
    var pending := more.Keys;
    while pending != {}
      invariant pending <= more.Keys && total.Keys == computed.Keys + (more.Keys - pending)
      invariant forall c :: Votes(total, c) == Votes(computed, c) + if c in pending then 0 else Votes(more, c)
    {
      var c :| c in pending;
      total := total[c := Votes(total, c) + more[c]];
      pending := pending - {c};
    }
  }

  lemma ComputedGrows(units: Received, done: seq<string>, u: string, more: Tally)
    requires u in units
    requires more.Keys == ComputedFrom(units, done).Keys + units[u].Keys
    requires forall c :: Votes(more, c) == Votes(ComputedFrom(units, done), c) + Votes(units[u], c)
    ensures more == ComputedFrom(units, done + [u])
  {
    hide Votes, Contribution, Sum, Seen, Elements;
    var longer := done + [u];
    SeenGrows(units, done, u);
    forall c | c in more ensures more[c] == Sum(Contribution(units, c), longer) {
      VotesOf(more, c);
      OneMoreContribution(units, done, u, c);
    }
  }

  lemma SeenGrows(units: Received, done: seq<string>, u: string)
    requires u in units
    ensures Seen(units, Elements(done + [u])) == Seen(units, Elements(done)) + units[u].Keys
  {
    assert Elements(done + [u]) == Elements(done) + {u};
  }

  lemma VotesOf(t: Tally, c: string)
    requires c in t
    ensures Votes(t, c) == t[c]
  {
  }

  lemma OneMoreContribution(units: Received, done: seq<string>, u: string, c: string)
    requires u in units
    ensures Sum(Contribution(units, c), done + [u]) == Votes(ComputedFrom(units, done), c) + Votes(units[u], c)
  {
    hide ComputedFrom;
    UnseenAddsNothing(units, done, c);
    SumAppend(Contribution(units, c), done, [u]);
  }

  lemma UnseenAddsNothing(units: Received, ids: seq<string>, c: string)
    ensures Votes(ComputedFrom(units, ids), c) == Sum(Contribution(units, c), ids)
  {
    if c !in Seen(units, Elements(ids)) {
      forall u | u in Elements(ids) ensures Contribution(units, c)(u) == 0 {
        assert u in units && c in units[u] ==> c in Seen(units, Elements(ids));
      }
      SumOfNothing(Contribution(units, c), ids);
    }
  }

  lemma ComputedIgnoresAbsent(units: Received, done: seq<string>, ids: seq<string>)
    requires NoDuplicates(done) && NoDuplicates(ids)
    requires Elements(done) == Elements(ids) * units.Keys
    ensures ComputedFrom(units, done) == ComputedFrom(units, ids)
  {
    assert Seen(units, Elements(done)) == Seen(units, Elements(ids));
    forall c ensures Sum(Contribution(units, c), done) == Sum(Contribution(units, c), ids) {
      SumOverSubset(Contribution(units, c), done, ids);
    }
  }

  method AddUp(units: Received, ids: seq<string>) returns (computed: Tally)
    requires NoDuplicates(ids)
    ensures computed == ComputedFrom(units, ids)
  {
    var pending := Elements(ids) * units.Keys;
    computed := map[];
    ghost var done: seq<string> := [];
    while pending != {}
      invariant pending <= Elements(ids) * units.Keys
      invariant NoDuplicates(done) && Elements(done) == Elements(ids) * units.Keys - pending
      invariant computed == ComputedFrom(units, done)
    {
      var u :| u in pending;
      computed := AddInto(computed, units[u]);
      ComputedGrows(units, done, u, computed);
      InElements(done, u);
      assert Elements(done + [u]) == Elements(done) + {u};
      done := done + [u];
      pending := pending - {u};
    }
    ComputedIgnoresAbsent(units, done, ids);
  }

  method Group(inputs: seq<Input>) returns (units: Received)
    ensures units == ByUnit(inputs)
  {
    units := map[];
    for i := 0 to |inputs|
      invariant units == ByUnit(inputs[..i])
    {
      assert inputs[..i + 1][..i] == inputs[..i];
      units := units[inputs[i].unitId := inputs[i].candidateTotals];
    }
    assert inputs[..|inputs|] == inputs;
  }

  method CompareRegister(units: Received, register: set<string>, included: set<string>)
    returns (missing: map<string, set<string>>, unexpected: map<string, set<string>>)
    requires included <= units.Keys
    ensures missing == MissingAmong(units, register, included)
    ensures unexpected == UnexpectedAmong(units, register, included)
  {
    missing, unexpected := map[], map[];
    var pending := included;
    while pending != {}
      invariant pending <= included
      invariant missing == MissingAmong(units, register, included - pending)
      invariant unexpected == UnexpectedAmong(units, register, included - pending)
    {
      var u :| u in pending;
      var absent, foreign := register - units[u].Keys, units[u].Keys - register;
      if absent != {} {
        missing := missing[u := absent];
      }
      if foreign != {} {
        unexpected := unexpected[u := foreign];
      }
      pending := pending - {u};
    }
    assert included - pending == included;
  }

  method CompareDeclared(computed: Tally, declared: Tally, comparable: set<string>) returns (differences: set<Delta>)
    requires comparable <= declared.Keys
    ensures differences == DifferencesAmong(computed, declared, comparable)
  {
    differences := {};
    var pending := comparable;
    while pending != {}
      invariant pending <= comparable
      invariant differences == DifferencesAmong(computed, declared, comparable - pending)
    {
      var c :| c in pending;
      if c in computed {
        if computed[c] != declared[c] {
          differences := differences + {Delta(c, computed[c], declared[c], declared[c] - computed[c])};
        }
      }
      pending := pending - {c};
    }
    assert comparable - pending == comparable;
  }

  method ReplayCollation(r: Request) returns (outcome: Result<Report, Refusal>)
    ensures outcome.Ok? <==> Acceptable(r)
    ensures outcome.Ok? ==> outcome.value == ReportOf(r)
  {
    var valid := Validate(r);
    if !valid {
      return Err(InvalidRequest);
    }
    hide ByUnit, ComputedFrom, MissingAmong, UnexpectedAmong, DifferencesAmong, NonNegative, NoDuplicates, UnitIds;
    var units := Group(r.inputs);
    var expected := Elements(r.expectedUnitIds);
    var missingUnits, unexpectedUnits := expected - units.Keys, units.Keys - expected;
    var included := expected * units.Keys;
    var register := Members(r.expectedCandidateIds);

    var missing, unexpected := map[], map[];
    if r.expectedCandidateIds.Some? {
      missing, unexpected := CompareRegister(units, register, included);
    }
    var computed := AddUp(units, r.expectedUnitIds);

    var declaredMissing, declaredUnexpected, differences := {}, {}, {};
    if r.declaredTotals.Some? {
      var declared := r.declaredTotals.value;
      if r.expectedCandidateIds.Some? {
        declaredMissing, declaredUnexpected := register - declared.Keys, declared.Keys - register;
      }
      differences := CompareDeclared(computed, declared, Comparable(r, computed, missing));
    }

    var hasFailure :=
      unexpectedUnits != {} || unexpected != map[] || declaredUnexpected != {} || differences != {};
    var hasIncompleteEvidence :=
      || missingUnits != {} || r.expectedCandidateIds.None? || missing != map[]
      || (r.declaredTotals.Some? && declaredMissing != {});
    var status := if hasFailure then FAILED else if hasIncompleteEvidence then INCOMPLETE else VERIFIED;
    var declaredMatch := if r.declaredTotals.Some? then Some(status == VERIFIED) else None;
    NonEmptySize(r.expectedUnitIds);
    return Ok(Report(r.level, r.nodeId, status, |expected|, |included|, |included| as real / |expected| as real,
                     status == VERIFIED, missingUnits, unexpectedUnits, r.expectedCandidateIds,
                     missing, unexpected, computed, r.declaredTotals, declaredMissing, declaredUnexpected,
                     declaredMatch, differences));
  }

  // ---------------------------------------------------------------- what the statuses mean

  // Every unit's row is there, names exactly the registered candidates, and any declaration
  // is the sum.
  ghost predicate Exact(r: Request) {
    var units := ByUnit(r.inputs);
    && r.expectedCandidateIds.Some?
    && units.Keys == Elements(r.expectedUnitIds)
    && (forall u :: u in units ==> units[u].Keys == Members(r.expectedCandidateIds))
    && (r.declaredTotals.Some? ==> r.declaredTotals.value == ComputedFrom(units, r.expectedUnitIds))
  }

  // Whether the received rows settle a candidate's total: no expected unit that reported left
  // the candidate out. Units that did not report at all do not count against it.
  ghost predicate Settled(r: Request, c: string) {
    var units := ByUnit(r.inputs);
    if r.expectedCandidateIds.Some? then
      && c in Members(r.expectedCandidateIds) && c in ComputedFrom(units, r.expectedUnitIds)
      && forall u :: u in r.expectedUnitIds && u in units ==> c in units[u]
    else
      c in ComputedFrom(units, r.expectedUnitIds)
  }

  ghost predicate Disagrees(r: Request, c: string) {
    && Settled(r, c)
    && r.declaredTotals.Some? && c in r.declaredTotals.value
    && r.declaredTotals.value[c] != Votes(ComputedFrom(ByUnit(r.inputs), r.expectedUnitIds), c)
  }

  ghost predicate Unregistered(r: Request, c: string) {
    && r.expectedCandidateIds.Some? && c !in Members(r.expectedCandidateIds)
    && (|| (r.declaredTotals.Some? && c in r.declaredTotals.value)
        || c in ComputedFrom(ByUnit(r.inputs), r.expectedUnitIds))
  }

  // The statements received so far are at odds with the request or with each other: a unit nobody
  // expects, a candidate outside the register, or a declared total that is not the sum of the rows
  // at hand. The last may still change; Completion says when.
  ghost predicate Contradicted(r: Request) {
    || (exists u :: u in ByUnit(r.inputs) && u !in r.expectedUnitIds)
    || (exists c :: Unregistered(r, c))
    || (exists c :: Disagrees(r, c))
  }

  lemma DifferencesAreDisagreements(r: Request, c: string)
    requires r.expectedUnitIds != []
    ensures Disagrees(r, c) <==> exists d :: d in ReportOf(r).declaredDifferences && d.candidateId == c
  {
    var units := ByUnit(r.inputs);
    var computed := ComputedFrom(units, r.expectedUnitIds);
    if r.declaredTotals.Some? {
      var declared := r.declaredTotals.value;
      var among := Comparable(r, computed, ReportOf(r).missingCandidateIdsByUnit);
      ComparableIsSettled(r, c);
      if c in among && c in computed && c in declared && computed[c] != declared[c] {
        assert Delta(c, computed[c], declared[c], declared[c] - computed[c]) in
            DifferencesAmong(computed, declared, among);
      }
    }
  }

  lemma ComparableIsSettled(r: Request, c: string)
    requires r.expectedUnitIds != [] && r.declaredTotals.Some?
    ensures
      var computed := ReportOf(r).computedTotals;
      var comparable := Comparable(r, computed, ReportOf(r).missingCandidateIdsByUnit);
      (c in comparable && c in computed) <==> (Settled(r, c) && c in r.declaredTotals.value)
  {
    hide ByUnit, ComputedFrom, UnexpectedAmong, DifferencesAmong;
    var units := ByUnit(r.inputs);
    var rep := ReportOf(r);
    if r.expectedCandidateIds.Some? && c in Members(r.expectedCandidateIds) {
      var missing := rep.missingCandidateIdsByUnit;
      if u :| u in r.expectedUnitIds && u in units && c !in units[u] {
        assert c in Members(r.expectedCandidateIds) - units[u].Keys;
        assert u in missing && c in missing[u];
      }
    }
  }

  lemma UnregisteredIsReported(r: Request)
    requires r.expectedUnitIds != []
    ensures (exists c :: Unregistered(r, c)) <==>
              (ReportOf(r).unexpectedCandidateIdsByUnit != map[] || ReportOf(r).declaredUnexpectedCandidateIds != {})
  {
    var rep, units := ReportOf(r), ByUnit(r.inputs);
    var register := Members(r.expectedCandidateIds);
    hide ByUnit, MissingAmong, DifferencesAmong, Comparable, Members;
    if c :| Unregistered(r, c) {
      if c in rep.computedTotals {
        UnregisteredRow(r, c);
      } else {
        assert c in rep.declaredUnexpectedCandidateIds;
      }
    }
    if u :| u in rep.unexpectedCandidateIdsByUnit {
      var c :| c in units[u].Keys - register;
      assert Unregistered(r, c);
    }
    if c :| c in rep.declaredUnexpectedCandidateIds {
      assert Unregistered(r, c);
    }
  }

  lemma UnregisteredRow(r: Request, c: string)
    requires r.expectedUnitIds != [] && r.expectedCandidateIds.Some? && c !in Members(r.expectedCandidateIds)
    requires c in ReportOf(r).computedTotals
    ensures ReportOf(r).unexpectedCandidateIdsByUnit != map[]
  {
    hide ByUnit, MissingAmong, DifferencesAmong, Comparable, Members;
    var units := ByUnit(r.inputs);
    var u :| u in Elements(r.expectedUnitIds) && u in units && c in units[u];
    assert c in units[u].Keys - Members(r.expectedCandidateIds);
    assert u in ReportOf(r).unexpectedCandidateIdsByUnit;
  }

  lemma DifferencesShowDisagreement(r: Request)
    requires r.expectedUnitIds != []
    ensures ReportOf(r).declaredDifferences != {} <==> exists c :: Disagrees(r, c)
  {
    hide Disagrees, ReportOf;
    if ReportOf(r).declaredDifferences != {} {
      var d :| d in ReportOf(r).declaredDifferences;
      DifferencesAreDisagreements(r, d.candidateId);
    }
    if c :| Disagrees(r, c) {
      DifferencesAreDisagreements(r, c);
    }
  }

  lemma StrangersAreReported(r: Request)
    requires r.expectedUnitIds != []
    ensures ReportOf(r).unexpectedUnitIds != {} <==> exists u :: u in ByUnit(r.inputs) && u !in r.expectedUnitIds
  {
    hide ByUnit, ComputedFrom, MissingAmong, UnexpectedAmong, DifferencesAmong, Comparable;
    if u :| u in ByUnit(r.inputs) && u !in r.expectedUnitIds {
      assert u in ReportOf(r).unexpectedUnitIds;
    }
    if u :| u in ReportOf(r).unexpectedUnitIds {
      assert u in ByUnit(r.inputs);
    }
  }

  // What the status is read off from.
  lemma StatusOf(r: Request)
    requires r.expectedUnitIds != []
    ensures
      var rep := ReportOf(r);
      var failed := rep.unexpectedUnitIds != {} || rep.unexpectedCandidateIdsByUnit != map[]
                    || rep.declaredUnexpectedCandidateIds != {} || rep.declaredDifferences != {};
      var incomplete := rep.missingUnitIds != {} || r.expectedCandidateIds.None?
                        || rep.missingCandidateIdsByUnit != map[] || rep.declaredMissingCandidateIds != {};
      && (rep.status == FAILED <==> failed)
      && (rep.status == VERIFIED <==> !failed && !incomplete)
  {
  }

  // A step fails exactly when something received so far is at odds with the rest.
  lemma FailedIffContradicted(r: Request)
    requires Acceptable(r)
    ensures ReportOf(r).status == FAILED <==> Contradicted(r)
  {
    StatusOf(r);
    StrangersAreReported(r);
    UnregisteredIsReported(r);
    DifferencesShowDisagreement(r);
    hide ReportOf, ByUnit, Unregistered, Disagrees;
  }

  lemma FullRowsName(r: Request, units: Received)
    requires r.expectedUnitIds != [] && units.Keys == Elements(r.expectedUnitIds)
    requires forall u :: u in units ==> units[u].Keys == Members(r.expectedCandidateIds)
    ensures ComputedFrom(units, r.expectedUnitIds).Keys == Members(r.expectedCandidateIds)
  {
    assert r.expectedUnitIds[0] in units;
  }

  lemma ExactIsVerified(r: Request)
    requires Acceptable(r) && Exact(r)
    ensures ReportOf(r).status == VERIFIED
  {
    hide ByUnit, ComputedFrom, NonNegative, NoDuplicates, UnitIds;
    FullRowsName(r, ByUnit(r.inputs));
  }

  lemma VerifiedIsExact(r: Request)
    requires Acceptable(r) && ReportOf(r).status == VERIFIED
    ensures Exact(r)
  {
    hide ByUnit, ComputedFrom, NonNegative, NoDuplicates, UnitIds;
    StatusOf(r);
    var units, register := ByUnit(r.inputs), Members(r.expectedCandidateIds);
    assert units.Keys == Elements(r.expectedUnitIds) == Elements(r.expectedUnitIds) * units.Keys;
    forall u | u in units ensures units[u].Keys == register {
      assert u !in MissingAmong(units, register, units.Keys);
      assert u !in UnexpectedAmong(units, register, units.Keys);
    }
    FullRowsName(r, units);
    if r.declaredTotals.Some? {
      DeclaredIsComputed(r);
    }
  }

  lemma DeclaredIsComputed(r: Request)
    requires r.expectedUnitIds != [] && r.expectedCandidateIds.Some? && r.declaredTotals.Some?
    requires ByUnit(r.inputs).Keys == Elements(r.expectedUnitIds)
    requires forall u :: u in ByUnit(r.inputs) ==> ByUnit(r.inputs)[u].Keys == Members(r.expectedCandidateIds)
    requires ReportOf(r).status == VERIFIED
    ensures r.declaredTotals.value == ComputedFrom(ByUnit(r.inputs), r.expectedUnitIds)
  {
    hide ByUnit, ComputedFrom;
    StatusOf(r);
    var computed, declared := ComputedFrom(ByUnit(r.inputs), r.expectedUnitIds), r.declaredTotals.value;
    FullRowsName(r, ByUnit(r.inputs));
    DifferencesShowDisagreement(r);
    assert declared.Keys == computed.Keys by {
      hide DifferencesAmong, MissingAmong, UnexpectedAmong, Comparable;
    }
    forall c | c in computed ensures declared[c] == computed[c] {
      hide ReportOf;
      assert Settled(r, c);
      assert !Disagrees(r, c);
    }
  }

  // A step is verified exactly when nothing at all is missing and nothing disagrees.
  lemma VerifiedIffExact(r: Request)
    requires Acceptable(r)
    ensures ReportOf(r).status == VERIFIED <==> Exact(r)
  {
    hide ReportOf, Exact;
    if Exact(r) {
      ExactIsVerified(r);
    }
    if ReportOf(r).status == VERIFIED {
      VerifiedIsExact(r);
    }
  }

  lemma OneRow(a: string, t: Tally)
    ensures ByUnit([Input(a, t)]) == map[a := t]
  {
    assert [Input(a, t)][..0] == [];
  }

  lemma TwoRows(a: string, t: Tally, b: string, u: Tally)
    ensures ByUnit([Input(a, t), Input(b, u)]) == map[a := t][b := u]
  {
    OneRow(a, t);
    assert [Input(a, t), Input(b, u)][..1] == [Input(a, t)];
  }

  lemma SumOfTwo(f: string -> int, a: string, b: string)
    ensures Sum(f, [a, b]) == f(a) + f(b)
  {
    assert [a, b][1..] == [b];
    assert Sum(f, [b]) == f(b);
  }

  // Two units may report on one candidate, who is declared to have x + y votes. While only the
  // first has reported, and something is still to come, the step fails ...
  lemma PartialSumFails(r: Request, a: string, b: string, c: string, x: nat, y: nat)
    requires a != b && y > 0
    requires r.expectedUnitIds == [a, b] && r.expectedCandidateIds == Some([c])
    requires r.inputs == [Input(a, map[c := x])] && r.declaredTotals == Some(map[c := x + y])
    requires Fits(r.level, LEVEL_LIMIT) && Fits(r.nodeId, ID_LIMIT) && Fits(a, ID_LIMIT)
    ensures Acceptable(r) && ReportOf(r).status == FAILED
  {
    var units: Received := map[a := map[c := x]];
    OneRow(a, map[c := x]);
    hide ReportOf, ByUnit, Sum;
    assert c in Seen(units, Elements([a, b])) by {
      assert a in [a, b] && a in units && c in units[a];
    }
    SumOfTwo(Contribution(units, c), a, b);
    assert c in Members(r.expectedCandidateIds) by { assert c in [c]; }
    assert Disagrees(r, c);
    FailedIffContradicted(r);
  }

  // ... and it is verified once the second reports: a failure is not final.
  lemma FullSumVerifies(r: Request, a: string, b: string, c: string, x: nat, y: nat)
    requires a != b
    requires r.expectedUnitIds == [a, b] && r.expectedCandidateIds == Some([c])
    requires r.inputs == [Input(a, map[c := x]), Input(b, map[c := y])]
    requires r.declaredTotals == Some(map[c := x + y])
    requires Fits(r.level, LEVEL_LIMIT) && Fits(r.nodeId, ID_LIMIT) && Fits(a, ID_LIMIT) && Fits(b, ID_LIMIT)
    ensures Acceptable(r) && ReportOf(r).status == VERIFIED
  {
    var units: Received := map[a := map[c := x], b := map[c := y]];
    TwoRows(a, map[c := x], b, map[c := y]);
    hide ReportOf, ByUnit, ComputedFrom;
    assert Elements([a, b]) == {a, b} && Elements([c]) == {c};
    TwoRowsAddUp(a, b, c, x, y);
    assert Acceptable(r) by { hide Exact; }
    assert Exact(r) by { hide Acceptable; }
    VerifiedIffExact(r);
  }

  lemma TwoRowsAddUp(a: string, b: string, c: string, x: nat, y: nat)
    requires a != b
    ensures ComputedFrom(map[a := map[c := x], b := map[c := y]], [a, b]) == map[c := x + y]
  {
    var units: Received := map[a := map[c := x], b := map[c := y]];
    assert a in [a, b] && a in units && c in units[a];
    assert Seen(units, Elements([a, b])) == {c};
    SumOfTwo(Contribution(units, c), a, b);
  }
}
