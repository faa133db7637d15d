// Which collation steps can still be verified, whatever their status now: the rows that are missing
// may arrive, those that were received stay.
module Completion {
  import opened Outcomes
  import opened Finite
  import opened Collation

  // `full` is `r` after further rows were received.
  predicate Extends(full: Request, r: Request) {
    full == r.(inputs := full.inputs) && r.inputs <= full.inputs
  }

  ghost predicate MayVerify(r: Request) {
    exists full :: Extends(full, r) && Acceptable(full) && ReportOf(full).status == VERIFIED
  }

  ghost function MissingUnits(r: Request): set<string> {
    Elements(r.expectedUnitIds) - ByUnit(r.inputs).Keys
  }

  // What the received rows add up to for a candidate.
  ghost function SoFar(r: Request, c: string): int {
    Votes(ComputedFrom(ByUnit(r.inputs), r.expectedUnitIds), c)
  }

  // The declaration leaves exactly the registered candidates room for what is still missing.
  ghost predicate DeclaresRoom(r: Request, declared: Tally) {
    && declared.Keys == Members(r.expectedCandidateIds)
    && forall c :: c in declared ==>
        if MissingUnits(r) == {} then declared[c] == SoFar(r, c) else declared[c] >= SoFar(r, c)
  }

  // Everything received so far could be part of a verified step.
  ghost predicate Consistent(r: Request) {
    var units := ByUnit(r.inputs);
    && r.expectedCandidateIds.Some?
    && units.Keys <= Elements(r.expectedUnitIds)
    && (forall u :: u in units ==> units[u].Keys == Members(r.expectedCandidateIds))
    && (forall u :: u in MissingUnits(r) ==> Fits(u, ID_LIMIT))
    && (r.declaredTotals.Some? ==> DeclaresRoom(r, r.declaredTotals.value))
  }

  // ---------------------------------------------------------------- rows

  lemma {:induction false} RowFor(inputs: seq<Input>, u: string) returns (i: nat)
    requires u in ByUnit(inputs)
    ensures i < |inputs| && inputs[i] == Input(u, ByUnit(inputs)[u])
  {
    var last := inputs[|inputs| - 1];
    if last.unitId == u {
      i := |inputs| - 1;
    } else {
      i := RowFor(inputs[..|inputs| - 1], u);
    }
  }

  lemma {:induction false} RowIsFound(inputs: seq<Input>, i: nat)
    requires NoDuplicates(UnitIds(inputs)) && i < |inputs|
    ensures inputs[i].unitId in ByUnit(inputs)
    ensures ByUnit(inputs)[inputs[i].unitId] == inputs[i].candidateTotals
  {
    var n := |inputs| - 1;
    if i < n {
      var init := inputs[..n];
      assert UnitIds(inputs) == UnitIds(init) + [inputs[n].unitId];
      NoDuplicatesAppend(UnitIds(init), inputs[n].unitId);
      assert UnitIds(init)[i] == inputs[i].unitId;
      RowIsFound(init, i);
    }
  }

  // A row that was received is a row of every extension.
  lemma RowStays(full: Request, r: Request, u: string)
    requires Extends(full, r) && Acceptable(full) && u in ByUnit(r.inputs)
    ensures u in ByUnit(full.inputs) && ByUnit(full.inputs)[u] == ByUnit(r.inputs)[u]
  {
    hide ByUnit;
    var i := RowFor(r.inputs, u);
    RowIsFound(full.inputs, i);
  }

  // ---------------------------------------------------------------- a verified extension is consistent

  lemma VerifiedLater(full: Request, r: Request)
    requires Acceptable(r) && Extends(full, r) && Acceptable(full) && ReportOf(full).status == VERIFIED
    ensures Consistent(r)
  {
    hide ByUnit, ComputedFrom, ReportOf, DeclaresRoom, IdsUnique, NonNegative;
    VerifiedIffExact(full);
    var before, after := ByUnit(r.inputs), ByUnit(full.inputs);
    forall u | u in before ensures u in after && after[u] == before[u] {
      RowStays(full, r, u);
    }
    forall u | u in MissingUnits(r) ensures Fits(u, ID_LIMIT) {
      var i := RowFor(full.inputs, u);
      assert full.inputs[i] in full.inputs;
    }
    if r.declaredTotals.Some? {
      RoomWasLeft(full, r, r.declaredTotals.value);
    }
  }

  lemma RoomWasLeft(full: Request, r: Request, declared: Tally)
    requires Acceptable(r) && Extends(full, r) && Acceptable(full) && Exact(full)
    requires r.declaredTotals == Some(declared)
    ensures DeclaresRoom(r, declared)
  {
    hide ByUnit, ComputedFrom, NonNegative, NoDuplicates;
    var ids := r.expectedUnitIds;
    FullRowsName(full, ByUnit(full.inputs));
    GroupedIsNonNegative(full.inputs);
    forall c | c in declared
      ensures if MissingUnits(r) == {} then declared[c] == SoFar(r, c) else declared[c] >= SoFar(r, c)
    {
      UnseenAddsNothing(ByUnit(full.inputs), ids, c);
      UnseenAddsNothing(ByUnit(r.inputs), ids, c);
      LaterAddsMore(full, r, c);
    }
  }

  lemma LaterAddsMore(full: Request, r: Request, c: string)
    requires Extends(full, r) && Acceptable(full)
    requires forall u :: u in ByUnit(full.inputs) ==> NonNegative(ByUnit(full.inputs)[u])
    ensures var before, after := Contribution(ByUnit(r.inputs), c), Contribution(ByUnit(full.inputs), c);
      && Sum(before, r.expectedUnitIds) <= Sum(after, r.expectedUnitIds)
      && (MissingUnits(r) == {} ==> Sum(before, r.expectedUnitIds) == Sum(after, r.expectedUnitIds))
  {
    hide ByUnit, Acceptable;
    var before, after := Contribution(ByUnit(r.inputs), c), Contribution(ByUnit(full.inputs), c);
    forall u ensures before(u) <= after(u) ensures u in ByUnit(r.inputs) ==> before(u) == after(u) {
      if u in ByUnit(r.inputs) {
        RowStays(full, r, u);
      }
    }
    SumMonotone(before, after, r.expectedUnitIds);
    if MissingUnits(r) == {} {
      forall u | u in r.expectedUnitIds ensures before(u) == after(u) {
        assert u in Elements(r.expectedUnitIds) && u !in MissingUnits(r);
      }
      SumAgree(before, after, r.expectedUnitIds);
    }
  }

  lemma {:induction false} SumMonotone(f: string -> int, g: string -> int, s: seq<string>)
    requires forall x :: f(x) <= g(x)
    ensures Sum(f, s) <= Sum(g, s)
  {
    if s != [] {
      SumMonotone(f, g, s[1..]);
    }
  }

  // ---------------------------------------------------------------- a consistent step can be filled in

  function Absent(ids: seq<string>, units: Received): (absent: seq<string>)
    ensures forall u :: u in absent <==> u in ids && u !in units
  {
    if ids == [] then []
    else
      var last := ids[|ids| - 1];
      assert ids == ids[..|ids| - 1] + [last];
      Absent(ids[..|ids| - 1], units) + if last in units then [] else [last]
  }

  lemma {:induction false} AbsentNoDuplicates(ids: seq<string>, units: Received)
    requires NoDuplicates(ids)
    ensures NoDuplicates(Absent(ids, units))
  {
    if ids != [] {
      var last, init := ids[|ids| - 1], ids[..|ids| - 1];
      assert ids == init + [last];
      NoDuplicatesAppend(init, last);
      AbsentNoDuplicates(init, units);
      NoDuplicatesAppend(Absent(init, units), last);
      assert Absent(init, units) + [] == Absent(init, units);
    }
  }

  // What is left of the declaration goes to the first unit that is missing, nothing to the others.
  ghost function Residual(r: Request): Tally
  {
    map c | c in Members(r.expectedCandidateIds) ::
      if r.declaredTotals.Some? then Votes(r.declaredTotals.value, c) - SoFar(r, c) else 0
  }

  function Zeros(register: set<string>): Tally {
    map c | c in register :: 0
  }

  ghost function Filled(r: Request): Request {
    var absent := Absent(r.expectedUnitIds, ByUnit(r.inputs));
    r.(inputs := r.inputs + seq(|absent|, i requires 0 <= i < |absent| =>
      Input(absent[i], if i == 0 then Residual(r) else Zeros(Members(r.expectedCandidateIds)))))
  }

  lemma FilledIds(r: Request)
    requires Acceptable(r)
    ensures var absent := Absent(r.expectedUnitIds, ByUnit(r.inputs));
      && UnitIds(Filled(r).inputs) == UnitIds(r.inputs) + absent
      && NoDuplicates(UnitIds(Filled(r).inputs))
  {
    hide ByUnit, Residual;
    var absent := Absent(r.expectedUnitIds, ByUnit(r.inputs));
    AbsentNoDuplicates(r.expectedUnitIds, ByUnit(r.inputs));
    forall u | u in UnitIds(r.inputs) ensures u !in absent {
      var i :| 0 <= i < |r.inputs| && UnitIds(r.inputs)[i] == u;
      RowIsFound(r.inputs, i);
    }
    hide NoDuplicates;
    NoDuplicatesJoin(UnitIds(r.inputs), absent);
  }

  lemma ResidualCounts(r: Request)
    requires Acceptable(r) && Consistent(r) && MissingUnits(r) != {}
    ensures NonNegative(Residual(r))
  {
    hide ByUnit, ComputedFrom, IdsUnique;
  }

  lemma ZerosCount(register: set<string>)
    ensures NonNegative(Zeros(register))
  {
  }

  // A row that was filled in.
  lemma AddedRow(r: Request, i: nat)
    requires Acceptable(r) && Consistent(r) && i < |Absent(r.expectedUnitIds, ByUnit(r.inputs))|
    ensures var input := Filled(r).inputs[|r.inputs| + i];
      NonNegative(input.candidateTotals) && Fits(input.unitId, ID_LIMIT)
  {
    var absent := Absent(r.expectedUnitIds, ByUnit(r.inputs));
    assert absent[i] in absent;
    assert absent[i] in MissingUnits(r);
    ResidualCounts(r);
    ZerosCount(Members(r.expectedCandidateIds));
    hide ByUnit, Residual, Zeros, NonNegative, IdsUnique, NoDuplicates, DeclaresRoom, Fits;
  }

  lemma FilledIsAcceptable(r: Request)
    requires Acceptable(r) && Consistent(r)
    ensures Acceptable(Filled(r)) && Extends(Filled(r), r)
  {
    hide ByUnit, Residual, IdsUnique, NoDuplicates, NonNegative, Fits, Consistent;
    FilledIds(r);
    var full := Filled(r);
    forall input | input in full.inputs
      ensures NonNegative(input.candidateTotals) && Fits(input.unitId, ID_LIMIT)
    {
      var i :| 0 <= i < |full.inputs| && full.inputs[i] == input;
      if i < |r.inputs| {
        assert input in r.inputs;
      } else {
        AddedRow(r, i - |r.inputs|);
      }
    }
  }

  lemma FilledRow(r: Request, u: string)
    requires Acceptable(r) && Consistent(r) && u in r.expectedUnitIds
    ensures var absent, units := Absent(r.expectedUnitIds, ByUnit(r.inputs)), ByUnit(Filled(r).inputs);
      && u in units
      && units[u] == if u in ByUnit(r.inputs) then ByUnit(r.inputs)[u]
                     else if u == absent[0] then Residual(r)
                     else Zeros(Members(r.expectedCandidateIds))
  {
    FilledIsAcceptable(r);
    FilledIds(r);
    AbsentNoDuplicates(r.expectedUnitIds, ByUnit(r.inputs));
    hide ByUnit, Residual, IdsUnique, ComputedFrom, DeclaresRoom, Acceptable, Consistent, Zeros, Members;
    var absent, full := Absent(r.expectedUnitIds, ByUnit(r.inputs)), Filled(r);
    if u in ByUnit(r.inputs) {
      RowStays(full, r, u);
    } else {
      var i :| 0 <= i < |absent| && absent[i] == u;
      RowIsFound(full.inputs, |r.inputs| + i);
      assert full.inputs[|r.inputs| + i].unitId == u;
    }
  }

  lemma FilledContribution(r: Request, c: string, u: string)
    requires Acceptable(r) && Consistent(r) && c in Members(r.expectedCandidateIds) && r.declaredTotals.Some?
    requires u in r.expectedUnitIds
    ensures var absent := Absent(r.expectedUnitIds, ByUnit(r.inputs));
      Contribution(ByUnit(Filled(r).inputs), c)(u) ==
        Contribution(ByUnit(r.inputs), c)(u)
        + if absent != [] && u == absent[0] then r.declaredTotals.value[c] - SoFar(r, c) else 0
  {
    FilledRow(r, u);
    var absent := Absent(r.expectedUnitIds, ByUnit(r.inputs));
    assert u in ByUnit(r.inputs) ==> absent == [] || (absent[0] in absent && u != absent[0]);
    hide ByUnit, NoDuplicates, ComputedFrom, NonNegative, Filled, SoFar, IdsUnique, Fits;
  }

  lemma FilledAddsUp(r: Request, c: string)
    requires Acceptable(r) && Consistent(r) && c in Members(r.expectedCandidateIds) && r.declaredTotals.Some?
    ensures Sum(Contribution(ByUnit(Filled(r).inputs), c), r.expectedUnitIds) == r.declaredTotals.value[c]
  {
    hide ByUnit, ComputedFrom, NonNegative, Fits, NoDuplicates, Contribution, Filled;
    var ids, absent := r.expectedUnitIds, Absent(r.expectedUnitIds, ByUnit(r.inputs));
    var f, g := Contribution(ByUnit(r.inputs), c), Contribution(ByUnit(Filled(r).inputs), c);
    UnseenAddsNothing(ByUnit(r.inputs), ids, c);
    var d := r.declaredTotals.value[c] - SoFar(r, c);
    forall u | u in ids ensures g(u) == f(u) + if absent != [] && u == absent[0] then d else 0 {
      FilledContribution(r, c, u);
    }
    if absent == [] {
      NothingAbsent(r);
      SumAgree(f, g, ids);
    } else {
      assert absent[0] in absent;
      SumBump(f, g, ids, absent[0], d);
    }
  }

  lemma NothingAbsent(r: Request)
    requires Absent(r.expectedUnitIds, ByUnit(r.inputs)) == []
    ensures MissingUnits(r) == {}
  {
    hide ByUnit;
    assert forall u :: u in MissingUnits(r) ==> u in Absent(r.expectedUnitIds, ByUnit(r.inputs));
  }

  lemma FilledUnits(r: Request)
    requires Acceptable(r) && Consistent(r)
    ensures ByUnit(Filled(r).inputs).Keys == Elements(r.expectedUnitIds)
    ensures forall u :: u in ByUnit(Filled(r).inputs) ==>
              ByUnit(Filled(r).inputs)[u].Keys == Members(r.expectedCandidateIds)
  {
    FilledIds(r);
    hide ByUnit, IdsUnique, NonNegative, ComputedFrom, DeclaresRoom, Acceptable, Filled;
    var full := Filled(r);
    forall u ensures u in ByUnit(full.inputs) ==> u in r.expectedUnitIds {
      if u in ByUnit(full.inputs) {
        var i := RowFor(full.inputs, u);
        assert UnitIds(full.inputs)[i] == u;
        UnitsReceived(r.inputs, u);
      }
    }
    forall u | u in r.expectedUnitIds
      ensures u in ByUnit(full.inputs) && ByUnit(full.inputs)[u].Keys == Members(r.expectedCandidateIds)
    {
      FilledRow(r, u);
    }
  }

  lemma UnitsReceived(inputs: seq<Input>, u: string)
    requires NoDuplicates(UnitIds(inputs))
    ensures u in UnitIds(inputs) ==> u in ByUnit(inputs)
  {
    if u in UnitIds(inputs) {
      var i :| 0 <= i < |inputs| && UnitIds(inputs)[i] == u;
      RowIsFound(inputs, i);
    }
  }

  lemma FilledVerifies(r: Request)
    requires Acceptable(r) && Consistent(r)
    ensures ReportOf(Filled(r)).status == VERIFIED
  {
    var full := Filled(r);
    FilledIsAcceptable(r);
    FilledUnits(r);
    assert full.expectedUnitIds == r.expectedUnitIds && full.expectedCandidateIds == r.expectedCandidateIds
           && full.declaredTotals == r.declaredTotals;
    hide ByUnit, IdsUnique, NonNegative, Filled, ReportOf;
    if r.declaredTotals.Some? {
      assert r.expectedUnitIds != [] by { assert IdsUnique(r.expectedUnitIds); }
      FullRowsName(full, ByUnit(full.inputs));
      forall c | c in r.declaredTotals.value
        ensures c in ComputedFrom(ByUnit(full.inputs), full.expectedUnitIds)
        ensures ComputedFrom(ByUnit(full.inputs), full.expectedUnitIds)[c] == r.declaredTotals.value[c]
      {
        FilledAddsUp(r, c);
      }
      assert full.declaredTotals.value == ComputedFrom(ByUnit(full.inputs), full.expectedUnitIds);
    }
    VerifiedIffExact(full);
  }

  // Whatever its status now, a step can still be verified exactly when the register is known, no
  // stranger has reported, every row names exactly the registered candidates, the missing units can
  // be named in a row, and a declaration names the register and leaves room for what is missing.
  lemma MayVerifyIffConsistent(r: Request)
    requires Acceptable(r)
    ensures MayVerify(r) <==> Consistent(r)
  {
    hide Consistent, ReportOf, Filled, Extends;
    if full :| Extends(full, r) && Acceptable(full) && ReportOf(full).status == VERIFIED {
      VerifiedLater(full, r);
    }
    if Consistent(r) {
      FilledIsAcceptable(r);
      FilledVerifies(r);
    }
  }
}
