// What the reports say, in terms of the rows and nodes of the request.
module CollationReports {
  import opened Outcomes
  import opened Finite
  import opened CycleCheck
  import opened Collation
  import opened Completion
  import opened CollationGraph
  import opened CollationTheorems

  // ---------------------------------------------------------------- one step

  // The unit reported these totals.
  ghost predicate Reported(r: Request, u: string, totals: Tally) {
    exists i :: 0 <= i < |r.inputs| && r.inputs[i] == Input(u, totals)
  }

  ghost predicate HasReported(r: Request, u: string) {
    exists totals :: Reported(r, u, totals)
  }

  lemma ReportedIsGrouped(r: Request, u: string)
    requires Acceptable(r)
    ensures u in ByUnit(r.inputs) <==> HasReported(r, u)
    ensures u in ByUnit(r.inputs) ==> Reported(r, u, ByUnit(r.inputs)[u])
    ensures forall totals :: Reported(r, u, totals) ==> u in ByUnit(r.inputs) && ByUnit(r.inputs)[u] == totals
  {
    hide ByUnit;
    if u in ByUnit(r.inputs) {
      var i := RowFor(r.inputs, u);
      assert Reported(r, u, ByUnit(r.inputs)[u]);
    }
    forall totals | Reported(r, u, totals) ensures u in ByUnit(r.inputs) && ByUnit(r.inputs)[u] == totals {
      var i :| 0 <= i < |r.inputs| && r.inputs[i] == Input(u, totals);
      RowIsFound(r.inputs, i);
    }
  }

  // What one row adds to a candidate's total.
  function RowVotes(expected: set<string>, c: string): Input -> int {
    (row: Input) => if row.unitId in expected && c in row.candidateTotals then row.candidateTotals[c] else 0
  }

  lemma {:induction false} TotalsAddRows(inputs: seq<Input>, ids: seq<string>, c: string)
    requires NoDuplicates(UnitIds(inputs)) && NoDuplicates(ids)
    ensures Sum(Contribution(ByUnit(inputs), c), ids) == Sum(RowVotes(Elements(ids), c), inputs)
  {
    if inputs == [] {
      SumOfNothing(Contribution(ByUnit(inputs), c), ids);
    } else {
      var last, init := inputs[|inputs| - 1], inputs[..|inputs| - 1];
      assert UnitIds(inputs) == UnitIds(init) + [last.unitId];
      NoDuplicatesAppend(UnitIds(init), last.unitId);
      TotalsAddRows(init, ids, c);
      SumLast(RowVotes(Elements(ids), c), inputs);
      NotYetReported(init, last.unitId);
      hide NoDuplicates, UnitIds;
      SumBump(Contribution(ByUnit(init), c), Contribution(ByUnit(inputs), c), ids, last.unitId,
              Votes(last.candidateTotals, c));
      InElements(ids, last.unitId);
    }
  }

  lemma NotYetReported(inputs: seq<Input>, u: string)
    requires u !in UnitIds(inputs)
    ensures u !in ByUnit(inputs)
  {
    if u in ByUnit(inputs) {
      var i := RowFor(inputs, u);
      RowIsListed(inputs, u, i);
      assert false;
    }
  }

  lemma RowIsListed(inputs: seq<Input>, u: string, i: nat)
    requires i < |inputs| && inputs[i].unitId == u
    ensures u in UnitIds(inputs)
  {
    assert UnitIds(inputs)[i] == u;
  }

  // A unit is listed as missing when it was expected and has not reported, and as unexpected when it
  // has reported and was not expected.
  ghost predicate UnitListed(r: Request, rep: Report, u: string) {
    && (u in rep.missingUnitIds <==> u in r.expectedUnitIds && !HasReported(r, u))
    && (u in rep.unexpectedUnitIds <==> HasReported(r, u) && u !in r.expectedUnitIds)
    && (u in rep.missingCandidateIdsByUnit ==> rep.missingCandidateIdsByUnit[u] != {})
    && (u in rep.unexpectedCandidateIdsByUnit ==> rep.unexpectedCandidateIdsByUnit[u] != {})
  }

  // With a register, an expected unit's row is held against it in both directions.
  ghost predicate CandidateListed(r: Request, rep: Report, u: string, c: string) {
    && ((u in rep.missingCandidateIdsByUnit && c in rep.missingCandidateIdsByUnit[u]) <==>
          && r.expectedCandidateIds.Some? && c in r.expectedCandidateIds.value && u in r.expectedUnitIds
          && exists totals :: Reported(r, u, totals) && c !in totals)
    && ((u in rep.unexpectedCandidateIdsByUnit && c in rep.unexpectedCandidateIdsByUnit[u]) <==>
          && r.expectedCandidateIds.Some? && c !in r.expectedCandidateIds.value && u in r.expectedUnitIds
          && exists totals :: Reported(r, u, totals) && c in totals)
  }

  // The lists of the report, each by what it contains.
  ghost predicate ListsSay(r: Request, rep: Report) {
    (forall u :: UnitListed(r, rep, u)) && forall u, c :: CandidateListed(r, rep, u, c)
  }

  // The declaration against the register and the totals.
  ghost predicate DeclarationSays(r: Request, rep: Report) {
    && (forall c :: c in rep.declaredMissingCandidateIds <==>
                      && r.declaredTotals.Some? && r.expectedCandidateIds.Some?
                      && c in r.expectedCandidateIds.value && c !in r.declaredTotals.value)
    && (forall c :: c in rep.declaredUnexpectedCandidateIds <==>
                      && r.declaredTotals.Some? && r.expectedCandidateIds.Some?
                      && c !in r.expectedCandidateIds.value && c in r.declaredTotals.value)
    && (forall d :: d in rep.declaredDifferences ==>
          && r.declaredTotals.Some? && d.candidateId in r.declaredTotals.value && d.candidateId in rep.computedTotals
          && d.declaredVotes == r.declaredTotals.value[d.candidateId]
          && d.computedVotes == rep.computedTotals[d.candidateId]
          && d.computedVotes + d.delta == d.declaredVotes && d.delta != 0)
    && rep.declaredMatch == if r.declaredTotals.Some? then Some(rep.status == VERIFIED) else None
  }

  // The totals: a candidate is listed when some expected unit names it, with the sum of what the
  // expected units report.
  ghost predicate TotalsSay(r: Request, rep: Report) {
    && (forall c :: c in rep.computedTotals <==>
                      exists u, totals :: u in r.expectedUnitIds && Reported(r, u, totals) && c in totals)
    && (forall c :: c in rep.computedTotals ==>
                      rep.computedTotals[c] == Sum(RowVotes(Elements(r.expectedUnitIds), c), r.inputs))
  }

  // The coverage: how many of the expected units have reported.
  ghost predicate CoverageSays(r: Request, rep: Report) {
    && rep.expectedUnits == |r.expectedUnitIds|
    && rep.receivedExpectedUnits == |set u | u in r.expectedUnitIds && HasReported(r, u)|
    && rep.coverageFraction * rep.expectedUnits as real == rep.receivedExpectedUnits as real
    && rep.level == r.level && rep.nodeId == r.nodeId
    && rep.expectedCandidateIds == r.expectedCandidateIds && rep.declaredTotals == r.declaredTotals
    && (rep.complete <==> rep.status == VERIFIED)
  }

  lemma ListsAreRight(r: Request)
    requires Acceptable(r)
    ensures ListsSay(r, ReportOf(r))
  {
    hide UnitListed, CandidateListed, Acceptable, ReportOf;
    forall u {
      UnitLists(r, u);
    }
    forall u, c {
      CandidateLists(r, u, c);
    }
  }

  lemma RowsNaming(r: Request, u: string, c: string)
    requires Acceptable(r)
    ensures u in ByUnit(r.inputs) && c in ByUnit(r.inputs)[u] <==>
            exists totals :: Reported(r, u, totals) && c in totals
    ensures u in ByUnit(r.inputs) && c !in ByUnit(r.inputs)[u] <==>
            exists totals :: Reported(r, u, totals) && c !in totals
  {
    hide ByUnit, Reported, HasReported, Acceptable;
    ReportedIsGrouped(r, u);
  }

  lemma UnitLists(r: Request, u: string)
    requires Acceptable(r)
    ensures UnitListed(r, ReportOf(r), u)
  {
    hide ByUnit, ComputedFrom, DifferencesAmong, Comparable, HasReported, Reported, NonNegative, NoDuplicates, Fits;
    ReportedIsGrouped(r, u);
  }

  lemma CandidateLists(r: Request, u: string, c: string)
    requires Acceptable(r)
    ensures CandidateListed(r, ReportOf(r), u, c)
  {
    hide ReportOf, ByUnit, Reported, NonNegative, NoDuplicates, Fits;
    RowsNaming(r, u, c);
    ListedByRow(r, u, c);
  }

  lemma ListedByRow(r: Request, u: string, c: string)
    requires r.expectedUnitIds != []
    ensures
      var rep, units := ReportOf(r), ByUnit(r.inputs);
      && ((u in rep.missingCandidateIdsByUnit && c in rep.missingCandidateIdsByUnit[u]) <==>
            && r.expectedCandidateIds.Some? && c in r.expectedCandidateIds.value && u in r.expectedUnitIds
            && u in units && c !in units[u])
      && ((u in rep.unexpectedCandidateIdsByUnit && c in rep.unexpectedCandidateIdsByUnit[u]) <==>
            && r.expectedCandidateIds.Some? && c !in r.expectedCandidateIds.value && u in r.expectedUnitIds
            && u in units && c in units[u])
  {
    hide ByUnit, ComputedFrom, DifferencesAmong, Comparable;
    var units, register := ByUnit(r.inputs), Members(r.expectedCandidateIds);
    if u in units {
      assert c in register - units[u].Keys <==> c in register && c !in units[u];
      assert c in units[u].Keys - register <==> c !in register && c in units[u];
    }
  }

  lemma TotalsAreRight(r: Request)
    requires Acceptable(r)
    ensures TotalsSay(r, ReportOf(r))
  {
    var rep, units := ReportOf(r), ByUnit(r.inputs);
    hide ByUnit, MissingAmong, UnexpectedAmong, DifferencesAmong, Comparable, NonNegative, Reported, Fits, Sum;
    forall c ensures c in rep.computedTotals <==>
                       exists u, totals :: u in r.expectedUnitIds && Reported(r, u, totals) && c in totals
    {
      if c in rep.computedTotals {
        var u :| u in Elements(r.expectedUnitIds) && u in units && c in units[u];
        ReportedIsGrouped(r, u);
      }
      if u, totals :| u in r.expectedUnitIds && Reported(r, u, totals) && c in totals {
        ReportedIsGrouped(r, u);
        assert u in Elements(r.expectedUnitIds);
      }
    }
    forall c | c in rep.computedTotals
      ensures rep.computedTotals[c] == Sum(RowVotes(Elements(r.expectedUnitIds), c), r.inputs)
    {
      TotalsAddRows(r.inputs, r.expectedUnitIds, c);
    }
  }

  lemma DeclarationIsRight(r: Request)
    requires r.expectedUnitIds != []
    ensures DeclarationSays(r, ReportOf(r))
  {
    hide ByUnit, ComputedFrom, MissingAmong, UnexpectedAmong, Comparable;
  }

  lemma CoverageIsRight(r: Request)
    requires Acceptable(r)
    ensures CoverageSays(r, ReportOf(r))
  {
    var units := ByUnit(r.inputs);
    hide ByUnit, NonNegative, HasReported, Fits, ReportOf;
    NoDuplicatesSize(r.expectedUnitIds);
    forall u ensures u in units <==> HasReported(r, u) {
      ReportedIsGrouped(r, u);
    }
    assert Elements(r.expectedUnitIds) * units.Keys == set u | u in r.expectedUnitIds && HasReported(r, u);
    CoverageCounts(r);
  }

  lemma CoverageCounts(r: Request)
    requires r.expectedUnitIds != []
    ensures
      var rep := ReportOf(r);
      && rep.expectedUnits == |Elements(r.expectedUnitIds)|
      && rep.receivedExpectedUnits == |Elements(r.expectedUnitIds) * ByUnit(r.inputs).Keys|
      && rep.coverageFraction * rep.expectedUnits as real == rep.receivedExpectedUnits as real
      && rep.level == r.level && rep.nodeId == r.nodeId
      && rep.expectedCandidateIds == r.expectedCandidateIds && rep.declaredTotals == r.declaredTotals
      && (rep.complete <==> rep.status == VERIFIED)
  {
    hide ByUnit, ComputedFrom, MissingAmong, UnexpectedAmong, DifferencesAmong, Comparable;
    NonEmptySize(r.expectedUnitIds);
    ShareOf(|Elements(r.expectedUnitIds) * ByUnit(r.inputs).Keys|, |Elements(r.expectedUnitIds)|);
  }

  lemma ShareOf(part: nat, whole: nat)
    requires whole > 0
    ensures part as real / whole as real * whole as real == part as real
  {
  }

  // The report of an acceptable request, by its rows alone.
  lemma ReportSays(r: Request)
    requires Acceptable(r)
    ensures CoverageSays(r, ReportOf(r)) && ListsSay(r, ReportOf(r))
    ensures TotalsSay(r, ReportOf(r)) && DeclarationSays(r, ReportOf(r))
  {
    CoverageIsRight(r);
    ListsAreRight(r);
    TotalsAreRight(r);
    DeclarationIsRight(r);
  }

  // ---------------------------------------------------------------- the whole graph

  // What a child carries up: a leaf its votes, a node that is verified in the result its totals.
  ghost predicate Carries(req: GraphRequest, result: GraphReport, child: string, totals: Tally)
    requires |result.nodeReports| == |req.nodes|
  {
    || (child in req.leafTotals && totals == req.leafTotals[child])
    || exists j :: 0 <= j < |req.nodes| && VerifiedAs(req, result, j, child, totals)
  }

  ghost predicate VerifiedAs(req: GraphRequest, result: GraphReport, j: int, child: string, totals: Tally)
    requires |result.nodeReports| == |req.nodes| && 0 <= j < |req.nodes|
  {
    && req.nodes[j].nodeId == child && result.nodeReports[j].replay.status == VERIFIED
    && result.nodeReports[j].replay.computedTotals == totals
  }

  ghost predicate Unverified(req: GraphRequest, result: GraphReport, j: int, child: string)
    requires |result.nodeReports| == |req.nodes| && 0 <= j < |req.nodes|
  {
    req.nodes[j].nodeId == child && result.nodeReports[j].replay.status != VERIFIED
  }

  // The request that node `i` puts to one collation step: its children are the expected units, and
  // their rows are what the children carry.
  ghost predicate IsNodeRequest(req: GraphRequest, result: GraphReport, i: int, r: Request)
    requires |result.nodeReports| == |req.nodes| && 0 <= i < |req.nodes|
  {
    var node := req.nodes[i];
    && r.level == node.level && r.nodeId == node.nodeId && r.expectedUnitIds == node.expectedChildIds
    && r.expectedCandidateIds == req.expectedCandidateIds && r.declaredTotals == node.declaredTotals
    && Acceptable(r)
    && forall u, totals :: RowIsCarried(req, result, node.expectedChildIds, r, u, totals)
  }

  ghost predicate RowIsCarried(req: GraphRequest, result: GraphReport, children: seq<string>, r: Request, u: string,
      totals: Tally)
    requires |result.nodeReports| == |req.nodes|
  {
    Reported(r, u, totals) <==> u in children && Carries(req, result, u, totals)
  }

  // A child is held back when it is a node that is not verified in the result.
  ghost predicate HeldBack(req: GraphRequest, result: GraphReport, child: string)
    requires |result.nodeReports| == |req.nodes|
  {
    exists j :: 0 <= j < |req.nodes| && Unverified(req, result, j, child)
  }

  // The report of node `i` follows from such a request, and lists the children that are held back.
  ghost predicate NodeSays(req: GraphRequest, result: GraphReport, i: int, r: Request)
    requires |result.nodeReports| == |req.nodes| && 0 <= i < |req.nodes|
  {
    var item := result.nodeReports[i];
    && IsNodeRequest(req, result, i, r) && item.node == req.nodes[i] && item.replay == ReportOf(r)
    && forall c :: c in item.incompleteChildNodeIds <==> c in req.nodes[i].expectedChildIds && HeldBack(req, result, c)
  }

  // No node has the identifier among its children.
  ghost predicate NobodysChild(req: GraphRequest, id: string) {
    forall n :: n in req.nodes ==> id !in n.expectedChildIds
  }

  ghost predicate ReportsMatch(req: GraphRequest, result: GraphReport, reports: Reports) {
    && |result.nodeReports| == |req.nodes| && Replayed(req, reports)
    && forall i :: 0 <= i < |req.nodes| ==>
         req.nodes[i].nodeId in reports && reports[req.nodes[i].nodeId] == result.nodeReports[i]
  }

  lemma ReportedAt(req: GraphRequest, result: GraphReport, reports: Reports, child: string)
    requires ReportsMatch(req, result, reports)
    ensures child in reports ==> child !in req.leafTotals
    ensures forall j :: 0 <= j < |req.nodes| && req.nodes[j].nodeId == child ==>
              child in reports && reports[child] == result.nodeReports[j]
    ensures child in reports ==>
              exists j :: 0 <= j < |req.nodes| && NodeWithReport(req, result, j, child, reports[child])
  {
    hide AllFollow, WellFormed, SpecsOf;
    if child in req.leafTotals {
      LeafIsNoNode(req, child);
    }
    if child in reports {
      NodesAreReported(req, reports);
      IdOfSomeNode(req.nodes, child);
      hide Elements, NodeIds;
      var j :| 0 <= j < |req.nodes| && req.nodes[j].nodeId == child;
      assert NodeWithReport(req, result, j, child, reports[child]);
    }
  }

  ghost predicate NodeWithReport(req: GraphRequest, result: GraphReport, j: int, child: string, report: NodeReport)
    requires |result.nodeReports| == |req.nodes| && 0 <= j < |req.nodes|
  {
    req.nodes[j].nodeId == child && result.nodeReports[j] == report
  }

  lemma PromotedIsCarried(req: GraphRequest, result: GraphReport, reports: Reports, child: string, totals: Tally)
    requires ReportsMatch(req, result, reports)
    ensures Promoted(req.leafTotals, reports, child) == Some(totals) <==> Carries(req, result, child, totals)
  {
    VerifiedIsPromoted(req, result, reports, child, totals);
    hide ReportsMatch, VerifiedAs;
  }

  lemma VerifiedIsPromoted(req: GraphRequest, result: GraphReport, reports: Reports, child: string, totals: Tally)
    requires ReportsMatch(req, result, reports)
    ensures child in reports ==> child !in req.leafTotals
    ensures (exists j :: 0 <= j < |req.nodes| && VerifiedAs(req, result, j, child, totals)) <==>
            && child in reports && reports[child].replay.status == VERIFIED
            && reports[child].replay.computedTotals == totals
  {
    ReportedAt(req, result, reports, child);
    hide ReportsMatch;
    if child in reports {
      var j :| 0 <= j < |req.nodes| && NodeWithReport(req, result, j, child, reports[child]);
      if reports[child].replay.status == VERIFIED && reports[child].replay.computedTotals == totals {
        assert VerifiedAs(req, result, j, child, totals);
      }
    }
  }

  lemma WithheldIsUnverified(req: GraphRequest, result: GraphReport, reports: Reports, ids: seq<string>, c: string)
    requires ReportsMatch(req, result, reports)
    ensures c in Withheld(req.leafTotals, reports, ids) <==> c in ids && HeldBack(req, result, c)
  {
    ReportedAt(req, result, reports, c);
    hide ReportsMatch;
    if c in reports {
      var j :| 0 <= j < |req.nodes| && NodeWithReport(req, result, j, c, reports[c]);
      assert Unverified(req, result, j, c) <==> reports[c].replay.status != VERIFIED;
    }
  }

  lemma InputsAreCarried(req: GraphRequest, result: GraphReport, reports: Reports, r: Request, u: string, totals: Tally)
    requires ReportsMatch(req, result, reports) && Acceptable(r) && NoDuplicates(r.expectedUnitIds)
    requires r.inputs == InputsFor(req.leafTotals, reports, r.expectedUnitIds)
    ensures RowIsCarried(req, result, r.expectedUnitIds, r, u, totals)
  {
    hide ReportsMatch, Acceptable, InputsFor, ByUnit, Reported, Carries, NoDuplicates, Promoted;
    GroupedInputs(req.leafTotals, reports, r.expectedUnitIds, u);
    ReportedIsGrouped(r, u);
    PromotedIsCarried(req, result, reports, u, totals);
    var promoted := Promoted(req.leafTotals, reports, u);
    if promoted.Some? {
      PromotedIsCarried(req, result, reports, u, promoted.value);
    }
  }

  lemma NodeReportSays(req: GraphRequest, result: GraphReport, reports: Reports, i: int) returns (r: Request)
    requires ReportsMatch(req, result, reports) && 0 <= i < |req.nodes|
    requires Replayable(req.leafTotals, req.nodes[i])
    ensures NodeSays(req, result, i, r)
  {
    r := NodeRequest(req, result, reports, i);
    RowsAreCarried(req, result, reports, r);
    HeldBackAreListed(req, result, reports, req.nodes[i].expectedChildIds);
    hide ReportsMatch, ReportOf, InputsFor, Acceptable, Withheld, Replayable, NoDuplicates, HeldBack, RowIsCarried;
  }

  lemma RowsAreCarried(req: GraphRequest, result: GraphReport, reports: Reports, r: Request)
    requires ReportsMatch(req, result, reports) && Acceptable(r) && NoDuplicates(r.expectedUnitIds)
    requires r.inputs == InputsFor(req.leafTotals, reports, r.expectedUnitIds)
    ensures forall u, totals :: RowIsCarried(req, result, r.expectedUnitIds, r, u, totals)
  {
    forall u, totals {
      InputsAreCarried(req, result, reports, r, u, totals);
    }
  }

  lemma HeldBackAreListed(req: GraphRequest, result: GraphReport, reports: Reports, ids: seq<string>)
    requires ReportsMatch(req, result, reports)
    ensures forall c :: c in Withheld(req.leafTotals, reports, ids) <==> c in ids && HeldBack(req, result, c)
  {
    forall c {
      WithheldIsUnverified(req, result, reports, ids, c);
    }
  }

  lemma NodeRequest(req: GraphRequest, result: GraphReport, reports: Reports, i: int) returns (r: Request)
    requires ReportsMatch(req, result, reports) && 0 <= i < |req.nodes|
    requires Replayable(req.leafTotals, req.nodes[i])
    ensures
      var node := req.nodes[i];
      && r.level == node.level && r.nodeId == node.nodeId && r.expectedUnitIds == node.expectedChildIds
      && r.expectedCandidateIds == req.expectedCandidateIds && r.declaredTotals == node.declaredTotals
      && r.inputs == InputsFor(req.leafTotals, reports, node.expectedChildIds)
    ensures Acceptable(r) && NoDuplicates(r.expectedUnitIds)
    ensures result.nodeReports[i] ==
            NodeReport(req.nodes[i], ReportOf(r), Withheld(req.leafTotals, reports, req.nodes[i].expectedChildIds))
  {
    var node := req.nodes[i];
    NodesAreReported(req, reports);
    NodeFacts(req, node.nodeId);
    TotalsAreCounts(req, reports);
    r := RequestFor(req, node, reports);
    assert Follows(req, SpecsOf(req.nodes), reports, node.nodeId);
    RequestAcceptable(req, node, reports);
    hide WellFormed, SpecsOf, ReportOf, InputsFor, Acceptable, Counted, Withheld;
  }

  lemma UnlistedIsNobodysChild(req: GraphRequest, id: string)
    ensures id in Referenced(req.nodes) <==> !NobodysChild(req, id)
  {
  }

  // The result of a replay, by the nodes and leaves of the request: every node's report follows from
  // what its children carry; roots and loose leaves are nobody's children; the graph fails exactly when
  // a leaf hangs loose or some node's statements are contradicted, and is verified exactly when no leaf
  // does and every node's statements are exact.
  lemma ResultSays(req: GraphRequest, result: GraphReport) returns (requests: seq<Request>)
    requires WellFormed(req) && Replays(req, result) && forall n :: n in req.nodes ==> Replayable(req.leafTotals, n)
    ensures |requests| == |result.nodeReports| == |req.nodes|
    ensures forall i :: 0 <= i < |req.nodes| ==> NodeSays(req, result, i, requests[i])
    ensures forall id :: id in result.rootNodeIds <==>
                           (exists n :: n in req.nodes && n.nodeId == id) && NobodysChild(req, id)
    ensures forall leaf :: leaf in result.unreferencedLeafIds <==> leaf in req.leafTotals && NobodysChild(req, leaf)
    ensures result.status == FAILED <==>
              || (exists leaf :: leaf in req.leafTotals && NobodysChild(req, leaf))
              || (exists i :: 0 <= i < |requests| && Contradicted(requests[i]))
    ensures result.status == VERIFIED <==>
              && (forall leaf :: leaf in req.leafTotals ==> !NobodysChild(req, leaf))
              && (forall i :: 0 <= i < |requests| ==> Exact(requests[i]))
    ensures result.complete <==> result.status == VERIFIED
  {
    hide NodeSays, Contradicted, Exact, NobodysChild, WellFormed, Replayable;
    requests := NodeRequests(req, result);
    ListsOfResult(req, result);
    StatusByRequests(req, result, requests);
  }

  lemma NodeRequests(req: GraphRequest, result: GraphReport) returns (requests: seq<Request>)
    requires WellFormed(req) && Replays(req, result) && forall n :: n in req.nodes ==> Replayable(req.leafTotals, n)
    ensures |requests| == |result.nodeReports| == |req.nodes|
    ensures forall i :: 0 <= i < |req.nodes| ==> NodeSays(req, result, i, requests[i])
  {
    hide NodeSays, WellFormed, Replayable, Replayed, AllVerified, PlainAt, IsRank, Referenced, StatusFits;
    var reports := ResultReports(req, result);
    assert ReportsMatch(req, result, reports);
    hide ReportsMatch;
    requests := [];
    while |requests| < |req.nodes|
      invariant |requests| <= |req.nodes|
      invariant forall i :: 0 <= i < |requests| ==> NodeSays(req, result, i, requests[i])
    {
      assert req.nodes[|requests|] in req.nodes;
      var r := NodeReportSays(req, result, reports, |requests|);
      requests := requests + [r];
    }
  }

  lemma ListsOfResult(req: GraphRequest, result: GraphReport)
    requires WellFormed(req) && Replays(req, result)
    ensures forall id :: id in result.rootNodeIds <==>
                           (exists n :: n in req.nodes && n.nodeId == id) && NobodysChild(req, id)
    ensures forall leaf :: leaf in result.unreferencedLeafIds <==> leaf in req.leafTotals && NobodysChild(req, leaf)
    ensures StatusFits(result)
  {
    hide WellFormed, NobodysChild, PlainAt, IsRank, Referenced, StatusFits;
    forall id ensures id in Referenced(req.nodes) <==> !NobodysChild(req, id) {
      UnlistedIsNobodysChild(req, id);
    }
    forall id ensures id in Elements(NodeIds(req.nodes)) <==> exists n :: n in req.nodes && n.nodeId == id {
      NodeIdsName(req.nodes, id);
    }
  }

  lemma NodeIdsName(nodes: seq<NodeSpec>, id: string)
    ensures id in Elements(NodeIds(nodes)) <==> exists n :: n in nodes && n.nodeId == id
  {
    if id in Elements(NodeIds(nodes)) {
      IdOfSomeNode(nodes, id);
    }
    if n :| n in nodes && n.nodeId == id {
      var i :| 0 <= i < |nodes| && nodes[i] == n;
      assert NodeIds(nodes)[i] == id;
    }
  }

  lemma StatusByRequests(req: GraphRequest, result: GraphReport, requests: seq<Request>)
    requires |requests| == |result.nodeReports| == |req.nodes| && StatusFits(result)
    requires forall i :: 0 <= i < |req.nodes| ==> NodeSays(req, result, i, requests[i])
    requires forall leaf :: leaf in result.unreferencedLeafIds <==> leaf in req.leafTotals && NobodysChild(req, leaf)
    ensures result.status == FAILED <==>
              || (exists leaf :: leaf in req.leafTotals && NobodysChild(req, leaf))
              || (exists i :: 0 <= i < |requests| && Contradicted(requests[i]))
    ensures result.status == VERIFIED <==>
              && (forall leaf :: leaf in req.leafTotals ==> !NobodysChild(req, leaf))
              && (forall i :: 0 <= i < |requests| ==> Exact(requests[i]))
    ensures result.complete <==> result.status == VERIFIED
  {
    hide Contradicted, Exact, NobodysChild, ReportOf, Reported, Carries;
    forall i | 0 <= i < |requests|
      ensures result.nodeReports[i].replay.status == FAILED <==> Contradicted(requests[i])
      ensures result.nodeReports[i].replay.status == VERIFIED <==> Exact(requests[i])
    {
      assert NodeSays(req, result, i, requests[i]);
      FailedIffContradicted(requests[i]);
      VerifiedIffExact(requests[i]);
    }
    hide NodeSays;
    NodeStatuses(result);
  }

  lemma NodeStatuses(result: GraphReport)
    requires StatusFits(result)
    ensures result.status == FAILED <==>
              || result.unreferencedLeafIds != {}
              || exists i :: 0 <= i < |result.nodeReports| && result.nodeReports[i].replay.status == FAILED
    ensures result.status == VERIFIED <==>
              && result.unreferencedLeafIds == {}
              && forall i :: 0 <= i < |result.nodeReports| ==> result.nodeReports[i].replay.status == VERIFIED
    ensures result.complete <==> result.status == VERIFIED
  {
    forall i | 0 <= i < |result.nodeReports| ensures result.nodeReports[i] in result.nodeReports {
    }
  }

  // ---------------------------------------------------------------- which graphs are replayed

  // Some node with this identifier has the child.
  ghost predicate HasChild(nodes: seq<NodeSpec>, id: string, child: string) {
    exists n :: n in nodes && n.nodeId == id && child in n.expectedChildIds
  }

  // Going from node to child and back to where one began.
  ghost predicate GoesRound(nodes: seq<NodeSpec>, p: seq<string>) {
    p != [] && forall i: nat :: i < |p| ==> StepsDown(nodes, p, i)
  }

  ghost predicate StepsDown(nodes: seq<NodeSpec>, p: seq<string>, i: nat)
    requires i < |p|
  {
    HasChild(nodes, p[i], if i + 1 < |p| then p[i + 1] else p[0])
  }

  // A request is replayed when its nodes are named and have children, each listed once and never the
  // node itself; no two nodes share a name and no leaf has the name of a node; leaves count from zero
  // up; and no way down returns to where it began.
  lemma WellFormedMeans(req: GraphRequest)
    ensures WellFormed(req) <==>
              && req.nodes != []
              && (forall n :: n in req.nodes ==>
                    && 1 <= |n.level| <= 128 && 1 <= |n.nodeId| <= 256 && n.expectedChildIds != []
                    && n.nodeId !in n.expectedChildIds && NoDuplicates(n.expectedChildIds))
              && (forall i, j :: 0 <= i < j < |req.nodes| ==> req.nodes[i].nodeId != req.nodes[j].nodeId)
              && (req.expectedCandidateIds.Some? ==>
                    req.expectedCandidateIds.value != [] && NoDuplicates(req.expectedCandidateIds.value))
              && (forall leaf, c :: leaf in req.leafTotals && c in req.leafTotals[leaf] ==>
                    req.leafTotals[leaf][c] >= 0)
              && (forall n :: n in req.nodes ==> n.nodeId !in req.leafTotals)
              && forall p :: !GoesRound(req.nodes, p)
  {
    NamesUnique(req.nodes);
    NamesApart(req);
    if NoDuplicates(NodeIds(req.nodes)) {
      CyclesGoRound(req.nodes);
    }
    assert forall n :: NodeWellFormed(n) <==>
                       && 1 <= |n.level| <= 128 && 1 <= |n.nodeId| <= 256 && n.expectedChildIds != []
                       && n.nodeId !in n.expectedChildIds && NoDuplicates(n.expectedChildIds);
    hide NodeWellFormed, NodeIds, GoesRound, HasCycle, NoDuplicates, SpecsOf, Dependencies;
  }

  lemma NamesUnique(nodes: seq<NodeSpec>)
    ensures NoDuplicates(NodeIds(nodes)) <==>
            forall i, j :: 0 <= i < j < |nodes| ==> nodes[i].nodeId != nodes[j].nodeId
  {
    var ids := NodeIds(nodes);
    assert forall i :: 0 <= i < |nodes| ==> ids[i] == nodes[i].nodeId;
    if NoDuplicates(ids) {
      forall i, j | 0 <= i < j < |nodes| ensures nodes[i].nodeId != nodes[j].nodeId {
        assert ids[i] != ids[j];
      }
    }
  }

  lemma NamesApart(req: GraphRequest)
    ensures Elements(NodeIds(req.nodes)) * req.leafTotals.Keys == {} <==>
            forall n :: n in req.nodes ==> n.nodeId !in req.leafTotals
  {
    hide NodeIds;
    forall id ensures id in Elements(NodeIds(req.nodes)) <==> exists n :: n in req.nodes && n.nodeId == id {
      NodeIdsName(req.nodes, id);
    }
    var both := Elements(NodeIds(req.nodes)) * req.leafTotals.Keys;
    if both != {} {
      var id :| id in both;
    }
    if n :| n in req.nodes && n.nodeId in req.leafTotals {
      assert n.nodeId in both;
    }
  }

  lemma CyclesGoRound(nodes: seq<NodeSpec>)
    requires NoDuplicates(NodeIds(nodes))
    ensures HasCycle(Dependencies(SpecsOf(nodes))) <==> exists p :: GoesRound(nodes, p)
  {
    var g := Dependencies(SpecsOf(nodes));
    forall p ensures IsCycle(g, p) <==> GoesRound(nodes, p) {
      CycleGoesRound(nodes, p);
    }
    hide IsCycle, GoesRound, NoDuplicates;
  }

  lemma CycleGoesRound(nodes: seq<NodeSpec>, p: seq<string>)
    requires NoDuplicates(NodeIds(nodes))
    ensures IsCycle(Dependencies(SpecsOf(nodes)), p) <==> GoesRound(nodes, p)
  {
    var specs := SpecsOf(nodes);
    var g := Dependencies(specs);
    SpecsListNodes(nodes);
    DependenciesClosed(specs);
    forall id, child ensures Edge(g, id, child) <==> HasChild(nodes, id, child) && child in specs {
    }
    hide NodeIds, NoDuplicates, SpecsOf, Dependencies, Edge, HasChild;
    if IsCycle(g, p) {
      forall i: nat | i < |p| ensures StepsDown(nodes, p, i) {
        assert Link(g, p, p[0], i);
      }
    }
    if GoesRound(nodes, p) {
      forall i: nat | i < |p| ensures p[i] in specs {
        assert StepsDown(nodes, p, i);
        NodeWithChild(nodes, p[i], if i + 1 < |p| then p[i + 1] else p[0]);
      }
      forall i: nat | i < |p| ensures Link(g, p, p[0], i) {
        assert StepsDown(nodes, p, i);
      }
    }
  }

  lemma NodeWithChild(nodes: seq<NodeSpec>, id: string, child: string)
    requires NoDuplicates(NodeIds(nodes)) && HasChild(nodes, id, child)
    ensures id in SpecsOf(nodes)
  {
    SpecsListNodes(nodes);
  }
}
