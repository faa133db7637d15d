// Replay of a whole collation graph: leaves carry polling-unit totals, every other node adds up
// its children (src/ballotproof/collation_graph.py).
module CollationGraph {
  import opened Outcomes
  import opened Finite
  import opened CycleCheck
  import opened Collation

  datatype NodeSpec = NodeSpec(
    level: string,
    nodeId: string,
    expectedChildIds: seq<string>,
    declaredTotals: Option<Tally>)

  datatype GraphRequest = GraphRequest(
    nodes: seq<NodeSpec>,
    expectedCandidateIds: Option<seq<string>>,
    leafTotals: map<string, Tally>)

  datatype NodeReport = NodeReport(node: NodeSpec, replay: Report, incompleteChildNodeIds: set<string>)

  datatype GraphReport = GraphReport(
    status: Status,
    complete: bool,
    rootNodeIds: set<string>,
    unreferencedLeafIds: set<string>,
    nodeReports: seq<NodeReport>)

  // A graph that could not be resolved would be refused too; that never happens.
  datatype GraphRefusal = InvalidReplay

  type Specs = map<string, NodeSpec>

  type Reports = map<string, NodeReport>

  // ---------------------------------------------------------------- requests

  function NodeIds(nodes: seq<NodeSpec>): seq<string> {
    seq(|nodes|, i requires 0 <= i < |nodes| => nodes[i].nodeId)
  }

  function SpecsOf(nodes: seq<NodeSpec>): Specs {
    if nodes == [] then map[]
    else
      var last := nodes[|nodes| - 1];
      SpecsOf(nodes[..|nodes| - 1])[last.nodeId := last]
  }

  lemma {:induction false} SpecsListNodes(nodes: seq<NodeSpec>)
    requires NoDuplicates(NodeIds(nodes))
    ensures SpecsOf(nodes).Keys == Elements(NodeIds(nodes))
    ensures forall n :: n in nodes ==> n.nodeId in SpecsOf(nodes) && SpecsOf(nodes)[n.nodeId] == n
    ensures forall id :: id in SpecsOf(nodes) ==> SpecsOf(nodes)[id] in nodes && SpecsOf(nodes)[id].nodeId == id
  {
    if nodes != [] {
      var last, init := nodes[|nodes| - 1], nodes[..|nodes| - 1];
      assert nodes == init + [last];
      assert NodeIds(nodes) == NodeIds(init) + [last.nodeId];
      NoDuplicatesAppend(NodeIds(init), last.nodeId);
      hide NodeIds, NoDuplicates;
      SpecsListNodes(init);
      InElements(NodeIds(init), last.nodeId);
    }
  }

  function Keep(ids: seq<string>, wanted: set<string>): (kept: seq<string>)
    ensures forall id :: id in kept <==> id in ids && id in wanted
  {
    if ids == [] then []
    else
      var last := ids[|ids| - 1];
      assert ids == ids[..|ids| - 1] + [last];
      Keep(ids[..|ids| - 1], wanted) + if last in wanted then [last] else []
  }

  function Dependencies(specs: Specs): Graph {
    map id | id in specs :: Keep(specs[id].expectedChildIds, specs.Keys)
  }

  lemma DependenciesClosed(specs: Specs)
    ensures Closed(Dependencies(specs))
    ensures forall n, c :: Edge(Dependencies(specs), n, c) <==>
                             n in specs && c in specs[n].expectedChildIds && c in specs
  {
  }

  ghost predicate NodeWellFormed(n: NodeSpec) {
    && Fits(n.level, LEVEL_LIMIT) && Fits(n.nodeId, ID_LIMIT)
    && n.expectedChildIds != [] && NoDuplicates(n.expectedChildIds) && n.nodeId !in n.expectedChildIds
  }

  ghost predicate WellFormed(req: GraphRequest) {
    && req.nodes != []
    && (forall n :: n in req.nodes ==> NodeWellFormed(n))
    && NoDuplicates(NodeIds(req.nodes))
    && (req.expectedCandidateIds.Some? ==> IdsUnique(req.expectedCandidateIds.value))
    && (forall leaf :: leaf in req.leafTotals ==> NonNegative(req.leafTotals[leaf]))
    && Elements(NodeIds(req.nodes)) * req.leafTotals.Keys == {}
    && !HasCycle(Dependencies(SpecsOf(req.nodes)))
  }

  method GraphIsWellFormed(req: GraphRequest) returns (ok: bool)
    ensures ok <==> WellFormed(req)
  {
    hide HasCycle, NonNegative;
    for i := 0 to |req.nodes|
      invariant forall j :: 0 <= j < i ==> NodeWellFormed(req.nodes[j])
    {
      var n := req.nodes[i];
      SizeShowsDuplicates(n.expectedChildIds);
      if !Fits(n.level, LEVEL_LIMIT) || !Fits(n.nodeId, ID_LIMIT) || n.expectedChildIds == []
         || |n.expectedChildIds| != |Elements(n.expectedChildIds)| || n.nodeId in n.expectedChildIds {
        assert !NodeWellFormed(n) && n in req.nodes;
        return false;
      }
    }
    assert forall n :: n in req.nodes ==> NodeWellFormed(n);
    hide NodeWellFormed;
    SizeShowsDuplicates(NodeIds(req.nodes));
    var nodesUnique := |NodeIds(req.nodes)| == |Elements(NodeIds(req.nodes))|;
    var candidatesUnique := true;
    if req.expectedCandidateIds.Some? {
      var candidates := req.expectedCandidateIds.value;
      SizeShowsDuplicates(candidates);
      candidatesUnique := candidates != [] && |candidates| == |Elements(candidates)|;
    }
    var overlap := Elements(NodeIds(req.nodes)) * req.leafTotals.Keys;
    var leavesCount := forall leaf | leaf in req.leafTotals :: NonNegative(req.leafTotals[leaf]);
    if req.nodes == [] || !nodesUnique || !candidatesUnique || overlap != {} || !leavesCount {
      return false;
    }
    DependenciesClosed(SpecsOf(req.nodes));
    ok := AssertAcyclic(Dependencies(SpecsOf(req.nodes)));
  }

  // ---------------------------------------------------------------- one node

  // What a child brings: a leaf its totals, a verified node its computed totals, anything else nothing.
  function Promoted(leaves: map<string, Tally>, reports: Reports, child: string): Option<Tally> {
    if child in leaves then Some(leaves[child])
    else if child in reports && reports[child].replay.status == VERIFIED then
      Some(reports[child].replay.computedTotals)
    else None
  }

  function InputsFor(leaves: map<string, Tally>, reports: Reports, ids: seq<string>): seq<Input> {
    if ids == [] then []
    else
      var last := ids[|ids| - 1];
      var totals := Promoted(leaves, reports, last);
      InputsFor(leaves, reports, ids[..|ids| - 1]) + if totals.Some? then [Input(last, totals.value)] else []
  }

  function Withheld(leaves: map<string, Tally>, reports: Reports, ids: seq<string>): set<string> {
    set c | c in ids && c !in leaves && c in reports && reports[c].replay.status != VERIFIED
  }

  function RequestFor(req: GraphRequest, spec: NodeSpec, reports: Reports): Request {
    Request(spec.level, spec.nodeId, spec.expectedChildIds, req.expectedCandidateIds,
            InputsFor(req.leafTotals, reports, spec.expectedChildIds), spec.declaredTotals)
  }

  ghost function ReportFrom(req: GraphRequest, spec: NodeSpec, reports: Reports): NodeReport
    requires spec.expectedChildIds != []
  {
    NodeReport(spec, ReportOf(RequestFor(req, spec, reports)),
               Withheld(req.leafTotals, reports, spec.expectedChildIds))
  }

  ghost predicate Counted(reports: Reports) {
    forall n :: n in reports ==> Fits(n, ID_LIMIT) && NonNegative(reports[n].replay.computedTotals)
  }

  // The validators of a node's inputs and request let the node through.
  ghost predicate Replayable(leaves: map<string, Tally>, spec: NodeSpec) {
    && (spec.declaredTotals.Some? ==> NonNegative(spec.declaredTotals.value))
    && forall c :: c in spec.expectedChildIds && c in leaves ==> Fits(c, ID_LIMIT)
  }

  lemma {:induction false} InputsAreOrderly(leaves: map<string, Tally>, reports: Reports, ids: seq<string>)
    requires NoDuplicates(ids) && Counted(reports)
    requires forall leaf :: leaf in leaves ==> NonNegative(leaves[leaf])
    ensures NoDuplicates(UnitIds(InputsFor(leaves, reports, ids)))
    ensures forall u :: u in UnitIds(InputsFor(leaves, reports, ids)) ==> u in ids
    ensures forall input :: input in InputsFor(leaves, reports, ids) ==> NonNegative(input.candidateTotals)
  {
    if ids != [] {
      hide NonNegative, NoDuplicates;
      var last, init := ids[|ids| - 1], ids[..|ids| - 1];
      assert ids == init + [last];
      NoDuplicatesAppend(init, last);
      InputsAreOrderly(leaves, reports, init);
      var before, all := InputsFor(leaves, reports, init), InputsFor(leaves, reports, ids);
      if Promoted(leaves, reports, last).Some? {
        assert UnitIds(all) == UnitIds(before) + [last];
        NoDuplicatesAppend(UnitIds(before), last);
      } else {
        assert all == before;
      }
    }
  }

  lemma {:induction false} InputsFit(leaves: map<string, Tally>, reports: Reports, ids: seq<string>)
    requires Counted(reports)
    ensures (forall input :: input in InputsFor(leaves, reports, ids) ==> Fits(input.unitId, ID_LIMIT))
            <==> forall c :: c in ids && c in leaves ==> Fits(c, ID_LIMIT)
  {
    if ids != [] {
      hide NonNegative, Fits;
      var last, init := ids[|ids| - 1], ids[..|ids| - 1];
      assert ids == init + [last];
      InputsFit(leaves, reports, init);
      var before, all := InputsFor(leaves, reports, init), InputsFor(leaves, reports, ids);
      var totals := Promoted(leaves, reports, last);
      if totals.Some? {
        assert all == before + [Input(last, totals.value)];
      } else {
        assert all == before;
      }
    }
  }

  lemma RequestAcceptable(req: GraphRequest, spec: NodeSpec, reports: Reports)
    requires NodeWellFormed(spec) && Counted(reports)
    requires req.expectedCandidateIds.Some? ==> IdsUnique(req.expectedCandidateIds.value)
    requires forall leaf :: leaf in req.leafTotals ==> NonNegative(req.leafTotals[leaf])
    ensures Acceptable(RequestFor(req, spec, reports)) <==> Replayable(req.leafTotals, spec)
  {
    assert IdsUnique(spec.expectedChildIds);
    hide NonNegative, NoDuplicates, IdsUnique, Fits, Counted;
    InputsAreOrderly(req.leafTotals, reports, spec.expectedChildIds);
    InputsFit(req.leafTotals, reports, spec.expectedChildIds);
  }

  lemma WithheldGrows(leaves: map<string, Tally>, reports: Reports, ids: seq<string>, child: string)
    ensures Withheld(leaves, reports, ids + [child]) ==
            Withheld(leaves, reports, ids) + Withheld(leaves, reports, [child])
  {
  }

  // What the children bring, and which of them are withheld; a leaf that cannot be named is refused.
  method CollectInputs(leaves: map<string, Tally>, reports: Reports, ids: seq<string>)
    returns (outcome: Result<seq<Input>, GraphRefusal>, incomplete: set<string>)
    ensures outcome.Ok? <==> forall c :: c in ids && c in leaves ==> Fits(c, ID_LIMIT)
    ensures outcome.Ok? ==>
              outcome.value == InputsFor(leaves, reports, ids) && incomplete == Withheld(leaves, reports, ids)
    ensures outcome.Err? ==> outcome.error == InvalidReplay
  {
    hide Fits;
    var inputs: seq<Input> := [];
    incomplete := {};
    for i := 0 to |ids|
      invariant inputs == InputsFor(leaves, reports, ids[..i])
      invariant incomplete == Withheld(leaves, reports, ids[..i])
      invariant forall c :: c in ids[..i] && c in leaves ==> Fits(c, ID_LIMIT)
    {
      assert ids[..i + 1] == ids[..i] + [ids[i]] && ids[..i + 1][..i] == ids[..i];
      var child := ids[i];
      WithheldGrows(leaves, reports, ids[..i], child);
      if child in leaves {
        if !Fits(child, ID_LIMIT) {
          return Err(InvalidReplay), incomplete;
        }
        inputs := inputs + [Input(child, leaves[child])];
      } else if child in reports {
        var replay := reports[child].replay;
        if replay.status == VERIFIED {
          inputs := inputs + [Input(child, replay.computedTotals)];
        } else {
          incomplete := incomplete + {child};
        }
      }
    }
    assert ids[..|ids|] == ids;
    return Ok(inputs), incomplete;
  }

  method ReplayNode(req: GraphRequest, spec: NodeSpec, reports: Reports)
    returns (outcome: Result<NodeReport, GraphRefusal>)
    requires NodeWellFormed(spec) && Counted(reports)
    requires req.expectedCandidateIds.Some? ==> IdsUnique(req.expectedCandidateIds.value)
    requires forall leaf :: leaf in req.leafTotals ==> NonNegative(req.leafTotals[leaf])
    ensures outcome.Ok? <==> Replayable(req.leafTotals, spec)
    ensures outcome.Ok? ==> outcome.value == ReportFrom(req, spec, reports)
    ensures outcome.Ok? ==> NonNegative(outcome.value.replay.computedTotals)
    ensures outcome.Err? ==> outcome.error == InvalidReplay
  {
    hide ReportOf, NonNegative, IdsUnique, Counted, Acceptable, Fits;
    var inputs, incomplete := CollectInputs(req.leafTotals, reports, spec.expectedChildIds);
    if inputs.Err? {
      return Err(inputs.error);
    }
    RequestAcceptable(req, spec, reports);
    var request := Request(spec.level, spec.nodeId, spec.expectedChildIds, req.expectedCandidateIds, inputs.value,
                           spec.declaredTotals);
    var replay := ReplayCollation(request);
    if replay.Err? {
      return Err(InvalidReplay);
    }
    ComputedIsNonNegative(request);
    return Ok(NodeReport(spec, replay.value, incomplete));
  }

  // ---------------------------------------------------------------- the whole graph

  // The plain recursion: a node's report is made from the reports of its children. The rank only
  // shows that the recursion ends.
  ghost function PlainReport(req: GraphRequest, rank: map<string, nat>, id: string): NodeReport
    requires WellFormed(req) && IsRank(Dependencies(SpecsOf(req.nodes)), rank) && id in SpecsOf(req.nodes)
    decreases rank[id], 1
  {
    SpecsListNodes(req.nodes);
    ReportFrom(req, SpecsOf(req.nodes)[id], ChildReports(req, rank, id))
  }

  ghost function ChildReports(req: GraphRequest, rank: map<string, nat>, id: string): Reports
    requires WellFormed(req) && IsRank(Dependencies(SpecsOf(req.nodes)), rank) && id in SpecsOf(req.nodes)
    decreases rank[id], 0
  {
    var specs := SpecsOf(req.nodes);
    DependenciesClosed(specs);
    map c | c in specs && Edge(Dependencies(specs), id, c) :: PlainReport(req, rank, c)
  }

  // The reports so far follow from one another.
  ghost predicate Follows(req: GraphRequest, specs: Specs, reports: Reports, id: string)
    requires id in specs && specs[id].expectedChildIds != []
  {
    && id in reports
    && reports[id] == ReportFrom(req, specs[id], reports)
    && forall c :: c in specs[id].expectedChildIds && c in specs ==> c in reports
  }

  ghost predicate AllFollow(req: GraphRequest, specs: Specs, reports: Reports) {
    && reports.Keys <= specs.Keys
    && forall id :: id in reports ==> specs[id].expectedChildIds != [] && Follows(req, specs, reports, id)
  }

  ghost predicate Agree(a: Reports, b: Reports, ids: seq<string>) {
    forall c :: c in ids ==> (c in a <==> c in b) && (c in a ==> a[c] == b[c])
  }

  lemma {:induction false} InputsOnlyFromChildren(leaves: map<string, Tally>, a: Reports, b: Reports, ids: seq<string>)
    requires Agree(a, b, ids)
    ensures InputsFor(leaves, a, ids) == InputsFor(leaves, b, ids)
  {
    if ids != [] {
      var last, init := ids[|ids| - 1], ids[..|ids| - 1];
      assert ids == init + [last];
      InputsOnlyFromChildren(leaves, a, b, init);
      assert last in ids;
    }
  }

  lemma ReportOnlyFromChildren(req: GraphRequest, spec: NodeSpec, a: Reports, b: Reports)
    requires spec.expectedChildIds != [] && Agree(a, b, spec.expectedChildIds)
    ensures ReportFrom(req, spec, a) == ReportFrom(req, spec, b)
  {
    InputsOnlyFromChildren(req.leafTotals, a, b, spec.expectedChildIds);
    assert Withheld(req.leafTotals, a, spec.expectedChildIds) == Withheld(req.leafTotals, b, spec.expectedChildIds);
  }

  lemma FollowsAfterAdding(req: GraphRequest, specs: Specs, reports: Reports, id: string, report: NodeReport)
    requires AllFollow(req, specs, reports) && id in specs && id !in reports
    requires specs[id].expectedChildIds != [] && id !in specs[id].expectedChildIds
    requires report == ReportFrom(req, specs[id], reports)
    requires forall c :: c in specs[id].expectedChildIds && c in specs ==> c in reports
    ensures AllFollow(req, specs, reports[id := report])
  {
    hide ReportFrom;
    var more := reports[id := report];
    forall n | n in more ensures specs[n].expectedChildIds != [] && Follows(req, specs, more, n) {
      assert n != id ==> Follows(req, specs, reports, n);
      assert id !in specs[n].expectedChildIds;
      ReportOnlyFromChildren(req, specs[n], reports, more);
    }
  }

  // Reports that follow from one another are what the plain recursion computes.
  lemma {:induction false} FollowingIsPlain(req: GraphRequest, rank: map<string, nat>, reports: Reports, id: string)
    requires WellFormed(req) && IsRank(Dependencies(SpecsOf(req.nodes)), rank)
    requires AllFollow(req, SpecsOf(req.nodes), reports) && id in reports
    ensures reports[id] == PlainReport(req, rank, id)
    decreases if id in rank then rank[id] else 0
  {
    hide ReportFrom, WellFormed, IsRank;
    var specs := SpecsOf(req.nodes);
    assert Follows(req, specs, reports, id);
    var below := ChildReports(req, rank, id);
    forall c | c in specs[id].expectedChildIds
      ensures (c in reports <==> c in below) && (c in reports ==> reports[c] == below[c])
    {
      if c in specs {
        ChildRank(specs, rank, id, c);
        FollowingIsPlain(req, rank, reports, c);
      }
    }
    ReportOnlyFromChildren(req, specs[id], reports, below);
  }

  lemma ChildRank(specs: Specs, rank: map<string, nat>, id: string, c: string)
    requires IsRank(Dependencies(specs), rank) && id in specs && c in specs[id].expectedChildIds && c in specs
    ensures Edge(Dependencies(specs), id, c) && id in rank && c in rank && rank[c] < rank[id]
  {
    DependenciesClosed(specs);
  }

  // Every reference from a node to a child, in the order of the request.
  function References(nodes: seq<NodeSpec>): seq<string> {
    if nodes == [] then []
    else References(nodes[..|nodes| - 1]) + nodes[|nodes| - 1].expectedChildIds
  }

  function Referenced(nodes: seq<NodeSpec>): set<string> {
    set n, c | n in nodes && c in n.expectedChildIds :: c
  }

  function GraphStatus(unreferenced: set<string>, reports: seq<NodeReport>): Status {
    if unreferenced != {} || exists item | item in reports :: item.replay.status == FAILED then FAILED
    else if exists item | item in reports :: item.replay.status == INCOMPLETE then INCOMPLETE
    else VERIFIED
  }

  // A graph fails when a leaf hangs loose or a node fails, and is otherwise as complete as its nodes.
  ghost predicate StatusFits(result: GraphReport) {
    var failed :=
      result.unreferencedLeafIds != {} || exists item :: item in result.nodeReports && item.replay.status == FAILED;
    var incomplete := exists item :: item in result.nodeReports && item.replay.status == INCOMPLETE;
    && (result.status == FAILED <==> failed)
    && (result.status == INCOMPLETE <==> !failed && incomplete)
    && (result.complete <==> !failed && !incomplete)
  }

  ghost predicate Replays(req: GraphRequest, result: GraphReport)
    requires WellFormed(req)
  {
    var nodeIds, referenced := Elements(NodeIds(req.nodes)), Referenced(req.nodes);
    && result.rootNodeIds == nodeIds - referenced
    && result.unreferencedLeafIds == req.leafTotals.Keys - referenced
    && StatusFits(result)
    && |result.nodeReports| == |req.nodes|
    && forall rank, i | IsRank(Dependencies(SpecsOf(req.nodes)), rank) && 0 <= i < |req.nodes| ::
         result.nodeReports[i] == PlainAt(req, rank, i)
  }

  ghost function PlainAt(req: GraphRequest, rank: map<string, nat>, i: nat): NodeReport
    requires WellFormed(req) && IsRank(Dependencies(SpecsOf(req.nodes)), rank) && i < |req.nodes|
  {
    SpecsListNodes(req.nodes);
    PlainReport(req, rank, req.nodes[i].nodeId)
  }

  ghost predicate Waiting(specs: Specs, reports: Reports, id: string) {
    id in specs && exists c :: c in specs[id].expectedChildIds && c in specs && c !in reports
  }

  // While nodes remain, not all of them can be waiting for a child.
  lemma SomeNodeIsReady(req: GraphRequest, reports: Reports, remaining: set<string>)
    requires WellFormed(req) && remaining != {}
    requires remaining <= SpecsOf(req.nodes).Keys && reports.Keys == SpecsOf(req.nodes).Keys - remaining
    ensures exists id :: id in remaining && !Waiting(SpecsOf(req.nodes), reports, id)
  {
    hide HasCycle;
    var specs := SpecsOf(req.nodes);
    DependenciesClosed(specs);
    var ready := FindSink(Dependencies(specs), remaining);
    forall c ensures c in specs[ready].expectedChildIds && c in specs ==> c in reports {
      assert Edge(Dependencies(specs), ready, c) <==> c in specs[ready].expectedChildIds && c in specs;
    }
    assert !Waiting(specs, reports, ready);
  }

  // Replays every node that is not waiting for a child, and says whether there was one.
  method Pass(req: GraphRequest, specs: Specs, before: Reports, start: set<string>)
    returns (reports: Reports, remaining: set<string>, progressed: bool, refused: bool)
    requires WellFormed(req) && specs == SpecsOf(req.nodes)
    requires start <= specs.Keys && before.Keys == specs.Keys - start
    requires AllFollow(req, specs, before) && Counted(before)
    requires forall id :: id in before ==> Replayable(req.leafTotals, specs[id])
    ensures remaining <= start && reports.Keys == specs.Keys - remaining
    ensures AllFollow(req, specs, reports) && Counted(reports)
    ensures forall id :: id in reports ==> Replayable(req.leafTotals, specs[id])
    ensures refused ==> exists id :: id in specs && !Replayable(req.leafTotals, specs[id])
    ensures progressed ==> remaining < start
    ensures !progressed && !refused ==> reports == before && forall id :: id in start ==> Waiting(specs, before, id)
  {
    hide WellFormed, AllFollow, Replayable, ReportFrom, NonNegative;
    reports, remaining, progressed, refused := before, start, false, false;
    var batch := remaining;
    while batch != {}
      invariant batch <= remaining <= start && reports.Keys == specs.Keys - remaining
      invariant AllFollow(req, specs, reports) && Counted(reports)
      invariant forall id :: id in reports ==> Replayable(req.leafTotals, specs[id])
      invariant progressed ==> remaining < start
      invariant !progressed ==>
                  && reports == before && remaining == start
                  && forall id :: id in start - batch ==> Waiting(specs, before, id)
    {
      var id :| id in batch;
      batch := batch - {id};
      if forall c | c in specs[id].expectedChildIds && c in specs :: c in reports {
        NodeFacts(req, id);
        var outcome := ReplayNode(req, specs[id], reports);
        if outcome.Err? {
          refused := true;
          return;
        }
        FollowsAfterAdding(req, specs, reports, id, outcome.value);
        reports := reports[id := outcome.value];
        remaining := remaining - {id};
        progressed := true;
      }
    }
  }

  lemma NodeFacts(req: GraphRequest, id: string)
    requires WellFormed(req) && id in SpecsOf(req.nodes)
    ensures NodeWellFormed(SpecsOf(req.nodes)[id]) && SpecsOf(req.nodes)[id].nodeId == id
    ensures SpecsOf(req.nodes)[id] in req.nodes
    ensures req.expectedCandidateIds.Some? ==> IdsUnique(req.expectedCandidateIds.value)
    ensures forall leaf :: leaf in req.leafTotals ==> NonNegative(req.leafTotals[leaf])
    ensures id !in req.leafTotals && Fits(id, ID_LIMIT)
  {
    SpecsListNodes(req.nodes);
    assert id in req.leafTotals ==> id in Elements(NodeIds(req.nodes)) * req.leafTotals.Keys;
  }

  // The outcome does not depend on the order in which nodes are tried, and the graph always resolves.
  method ReplayCollationGraph(req: GraphRequest) returns (outcome: Result<GraphReport, GraphRefusal>)
    requires WellFormed(req)
    ensures outcome.Err? <==> exists n :: n in req.nodes && !Replayable(req.leafTotals, n)
    ensures outcome.Err? ==> outcome.error == InvalidReplay
    ensures outcome.Ok? ==> Replays(req, outcome.value)
  {
    hide WellFormed, AllFollow, Replayable, ReportFrom;
    var specs := SpecsOf(req.nodes);
    var reports: Reports := map[];
    var remaining := specs.Keys;
    assert AllFollow(req, specs, reports) by { NothingFollows(req, specs); }
    while remaining != {}
      invariant remaining <= specs.Keys && reports.Keys == specs.Keys - remaining
      invariant AllFollow(req, specs, reports) && Counted(reports)
      invariant forall id :: id in reports ==> Replayable(req.leafTotals, specs[id])
      decreases |remaining|
    {
      ghost var before := remaining;
      var progressed, refused;
      reports, remaining, progressed, refused := Pass(req, specs, reports, remaining);
      if refused {
        ghost var id :| id in specs && !Replayable(req.leafTotals, specs[id]);
        NodeFacts(req, id);
        return Err(InvalidReplay);
      }
      if progressed {
        SmallerSet(remaining, before);
      } else {
        // The source raises an error here, but some remaining node is always ready.
        SomeNodeIsReady(req, reports, remaining);
        assert false;
      }
    }

    var result := Summary(req, specs, reports);
    return Ok(result);
  }

  lemma StatusIsFit(result: GraphReport)
    requires result.status == GraphStatus(result.unreferencedLeafIds, result.nodeReports)
    requires result.complete <==> result.status == VERIFIED
    ensures StatusFits(result)
  {
  }

  method Summary(req: GraphRequest, specs: Specs, reports: Reports) returns (result: GraphReport)
    requires WellFormed(req) && specs == SpecsOf(req.nodes) && reports.Keys == specs.Keys
    requires AllFollow(req, specs, reports)
    ensures Replays(req, result)
    ensures forall id :: id in specs ==> exists n :: n in req.nodes && specs[id] == n
    ensures forall n :: n in req.nodes ==> n.nodeId in specs && specs[n.nodeId] == n
  {
    hide WellFormed, AllFollow, ReportFrom, PlainAt, IsRank, Dependencies, Referenced, StatusFits, GraphStatus;
    NodesAreReported(req, reports);
    var referenced := Referenced(req.nodes);
    var roots := specs.Keys - referenced;
    var unreferenced := req.leafTotals.Keys - referenced;
    var ordered := seq(|req.nodes|, i requires 0 <= i < |req.nodes| => reports[req.nodes[i].nodeId]);
    var status := GraphStatus(unreferenced, ordered);
    result := GraphReport(status, status == VERIFIED, roots, unreferenced, ordered);
    StatusIsFit(result);
    ReportsArePlain(req, reports, result);
    SpecsAreNodes(req);
  }

  lemma SpecsAreNodes(req: GraphRequest)
    requires WellFormed(req)
    ensures forall id :: id in SpecsOf(req.nodes) ==> exists n :: n in req.nodes && SpecsOf(req.nodes)[id] == n
  {
    hide WellFormed;
    forall id | id in SpecsOf(req.nodes) ensures exists n :: n in req.nodes && SpecsOf(req.nodes)[id] == n {
      NodeFacts(req, id);
    }
  }

  lemma NodesAreReported(req: GraphRequest, reports: Reports)
    requires WellFormed(req) && reports.Keys == SpecsOf(req.nodes).Keys
    ensures SpecsOf(req.nodes).Keys == Elements(NodeIds(req.nodes))
    ensures forall n :: n in req.nodes ==> n.nodeId in reports && SpecsOf(req.nodes)[n.nodeId] == n
    ensures forall i :: 0 <= i < |req.nodes| ==> req.nodes[i].nodeId in reports
  {
    SpecsListNodes(req.nodes);
  }

  lemma ReportsArePlain(req: GraphRequest, reports: Reports, result: GraphReport)
    requires WellFormed(req) && reports.Keys == SpecsOf(req.nodes).Keys
    requires AllFollow(req, SpecsOf(req.nodes), reports)
    requires forall i :: 0 <= i < |req.nodes| ==> req.nodes[i].nodeId in reports
    requires |result.nodeReports| == |req.nodes|
    requires forall i :: 0 <= i < |req.nodes| ==> result.nodeReports[i] == reports[req.nodes[i].nodeId]
    ensures forall rank, i | IsRank(Dependencies(SpecsOf(req.nodes)), rank) && 0 <= i < |req.nodes| ::
              result.nodeReports[i] == PlainAt(req, rank, i)
  {
    forall rank, i | IsRank(Dependencies(SpecsOf(req.nodes)), rank) && 0 <= i < |req.nodes|
      ensures result.nodeReports[i] == PlainAt(req, rank, i)
    {
      FollowingIsPlain(req, rank, reports, req.nodes[i].nodeId);
    }
  }

  lemma NothingFollows(req: GraphRequest, specs: Specs)
    ensures AllFollow(req, specs, map[])
  {
  }
}
