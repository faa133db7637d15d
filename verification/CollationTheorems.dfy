// Votes are neither lost nor counted twice, except as stated.
module CollationTheorems {
  import opened Outcomes
  import opened Finite
  import opened CycleCheck
  import opened Collation
  import opened CollationGraph

  // ---------------------------------------------------------------- one node

  // What an identifier carries upwards for a candidate.
  function Value(leaves: map<string, Tally>, reports: Reports, c: string): string -> int {
    id => var totals := Promoted(leaves, reports, id); if totals.Some? then Votes(totals.value, c) else 0
  }

  // The reports of a replay, by node.
  ghost predicate Replayed(req: GraphRequest, reports: Reports) {
    WellFormed(req) && reports.Keys == SpecsOf(req.nodes).Keys && AllFollow(req, SpecsOf(req.nodes), reports)
  }

  lemma {:induction false} GroupedInputs(leaves: map<string, Tally>, reports: Reports, ids: seq<string>, u: string)
    requires NoDuplicates(ids)
    ensures var units := ByUnit(InputsFor(leaves, reports, ids));
            && (u in units <==> u in ids && Promoted(leaves, reports, u).Some?)
            && (u in units ==> units[u] == Promoted(leaves, reports, u).value)
  {
    if ids != [] {
      var last, init := ids[|ids| - 1], ids[..|ids| - 1];
      assert ids == init + [last];
      NoDuplicatesAppend(init, last);
      hide NoDuplicates, Promoted;
      GroupedInputs(leaves, reports, init, u);
      var before, all := InputsFor(leaves, reports, init), InputsFor(leaves, reports, ids);
      if Promoted(leaves, reports, last).Some? {
        assert all[..|all| - 1] == before;
      } else {
        assert all == before;
      }
    }
  }

  // A node's total is the sum of what its children carry.
  lemma NodeAddsChildren(req: GraphRequest, reports: Reports, n: string, c: string)
    requires Replayed(req, reports) && n in reports
    ensures Votes(reports[n].replay.computedTotals, c) ==
              Sum(Value(req.leafTotals, reports, c), SpecsOf(req.nodes)[n].expectedChildIds)
  {
    var spec := SpecsOf(req.nodes)[n];
    var ids, units := spec.expectedChildIds, ByUnit(InputsFor(req.leafTotals, reports, spec.expectedChildIds));
    NodeFacts(req, n);
    assert Follows(req, SpecsOf(req.nodes), reports, n);
    assert reports[n].replay.computedTotals == ComputedFrom(units, ids);
    UnseenAddsNothing(units, ids, c);
    forall u | u in ids ensures Contribution(units, c)(u) == Value(req.leafTotals, reports, c)(u) {
      GroupedInputs(req.leafTotals, reports, ids, u);
    }
    SumAgree(Contribution(units, c), Value(req.leafTotals, reports, c), ids);
  }

  // A verified node has a leaf or another verified node for every child.
  lemma VerifiedHasAllChildren(req: GraphRequest, reports: Reports, n: string, child: string)
    requires Replayed(req, reports) && n in reports && reports[n].replay.status == VERIFIED
    requires child in SpecsOf(req.nodes)[n].expectedChildIds
    ensures Promoted(req.leafTotals, reports, child).Some?
  {
    var spec := SpecsOf(req.nodes)[n];
    NodeFacts(req, n);
    assert Follows(req, SpecsOf(req.nodes), reports, n);
    GroupedInputs(req.leafTotals, reports, spec.expectedChildIds, child);
    assert child in Elements(spec.expectedChildIds);
    StatusOf(RequestFor(req, spec, reports));
  }

  // ---------------------------------------------------------------- paths down to leaves

  // A path from a node down to a leaf, all nodes strictly between lying in `through`.
  ghost predicate Descends(req: GraphRequest, through: set<string>, p: seq<string>) {
    var specs := SpecsOf(req.nodes);
    && |p| >= 2 && p[0] in specs && p[1] in specs[p[0]].expectedChildIds
    && if |p| == 2 then p[1] in req.leafTotals else p[1] in through && Descends(req, through, p[1..])
  }

  ghost predicate DescendsFrom(req: GraphRequest, through: set<string>, n: string, p: seq<string>) {
    Descends(req, through, p) && p[0] == n
  }

  function VerifiedNodes(reports: Reports): set<string> {
    set n | n in reports && reports[n].replay.status == VERIFIED
  }

  function LeafVotes(leaves: map<string, Tally>, c: string): seq<string> -> int {
    p => if p != [] && p[|p| - 1] in leaves then Votes(leaves[p[|p| - 1]], c) else 0
  }

  function Prefixed(n: string, ps: seq<seq<string>>): seq<seq<string>> {
    seq(|ps|, i requires 0 <= i < |ps| => [n] + ps[i])
  }

  ghost predicate Ranked(req: GraphRequest, rank: map<string, nat>) {
    WellFormed(req) && IsRank(Dependencies(SpecsOf(req.nodes)), rank)
  }

  // The paths from `n` by way of its first `k` children.
  ghost function Paths(req: GraphRequest, rank: map<string, nat>, through: set<string>, n: string,
      k: nat): seq<seq<string>>
    requires Ranked(req, rank) && n in SpecsOf(req.nodes) && k <= |SpecsOf(req.nodes)[n].expectedChildIds|
    decreases rank[n], k
  {
    if k == 0 then []
    else
      Paths(req, rank, through, n, k - 1)
      + Prefixed(n, Below(req, rank, through, n, SpecsOf(req.nodes)[n].expectedChildIds[k - 1]))
  }

  // What remains of such a path after `n`, when it continues at `child`.
  ghost function Below(req: GraphRequest, rank: map<string, nat>, through: set<string>, n: string,
      child: string): seq<seq<string>>
    requires Ranked(req, rank) && n in SpecsOf(req.nodes) && child in SpecsOf(req.nodes)[n].expectedChildIds
    decreases rank[n], 0
  {
    var specs := SpecsOf(req.nodes);
    if child in req.leafTotals then [[child]]
    else if child in through && child in specs then
      ChildRank(specs, rank, n, child);
      Paths(req, rank, through, child, |specs[child].expectedChildIds|)
    else []
  }

  lemma InPrefixed(n: string, ps: seq<seq<string>>, p: seq<string>)
    ensures p in Prefixed(n, ps) <==> p != [] && p[0] == n && p[1..] in ps
  {
    if p in Prefixed(n, ps) {
      var i :| 0 <= i < |ps| && Prefixed(n, ps)[i] == p;
      assert p[1..] == ps[i];
    }
    if p != [] && p[0] == n && p[1..] in ps {
      var i :| 0 <= i < |ps| && ps[i] == p[1..];
      assert Prefixed(n, ps)[i] == p;
    }
  }

  lemma PrefixedNoDuplicates(n: string, ps: seq<seq<string>>)
    requires NoDuplicates(ps)
    ensures NoDuplicates(Prefixed(n, ps))
  {
    var qs := Prefixed(n, ps);
    forall i, j | 0 <= i < j < |qs| ensures qs[i] != qs[j] {
      assert qs[i][1..] == ps[i] && qs[j][1..] == ps[j];
    }
  }

  lemma {:induction false} PrefixedSum(leaves: map<string, Tally>, c: string, n: string, ps: seq<seq<string>>)
    requires forall i :: 0 <= i < |ps| ==> ps[i] != []
    ensures Sum(LeafVotes(leaves, c), Prefixed(n, ps)) == Sum(LeafVotes(leaves, c), ps)
  {
    if ps != [] {
      hide Votes;
      assert Prefixed(n, ps)[1..] == Prefixed(n, ps[1..]);
      PrefixedSum(leaves, c, n, ps[1..]);
    }
  }

  // The enumeration lists exactly the paths there are.
  lemma {:induction false} PathsAreAll(req: GraphRequest, rank: map<string, nat>, through: set<string>,
      n: string, k: nat, p: seq<string>)
    requires Ranked(req, rank) && n in SpecsOf(req.nodes) && k <= |SpecsOf(req.nodes)[n].expectedChildIds|
    requires through <= SpecsOf(req.nodes).Keys
    ensures p in Paths(req, rank, through, n, k) <==>
              DescendsFrom(req, through, n, p) && p[1] in SpecsOf(req.nodes)[n].expectedChildIds[..k]
    decreases rank[n], k
  {
    if k > 0 {
      hide WellFormed, IsRank, Below, Prefixed;
      var ids := SpecsOf(req.nodes)[n].expectedChildIds;
      var child := ids[k - 1];
      assert ids[..k] == ids[..k - 1] + [child];
      PathsAreAll(req, rank, through, n, k - 1, p);
      InPrefixed(n, Below(req, rank, through, n, child), p);
      if p != [] {
        BelowIsAll(req, rank, through, n, child, p[1..]);
        OneStepDown(req, through, n, child, p);
      }
    }
  }

  lemma {:induction false} BelowIsAll(req: GraphRequest, rank: map<string, nat>, through: set<string>, n: string,
      child: string, q: seq<string>)
    requires Ranked(req, rank) && n in SpecsOf(req.nodes) && child in SpecsOf(req.nodes)[n].expectedChildIds
    requires through <= SpecsOf(req.nodes).Keys
    ensures q in Below(req, rank, through, n, child) <==> Continues(req, through, child, q)
    decreases rank[n], 0
  {
    if child in req.leafTotals {
      assert q in [[child]] <==> q == [child];
    } else if child in through {
      var all := SpecsOf(req.nodes)[child].expectedChildIds;
      ChildRank(SpecsOf(req.nodes), rank, n, child);
      PathsAreAll(req, rank, through, child, |all|, q);
      assert all[..|all|] == all;
    }
  }

  ghost predicate Continues(req: GraphRequest, through: set<string>, child: string, q: seq<string>) {
    if child in req.leafTotals then q == [child] else child in through && DescendsFrom(req, through, child, q)
  }

  lemma OneStepDown(req: GraphRequest, through: set<string>, n: string, child: string, p: seq<string>)
    requires WellFormed(req) && p != [] && n in SpecsOf(req.nodes) && child in SpecsOf(req.nodes)[n].expectedChildIds
    ensures p[0] == n && Continues(req, through, child, p[1..]) <==>
              DescendsFrom(req, through, n, p) && p[1] == child
  {
    hide WellFormed;
    if child in req.leafTotals {
      LeafIsNoNode(req, child);
      if |p| >= 2 && p[1] == child {
        assert |p| > 2 ==> !Descends(req, through, p[1..]);
        assert |p| == 2 ==> p[1..] == [child];
      }
    } else if |p| == 2 {
      assert !Descends(req, through, p[1..]);
    }
  }

  lemma LeafIsNoNode(req: GraphRequest, id: string)
    requires WellFormed(req) && id in req.leafTotals
    ensures id !in SpecsOf(req.nodes)
  {
    if id in SpecsOf(req.nodes) {
      NodeFacts(req, id);
      assert false;
    }
  }

  lemma {:induction false} PathsNoDuplicates(req: GraphRequest, rank: map<string, nat>, through: set<string>,
      n: string, k: nat)
    requires Ranked(req, rank) && n in SpecsOf(req.nodes) && k <= |SpecsOf(req.nodes)[n].expectedChildIds|
    requires through <= SpecsOf(req.nodes).Keys
    ensures NoDuplicates(Paths(req, rank, through, n, k))
    decreases rank[n], k
  {
    hide WellFormed, SpecsOf, Dependencies, Descends, Prefixed;
    if k > 0 {
      var specs := SpecsOf(req.nodes);
      var ids := specs[n].expectedChildIds;
      var child := ids[k - 1];
      PathsNoDuplicates(req, rank, through, n, k - 1);
      var before, below := Paths(req, rank, through, n, k - 1), Below(req, rank, through, n, child);
      if child !in req.leafTotals && child in through {
        ChildRank(specs, rank, n, child);
        PathsNoDuplicates(req, rank, through, child, |specs[child].expectedChildIds|);
      }
      PrefixedNoDuplicates(n, below);
      hide *;
      forall p | p in before ensures p !in Prefixed(n, below) {
        NewPathsDiffer(req, rank, through, n, k, p);
      }
      NoDuplicatesJoin(before, Prefixed(n, below));
      PathsUnfold(req, rank, through, n, k);
    }
  }

  lemma PathsUnfold(req: GraphRequest, rank: map<string, nat>, through: set<string>, n: string, k: nat)
    requires Ranked(req, rank) && n in SpecsOf(req.nodes) && 0 < k <= |SpecsOf(req.nodes)[n].expectedChildIds|
    ensures Paths(req, rank, through, n, k) ==
              Paths(req, rank, through, n, k - 1)
              + Prefixed(n, Below(req, rank, through, n, SpecsOf(req.nodes)[n].expectedChildIds[k - 1]))
  {
  }

  lemma NewPathsDiffer(req: GraphRequest, rank: map<string, nat>, through: set<string>, n: string, k: nat,
      p: seq<string>)
    requires Ranked(req, rank) && n in SpecsOf(req.nodes) && 0 < k <= |SpecsOf(req.nodes)[n].expectedChildIds|
    requires through <= SpecsOf(req.nodes).Keys
    requires p in Paths(req, rank, through, n, k - 1)
    ensures p !in Prefixed(n, Below(req, rank, through, n, SpecsOf(req.nodes)[n].expectedChildIds[k - 1]))
  {
    NodeFacts(req, n);
    hide WellFormed, IsRank, NoDuplicates, Prefixed, Below, Paths, SpecsOf, Dependencies;
    var ids := SpecsOf(req.nodes)[n].expectedChildIds;
    var child := ids[k - 1];
    ChildNotBefore(ids, k);
    PathsAreAll(req, rank, through, n, k - 1, p);
    InPrefixed(n, Below(req, rank, through, n, child), p);
    BelowIsAll(req, rank, through, n, child, p[1..]);
    OneStepDown(req, through, n, child, p);
  }

  lemma ChildNotBefore(ids: seq<string>, k: nat)
    requires NoDuplicates(ids) && 0 < k <= |ids|
    ensures ids[k - 1] !in ids[..k - 1]
  {
  }

  lemma {:induction false} PathsAddUp(req: GraphRequest, reports: Reports, rank: map<string, nat>, n: string,
      k: nat, c: string)
    requires Ranked(req, rank) && Replayed(req, reports)
    requires n in SpecsOf(req.nodes) && k <= |SpecsOf(req.nodes)[n].expectedChildIds|
    ensures Sum(LeafVotes(req.leafTotals, c), Paths(req, rank, VerifiedNodes(reports), n, k)) ==
              Sum(Value(req.leafTotals, reports, c), SpecsOf(req.nodes)[n].expectedChildIds[..k])
    decreases rank[n], k
  {
    hide *;
    var through, ids := VerifiedNodes(reports), SpecsOf(req.nodes)[n].expectedChildIds;
    if k == 0 {
      NoPathYet(req, rank, through, n, c);
      assert ids[..0] == [];
      NoPathAtAll(Value(req.leafTotals, reports, c));
    } else {
      PathsAddUp(req, reports, rank, n, k - 1, c);
      BelowAddsUp(req, reports, rank, n, ids[k - 1], c);
      VerifiedAreNodes(req, reports);
      PathsSumStep(req, rank, through, n, k, c);
      ChildSumStep(Value(req.leafTotals, reports, c), ids, k);
    }
  }

  lemma NoPathYet(req: GraphRequest, rank: map<string, nat>, through: set<string>, n: string, c: string)
    requires Ranked(req, rank) && n in SpecsOf(req.nodes)
    ensures Sum(LeafVotes(req.leafTotals, c), Paths(req, rank, through, n, 0)) == 0
  {
  }

  lemma ChildSumStep(f: string -> int, ids: seq<string>, k: nat)
    requires 0 < k <= |ids|
    ensures Sum(f, ids[..k]) == Sum(f, ids[..k - 1]) + f(ids[k - 1])
  {
    SumLast(f, ids[..k]);
    assert ids[..k][..k - 1] == ids[..k - 1];
  }

  lemma PathsSumStep(req: GraphRequest, rank: map<string, nat>, through: set<string>, n: string, k: nat, c: string)
    requires Ranked(req, rank) && n in SpecsOf(req.nodes) && 0 < k <= |SpecsOf(req.nodes)[n].expectedChildIds|
    requires through <= SpecsOf(req.nodes).Keys
    ensures Sum(LeafVotes(req.leafTotals, c), Paths(req, rank, through, n, k)) ==
              Sum(LeafVotes(req.leafTotals, c), Paths(req, rank, through, n, k - 1))
              + Sum(LeafVotes(req.leafTotals, c),
                  Below(req, rank, through, n, SpecsOf(req.nodes)[n].expectedChildIds[k - 1]))
  {
    hide *;
    var child := SpecsOf(req.nodes)[n].expectedChildIds[k - 1];
    var below := Below(req, rank, through, n, child);
    PathsUnfold(req, rank, through, n, k);
    BelowIsNonEmpty(req, rank, through, n, child);
    PrefixedSum(req.leafTotals, c, n, below);
    SumAppend(LeafVotes(req.leafTotals, c), Paths(req, rank, through, n, k - 1), Prefixed(n, below));
  }

  lemma VerifiedAreNodes(req: GraphRequest, reports: Reports)
    requires Replayed(req, reports)
    ensures VerifiedNodes(reports) <= SpecsOf(req.nodes).Keys && VerifiedNodes(reports) <= reports.Keys
  {
    hide WellFormed, AllFollow;
  }

  lemma {:induction false} BelowAddsUp(req: GraphRequest, reports: Reports, rank: map<string, nat>, n: string,
      child: string, c: string)
    requires Ranked(req, rank) && Replayed(req, reports)
    requires n in SpecsOf(req.nodes) && child in SpecsOf(req.nodes)[n].expectedChildIds
    ensures Sum(LeafVotes(req.leafTotals, c), Below(req, rank, VerifiedNodes(reports), n, child)) ==
              Value(req.leafTotals, reports, c)(child)
    decreases rank[n], 0
  {
    hide *;
    var specs, through := SpecsOf(req.nodes), VerifiedNodes(reports);
    VerifiedAreNodes(req, reports);
    ValueOf(req.leafTotals, reports, child, c);
    BelowIs(req, rank, through, n, child);
    if child in req.leafTotals {
      OneLeafPath(req.leafTotals, c, child);
    } else if child in through {
      var all := specs[child].expectedChildIds;
      ChildIsLower(req, rank, n, child);
      PathsAddUp(req, reports, rank, child, |all|, c);
      assert all[..|all|] == all;
      NodeAddsChildren(req, reports, child, c);
    } else {
      NoPathAtAll(LeafVotes(req.leafTotals, c));
    }
  }

  lemma ChildIsLower(req: GraphRequest, rank: map<string, nat>, n: string, child: string)
    requires Ranked(req, rank) && n in SpecsOf(req.nodes) && child in SpecsOf(req.nodes)[n].expectedChildIds
    requires child in SpecsOf(req.nodes)
    ensures n in rank && child in rank && rank[child] < rank[n]
  {
    hide WellFormed, IsRank;
    ChildRank(SpecsOf(req.nodes), rank, n, child);
  }

  lemma BelowIs(req: GraphRequest, rank: map<string, nat>, through: set<string>, n: string, child: string)
    requires Ranked(req, rank) && n in SpecsOf(req.nodes) && child in SpecsOf(req.nodes)[n].expectedChildIds
    requires through <= SpecsOf(req.nodes).Keys
    ensures Below(req, rank, through, n, child) ==
              if child in req.leafTotals then [[child]]
              else if child in through then
                Paths(req, rank, through, child, |SpecsOf(req.nodes)[child].expectedChildIds|)
              else []
  {
    hide WellFormed, IsRank, Paths, SpecsOf;
  }

  lemma ValueOf(leaves: map<string, Tally>, reports: Reports, child: string, c: string)
    ensures Value(leaves, reports, c)(child) ==
              if child in leaves then Votes(leaves[child], c)
              else if child in VerifiedNodes(reports) then Votes(reports[child].replay.computedTotals, c)
              else 0
  {
  }

  lemma NoPathAtAll<T>(f: T -> int)
    ensures Sum(f, []) == 0
  {
  }

  lemma OneLeafPath(leaves: map<string, Tally>, c: string, leaf: string)
    requires leaf in leaves
    ensures Sum(LeafVotes(leaves, c), [[leaf]]) == Votes(leaves[leaf], c)
  {
    assert [[leaf]][1..] == [];
  }

  lemma BelowIsNonEmpty(req: GraphRequest, rank: map<string, nat>, through: set<string>, n: string, child: string)
    requires Ranked(req, rank) && n in SpecsOf(req.nodes) && child in SpecsOf(req.nodes)[n].expectedChildIds
    requires through <= SpecsOf(req.nodes).Keys
    ensures forall i :: 0 <= i < |Below(req, rank, through, n, child)| ==>
              Below(req, rank, through, n, child)[i] != []
  {
    hide WellFormed, Below, Paths, IsRank, SpecsOf, Dependencies;
    var below := Below(req, rank, through, n, child);
    forall i | 0 <= i < |below| ensures below[i] != [] {
      BelowIsAll(req, rank, through, n, child, below[i]);
    }
  }

  // At every node, a candidate's total is the sum, over all paths down to leaves by way of verified
  // nodes, of the leaf's votes: a path through an unverified node carries nothing.
  lemma TotalIsPathSum(req: GraphRequest, reports: Reports, n: string, c: string, paths: seq<seq<string>>)
    requires Replayed(req, reports) && n in reports
    requires NoDuplicates(paths)
    requires forall p :: p in paths <==> DescendsFrom(req, VerifiedNodes(reports), n, p)
    ensures Votes(reports[n].replay.computedTotals, c) == Sum(LeafVotes(req.leafTotals, c), paths)
  {
    hide WellFormed, AllFollow, Descends, IsRank, Paths, Sum, LeafVotes, Value, Votes, SpecsOf, Dependencies;
    VerifiedAreNodes(req, reports);
    hide VerifiedNodes;
    var rank, listed := PathsExist(req, VerifiedNodes(reports), n);
    var ids := SpecsOf(req.nodes)[n].expectedChildIds;
    PathsAddUp(req, reports, rank, n, |ids|, c);
    assert ids[..|ids|] == ids;
    NodeAddsChildren(req, reports, n, c);
    SameBag(paths, listed);
    SumPermutation(LeafVotes(req.leafTotals, c), paths, listed);
  }

  lemma SameBag(s: seq<seq<string>>, t: seq<seq<string>>)
    requires NoDuplicates(s) && NoDuplicates(t) && forall x :: x in s <==> x in t
    ensures multiset(s) == multiset(t)
  {
    SameElementsSameBag(s, t);
  }

  lemma PathsExist(req: GraphRequest, through: set<string>, n: string)
    returns (rank: map<string, nat>, paths: seq<seq<string>>)
    requires WellFormed(req) && n in SpecsOf(req.nodes) && through <= SpecsOf(req.nodes).Keys
    ensures Ranked(req, rank)
    ensures paths == Paths(req, rank, through, n, |SpecsOf(req.nodes)[n].expectedChildIds|)
    ensures NoDuplicates(paths) && forall p :: p in paths <==> DescendsFrom(req, through, n, p)
  {
    var specs := SpecsOf(req.nodes);
    var ids := specs[n].expectedChildIds;
    DependenciesClosed(specs);
    AcyclicIffRanked(Dependencies(specs));
    rank :| IsRank(Dependencies(specs), rank);
    paths := Paths(req, rank, through, n, |ids|);
    PathsNoDuplicates(req, rank, through, n, |ids|);
    forall p ensures p in paths <==> DescendsFrom(req, through, n, p) {
      PathsAreAll(req, rank, through, n, |ids|, p);
      assert ids[..|ids|] == ids;
    }
  }

  // Below a verified node, every path is counted.
  lemma {:induction false} AllPathsVerified(req: GraphRequest, reports: Reports, p: seq<string>)
    requires Replayed(req, reports) && p != [] && p[0] in VerifiedNodes(reports)
    ensures Descends(req, VerifiedNodes(reports), p) <==> Descends(req, SpecsOf(req.nodes).Keys, p)
    decreases |p|
  {
    hide WellFormed, AllFollow;
    if |p| > 2 && p[1] in SpecsOf(req.nodes)[p[0]].expectedChildIds && p[1] in SpecsOf(req.nodes) {
      VerifiedHasAllChildren(req, reports, p[0], p[1]);
      NodeFacts(req, p[1]);
      AllPathsVerified(req, reports, p[1..]);
    }
  }

  // At a verified node each candidate's total is the sum over all child paths down to leaves.
  lemma VerifiedTotalIsPathSum(req: GraphRequest, reports: Reports, n: string, c: string, paths: seq<seq<string>>)
    requires Replayed(req, reports) && n in reports && reports[n].replay.status == VERIFIED
    requires NoDuplicates(paths)
    requires forall p :: p in paths <==> DescendsFrom(req, SpecsOf(req.nodes).Keys, n, p)
    ensures Votes(reports[n].replay.computedTotals, c) == Sum(LeafVotes(req.leafTotals, c), paths)
  {
    hide Replayed, Sum, Votes;
    forall p ensures p in paths <==> DescendsFrom(req, VerifiedNodes(reports), n, p) {
      if p != [] && p[0] == n {
        AllPathsVerified(req, reports, p);
      }
    }
    TotalIsPathSum(req, reports, n, c, paths);
  }

  // ---------------------------------------------------------------- conservation over the graph

  // The first mention of each member, and all later mentions.
  function Firsts(s: seq<string>): seq<string> {
    if s == [] then []
    else Firsts(s[..|s| - 1]) + if s[|s| - 1] in s[..|s| - 1] then [] else [s[|s| - 1]]
  }

  function Repeats(s: seq<string>): seq<string> {
    if s == [] then []
    else Repeats(s[..|s| - 1]) + if s[|s| - 1] in s[..|s| - 1] then [s[|s| - 1]] else []
  }

  lemma {:induction false} FirstsListOnce(s: seq<string>)
    ensures NoDuplicates(Firsts(s)) && Elements(Firsts(s)) == Elements(s)
  {
    if s != [] {
      var last, init := s[|s| - 1], s[..|s| - 1];
      assert s == init + [last];
      FirstsListOnce(init);
      InElements(init, last);
      InElements(Firsts(init), last);
      NoDuplicatesAppend(init, last);
      NoDuplicatesAppend(Firsts(init), last);
      if last in init {
        assert Firsts(s) == Firsts(init) && Elements(init) + {last} == Elements(init);
      }
    }
  }

  lemma {:induction false} FirstsAndRepeatsAddUp(f: string -> int, s: seq<string>)
    ensures Sum(f, s) == Sum(f, Firsts(s)) + Sum(f, Repeats(s))
  {
    if s != [] {
      var last, init := s[|s| - 1], s[..|s| - 1];
      FirstsAndRepeatsAddUp(f, init);
      SumLast(f, s);
      var more: seq<string> := if last in init then [] else [last];
      var again: seq<string> := if last in init then [last] else [];
      assert Firsts(s) == Firsts(init) + more && Repeats(s) == Repeats(init) + again;
      hide Firsts, Repeats;
      SumAppend(f, Firsts(init), more);
      SumAppend(f, Repeats(init), again);
      assert [last][1..] == [];
    }
  }

  lemma {:induction false} RepeatsOfAppend(a: seq<string>, b: seq<string>, x: string)
    requires NoDuplicates(b)
    ensures x in Repeats(a + b) <==> x in Repeats(a) || (x in a && x in b)
  {
    if b == [] {
      assert a + b == a;
    } else {
      var last, init := b[|b| - 1], b[..|b| - 1];
      assert b == init + [last] && (a + b)[..|a + b| - 1] == a + init;
      NoDuplicatesAppend(init, last);
      RepeatsOfAppend(a, init, x);
    }
  }

  // `x` is a child of more than one node.
  ghost predicate Shared(nodes: seq<NodeSpec>, x: string) {
    exists i, j :: 0 <= i < j < |nodes| && x in nodes[i].expectedChildIds && x in nodes[j].expectedChildIds
  }

  lemma {:induction false} ReferencesAreReferenced(nodes: seq<NodeSpec>, x: string)
    ensures x in References(nodes) <==> x in Referenced(nodes)
  {
    if nodes != [] {
      var last, init := nodes[|nodes| - 1], nodes[..|nodes| - 1];
      assert nodes == init + [last];
      ReferencesAreReferenced(init, x);
    }
  }

  lemma {:induction false} RepeatsAreShared(nodes: seq<NodeSpec>, x: string)
    requires forall i :: 0 <= i < |nodes| ==> NoDuplicates(nodes[i].expectedChildIds)
    ensures x in Repeats(References(nodes)) <==> Shared(nodes, x)
  {
    if nodes != [] {
      var last, init := nodes[|nodes| - 1], nodes[..|nodes| - 1];
      RepeatsAreShared(init, x);
      RepeatsOfAppend(References(init), last.expectedChildIds, x);
      ReferencesAreReferenced(init, x);
      hide References, Repeats, NoDuplicates;
      SharedWithLast(nodes, x);
    }
  }

  lemma SharedWithLast(nodes: seq<NodeSpec>, x: string)
    requires nodes != []
    ensures var last, init := nodes[|nodes| - 1], nodes[..|nodes| - 1];
            Shared(nodes, x) <==> Shared(init, x) || (x in Referenced(init) && x in last.expectedChildIds)
  {
    var last, init := nodes[|nodes| - 1], nodes[..|nodes| - 1];
    if x in Referenced(init) && x in last.expectedChildIds {
      var n :| n in init && x in n.expectedChildIds;
      var i :| 0 <= i < |init| && init[i] == n;
      assert x in nodes[i].expectedChildIds && x in nodes[|nodes| - 1].expectedChildIds;
    }
    if Shared(init, x) {
      var i, j :| 0 <= i < j < |init| && x in init[i].expectedChildIds && x in init[j].expectedChildIds;
      assert x in nodes[i].expectedChildIds && x in nodes[j].expectedChildIds;
    }
    if Shared(nodes, x) {
      var i, j :| 0 <= i < j < |nodes| && x in nodes[i].expectedChildIds && x in nodes[j].expectedChildIds;
      assert init[i] in init;
      if j < |init| {
        assert x in init[i].expectedChildIds && x in init[j].expectedChildIds;
      }
    }
  }

  ghost predicate AllVerified(req: GraphRequest, reports: Reports) {
    && Replayed(req, reports)
    && (forall n :: n in reports ==> reports[n].replay.status == VERIFIED)
    && req.leafTotals.Keys <= Referenced(req.nodes)
  }

  // Adding up all nodes is adding up all references.
  lemma {:induction false} NodesAddReferences(req: GraphRequest, reports: Reports, c: string, k: nat)
    requires AllVerified(req, reports) && k <= |req.nodes|
    ensures Sum(Value(req.leafTotals, reports, c), NodeIds(req.nodes[..k])) ==
              Sum(Value(req.leafTotals, reports, c), References(req.nodes[..k]))
  {
    hide *;
    if k == 0 {
      assert req.nodes[..0] == [];
      SumsOverNoNodes(Value(req.leafTotals, reports, c));
    } else {
      NodesAddReferences(req, reports, c, k - 1);
      assert req.nodes[..k] == req.nodes[..k - 1] + [req.nodes[k - 1]];
      VerifiedNodeValue(req, reports, k - 1, c);
      SumsAfterNode(Value(req.leafTotals, reports, c), req.nodes[..k - 1], req.nodes[k - 1]);
    }
  }

  lemma SumsOverNoNodes(f: string -> int)
    ensures Sum(f, NodeIds([])) == Sum(f, References([])) == 0
  {
  }

  lemma SumsAfterNode(f: string -> int, nodes: seq<NodeSpec>, n: NodeSpec)
    ensures Sum(f, NodeIds(nodes + [n])) == Sum(f, NodeIds(nodes)) + f(n.nodeId)
    ensures Sum(f, References(nodes + [n])) == Sum(f, References(nodes)) + Sum(f, n.expectedChildIds)
  {
    assert (nodes + [n])[..|nodes|] == nodes;
    assert NodeIds(nodes + [n]) == NodeIds(nodes) + [n.nodeId];
    SumLast(f, NodeIds(nodes + [n]));
    assert NodeIds(nodes + [n])[..|nodes|] == NodeIds(nodes);
    SumAppend(f, References(nodes), n.expectedChildIds);
  }

  lemma VerifiedNodeValue(req: GraphRequest, reports: Reports, i: nat, c: string)
    requires AllVerified(req, reports) && i < |req.nodes|
    ensures Value(req.leafTotals, reports, c)(req.nodes[i].nodeId) ==
              Sum(Value(req.leafTotals, reports, c), req.nodes[i].expectedChildIds)
  {
    var n := req.nodes[i];
    NodesAreReported(req, reports);
    NodeFacts(req, n.nodeId);
    NodeAddsChildren(req, reports, n.nodeId, c);
    ValueOf(req.leafTotals, reports, n.nodeId, c);
  }

  // Every identifier in the graph is a root, an inner node or a leaf, and each occurs once.
  lemma NodesSplit(f: string -> int, nodes: seq<string>, referenced: seq<string>, roots: seq<string>,
      leaves: seq<string>)
    requires NoDuplicates(nodes) && NoDuplicates(referenced) && NoDuplicates(roots) && NoDuplicates(leaves)
    requires Elements(roots) == Elements(nodes) - Elements(referenced)
    requires Elements(leaves) == Elements(referenced) - Elements(nodes)
    ensures Sum(f, nodes) - Sum(f, roots) == Sum(f, referenced) - Sum(f, leaves)
  {
    hide NoDuplicates, Elements, Sum, Keep;
    var inner := Keep(nodes, Elements(referenced));
    KeepNoDuplicates(nodes, Elements(referenced));
    PartsAddUp(f, nodes, roots, inner);
    PartsAddUp(f, referenced, leaves, inner);
  }

  lemma {:induction false} KeepNoDuplicates(ids: seq<string>, wanted: set<string>)
    requires NoDuplicates(ids)
    ensures NoDuplicates(Keep(ids, wanted)) && Elements(Keep(ids, wanted)) == Elements(ids) * wanted
  {
    if ids != [] {
      var last, init := ids[|ids| - 1], ids[..|ids| - 1];
      assert ids == init + [last];
      NoDuplicatesAppend(init, last);
      KeepNoDuplicates(init, wanted);
      NoDuplicatesAppend(Keep(init, wanted), last);
      assert Keep(init, wanted) + [] == Keep(init, wanted);
    }
  }

  lemma PartsAddUp(f: string -> int, all: seq<string>, a: seq<string>, b: seq<string>)
    requires NoDuplicates(all) && NoDuplicates(a) && NoDuplicates(b)
    requires Elements(all) == Elements(a) + Elements(b) && Elements(a) * Elements(b) == {}
    ensures Sum(f, all) == Sum(f, a) + Sum(f, b)
  {
    forall x | x in a ensures x !in b {
      assert x in Elements(a) && x !in Elements(a) * Elements(b);
    }
    NoDuplicatesJoin(a, b);
    SumAppend(f, a, b);
    assert Elements(all) == Elements(a + b);
    SameElementsSameBag(all, a + b);
    SumPermutation(f, all, a + b);
  }

  lemma {:induction false} SumOfNaturals<T>(f: T -> int, s: seq<T>)
    requires forall x :: x in s ==> f(x) >= 0
    ensures Sum(f, s) >= 0
    ensures Sum(f, s) == 0 <==> forall x :: x in s ==> f(x) == 0
  {
    if s != [] {
      var last, init := s[|s| - 1], s[..|s| - 1];
      assert s == init + [last];
      SumOfNaturals(f, init);
      SumLast(f, s);
    }
  }

  // In a verified graph, the totals of the roots exceed those of the leaves by exactly what is
  // counted again at every further reference to the same identifier.
  lemma RootsExceedLeavesByRepeats(req: GraphRequest, reports: Reports, c: string, roots: seq<string>,
      leaves: seq<string>)
    requires AllVerified(req, reports)
    requires NoDuplicates(roots) && Elements(roots) == Elements(NodeIds(req.nodes)) - Referenced(req.nodes)
    requires NoDuplicates(leaves) && Elements(leaves) == req.leafTotals.Keys
    ensures var value := Value(req.leafTotals, reports, c);
            Sum(value, roots) == Sum(value, leaves) + Sum(value, Repeats(References(req.nodes)))
  {
    hide *;
    var f, references := Value(req.leafTotals, reports, c), References(req.nodes);
    NodesAddReferences(req, reports, c, |req.nodes|);
    assert req.nodes[..|req.nodes|] == req.nodes;
    FirstsAndRepeatsAddUp(f, references);
    FirstsListOnce(references);
    ReferencesAreNodesAndLeaves(req, reports);
    NodesSplit(f, NodeIds(req.nodes), Firsts(references), roots, leaves);
  }

  lemma ReferencesAreNodesAndLeaves(req: GraphRequest, reports: Reports)
    requires AllVerified(req, reports)
    ensures Elements(References(req.nodes)) == Referenced(req.nodes) && NoDuplicates(NodeIds(req.nodes))
    ensures req.leafTotals.Keys == Referenced(req.nodes) - Elements(NodeIds(req.nodes))
  {
    forall x ensures x in Elements(References(req.nodes)) <==> x in Referenced(req.nodes) {
      ReferencesAreReferenced(req.nodes, x);
    }
    forall x | x in Referenced(req.nodes) - Elements(NodeIds(req.nodes)) ensures x in req.leafTotals {
      var n :| n in req.nodes && x in n.expectedChildIds;
      NodesAreReported(req, reports);
      VerifiedHasAllChildren(req, reports, n.nodeId, x);
    }
    forall x | x in req.leafTotals.Keys ensures x in Referenced(req.nodes) - Elements(NodeIds(req.nodes)) {
      NodesAreReported(req, reports);
      LeafIsNoNode(req, x);
    }
  }

  // `x` is a leaf with votes for the candidate, or child references lead from it to one.
  ghost predicate ReachesVotes(req: GraphRequest, c: string, x: string) {
    || (x in req.leafTotals && Votes(req.leafTotals[x], c) != 0)
    || exists p :: DescendsFrom(req, SpecsOf(req.nodes).Keys, x, p) && LeafVotes(req.leafTotals, c)(p) != 0
  }

  // In a verified graph an identifier carries votes exactly when it reaches some.
  lemma CarriesIffReaches(req: GraphRequest, reports: Reports, c: string, x: string)
    requires AllVerified(req, reports)
    ensures Value(req.leafTotals, reports, c)(x) != 0 <==> ReachesVotes(req, c, x)
  {
    hide WellFormed, AllFollow, Descends, LeafVotes, SpecsOf, Votes;
    ValueOf(req.leafTotals, reports, x, c);
    NodesAreReported(req, reports);
    if x in reports {
      NodeFacts(req, x);
      NodeCarriesIffReaches(req, reports, c, x);
    } else {
      NoNodeNoPath(req, x);
    }
  }

  lemma NoNodeNoPath(req: GraphRequest, x: string)
    requires x !in SpecsOf(req.nodes)
    ensures forall p :: !DescendsFrom(req, SpecsOf(req.nodes).Keys, x, p)
  {
  }

  lemma NodeCarriesIffReaches(req: GraphRequest, reports: Reports, c: string, x: string)
    requires AllVerified(req, reports) && x in reports
    ensures Votes(reports[x].replay.computedTotals, c) != 0 <==>
              exists p :: DescendsFrom(req, SpecsOf(req.nodes).Keys, x, p) && LeafVotes(req.leafTotals, c)(p) != 0
  {
    var rank, paths := PathsExist(req, SpecsOf(req.nodes).Keys, x);
    VerifiedTotalIsPathSum(req, reports, x, c, paths);
    LeafVotesAreNatural(req, c);
    hide *;
    SumOfNaturals(LeafVotes(req.leafTotals, c), paths);
  }

  lemma LeafVotesAreNatural(req: GraphRequest, c: string)
    requires WellFormed(req)
    ensures forall p :: LeafVotes(req.leafTotals, c)(p) >= 0
  {
  }

  // Roots and leaves agree on a candidate exactly when no identifier with two parents is, or leads
  // to, a leaf with votes for the candidate.
  lemma VotesConservedIffNoneShared(req: GraphRequest, reports: Reports, c: string, roots: seq<string>,
                                    leaves: seq<string>)
    requires AllVerified(req, reports)
    requires NoDuplicates(roots) && Elements(roots) == Elements(NodeIds(req.nodes)) - Referenced(req.nodes)
    requires NoDuplicates(leaves) && Elements(leaves) == req.leafTotals.Keys
    ensures
      var value := Value(req.leafTotals, reports, c);
      && Sum(value, roots) >= Sum(value, leaves)
      && (Sum(value, roots) == Sum(value, leaves) <==> forall x :: Shared(req.nodes, x) ==> !ReachesVotes(req, c, x))
  {
    var value, repeats := Value(req.leafTotals, reports, c), Repeats(References(req.nodes));
    RootsExceedLeavesByRepeats(req, reports, c, roots, leaves);
    forall x ensures x in repeats <==> Shared(req.nodes, x) {
      ChildrenAreUnique(req);
      RepeatsAreShared(req.nodes, x);
    }
    TotalsAreCounts(req, reports);
    forall x ensures value(x) >= 0 && (value(x) == 0 <==> !ReachesVotes(req, c, x)) {
      ValueIsNatural(req, reports, c, x);
      CarriesIffReaches(req, reports, c, x);
    }
    hide *;
    SumOfNaturals(value, repeats);
  }

  lemma ChildrenAreUnique(req: GraphRequest)
    requires WellFormed(req)
    ensures forall i :: 0 <= i < |req.nodes| ==> NoDuplicates(req.nodes[i].expectedChildIds)
  {
    assert forall i :: 0 <= i < |req.nodes| ==> req.nodes[i] in req.nodes && NodeWellFormed(req.nodes[i]);
  }

  lemma ValueIsNatural(req: GraphRequest, reports: Reports, c: string, x: string)
    requires WellFormed(req) && Counted(reports)
    ensures Value(req.leafTotals, reports, c)(x) >= 0
  {
  }

  lemma TotalsAreCounts(req: GraphRequest, reports: Reports)
    requires Replayed(req, reports)
    ensures Counted(reports)
  {
    hide WellFormed, AllFollow, SpecsOf, Dependencies, IsRank, Fits, NonNegative;
    var rank := SomeRank(req);
    forall n | n in reports ensures Fits(n, ID_LIMIT) && NonNegative(reports[n].replay.computedTotals) {
      NodeFacts(req, n);
      NodeTotalsCount(req, reports, rank, n);
    }
  }

  lemma NodeTotalsCount(req: GraphRequest, reports: Reports, rank: map<string, nat>, n: string)
    requires Ranked(req, rank) && Replayed(req, reports) && n in reports
    ensures NonNegative(reports[n].replay.computedTotals)
  {
    hide WellFormed, AllFollow, SpecsOf, Dependencies, IsRank;
    forall c | c in reports[n].replay.computedTotals ensures reports[n].replay.computedTotals[c] >= 0 {
      TotalIsCount(req, reports, rank, n, c);
    }
  }

  lemma {:induction false} TotalIsCount(req: GraphRequest, reports: Reports, rank: map<string, nat>, n: string,
      c: string)
    requires Ranked(req, rank) && Replayed(req, reports) && n in reports
    ensures Votes(reports[n].replay.computedTotals, c) >= 0
    decreases rank[n]
  {
    var specs, value := SpecsOf(req.nodes), Value(req.leafTotals, reports, c);
    NodeAddsChildren(req, reports, n, c);
    forall x | x in specs[n].expectedChildIds ensures value(x) >= 0 {
      LeavesCount(req, x, c);
      hide WellFormed, IsRank, AllFollow, Dependencies;
      if x !in req.leafTotals && x in VerifiedNodes(reports) {
        ChildRank(specs, rank, n, x);
        TotalIsCount(req, reports, rank, x, c);
      }
      ValueOf(req.leafTotals, reports, x, c);
    }
    hide *;
    SumOfNaturals(value, specs[n].expectedChildIds);
  }

  lemma LeavesCount(req: GraphRequest, x: string, c: string)
    requires WellFormed(req)
    ensures x in req.leafTotals ==> Votes(req.leafTotals[x], c) >= 0
  {
  }

  // With at most one parent for every identifier nothing is counted twice.
  lemma VotesConserved(req: GraphRequest, reports: Reports, c: string, roots: seq<string>, leaves: seq<string>)
    requires AllVerified(req, reports)
    requires forall x :: !Shared(req.nodes, x)
    requires NoDuplicates(roots) && Elements(roots) == Elements(NodeIds(req.nodes)) - Referenced(req.nodes)
    requires NoDuplicates(leaves) && Elements(leaves) == req.leafTotals.Keys
    ensures Sum(Value(req.leafTotals, reports, c), roots) == Sum(Value(req.leafTotals, reports, c), leaves)
  {
    hide *;
    VotesConservedIffNoneShared(req, reports, c, roots, leaves);
  }

  // ---------------------------------------------------------------- the report of a replay

  // What the theorems above call reports are the node reports of a replay's result.
  lemma ResultReports(req: GraphRequest, result: GraphReport) returns (reports: Reports)
    requires WellFormed(req) && Replays(req, result)
    ensures Replayed(req, reports)
    ensures forall i :: 0 <= i < |req.nodes| ==>
              req.nodes[i].nodeId in reports && reports[req.nodes[i].nodeId] == result.nodeReports[i]
    ensures result.status == VERIFIED <==> AllVerified(req, reports)
  {
    hide *;
    var rank := SomeRank(req);
    reports := PlainReports(req, rank);
    PlainIsReplayed(req, rank);
    ResultCounts(req, result);
    forall i: nat | i < |req.nodes|
      ensures req.nodes[i].nodeId in reports && reports[req.nodes[i].nodeId] == result.nodeReports[i]
    {
      ResultIsPlain(req, rank, result, i);
    }
    StatusReflectsNodes(req, reports, result);
  }

  lemma SomeRank(req: GraphRequest) returns (rank: map<string, nat>)
    requires WellFormed(req)
    ensures Ranked(req, rank)
  {
    var specs := SpecsOf(req.nodes);
    DependenciesClosed(specs);
    AcyclicIffRanked(Dependencies(specs));
    rank :| IsRank(Dependencies(specs), rank);
  }

  ghost function PlainReports(req: GraphRequest, rank: map<string, nat>): Reports
    requires Ranked(req, rank)
  {
    map n | n in SpecsOf(req.nodes) :: PlainReport(req, rank, n)
  }

  lemma PlainIsReplayed(req: GraphRequest, rank: map<string, nat>)
    requires Ranked(req, rank)
    ensures Replayed(req, PlainReports(req, rank))
  {
    hide WellFormed, IsRank, AllFollow, PlainReport, SpecsOf, Dependencies;
    PlainReportsFollow(req, rank, PlainReports(req, rank));
  }

  lemma ResultIsPlain(req: GraphRequest, rank: map<string, nat>, result: GraphReport, i: nat)
    requires WellFormed(req) && Replays(req, result) && Ranked(req, rank) && i < |req.nodes|
    ensures req.nodes[i].nodeId in PlainReports(req, rank)
    ensures PlainReports(req, rank)[req.nodes[i].nodeId] == result.nodeReports[i]
  {
    SpecsListNodes(req.nodes);
    assert result.nodeReports[i] == PlainAt(req, rank, i) by { hide WellFormed, IsRank, PlainAt; }
    hide Replays, WellFormed, IsRank, PlainReport;
  }

  lemma ResultCounts(req: GraphRequest, result: GraphReport)
    requires WellFormed(req) && Replays(req, result)
    ensures |result.nodeReports| == |req.nodes|
    ensures result.unreferencedLeafIds == req.leafTotals.Keys - Referenced(req.nodes)
    ensures StatusFits(result)
  {
    hide WellFormed, Referenced, StatusFits, PlainAt, IsRank;
  }

  lemma PlainReportsFollow(req: GraphRequest, rank: map<string, nat>, reports: Reports)
    requires Ranked(req, rank) && reports == map n | n in SpecsOf(req.nodes) :: PlainReport(req, rank, n)
    ensures AllFollow(req, SpecsOf(req.nodes), reports)
  {
    hide WellFormed, IsRank, SpecsOf, PlainReport, Follows;
    var specs := SpecsOf(req.nodes);
    forall n | n in specs ensures specs[n].expectedChildIds != [] && Follows(req, specs, reports, n) {
      PlainReportFollows(req, rank, reports, n);
    }
  }

  lemma PlainReportFollows(req: GraphRequest, rank: map<string, nat>, reports: Reports, n: string)
    requires Ranked(req, rank) && reports == map n | n in SpecsOf(req.nodes) :: PlainReport(req, rank, n)
    requires n in SpecsOf(req.nodes)
    ensures SpecsOf(req.nodes)[n].expectedChildIds != [] && Follows(req, SpecsOf(req.nodes), reports, n)
  {
    hide WellFormed, IsRank, SpecsOf, Dependencies, ReportFrom, ChildReports, PlainReport;
    var specs := SpecsOf(req.nodes);
    var below := ChildReports(req, rank, n);
    PlainUnfolds(req, rank, n);
    forall c | c in specs[n].expectedChildIds
      ensures (c in below <==> c in reports) && (c in below ==> below[c] == reports[c])
    {
      ChildReportsArePlain(req, rank, n, c);
    }
    ReportOnlyFromChildren(req, specs[n], below, reports);
  }

  lemma PlainUnfolds(req: GraphRequest, rank: map<string, nat>, n: string)
    requires Ranked(req, rank) && n in SpecsOf(req.nodes)
    ensures SpecsOf(req.nodes)[n].expectedChildIds != []
    ensures PlainReport(req, rank, n) == ReportFrom(req, SpecsOf(req.nodes)[n], ChildReports(req, rank, n))
  {
    NodeFacts(req, n);
    hide ReportFrom, ChildReports;
  }

  lemma ChildReportsArePlain(req: GraphRequest, rank: map<string, nat>, n: string, c: string)
    requires Ranked(req, rank) && n in SpecsOf(req.nodes) && c in SpecsOf(req.nodes)[n].expectedChildIds
    ensures c in ChildReports(req, rank, n) <==> c in SpecsOf(req.nodes)
    ensures c in ChildReports(req, rank, n) ==> ChildReports(req, rank, n)[c] == PlainReport(req, rank, c)
  {
    DependenciesClosed(SpecsOf(req.nodes));
    hide WellFormed, IsRank, SpecsOf, Dependencies, ReportFrom, PlainReport, Edge;
  }

  lemma StatusReflectsNodes(req: GraphRequest, reports: Reports, result: GraphReport)
    requires Replayed(req, reports) && |result.nodeReports| == |req.nodes|
    requires forall i :: 0 <= i < |req.nodes| ==>
               req.nodes[i].nodeId in reports && reports[req.nodes[i].nodeId] == result.nodeReports[i]
    requires result.unreferencedLeafIds == req.leafTotals.Keys - Referenced(req.nodes)
    requires StatusFits(result)
    ensures result.status == VERIFIED <==> AllVerified(req, reports)
  {
    hide *;
    VerifiedStatus(result);
    ReportedNodes(req, reports);
    SameStatuses(req.nodes, reports, result.nodeReports);
    AllVerifiedMeans(req, reports);
  }

  lemma ReportedNodes(req: GraphRequest, reports: Reports)
    requires Replayed(req, reports)
    ensures forall n :: n in reports ==> exists i :: 0 <= i < |req.nodes| && req.nodes[i].nodeId == n
  {
    NodesAreReported(req, reports);
    hide *;
    forall n | n in reports ensures exists i :: 0 <= i < |req.nodes| && req.nodes[i].nodeId == n {
      IdOfSomeNode(req.nodes, n);
    }
  }

  lemma IdOfSomeNode(nodes: seq<NodeSpec>, n: string)
    requires n in Elements(NodeIds(nodes))
    ensures exists i :: 0 <= i < |nodes| && nodes[i].nodeId == n
  {
    var i :| 0 <= i < |nodes| && NodeIds(nodes)[i] == n;
    assert nodes[i].nodeId == n;
  }

  lemma AllVerifiedMeans(req: GraphRequest, reports: Reports)
    requires Replayed(req, reports)
    ensures AllVerified(req, reports) <==>
              && (forall n :: n in reports ==> reports[n].replay.status == VERIFIED)
              && req.leafTotals.Keys - Referenced(req.nodes) == {}
  {
    hide Replayed, Referenced;
    if req.leafTotals.Keys - Referenced(req.nodes) == {} {
      forall leaf | leaf in req.leafTotals.Keys ensures leaf in Referenced(req.nodes) {
        assert leaf !in req.leafTotals.Keys - Referenced(req.nodes);
      }
    }
  }

  lemma SameStatuses(nodes: seq<NodeSpec>, reports: Reports, items: seq<NodeReport>)
    requires |nodes| == |items|
    requires forall n :: n in reports ==> exists i :: 0 <= i < |nodes| && nodes[i].nodeId == n
    requires forall i :: 0 <= i < |nodes| ==> nodes[i].nodeId in reports && reports[nodes[i].nodeId] == items[i]
    ensures (forall item :: item in items ==> item.replay.status == VERIFIED) <==>
              (forall n :: n in reports ==> reports[n].replay.status == VERIFIED)
  {
    if forall item :: item in items ==> item.replay.status == VERIFIED {
      forall n | n in reports ensures reports[n].replay.status == VERIFIED {
        var i :| 0 <= i < |nodes| && nodes[i].nodeId == n;
        assert items[i] in items;
      }
    }
  }

  lemma VerifiedStatus(result: GraphReport)
    requires StatusFits(result)
    ensures result.status == VERIFIED <==>
              && result.unreferencedLeafIds == {}
              && forall item :: item in result.nodeReports ==> item.replay.status == VERIFIED
  {
  }

  // ---------------------------------------------------------------- counting twice is possible

  // Two nodes that share their only leaf, for which `v` votes were counted.
  ghost predicate SharesLeaf(req: GraphRequest, level: string, a: string, b: string, x: string, c: string, v: nat) {
    && a != b && x != a && x != b
    && Fits(level, LEVEL_LIMIT) && Fits(a, ID_LIMIT) && Fits(b, ID_LIMIT) && Fits(x, ID_LIMIT)
    && req.nodes == [NodeSpec(level, a, [x], None), NodeSpec(level, b, [x], None)]
    && req.expectedCandidateIds == Some([c]) && req.leafTotals == map[x := map[c := v]]
  }

  lemma SharedSpecs(req: GraphRequest, level: string, a: string, b: string, x: string, c: string, v: nat)
    requires SharesLeaf(req, level, a, b, x, c, v)
    ensures SpecsOf(req.nodes) == map[a := req.nodes[0], b := req.nodes[1]]
    ensures NodeIds(req.nodes) == [a, b] && Referenced(req.nodes) == {x}
  {
    assert req.nodes[..1] == [req.nodes[0]] && req.nodes[..1][..0] == [];
    assert SpecsOf(req.nodes[..1]) == map[a := req.nodes[0]];
    assert req.nodes[0] in req.nodes && x in req.nodes[0].expectedChildIds;
  }

  lemma SharedIsWellFormed(req: GraphRequest, level: string, a: string, b: string, x: string, c: string, v: nat)
    requires SharesLeaf(req, level, a, b, x, c, v)
    ensures WellFormed(req)
  {
    SharedSpecs(req, level, a, b, x, c, v);
    SharedIsAcyclic(SpecsOf(req.nodes), a, b, x);
    hide SpecsOf, Referenced, Dependencies, HasCycle;
    assert Elements([a, b]) * req.leafTotals.Keys == {};
  }

  lemma SharedIsAcyclic(specs: Specs, a: string, b: string, x: string)
    requires specs.Keys == {a, b} && x != a && x != b
    requires specs[a].expectedChildIds == [x] && specs[b].expectedChildIds == [x]
    ensures !HasCycle(Dependencies(specs))
  {
    DependenciesClosed(specs);
    KeysOfDependencies(specs);
    hide Dependencies, Edge, HasCycle, Closed;
    RankExcludesCycles(Dependencies(specs), map[a := 0, b := 0]);
  }

  lemma KeysOfDependencies(specs: Specs)
    ensures Dependencies(specs).Keys == specs.Keys
  {
    hide Keep;
  }

  // One unit that reports every registered candidate, with nothing declared, verifies.
  lemma OneUnitVerifies(r: Request, x: string, c: string, v: nat)
    requires r.expectedUnitIds == [x] && r.expectedCandidateIds == Some([c]) && r.declaredTotals == None
    requires r.inputs == [Input(x, map[c := v])]
    requires Fits(r.level, LEVEL_LIMIT) && Fits(r.nodeId, ID_LIMIT) && Fits(x, ID_LIMIT)
    ensures ReportOf(r).status == VERIFIED
  {
    OneRow(x, map[c := v]);
    hide ReportOf, ByUnit;
    assert Elements([x]) == {x} && Elements([c]) == {c};
    assert Acceptable(r);
    VerifiedIffExact(r);
  }

  lemma SharedNodeVerifies(req: GraphRequest, level: string, reports: Reports, n: string, x: string, c: string, v: nat)
    requires Replayed(req, reports) && n in reports
    requires req.expectedCandidateIds == Some([c]) && req.leafTotals == map[x := map[c := v]]
    requires SpecsOf(req.nodes)[n] == NodeSpec(level, n, [x], None) && Fits(x, ID_LIMIT)
    ensures reports[n].replay.status == VERIFIED
    ensures Value(req.leafTotals, reports, c)(n) == v && Value(req.leafTotals, reports, c)(x) == v
  {
    var spec := SpecsOf(req.nodes)[n];
    assert Follows(req, SpecsOf(req.nodes), reports, n);
    assert InputsFor(req.leafTotals, reports, [x]) == [Input(x, map[c := v])] by {
      assert [x][..0] == [];
    }
    NodeFacts(req, n);
    NodeAddsChildren(req, reports, n, c);
    ValueOf(req.leafTotals, reports, x, c);
    ValueOf(req.leafTotals, reports, n, c);
    hide AllFollow, WellFormed, ReportOf, InputsFor, Value;
    OneUnitVerifies(RequestFor(req, spec, reports), x, c, v);
    SumLast(Value(req.leafTotals, reports, c), [x]);
    assert [x][..0] == [];
  }

  // The sharing condition cannot be dropped: here everything is verified and the roots hold twice
  // the votes of the leaves.
  lemma SharedLeafCountsTwice(req: GraphRequest, level: string, a: string, b: string, x: string, c: string, v: nat)
    returns (reports: Reports)
    requires SharesLeaf(req, level, a, b, x, c, v)
    ensures AllVerified(req, reports)
    ensures Elements([a, b]) == Elements(NodeIds(req.nodes)) - Referenced(req.nodes)
        && Elements([x]) == req.leafTotals.Keys
    ensures Sum(Value(req.leafTotals, reports, c), [a, b]) == 2 * v
    ensures Sum(Value(req.leafTotals, reports, c), [x]) == v
  {
    hide *;
    SharedIsWellFormed(req, level, a, b, x, c, v);
    SharedSets(req, level, a, b, x, c, v);
    var rank := SomeRank(req);
    PlainIsReplayed(req, rank);
    reports := PlainReports(req, rank);
    SharedReports(req, level, reports, a, b, x, c, v);
    SharedSums(Value(req.leafTotals, reports, c), a, b, x, v);
  }

  lemma SharedSets(req: GraphRequest, level: string, a: string, b: string, x: string, c: string, v: nat)
    requires SharesLeaf(req, level, a, b, x, c, v)
    ensures Elements([a, b]) == Elements(NodeIds(req.nodes)) - Referenced(req.nodes)
        && Elements([x]) == req.leafTotals.Keys
  {
    SharedSpecs(req, level, a, b, x, c, v);
    hide NodeIds, Referenced;
  }

  lemma SharedSums(f: string -> int, a: string, b: string, x: string, v: nat)
    requires f(a) == v && f(b) == v && f(x) == v
    ensures Sum(f, [a, b]) == 2 * v && Sum(f, [x]) == v
  {
    SumOfTwo(f, a, b);
    assert [x][1..] == [];
  }

  lemma SharedReports(req: GraphRequest, level: string, reports: Reports, a: string, b: string, x: string, c: string,
      v: nat)
    requires SharesLeaf(req, level, a, b, x, c, v) && Replayed(req, reports)
    ensures AllVerified(req, reports)
    ensures var value := Value(req.leafTotals, reports, c); value(a) == v && value(b) == v && value(x) == v
  {
    hide *;
    SharedFacts(req, level, reports, a, b, x, c, v);
    SharedNodeVerifies(req, level, reports, a, x, c, v);
    SharedNodeVerifies(req, level, reports, b, x, c, v);
    AllVerifiedMeans(req, reports);
  }

  lemma SharedFacts(req: GraphRequest, level: string, reports: Reports, a: string, b: string, x: string, c: string,
      v: nat)
    requires SharesLeaf(req, level, a, b, x, c, v) && Replayed(req, reports)
    ensures reports.Keys == {a, b} == SpecsOf(req.nodes).Keys
    ensures SpecsOf(req.nodes)[a] == NodeSpec(level, a, [x], None)
        && SpecsOf(req.nodes)[b] == NodeSpec(level, b, [x], None)
    ensures req.expectedCandidateIds == Some([c]) && req.leafTotals == map[x := map[c := v]] && Fits(x, ID_LIMIT)
    ensures req.leafTotals.Keys - Referenced(req.nodes) == {}
  {
    hide WellFormed, AllFollow, SpecsOf, Referenced;
    SharedSpecs(req, level, a, b, x, c, v);
  }
}
