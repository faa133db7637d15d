// The depth-first cycle check over collation nodes, and what being free of cycles provides.
module CycleCheck {
  import opened Finite

  // The nodes, each with those of its children that are nodes.
  type Graph = map<string, seq<string>>

  ghost predicate Closed(g: Graph) {
    forall n, c :: n in g && c in g[n] ==> c in g
  }

  ghost predicate Edge(g: Graph, from: string, to: string) {
    from in g && to in g[from]
  }

  // Position `i` of `p` has an edge to the next one, the last position to `to`.
  ghost predicate Link(g: Graph, p: seq<string>, to: string, i: nat)
    requires i < |p|
  {
    Edge(g, p[i], if i + 1 < |p| then p[i + 1] else to)
  }

  ghost predicate PathTo(g: Graph, p: seq<string>, to: string) {
    forall i: nat :: i < |p| ==> Link(g, p, to, i)
  }

  ghost predicate IsCycle(g: Graph, p: seq<string>) {
    p != [] && PathTo(g, p, p[0])
  }

  ghost predicate HasCycle(g: Graph) {
    exists p :: IsCycle(g, p)
  }

  lemma PathExtends(g: Graph, p: seq<string>, middle: string, to: string)
    requires PathTo(g, p, middle) && Edge(g, middle, to)
    ensures PathTo(g, p + [middle], to)
  {
    hide Edge;
    var q := p + [middle];
    forall i: nat | i < |q| ensures Link(g, q, to, i) {
      if i < |p| {
        assert Link(g, p, middle, i);
      }
    }
  }

  lemma PathIntoChild(g: Graph, path: seq<string>, id: string, i: nat)
    requires Closed(g) && PathTo(g, path, id) && id in g && i < |g[id]|
    ensures PathTo(g, path + [id], g[id][i]) && g[id][i] in g
  {
    assert Edge(g, id, g[id][i]);
    PathExtends(g, path, id, g[id][i]);
  }

  lemma PathReturns(g: Graph, p: seq<string>, to: string)
    requires PathTo(g, p, to) && to in p
    ensures HasCycle(g)
  {
    hide Edge;
    var k :| 0 <= k < |p| && p[k] == to;
    var q := p[k..];
    forall i: nat | i < |q| ensures Link(g, q, q[0], i) {
      assert Link(g, p, to, k + i);
    }
    assert IsCycle(g, q);
  }

  // ---------------------------------------------------------------- the depth-first search

  // Children appear in `order` before their parents.
  ghost predicate ChildrenFirst(g: Graph, order: seq<string>) {
    forall i, c :: 0 <= i < |order| && Edge(g, order[i], c) ==> c in order[..i]
  }

  class CycleChecker {
    const g: Graph
    var visiting: set<string>
    var visited: set<string>
    ghost var order: seq<string>

    constructor (g: Graph)
      ensures this.g == g && visiting == {} && visited == {} && order == []
    {
      this.g := g;
      visiting, visited, order := {}, {}, [];
    }

    ghost predicate Valid()
      reads this
    {
      && Closed(g)
      && visiting <= g.Keys && visited == Elements(order)
      && ChildrenFirst(g, order)
    }

    // Refuses only when there is a cycle; otherwise everything reachable ends up visited.
    method Visit(id: string, ghost path: seq<string>) returns (ok: bool)
      requires Valid() && id in g
      requires visiting == Elements(path) && PathTo(g, path, id)
      modifies this
      ensures !ok ==> HasCycle(g)
      ensures ok ==> Valid() && id in visited && visiting == old(visiting) && old(visited) <= visited
      decreases |g.Keys - visiting|
    {
      hide Closed, PathTo, Edge, ChildrenFirst, HasCycle, Elements;
      NoDuplicatesAppend(path, id);
      InElements(path, id);
      if id in visiting {
        PathReturns(g, path, id);
        return false;
      }
      if id in visited {
        return true;
      }
      ghost var outside := g.Keys - visiting;
      visiting := visiting + {id};
      SmallerSet(g.Keys - visiting, outside);
      for i := 0 to |g[id]|
        invariant Valid() && visiting == Elements(path + [id])
        invariant old(visited) <= visited
        invariant forall j :: 0 <= j < i ==> g[id][j] in visited
      {
        PathIntoChild(g, path, id, i);
        var fine := Visit(g[id][i], path + [id]);
        if !fine {
          return false;
        }
      }
      visiting := visiting - {id};
      visited := visited + {id};
      forall c | c in g[id] ensures c in order {
        InElements(order, c);
      }
      OrderExtends(g, order, id);
      NoDuplicatesAppend(order, id);
      order := order + [id];
      return true;
    }
  }

  lemma OrderExtends(g: Graph, order: seq<string>, id: string)
    requires ChildrenFirst(g, order) && id in g && forall c :: c in g[id] ==> c in order
    ensures ChildrenFirst(g, order + [id])
  {
    var longer := order + [id];
    forall i, c | 0 <= i < |longer| && Edge(g, longer[i], c) ensures c in longer[..i] {
      assert longer[..i] == order[..i];
      if i < |order| {
        assert longer[i] == order[i];
      } else {
        assert order[..i] == order;
      }
    }
  }

  // The check succeeds on exactly the graphs without a cycle. The nodes are tried in any order.
  method AssertAcyclic(g: Graph) returns (ok: bool)
    requires Closed(g)
    ensures ok <==> !HasCycle(g)
  {
    var checker := new CycleChecker(g);
    var pending := g.Keys;
    while pending != {}
      invariant checker.g == g && checker.Valid() && checker.visiting == {}
      invariant g.Keys - pending <= checker.visited
    {
      var id :| id in pending;
      ok := checker.Visit(id, []);
      if !ok {
        return false;
      }
      pending := pending - {id};
    }
    OrderExcludesCycles(g, checker.order);
    return true;
  }

  // ---------------------------------------------------------------- ranks

  // A rank under which every child lies strictly below its parent.
  ghost predicate IsRank(g: Graph, rank: map<string, nat>) {
    && g.Keys <= rank.Keys
    && forall n, c :: Edge(g, n, c) ==> c in rank && rank[c] < rank[n]
  }

  lemma {:induction false} RankFalls(g: Graph, rank: map<string, nat>, p: seq<string>, i: nat)
    requires IsRank(g, rank) && IsCycle(g, p) && i < |p|
    ensures p[i] in rank && p[0] in rank && rank[p[i]] + i <= rank[p[0]]
  {
    hide HasCycle;
    assert Link(g, p, p[0], 0) && Link(g, p, p[0], i);
    if i > 0 {
      RankFalls(g, rank, p, i - 1);
      assert Link(g, p, p[0], i - 1);
    }
  }

  lemma RankExcludesCycles(g: Graph, rank: map<string, nat>)
    requires IsRank(g, rank)
    ensures !HasCycle(g)
  {
    forall p ensures !IsCycle(g, p) {
      RankForbidsCycle(g, rank, p);
    }
  }

  lemma RankForbidsCycle(g: Graph, rank: map<string, nat>, p: seq<string>)
    requires IsRank(g, rank)
    ensures !IsCycle(g, p)
  {
    if p != [] && Link(g, p, p[0], |p| - 1) && IsCycle(g, p) {
      RankFalls(g, rank, p, |p| - 1);
    }
  }

  function FirstIndex(order: seq<string>, n: string): (i: nat)
    requires n in order
    ensures i < |order| && order[i] == n && n !in order[..i]
  {
    if order[0] == n then 0
    else
      assert order == [order[0]] + order[1..];
      var i := FirstIndex(order[1..], n);
      assert order[..i + 1] == [order[0]] + order[1..][..i];
      i + 1
  }

  lemma OrderExcludesCycles(g: Graph, order: seq<string>)
    requires Closed(g) && ChildrenFirst(g, order) && g.Keys <= Elements(order)
    ensures !HasCycle(g)
  {
    var rank: map<string, nat> := map n | n in g :: FirstIndex(order, n);
    forall n, c | Edge(g, n, c) ensures c in rank && rank[c] < rank[n] {
      assert order[FirstIndex(order, n)] == n;
      assert c in order[..FirstIndex(order, n)];
    }
    RankExcludesCycles(g, rank);
  }

  // ---------------------------------------------------------------- sinks

  // Within any nonempty set of nodes of an acyclic graph, some node has no child in the set.
  lemma FindSink(g: Graph, s: set<string>) returns (sink: string)
    requires Closed(g) && s <= g.Keys && s != {} && !HasCycle(g)
    ensures sink in s && forall c :: Edge(g, sink, c) ==> c !in s
  {
    sink :| sink in s;
    var path: seq<string> := [];
    while exists c :: Edge(g, sink, c) && c in s
      invariant sink in s && Elements(path) <= s && PathTo(g, path, sink)
      invariant |path| <= |s|
      decreases |s| - |path|
    {
      var c :| Edge(g, sink, c) && c in s;
      PathExtends(g, path, sink, c);
      path := path + [sink];
      if |path| > |s| {
        LongPathReturns(g, path, s, c);
        assert false;
      }
      sink := c;
    }
  }

  lemma LongPathReturns(g: Graph, path: seq<string>, s: set<string>, to: string)
    requires Elements(path) <= s && |path| > |s| && PathTo(g, path, to)
    ensures HasCycle(g)
  {
    hide Edge, HasCycle;
    Pigeonhole(path, s);
    var i, j :| 0 <= i < j < |path| && path[i] == path[j];
    var p := path[..j];
    forall k: nat | k < |p| ensures Link(g, p, path[i], k) {
      assert Link(g, path, to, k);
    }
    assert p[i] == path[i] && path[i] in p;
    PathReturns(g, p, path[i]);
  }

  lemma {:induction false} RankRest(g: Graph, rank: map<string, nat>, next: nat) returns (full: map<string, nat>)
    requires Closed(g) && !HasCycle(g) && rank.Keys <= g.Keys
    requires forall n :: n in rank ==> rank[n] < next
    requires forall n, c :: n in rank && Edge(g, n, c) ==> c in rank && rank[c] < rank[n]
    ensures IsRank(g, full)
    decreases g.Keys - rank.Keys
  {
    var rest := g.Keys - rank.Keys;
    if rest == {} {
      forall n | n in g ensures n in rank {
        assert n !in rest;
      }
      full := rank;
    } else {
      var sink := FindSink(g, rest);
      var more := rank[sink := next];
      forall n, c | n in more && Edge(g, n, c) ensures c in more && more[c] < more[n] {
        if n == sink {
          assert c in g && c !in rest;
        }
      }
      full := RankRest(g, more, next + 1);
    }
  }

  // Being free of cycles is having a rank.
  lemma AcyclicIffRanked(g: Graph)
    requires Closed(g)
    ensures !HasCycle(g) <==> exists rank :: IsRank(g, rank)
  {
    if !HasCycle(g) {
      var rank := RankRest(g, map[], 0);
    }
    if rank :| IsRank(g, rank) {
      RankExcludesCycles(g, rank);
    }
  }
}
