/** The directed weighted graph that the transaction records induce, as the detector sees it:
    the nodes in insertion order and one weight per ordered pair of nodes. */
module Graphs {
  import opened Wrappers
  import opened Sequences

  type Node = string

  datatype Graph = Graph(nodes: seq<Node>, weight: map<(Node, Node), real>)

  const Empty: Graph := Graph([], map[])

  /** Every node is listed once and every edge joins two listed nodes. */
  predicate WellFormed(g: Graph) {
    && Distinct(g.nodes)
    && forall e :: e in g.weight ==> e.0 in g.nodes && e.1 in g.nodes
  }

  predicate NonNegative(g: Graph) {
    forall e :: e in g.weight ==> g.weight[e] >= 0.0
  }

  /** `nodes` with `x` appended unless it is already listed. */
  function AddNode(nodes: seq<Node>, x: Node): (r: seq<Node>)
    ensures Distinct(nodes) ==> Distinct(r)
    ensures x in r && |nodes| <= |r| <= |nodes| + 1 && r[..|nodes|] == nodes
    ensures |r| > |nodes| ==> r[|nodes|] == x
  {
    if x in nodes then nodes else nodes + [x]
  }

  /** The effect of adding the edge `u -> v` with weight `w`: a node not yet present is appended,
      `u` before `v`, and the edge's weight is replaced, whatever its previous value. */
  function AddEdge(g: Graph, u: Node, v: Node, w: real): Graph {
    Graph(AddNode(AddNode(g.nodes, u), v), g.weight[(u, v) := w])
  }

  /** Adding an edge keeps every node listed once and every edge between listed nodes, and keeps
      the weights non-negative when the new one is. */
  lemma AddEdgeWellFormed(g: Graph, u: Node, v: Node, w: real)
    ensures WellFormed(g) ==> WellFormed(AddEdge(g, u, v, w))
    ensures NonNegative(g) && w >= 0.0 ==> NonNegative(AddEdge(g, u, v, w))
  {
    var withSource := AddNode(g.nodes, u);
    var r := AddEdge(g, u, v, w);
    assert forall x :: x in g.nodes ==> x in withSource by {
      assert withSource[..|g.nodes|] == g.nodes;
    }
    assert forall x :: x in withSource ==> x in r.nodes by {
      assert r.nodes[..|withSource|] == withSource;
    }
  }

  /** Adding an edge keeps the listed nodes in place, appends only its endpoints and lists both. */
  lemma AddEdgeNodesGrow(g: Graph, u: Node, v: Node, w: real)
    ensures var r := AddEdge(g, u, v, w);
            && |g.nodes| <= |r.nodes| && r.nodes[..|g.nodes|] == g.nodes
            && u in r.nodes && v in r.nodes
            && forall k :: |g.nodes| <= k < |r.nodes| ==> r.nodes[k] == u || r.nodes[k] == v
  {
    var withSource := AddNode(g.nodes, u);
    var nodes := AddNode(withSource, v);
    assert nodes[..|withSource|][..|g.nodes|] == nodes[..|g.nodes|];
    assert u in nodes by {
      var k := FirstIndex(withSource, u);
      assert nodes[k] == withSource[k];
    }
    forall k | |g.nodes| <= k < |nodes|
      ensures nodes[k] == u || nodes[k] == v
    {
      if k < |withSource| {
        assert nodes[k] == withSource[k];
      }
    }
  }

  /** Adding the edge `u -> v` with weight `w` makes it an edge of weight `w`, whatever its previous
      weight, and leaves every other edge as it was. */
  lemma AddEdgeEdges(g: Graph, u: Node, v: Node, w: real)
    ensures var r := AddEdge(g, u, v, w);
            && r.weight.Keys == g.weight.Keys + {(u, v)}
            && r.weight[(u, v)] == w
            && forall e :: e in g.weight && e != (u, v) ==> r.weight[e] == g.weight[e]
  {
  }

  /** The weight `g` gives the edge `u -> v`, or 0 for a pair that is not an edge. */
  function EdgeWeight(g: Graph, u: Node, v: Node): real {
    if (u, v) in g.weight then g.weight[(u, v)] else 0.0
  }

  /** A walk in `g`: a non-empty sequence of nodes in which each consecutive pair is an edge.
      Nodes may repeat; with non-negative weights a repetition never makes a walk cheaper. */
  predicate IsPath(g: Graph, p: seq<Node>) {
    && |p| >= 1
    && p[0] in g.nodes
    && forall k :: 0 <= k < |p| - 1 ==> (p[k], p[k + 1]) in g.weight
  }

  predicate IsPathBetween(g: Graph, p: seq<Node>, s: Node, t: Node) {
    IsPath(g, p) && p[0] == s && p[|p| - 1] == t
  }

  /** The sum of the weights of the consecutive edges of `p`. */
  function PathWeight(g: Graph, p: seq<Node>): real
    decreases |p|
  {
    if |p| <= 1 then 0.0 else PathWeight(g, p[..|p| - 1]) + EdgeWeight(g, p[|p| - 2], p[|p| - 1])
  }

  ghost predicate HasPath(g: Graph, s: Node, t: Node) {
    exists p :: IsPathBetween(g, p, s, t)
  }

  /** `p` leads from `s` to `t` and no walk from `s` to `t` weighs less. */
  ghost predicate IsMinWeightPath(g: Graph, p: seq<Node>, s: Node, t: Node) {
    && IsPathBetween(g, p, s, t)
    && forall q :: IsPathBetween(g, q, s, t) ==> PathWeight(g, p) <= PathWeight(g, q)
  }

  /** Two minimum-weight walks between the same nodes weigh the same. */
  lemma MinWeightPathsAgree(g: Graph, p: seq<Node>, q: seq<Node>, s: Node, t: Node)
    requires IsMinWeightPath(g, p, s, t) && IsMinWeightPath(g, q, s, t)
    ensures PathWeight(g, p) == PathWeight(g, q)
  {
  }

  lemma PathNodesInGraph(g: Graph, p: seq<Node>)
    requires WellFormed(g) && IsPath(g, p)
    ensures forall k :: 0 <= k < |p| ==> p[k] in g.nodes
  {
    forall k | 0 < k < |p|
      ensures p[k] in g.nodes
    {
      assert (p[k - 1], p[k]) in g.weight;
    }
  }

  lemma {:induction false} PathWeightNonNegative(g: Graph, p: seq<Node>)
    requires NonNegative(g)
    ensures PathWeight(g, p) >= 0.0
    decreases |p|
  {
    if |p| > 1 {
      PathWeightNonNegative(g, p[..|p| - 1]);
    }
  }

  /** Extending a walk by one node adds that edge's weight. */
  lemma PathWeightExtend(g: Graph, p: seq<Node>, v: Node)
    requires |p| >= 1
    ensures PathWeight(g, p + [v]) == PathWeight(g, p) + EdgeWeight(g, p[|p| - 1], v)
  {
    assert (p + [v])[..|p|] == p;
  }

  /** A walk to `x` followed by a walk from `x` weighs the sum of the two. */
  lemma {:induction false} PathWeightJoin(g: Graph, a: seq<Node>, b: seq<Node>)
    requires |a| >= 1 && |b| >= 1 && a[|a| - 1] == b[0]
    ensures PathWeight(g, a + b[1..]) == PathWeight(g, a) + PathWeight(g, b)
    decreases |b|
  {
    if |b| == 1 {
      assert a + b[1..] == a;
    } else {
      var front := b[..|b| - 1];
      PathWeightJoin(g, a, front);
      var joined := a + front[1..];
      assert a + b[1..] == joined + [b[|b| - 1]];
      assert joined[|joined| - 1] == b[|b| - 2];
      PathWeightExtend(g, joined, b[|b| - 1]);
    }
  }

  /** A walk whose node sequence is longer than the graph's node list repeats a node; cutting the
      cycles out leaves a walk between the same nodes, of at most that many nodes, weighing no more. */
  lemma {:induction false} ShortenPath(g: Graph, p: seq<Node>) returns (q: seq<Node>)
    requires WellFormed(g) && NonNegative(g) && IsPath(g, p)
    ensures IsPathBetween(g, q, p[0], p[|p| - 1])
    ensures |q| <= |g.nodes|
    ensures PathWeight(g, q) <= PathWeight(g, p)
    decreases |p|
  {
    PathNodesInGraph(g, p);
    if |p| <= |g.nodes| {
      q := p;
    } else {
      SetOfSeqSize(g.nodes);
      var i, j := Pigeonhole(p, set x | x in g.nodes);
      CutCycleLighter(g, p, i, j);
      q := ShortenPath(g, p[..i + 1] + p[j + 1..]);
    }
  }

  /** Cutting a cycle out of a walk in a graph of non-negative weights leaves a shorter walk
      between the same nodes that weighs no more. */
  lemma CutCycleLighter(g: Graph, p: seq<Node>, i: nat, j: nat)
    requires NonNegative(g) && IsPath(g, p) && i < j < |p| && p[i] == p[j]
    ensures var shorter := p[..i + 1] + p[j + 1..];
            && IsPath(g, shorter) && |shorter| < |p|
            && shorter[0] == p[0] && shorter[|shorter| - 1] == p[|p| - 1]
            && PathWeight(g, shorter) <= PathWeight(g, p)
  {
    var head, cycle, tail := p[..i + 1], p[i..j + 1], p[j..];
    var upToRepeat := p[..j + 1];
    var shorter := p[..i + 1] + p[j + 1..];
    assert head + cycle[1..] == upToRepeat;
    assert upToRepeat + tail[1..] == p;
    assert tail[1..] == p[j + 1..];
    assert cycle[0] == p[i];
    if j + 1 < |p| {
      assert shorter[|shorter| - 1] == p[j + 1..][|p| - j - 2];
    } else {
      assert shorter == head;
    }
    CutCycle(g, p, i, j);
    PathWeightJoin(g, head, cycle);
    PathWeightJoin(g, upToRepeat, tail);
    PathWeightJoin(g, head, tail);
    PathWeightNonNegative(g, cycle);
    assert PathWeight(g, p) == PathWeight(g, head) + PathWeight(g, cycle) + PathWeight(g, tail);
    assert PathWeight(g, shorter) == PathWeight(g, head) + PathWeight(g, tail);
  }

  /** Cutting out the nodes after a repeated node up to its repetition leaves a walk. */
  lemma CutCycle(g: Graph, p: seq<Node>, i: nat, j: nat)
    requires IsPath(g, p) && i < j < |p| && p[i] == p[j]
    ensures IsPath(g, p[..i + 1] + p[j + 1..])
  {
    var shorter := p[..i + 1] + p[j + 1..];
    assert |shorter| == |p| - (j - i);
    forall k | 0 <= k < |shorter| - 1
      ensures (shorter[k], shorter[k + 1]) in g.weight
    {
      if k < i {
        assert shorter[k] == p[k] && shorter[k + 1] == p[k + 1];
      } else if k == i {
        assert shorter[k] == p[j] && shorter[k + 1] == p[j + 1];
      } else {
        assert shorter[k] == p[k + j - i] && shorter[k + 1] == p[k + 1 + j - i];
      }
    }
  }

  /** Every node of `best` is reached by its entry, a walk from `s`. */
  ghost predicate PathsFrom(g: Graph, s: Node, best: map<Node, seq<Node>>) {
    forall v :: v in best ==> IsPathBetween(g, best[v], s, v)
  }

  /** Every walk from `s` of at most `k` nodes ends at a node of `best` whose entry is no heavier. */
  ghost predicate Covers(g: Graph, s: Node, best: map<Node, seq<Node>>, k: nat) {
    forall p :: IsPath(g, p) && p[0] == s && |p| <= k ==>
      p[|p| - 1] in best && PathWeight(g, best[p[|p| - 1]]) <= PathWeight(g, p)
  }

  /** After relaxing into `v`, its new entry beats its old one and every old entry one edge before it. */
  ghost predicate Relaxed(g: Graph, best: map<Node, seq<Node>>, next: map<Node, seq<Node>>, v: Node) {
    && (v in best ==> v in next && PathWeight(g, next[v]) <= PathWeight(g, best[v]))
    && forall u :: u in best && (u, v) in g.weight ==>
         v in next && PathWeight(g, next[v]) <= PathWeight(g, best[u]) + g.weight[(u, v)]
  }

  /** A walk of two or more nodes without its last node is a walk, whose last edge is the one
      into the dropped node. */
  lemma DropLast(g: Graph, p: seq<Node>)
    requires IsPath(g, p) && |p| >= 2
    ensures IsPath(g, p[..|p| - 1]) && p[..|p| - 1][0] == p[0]
    ensures (p[|p| - 2], p[|p| - 1]) in g.weight
  {
    var front := p[..|p| - 1];
    forall m | 0 <= m < |front| - 1
      ensures (front[m], front[m + 1]) in g.weight
    {
      assert front[m] == p[m] && front[m + 1] == p[m + 1];
    }
  }

  /** One relaxation round extends the coverage by one node: a walk of `k + 1` nodes is its first
      `k` nodes, covered by `best`, and one edge into its end. */
  lemma CoversNext(g: Graph, s: Node, best: map<Node, seq<Node>>, next: map<Node, seq<Node>>, k: nat)
    requires WellFormed(g) && k >= 1
    requires Covers(g, s, best, k)
    requires forall v :: v in g.nodes ==> Relaxed(g, best, next, v)
    ensures Covers(g, s, next, k + 1)
  {
    forall p | IsPath(g, p) && p[0] == s && |p| <= k + 1
      ensures p[|p| - 1] in next && PathWeight(g, next[p[|p| - 1]]) <= PathWeight(g, p)
    {
      PathNodesInGraph(g, p);
      var v := p[|p| - 1];
      assert Relaxed(g, best, next, v);
      if |p| > k {
        RelaxedBeatsWalk(g, s, best, next, k, p);
      }
    }
  }

  /** A walk of `k + 1` nodes is beaten by the entry that relaxing its last edge gives its end. */
  lemma RelaxedBeatsWalk(g: Graph, s: Node, best: map<Node, seq<Node>>, next: map<Node, seq<Node>>, k: nat,
                         p: seq<Node>)
    requires Covers(g, s, best, k) && IsPath(g, p) && p[0] == s && |p| == k + 1 && k >= 1
    requires Relaxed(g, best, next, p[|p| - 1])
    ensures p[|p| - 1] in next && PathWeight(g, next[p[|p| - 1]]) <= PathWeight(g, p)
  {
    var v := p[|p| - 1];
    var front := p[..|p| - 1];
    DropLast(g, p);
    assert front[|front| - 1] == p[|p| - 2];
    PathWeightExtend(g, front, v);
    assert front + [v] == p;
  }

  /** `candidate` weighs no more than any entry among the first `n` nodes extended by its edge into `v`. */
  ghost predicate BeatsEdgesInto(g: Graph, best: map<Node, seq<Node>>, v: Node, candidate: Option<seq<Node>>, n: nat)
    requires n <= |g.nodes|
  {
    forall m :: 0 <= m < n && g.nodes[m] in best && (g.nodes[m], v) in g.weight ==>
      candidate.Some? &&
      PathWeight(g, candidate.value) <= PathWeight(g, best[g.nodes[m]]) + g.weight[(g.nodes[m], v)]
  }

  lemma BeatsEdgesIntoStep(g: Graph, best: map<Node, seq<Node>>, v: Node, previous: Option<seq<Node>>,
                           candidate: Option<seq<Node>>, n: nat)
    requires n < |g.nodes| && BeatsEdgesInto(g, best, v, previous, n)
    requires previous.Some? ==> candidate.Some? && PathWeight(g, candidate.value) <= PathWeight(g, previous.value)
    requires g.nodes[n] in best && (g.nodes[n], v) in g.weight ==>
               candidate.Some? &&
               PathWeight(g, candidate.value) <= PathWeight(g, best[g.nodes[n]]) + g.weight[(g.nodes[n], v)]
    ensures BeatsEdgesInto(g, best, v, candidate, n + 1)
  {
  }

  /** Every edge into `v` is beaten once all nodes have been looked at. */
  lemma BeatsAllEdgesInto(g: Graph, best: map<Node, seq<Node>>, v: Node, candidate: Option<seq<Node>>)
    requires WellFormed(g) && BeatsEdgesInto(g, best, v, candidate, |g.nodes|)
    ensures forall u :: u in best && (u, v) in g.weight ==>
              candidate.Some? && PathWeight(g, candidate.value) <= PathWeight(g, best[u]) + g.weight[(u, v)]
  {
    forall u | u in best && (u, v) in g.weight
      ensures candidate.Some? && PathWeight(g, candidate.value) <= PathWeight(g, best[u]) + g.weight[(u, v)]
    {
      var m := FirstIndex(g.nodes, u);
    }
  }

  /** Looking at the edge `u -> v`: the walk to `u` extended by `v` replaces the candidate when it
      is the first walk found or a strictly lighter one. */
  method RelaxEdge(g: Graph, s: Node, best: map<Node, seq<Node>>, u: Node, v: Node, candidate: Option<seq<Node>>)
    returns (next: Option<seq<Node>>)
    requires PathsFrom(g, s, best)
    requires candidate.Some? ==> IsPathBetween(g, candidate.value, s, v)
    ensures next.Some? ==> IsPathBetween(g, next.value, s, v)
    ensures candidate.Some? ==> next.Some? && PathWeight(g, next.value) <= PathWeight(g, candidate.value)
    ensures u in best && (u, v) in g.weight ==>
              next.Some? && PathWeight(g, next.value) <= PathWeight(g, best[u]) + g.weight[(u, v)]
  {
    next := candidate;
    if u in best && (u, v) in g.weight {
      var through := best[u] + [v];
      PathWeightExtend(g, best[u], v);
      assert IsPathBetween(g, best[u], s, u);
      if candidate.None? || PathWeight(g, through) < PathWeight(g, candidate.value) {
        next := Some(through);
      }
    }
  }

  /** The entry a relaxation round gives `v`: its old entry, or a cheaper walk through an edge into `v`. */
  method RelaxInto(g: Graph, s: Node, best: map<Node, seq<Node>>, v: Node) returns (candidate: Option<seq<Node>>)
    requires WellFormed(g) && PathsFrom(g, s, best)
    ensures candidate.Some? ==> IsPathBetween(g, candidate.value, s, v)
    ensures Relaxed(g, best, if candidate.Some? then map[v := candidate.value] else map[], v)
  {
    candidate := if v in best then Some(best[v]) else None;
    for ui := 0 to |g.nodes|
      invariant candidate.Some? ==> IsPathBetween(g, candidate.value, s, v)
      invariant v in best ==>
                  candidate.Some? && PathWeight(g, candidate.value) <= PathWeight(g, best[v])
      invariant BeatsEdgesInto(g, best, v, candidate, ui)
    {
      ghost var previous := candidate;
      candidate := RelaxEdge(g, s, best, g.nodes[ui], v, candidate);
      BeatsEdgesIntoStep(g, best, v, previous, candidate, ui);
    }
    BeatsAllEdgesInto(g, best, v, candidate);
  }

  /** Recording the entry of a node not relaxed before keeps the earlier nodes relaxed. */
  lemma RelaxedStaysRelaxed(g: Graph, s: Node, best: map<Node, seq<Node>>, before: map<Node, seq<Node>>,
                            candidate: Option<seq<Node>>, v: Node, done: seq<Node>)
    requires PathsFrom(g, s, before) && v !in done
    requires forall x :: x in before ==> x in done
    requires forall x :: x in done ==> Relaxed(g, best, before, x)
    requires candidate.Some? ==> IsPathBetween(g, candidate.value, s, v)
    requires Relaxed(g, best, if candidate.Some? then map[v := candidate.value] else map[], v)
    ensures var after := if candidate.Some? then before[v := candidate.value] else before;
            && PathsFrom(g, s, after)
            && (forall x :: x in after ==> x in done + [v])
            && (forall x :: x in done + [v] ==> Relaxed(g, best, after, x))
  {
  }

  /** The loop step of a relaxation round: recording the entry of the `vi`-th node keeps the
      first `vi + 1` nodes relaxed. */
  lemma RelaxStep(g: Graph, s: Node, best: map<Node, seq<Node>>, before: map<Node, seq<Node>>,
                  candidate: Option<seq<Node>>, vi: nat)
    requires WellFormed(g) && vi < |g.nodes|
    requires PathsFrom(g, s, before)
    requires forall v :: v in before ==> v in g.nodes[..vi]
    requires forall v :: v in g.nodes[..vi] ==> Relaxed(g, best, before, v)
    requires candidate.Some? ==> IsPathBetween(g, candidate.value, s, g.nodes[vi])
    requires Relaxed(g, best, if candidate.Some? then map[g.nodes[vi] := candidate.value] else map[], g.nodes[vi])
    ensures var after := if candidate.Some? then before[g.nodes[vi] := candidate.value] else before;
            && PathsFrom(g, s, after)
            && (forall v :: v in after ==> v in g.nodes[..vi + 1])
            && (forall v :: v in g.nodes[..vi + 1] ==> Relaxed(g, best, after, v))
  {
    var v := g.nodes[vi];
    DistinctPrefix(g.nodes, vi);
    assert g.nodes[..vi + 1] == g.nodes[..vi] + [v];
    RelaxedStaysRelaxed(g, s, best, before, candidate, v, g.nodes[..vi]);
  }

  /** One round of relaxation: every node keeps its entry or takes the cheapest walk that extends
      another node's entry by one edge. */
  method RelaxRound(g: Graph, s: Node, best: map<Node, seq<Node>>, ghost k: nat)
    returns (next: map<Node, seq<Node>>)
    requires WellFormed(g) && k >= 1
    requires PathsFrom(g, s, best) && Covers(g, s, best, k)
    ensures PathsFrom(g, s, next) && Covers(g, s, next, k + 1)
  {
    next := map[];
    for vi := 0 to |g.nodes|
      invariant PathsFrom(g, s, next)
      invariant forall v :: v in next ==> v in g.nodes[..vi]
      invariant forall v :: v in g.nodes[..vi] ==> Relaxed(g, best, next, v)
    {
      var v := g.nodes[vi];
      var candidate := RelaxInto(g, s, best, v);
      RelaxStep(g, s, best, next, candidate, vi);
      next := if candidate.Some? then next[v := candidate.value] else next;
    }
    assert g.nodes[..|g.nodes|] == g.nodes;
    CoversNext(g, s, best, next, k);
  }

  /** The search the detector runs for one pair of nodes: a minimum-weight walk from `s` to `t`,
      or `None` exactly when `t` cannot be reached from `s`. */
  method MinWeightPath(g: Graph, s: Node, t: Node) returns (r: Option<seq<Node>>)
    requires WellFormed(g) && NonNegative(g)
    requires s in g.nodes && t in g.nodes
    ensures r.Some? ==> IsMinWeightPath(g, r.value, s, t)
    ensures r.None? <==> !HasPath(g, s, t)
  {
    var best: map<Node, seq<Node>> := map[s := [s]];
    var rounds := 1;
    while rounds < |g.nodes|
      invariant 1 <= rounds <= |g.nodes|
      invariant PathsFrom(g, s, best) && Covers(g, s, best, rounds)
    {
      best := RelaxRound(g, s, best, rounds);
      rounds := rounds + 1;
    }
    forall q | IsPathBetween(g, q, s, t)
      ensures t in best && PathWeight(g, best[t]) <= PathWeight(g, q)
    {
      var short := ShortenPath(g, q);
    }
    if t in best {
      r := Some(best[t]);
    } else {
      r := None;
    }
  }
}
