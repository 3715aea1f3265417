/** The graph path detector: for every ordered pair of graph nodes it reports the cheapest
    walk between them when that walk's total amount exceeds a minimum. */
module GraphDetection {
  import opened Wrappers
  import opened Sequences
  import opened Graphs
  import opened Transactions

  /** One reported walk and the sum of the edge weights along it. */
  datatype SuspiciousPath = SuspiciousPath(path: seq<Node>, total: real)

  /** `t` can be reached from `s`, and every walk from `s` to `t` weighs more than `minimum`. */
  ghost predicate Suspicious(g: Graph, s: Node, t: Node, minimum: real) {
    && HasPath(g, s, t)
    && forall q :: IsPathBetween(g, q, s, t) ==> PathWeight(g, q) > minimum
  }

  /** The pair of positions `(i, j)` in the node list is reported. */
  ghost predicate Flag(g: Graph, minimum: real, i: nat, j: nat)
    requires i < |g.nodes| && j < |g.nodes|
  {
    Suspicious(g, g.nodes[i], g.nodes[j], minimum)
  }

  /** The reported pairs `(i, m)` with `i < m < j`, in increasing `m`. */
  ghost function RowPrefix(g: Graph, minimum: real, i: nat, j: nat): seq<(nat, nat)>
    requires i < |g.nodes| && j <= |g.nodes|
    decreases j
  {
    if j <= i + 1 then []
    else RowPrefix(g, minimum, i, j - 1) + (if Flag(g, minimum, i, j - 1) then [(i, j - 1)] else [])
  }

  /** The reported pairs whose first position is below `i`, row by row. */
  ghost function Rows(g: Graph, minimum: real, i: nat): seq<(nat, nat)>
    requires i <= |g.nodes|
    decreases i
  {
    if i == 0 then [] else Rows(g, minimum, i - 1) + RowPrefix(g, minimum, i - 1, |g.nodes|)
  }

  /** Every reported pair of positions, in the order the detector's two loops visit them. */
  ghost function Flagged(g: Graph, minimum: real): seq<(nat, nat)> {
    Rows(g, minimum, |g.nodes|)
  }

  /** Report `k` is a cheapest walk between the nodes of pair `k`, and carries its weight. */
  ghost predicate Reports(g: Graph, result: seq<SuspiciousPath>, pairs: seq<(nat, nat)>) {
    && |result| == |pairs|
    && forall k :: 0 <= k < |pairs| ==> ReportOf(g, result[k], pairs[k])
  }

  ghost predicate ReportOf(g: Graph, r: SuspiciousPath, pair: (nat, nat)) {
    && pair.0 < |g.nodes| && pair.1 < |g.nodes|
    && IsMinWeightPath(g, r.path, g.nodes[pair.0], g.nodes[pair.1])
    && r.total == PathWeight(g, r.path)
  }

  lemma ReportsSnoc(g: Graph, result: seq<SuspiciousPath>, pairs: seq<(nat, nat)>, r: SuspiciousPath, pair: (nat, nat))
    requires Reports(g, result, pairs) && ReportOf(g, r, pair)
    ensures Reports(g, result + [r], pairs + [pair])
  {
    assert forall k :: 0 <= k < |pairs| ==> (result + [r])[k] == result[k] && (pairs + [pair])[k] == pairs[k];
  }

  /** For a cheapest walk `p`, the pair is suspicious exactly when `p`'s weight exceeds the minimum. */
  lemma SuspiciousIffMinimumExceeds(g: Graph, p: seq<Node>, s: Node, t: Node, minimum: real)
    requires IsMinWeightPath(g, p, s, t)
    ensures Suspicious(g, s, t, minimum) <==> PathWeight(g, p) > minimum
  {
  }

  /** The inner loop of the detector: the sum of the weights of the consecutive edges of a walk. */
  method PathTotal(g: Graph, path: seq<Node>) returns (total: real)
    requires IsPath(g, path)
    ensures total == PathWeight(g, path)
  {
    total := 0.0;
    for k := 0 to |path| - 1
      invariant total == PathWeight(g, path[..k + 1])
    {
      assert path[..k + 2][..k + 1] == path[..k + 1];
      total := total + g.weight[(path[k], path[k + 1])];
    }
    assert path[..|path|] == path;
  }

  /** One iteration of the detector's inner loop: the report for the pair of positions `(i, j)`,
      present exactly when the pair is flagged. */
  method ExaminePair(g: Graph, minimum: real, i: nat, j: nat) returns (report: Option<SuspiciousPath>)
    requires WellFormed(g) && NonNegative(g)
    requires i < j < |g.nodes|
    ensures report.Some? <==> Flag(g, minimum, i, j)
    ensures report.Some? ==> ReportOf(g, report.value, (i, j))
  {
    report := None;
    // `GraphFraudDetector.detect` also tests `i != j`, which `i < j` already makes true.
    var found := MinWeightPath(g, g.nodes[i], g.nodes[j]);
    if found.Some? {
      var total := PathTotal(g, found.value);
      SuspiciousIffMinimumExceeds(g, found.value, g.nodes[i], g.nodes[j], minimum);
      if total > minimum {
        report := Some(SuspiciousPath(found.value, total));
      }
    }
  }

  /** The detector's two loops over the graph `g`: for each pair of positions `i < j` in the node
      list, the cheapest walk from `nodes[i]` to `nodes[j]` is reported with its total when one
      exists and that total exceeds `minimum`. */
  method SuspiciousPaths(g: Graph, minimum: real) returns (result: seq<SuspiciousPath>)
    requires WellFormed(g) && NonNegative(g)
    ensures Reports(g, result, Flagged(g, minimum))
  {
    result := [];
    var nodes := g.nodes;
    for i := 0 to |nodes|
      invariant Reports(g, result, Rows(g, minimum, i))
    {
      for j := i + 1 to |nodes|
        invariant Reports(g, result, Rows(g, minimum, i) + RowPrefix(g, minimum, i, j))
      {
        ghost var before := Rows(g, minimum, i) + RowPrefix(g, minimum, i, j);
        var report := ExaminePair(g, minimum, i, j);
        if report.Some? {
          ReportsSnoc(g, result, before, report.value, (i, j));
          result := result + [report.value];
        }
        assert Rows(g, minimum, i) + RowPrefix(g, minimum, i, j + 1) ==
               before + (if Flag(g, minimum, i, j) then [(i, j)] else []);
      }
    }
  }

  /** Whether `(i, j)` occurs in a row prefix: exactly the flagged pairs of row `i` below `j`. */
  lemma {:induction false} InRowPrefix(g: Graph, minimum: real, i: nat, j: nat, pair: (nat, nat))
    requires i < |g.nodes| && j <= |g.nodes|
    ensures pair in RowPrefix(g, minimum, i, j) <==>
              pair.0 == i && i < pair.1 < j && Flag(g, minimum, i, pair.1)
    decreases j
  {
    if j > i + 1 {
      InRowPrefix(g, minimum, i, j - 1, pair);
    }
  }

  /** Whether `(i, j)` occurs in the rows below `n`: exactly the flagged pairs with `i < j`, `i < n`. */
  lemma {:induction false} InRows(g: Graph, minimum: real, n: nat, pair: (nat, nat))
    requires n <= |g.nodes|
    ensures pair in Rows(g, minimum, n) <==>
              pair.0 < n && pair.0 < pair.1 < |g.nodes| && Flag(g, minimum, pair.0, pair.1)
    decreases n
  {
    if n > 0 {
      InRows(g, minimum, n - 1, pair);
      InRowPrefix(g, minimum, n - 1, |g.nodes|, pair);
    }
  }

  /** A pair of positions is reported exactly when it comes in enumeration order (`i < j`),
      `nodes[j]` is reachable from `nodes[i]`, and the cheapest walk weighs more than the minimum.
      In particular no walk from a later-enumerated node to an earlier one is ever reported. */
  lemma FlaggedIff(g: Graph, minimum: real, i: nat, j: nat)
    ensures (i, j) in Flagged(g, minimum) <==>
              i < j < |g.nodes| && Suspicious(g, g.nodes[i], g.nodes[j], minimum)
  {
    InRows(g, minimum, |g.nodes|, (i, j));
  }

  /** Pairs `(i, j)` are in strictly increasing lexicographic order. */
  predicate LexLess(a: (nat, nat), b: (nat, nat)) {
    a.0 < b.0 || (a.0 == b.0 && a.1 < b.1)
  }

  predicate LexSorted(pairs: seq<(nat, nat)>) {
    forall p, q :: 0 <= p < q < |pairs| ==> LexLess(pairs[p], pairs[q])
  }

  lemma {:induction false} RowPrefixSorted(g: Graph, minimum: real, i: nat, j: nat)
    requires i < |g.nodes| && j <= |g.nodes|
    ensures LexSorted(RowPrefix(g, minimum, i, j))
    ensures forall k :: 0 <= k < |RowPrefix(g, minimum, i, j)| ==>
              RowPrefix(g, minimum, i, j)[k].0 == i && RowPrefix(g, minimum, i, j)[k].1 < j
    decreases j
  {
    if j > i + 1 {
      RowPrefixSorted(g, minimum, i, j - 1);
    }
  }

  lemma {:induction false} RowsSorted(g: Graph, minimum: real, n: nat)
    requires n <= |g.nodes|
    ensures LexSorted(Rows(g, minimum, n))
    ensures forall k :: 0 <= k < |Rows(g, minimum, n)| ==> Rows(g, minimum, n)[k].0 < n
    decreases n
  {
    if n > 0 {
      var front := Rows(g, minimum, n - 1);
      var row := RowPrefix(g, minimum, n - 1, |g.nodes|);
      RowsSorted(g, minimum, n - 1);
      RowPrefixSorted(g, minimum, n - 1, |g.nodes|);
      var all := front + row;
      forall p, q | 0 <= p < q < |all|
        ensures LexLess(all[p], all[q])
      {
        if q < |front| {
          assert all[p] == front[p] && all[q] == front[q];
        } else if p >= |front| {
          assert all[p] == row[p - |front|] && all[q] == row[q - |front|];
        } else {
          assert all[p] == front[p] && all[q] == row[q - |front|];
        }
      }
      forall k | 0 <= k < |all|
        ensures all[k].0 < n
      {
        if k < |front| {
          assert all[k] == front[k];
        } else {
          assert all[k] == row[k - |front|];
        }
      }
    }
  }

  /** Results appear in lexicographic `(i, j)` order, each pair at most once. */
  lemma FlaggedSorted(g: Graph, minimum: real)
    ensures LexSorted(Flagged(g, minimum))
  {
    RowsSorted(g, minimum, |g.nodes|);
  }

  /** What each report says about the graph: the walk starts at `nodes[i]` and ends at
      `nodes[j]`, `i < j`, each consecutive pair is an edge, the total is the sum of the edges'
      weights and exceeds the minimum, and no walk between the same nodes weighs less. */
  lemma ReportProperties(g: Graph, minimum: real, result: seq<SuspiciousPath>, k: nat)
    requires Reports(g, result, Flagged(g, minimum)) && k < |result|
    ensures var (i, j) := Flagged(g, minimum)[k];
            var r := result[k];
            && i < j < |g.nodes|
            && |r.path| >= 1 && r.path[0] == g.nodes[i] && r.path[|r.path| - 1] == g.nodes[j]
            && (forall m :: 0 <= m < |r.path| - 1 ==> (r.path[m], r.path[m + 1]) in g.weight)
            && r.total == PathWeight(g, r.path)
            && r.total > minimum
            && forall q :: IsPathBetween(g, q, g.nodes[i], g.nodes[j]) ==> r.total <= PathWeight(g, q)
  {
    var pairs := Flagged(g, minimum);
    var (i, j) := pairs[k];
    assert pairs[k] in pairs;
    FlaggedIff(g, minimum, i, j);
    SuspiciousIffMinimumExceeds(g, result[k].path, g.nodes[i], g.nodes[j], minimum);
  }

  /** `GraphFraudDetector.detect`: builds the dataset's transaction graph and reports its
      suspicious walks. Transaction amounts must be non-negative, as the cheapest-walk search
      assumes. */
  method Detect(data: TransactionData, minPathAmount: real) returns (suspiciousPaths: seq<SuspiciousPath>)
    requires data.Valid()
    requires forall k :: 0 <= k < |data.amounts| ==> data.amounts[k] >= 0.0
    ensures var g := TransactionGraph(data.transactions);
            Reports(g, suspiciousPaths, Flagged(g, minPathAmount))
  {
    var g := data.BuildTransactionGraph();
    var records := data.GetTransactions();
    TransactionGraphWellFormed(records);
    TransactionGraphNonNegative(records);
    suspiciousPaths := SuspiciousPaths(g, minPathAmount);
  }
}
