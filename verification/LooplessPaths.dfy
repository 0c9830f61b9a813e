/** What Yen's algorithm enumerates: loopless node sequences, priced by the edge listed first between each pair. */
module LooplessPaths {
  import opened Graphs
  import opened BaseGraph
  import opened Weights
  import opened Paths

  /** Which graph is searched, and between which vertices. */
  datatype Query = Query(directed: bool, edges: seq<Edge>, s: nat, t: nat)

  function Weight(directed: bool, edges: seq<Edge>, u: nat, v: nat): nat {
    var between := Between(directed, edges, u, v);
    if between == [] then 0 else between[0].cost
  }

  /** Of parallel edges the one listed first is a cheapest one; without parallel edges that says nothing. */
  ghost predicate CheapestFirst(directed: bool, edges: seq<Edge>) {
    forall u, v, e :: u != v && e in Between(directed, edges, u, v) ==> Weight(directed, edges, u, v) <= e.cost
  }

  ghost predicate NoRepeats(p: seq<nat>) {
    forall i, j :: 0 <= i < j < |p| ==> p[i] != p[j]
  }

  ghost predicate Linked(directed: bool, edges: seq<Edge>, p: seq<nat>) {
    forall i :: 0 <= i < |p| - 1 ==> Between(directed, edges, p[i], p[i + 1]) != []
  }

  ghost predicate NodeRoute(c: Query, p: seq<nat>) {
    |p| >= 2 && p[0] == c.s && p[|p| - 1] == c.t && NoRepeats(p) && Linked(c.directed, c.edges, p)
  }

  function NodeCost(directed: bool, edges: seq<Edge>, p: seq<nat>): nat {
    if |p| <= 1 then 0 else Weight(directed, edges, p[0], p[1]) + NodeCost(directed, edges, p[1..])
  }

  /** No row costs more than the edge listed first between its node and the next. */
  ghost predicate FairRows(directed: bool, edges: seq<Edge>, rows: seq<Row>) {
    forall i :: 0 <= i < |rows| - 1 ==> rows[i].cost <= Weight(directed, edges, rows[i].node, rows[i + 1].node)
  }

  /** A loopless path of the graph that nowhere pays more than the price listed. */
  ghost predicate FairRoute(c: Query, p: Path) {
    IsRoute(Arcs(c.directed, c.edges), c.s, c.t, p) && FairRows(c.directed, c.edges, p.rows)
  }

  lemma ArcsAreBetween(directed: bool, edges: seq<Edge>, e: Edge)
    requires e.source != e.target
    ensures e in Arcs(directed, edges) <==> e in Between(directed, edges, e.source, e.target)
  {
    var f := Joining(directed, e.source, e.target);
    PickMembers(edges, f);
    if e in Arcs(directed, edges) {
      if e in edges {
        assert e in f(e);
      } else {
        var g :| g in edges && e == Flip(g);
        assert e in f(g);
      }
    }
  }

  lemma BetweenAreArcs(directed: bool, edges: seq<Edge>, u: nat, v: nat)
    requires u != v
    ensures forall e :: e in Between(directed, edges, u, v) ==>
      e in Arcs(directed, edges) && e.source == u && e.target == v
  {
    BetweenJoins(directed, edges, u, v);
    forall e | e in Between(directed, edges, u, v) ensures e in Arcs(directed, edges) {
      ArcsAreBetween(directed, edges, e);
    }
  }

  lemma {:induction false} NodeCostSplit(directed: bool, edges: seq<Edge>, p: seq<nat>, k: nat)
    requires k < |p|
    ensures NodeCost(directed, edges, p) == NodeCost(directed, edges, p[..k + 1]) + NodeCost(directed, edges, p[k..])
  {
    if k > 0 {
      NodeCostSplit(directed, edges, p[1..], k - 1);
      assert p[1..][..k] == p[..k + 1][1..];
      assert p[1..][k - 1..] == p[k..];
    }
  }

  lemma {:induction false} FairRowsCost(directed: bool, edges: seq<Edge>, rows: seq<Row>)
    requires rows != [] && FairRows(directed, edges, rows)
    ensures RowsCost(rows[..|rows| - 1]) <= NodeCost(directed, edges, Nodes(rows))
  {
    if |rows| > 1 {
      var rest := rows[1..];
      assert FairRows(directed, edges, rest) by {
        assert forall i :: 0 <= i < |rest| ==> rest[i] == rows[i + 1];
      }
      FairRowsCost(directed, edges, rest);
      assert rows[..|rows| - 1][1..] == rest[..|rest| - 1];
      assert Nodes(rows)[1..] == Nodes(rest);
    }
  }

  /** The path as stored is one of the enumerated node sequences, at no more than its price; at its price exactly, if of
      parallel edges the first listed is a cheapest one. */
  lemma FairRouteNodes(c: Query, p: Path)
    requires FairRoute(c, p)
    ensures NodeRoute(c, Nodes(p.rows)) && p.totCost <= NodeCost(c.directed, c.edges, Nodes(p.rows))
    ensures CheapestFirst(c.directed, c.edges) ==> p.totCost == NodeCost(c.directed, c.edges, Nodes(p.rows))
  {
    var rows, nodes := p.rows, Nodes(p.rows);
    forall i | 0 <= i < |nodes| - 1 ensures Between(c.directed, c.edges, nodes[i], nodes[i + 1]) != [] {
      assert Taken(rows, i) in Arcs(c.directed, c.edges);
      ArcsAreBetween(c.directed, c.edges, Taken(rows, i));
    }
    FairRowsCost(c.directed, c.edges, rows);
    var k := |rows| - 1;
    assert rows == rows[..k] + [rows[k]];
    RowsCostAppend(rows[..k], [rows[k]]);
    assert RowsCost([rows[k]]) == 0 by { assert [rows[k]][1..] == []; }
    if CheapestFirst(c.directed, c.edges) {
      ListedIsCheapest(c.directed, c.edges, c.s, c.t, p);
    }
  }

  /** With a cheapest edge first between any two vertices, no loopless path costs less than its listed price. */
  lemma {:induction false} ListedIsCheapest(directed: bool, edges: seq<Edge>, s: nat, t: nat, p: Path)
    requires CheapestFirst(directed, edges) && IsRoute(Arcs(directed, edges), s, t, p)
    ensures NodeCost(directed, edges, Nodes(p.rows)) <= p.totCost
  {
    hide Weight, Arcs, Between;
    var rows := p.rows;
    forall i | 0 <= i < |rows| - 1 ensures Weight(directed, edges, rows[i].node, rows[i + 1].node) <= rows[i].cost {
      assert Taken(rows, i) in Arcs(directed, edges);
      ArcsAreBetween(directed, edges, Taken(rows, i));
    }
    DearRowsCost(directed, edges, rows);
  }

  /** The prices listed are never above the true costs exactly if a cheapest edge is listed first everywhere. */
  lemma {:induction false} ListedPrices(directed: bool, edges: seq<Edge>)
    ensures CheapestFirst(directed, edges) <==>
            forall s, t, p :: IsRoute(Arcs(directed, edges), s, t, p) ==>
              NodeCost(directed, edges, Nodes(p.rows)) <= p.totCost
  {
    hide IsRoute, NodeCost, Between, Weight, Arcs;
    if CheapestFirst(directed, edges) {
      forall s, t, p | IsRoute(Arcs(directed, edges), s, t, p)
        ensures NodeCost(directed, edges, Nodes(p.rows)) <= p.totCost
      {
        ListedIsCheapest(directed, edges, s, t, p);
      }
    } else {
      var u, v, e :| u != v && e in Between(directed, edges, u, v) && !(Weight(directed, edges, u, v) <= e.cost);
      OneEdgeRoute(directed, edges, u, v, e);
    }
  }

  lemma {:induction false} OneEdgeRoute(directed: bool, edges: seq<Edge>, u: nat, v: nat, e: Edge)
    requires u != v && e in Between(directed, edges, u, v)
    ensures exists p :: IsRoute(Arcs(directed, edges), u, v, p) && p.totCost == e.cost &&
              NodeCost(directed, edges, Nodes(p.rows)) == Weight(directed, edges, u, v)
  {
    hide Between, Weight, Arcs;
    BetweenAreArcs(directed, edges, u, v);
    var rows := [Row(u, e.id, e.cost, 0), Row(v, -1, 0, e.cost)];
    var p := Path(u, v, rows, e.cost);
    assert Taken(rows, 0) == e;
    assert rows[1..] == [rows[1]] && [rows[1]][1..] == [];
    assert RowsCost([rows[1]]) == rows[1].cost + RowsCost([]);
    assert RowsCost(rows) == e.cost;
    assert Nodes(rows) == [u, v] && [u, v][1..] == [v] && NodeCost(directed, edges, [v]) == 0;
    assert IsRoute(Arcs(directed, edges), u, v, p);
  }

  // ---------- node sequences as walks ----------

  /** Takes the first edge between each pair of consecutive nodes. */
  function NodeWalk(directed: bool, edges: seq<Edge>, p: seq<nat>): seq<Edge>
  {
    if |p| <= 1 || Between(directed, edges, p[0], p[1]) == [] then []
    else [Between(directed, edges, p[0], p[1])[0]] + NodeWalk(directed, edges, p[1..])
  }

  /** Between consecutive nodes of `p`, the graph `now` still has an edge at the price of `orig`. */
  ghost predicate Available(directed: bool, orig: seq<Edge>, now: seq<Edge>, p: seq<nat>) {
    forall i :: 0 <= i < |p| - 1 ==> StepAvailable(directed, orig, now, p[i], p[i + 1])
  }

  ghost predicate StepAvailable(directed: bool, orig: seq<Edge>, now: seq<Edge>, u: nat, v: nat) {
    && u != v
    && Between(directed, now, u, v) != []
    && Weight(directed, now, u, v) == Weight(directed, orig, u, v)
  }

  lemma {:induction false} NodeWalkIsWalk(directed: bool, orig: seq<Edge>, now: seq<Edge>, p: seq<nat>)
    requires p != [] && Available(directed, orig, now, p)
    ensures IsWalk(Arcs(directed, now), p[0], NodeWalk(directed, now, p), p[|p| - 1])
    ensures Cost(NodeWalk(directed, now, p)) == NodeCost(directed, orig, p)
  {
    if |p| > 1 {
      hide Between;
      var rest := p[1..];
      assert forall i :: 0 <= i < |rest| ==> rest[i] == p[i + 1];
      assert StepAvailable(directed, orig, now, p[0], p[1]);
      NodeWalkIsWalk(directed, orig, now, rest);
      BetweenAreArcs(directed, now, p[0], p[1]);
      var e := Between(directed, now, p[0], p[1])[0];
      assert e in Between(directed, now, p[0], p[1]);
      assert NodeWalk(directed, now, p) == [e] + NodeWalk(directed, now, rest);
      assert NodeWalk(directed, now, p)[1..] == NodeWalk(directed, now, rest);
    }
  }

  /** If no row is below its listed price, nor is the whole. */
  lemma {:induction false} DearRowsCost(directed: bool, edges: seq<Edge>, rows: seq<Row>)
    requires rows != []
    requires forall i :: 0 <= i < |rows| - 1 ==>
      rows[i].cost >= Weight(directed, edges, rows[i].node, rows[i + 1].node)
    ensures RowsCost(rows) >= NodeCost(directed, edges, Nodes(rows))
  {
    if |rows| > 1 {
      var rest := rows[1..];
      assert forall i :: 0 <= i < |rest| ==> rest[i] == rows[i + 1];
      DearRowsCost(directed, edges, rest);
      assert Nodes(rows)[1..] == Nodes(rest);
    }
  }

  // ---------- when the price list is trustworthy ----------

  /** No self-loops, no parallel edges: the usual case. */
  ghost predicate SimpleGraph(directed: bool, edges: seq<Edge>) {
    Simple(Bag(directed, edges))
  }

  lemma SimpleGraphsAreCheapestFirst(directed: bool, edges: seq<Edge>)
    requires SimpleGraph(directed, edges)
    ensures CheapestFirst(directed, edges)
  {
    assert Restored(Store(edges, [])) == edges;
    forall u, v, e | u != v && e in Between(directed, edges, u, v)
      ensures Weight(directed, edges, u, v) <= e.cost
    {
      SimpleGraphsHaveNoParallels(directed, Store(edges, []), u, v);
    }
  }

  lemma SimpleEdgePrice(directed: bool, edges: seq<Edge>, e: Edge)
    requires SimpleGraph(directed, edges) && e in Arcs(directed, edges) && e.source != e.target
    ensures e.cost == Weight(directed, edges, e.source, e.target)
  {
    assert Restored(Store(edges, [])) == edges;
    ArcsAreBetween(directed, edges, e);
    SimpleGraphsHaveNoParallels(directed, Store(edges, []), e.source, e.target);
  }

  /** In a simple graph every loopless path is enumerated, at its own cost. */
  lemma SimpleRoutesAreFair(c: Query, p: Path)
    requires SimpleGraph(c.directed, c.edges) && IsRoute(Arcs(c.directed, c.edges), c.s, c.t, p)
    ensures FairRoute(c, p)
  {
    hide SimpleGraph, Weight, Arcs;
    forall i | 0 <= i < |p.rows| - 1
      ensures p.rows[i].cost <= Weight(c.directed, c.edges, p.rows[i].node, p.rows[i + 1].node)
    {
      SimpleEdgePrice(c.directed, c.edges, Taken(p.rows, i));
    }
  }

  /** Every edge from `u` to `v` in `edges` has one in `edges'` that is no dearer. */
  ghost predicate NoDearer(directed: bool, edges: seq<Edge>, edges': seq<Edge>, u: nat, v: nat) {
    forall e :: e in Between(directed, edges, u, v) ==>
      exists e' :: e' in Between(directed, edges', u, v) && e'.cost <= e.cost
  }

  /** Cutting and restoring a bundle of parallel edges costs nothing exactly when the first listed is a cheapest. */
  lemma CutAndRestoreKeepsPrice(directed: bool, n: nat, edges: seq<Edge>, u: nat, v: nat)
    requires u != v && u < n && v < n
    ensures NoDearer(directed, edges, Restored(Apply(directed, n, Store(edges, []), CutEdge(u, v))), u, v) <==>
            forall e :: e in Between(directed, edges, u, v) ==> Weight(directed, edges, u, v) <= e.cost
  {
    var g := Apply(directed, n, Store(edges, []), CutEdge(u, v));
    var between := Between(directed, edges, u, v);
    var saved := if between == [] then [] else [between[0]];
    WithoutEdgeBetween(directed, edges, u, v, u, v);
    SavedFirstBetween(directed, edges, u, v, u, v);
    BetweenAppend(directed, g.edges, g.removed, u, v);
    assert g.removed == saved;
    assert Between(directed, Restored(g), u, v) == saved;
    if between != [] {
      assert between[0] in saved;
    }
  }

  /** The dearer of two parallel edges listed first: after one cut and restore the cheaper one is gone. */
  lemma ParallelEdgeForgotten()
    ensures var edges := [Edge(1, 0, 1, 5), Edge(2, 0, 1, 1)];
      Restored(Apply(true, 2, Store(edges, []), CutEdge(0, 1))) == [Edge(1, 0, 1, 5)]
  {
    var edges := [Edge(1, 0, 1, 5), Edge(2, 0, 1, 1)];
    PickTwo(edges[0], edges[1], Joining(true, 0, 1));
    PickTwo(edges[0], edges[1], NotJoining(true, 0, 1));
  }
}
