/** The path that include/cpp_common/bidirectional.hpp puts together once both searches are over, its edges looked up
    again. */
module BdDijkstra {
  import opened Graphs
  import opened Labels
  import opened Paths
  import opened TwoQueues
  import opened Bidirectional

  // ---------- looking an edge up ----------

  /** Out-edge `i` is the first to `v` that costs `weight`. */
  ghost predicate FirstAt(out: seq<Edge>, v: nat, weight: nat, i: nat) {
    && i < |out| && out[i].target == v && out[i].cost == weight
    && forall j :: 0 <= j < i ==> !(out[j].target == v && out[j].cost == weight)
  }

  /** Out-edge `i` is the first of the cheapest to `v`, among the first `n`. */
  ghost predicate CheapestAt(out: seq<Edge>, v: nat, n: nat, i: nat)
    requires n <= |out|
  {
    && i < n && out[i].target == v
    && forall j :: 0 <= j < n && out[j].target == v ==>
      out[i].cost <= out[j].cost && (j < i ==> out[i].cost < out[j].cost)
  }

  /** The first arc to `v` that costs `weight`; failing that, the first of the cheapest, with its own cost unless its id
      is that of no edge; failing that, no edge and no cost. */
  ghost predicate Found(out: seq<Edge>, v: nat, weight: nat, id: int, cost: nat) {
    if exists i: nat :: FirstAt(out, v, weight, i) then
      cost == weight && exists i: nat :: FirstAt(out, v, weight, i) && id == out[i].id
    else if exists i: nat :: CheapestAt(out, v, |out|, i) then
      exists i: nat :: CheapestAt(out, v, |out|, i) && id == out[i].id && cost == if id == -1 then 0 else out[i].cost
    else id == -1 && cost == 0
  }

  lemma FoundFirst(directed: bool, edges: seq<Edge>, u: nat, v: nat, weight: nat, i: nat)
    requires FirstAt(OutEdges(directed, edges, u), v, weight, i)
    ensures var e := OutEdges(directed, edges, u)[i];
      Found(OutEdges(directed, edges, u), v, weight, e.id, weight) && Edge(e.id, u, v, weight) in Arcs(directed, edges)
  {
    hide OutEdges, Arcs;
    OutEdgesAreArcs(directed, edges, u);
    assert OutEdges(directed, edges, u)[i] in OutEdges(directed, edges, u);
  }

  /** What the loop knows after `n` out-edges without the weight. */
  ghost predicate Looking(out: seq<Edge>, v: nat, weight: nat, n: nat, minCost: Label, minEdge: int) {
    && n <= |out| && (forall j :: 0 <= j < n ==> !(out[j].target == v && out[j].cost == weight))
    && if minCost.Infinity? then minEdge == -1 && forall j :: 0 <= j < n ==> out[j].target != v
       else exists i: nat :: CheapestAt(out, v, n, i) && minEdge == out[i].id && minCost.cost == out[i].cost
  }

  lemma LookingOn(out: seq<Edge>, v: nat, weight: nat, n: nat, minCost: Label, minEdge: int)
    requires Looking(out, v, weight, n, minCost, minEdge) && n < |out|
    requires !(out[n].target == v && out[n].cost == weight)
    ensures if out[n].target == v && (minCost.Infinity? || minCost.cost > out[n].cost)
            then Looking(out, v, weight, n + 1, Finite(out[n].cost), out[n].id)
            else Looking(out, v, weight, n + 1, minCost, minEdge)
  {
    if out[n].target == v && (minCost.Infinity? || minCost.cost > out[n].cost) {
      assert CheapestAt(out, v, n + 1, n);
    } else if minCost.Finite? {
      var i: nat :| CheapestAt(out, v, n, i) && minEdge == out[i].id && minCost.cost == out[i].cost;
      assert CheapestAt(out, v, n + 1, i);
    }
  }

  lemma LookedAtAll(directed: bool, edges: seq<Edge>, u: nat, v: nat, weight: nat, minCost: Label, minEdge: int)
    requires Looking(OutEdges(directed, edges, u), v, weight, |OutEdges(directed, edges, u)|, minCost, minEdge)
    ensures Found(OutEdges(directed, edges, u), v, weight, minEdge,
                  if minEdge == -1 || minCost.Infinity? then 0 else minCost.cost)
    ensures forall k :: Edge(k, u, v, weight) !in Arcs(directed, edges)
  {
    hide OutEdges, Arcs;
    OutEdgesAreArcs(directed, edges, u);
  }

  method GetEdgeId(directed: bool, edges: seq<Edge>, u: nat, v: nat, weight: nat) returns (id: int, cost: nat)
    ensures Found(OutEdges(directed, edges, u), v, weight, id, cost)
    ensures (exists k :: Edge(k, u, v, weight) in Arcs(directed, edges)) ==>
      cost == weight && Edge(id, u, v, weight) in Arcs(directed, edges)
  {
    hide OutEdges, Arcs, Found, Looking;
    var out := OutEdges(directed, edges, u);
    var minCost, minEdge := Infinity, -1;
    NothingLookedAt(out, v, weight);
    for i := 0 to |out|
      invariant Looking(out, v, weight, i, minCost, minEdge)
    {
      var e := out[i];
      if e.target == v && e.cost == weight {
        FirstFound(out, v, weight, i, minCost, minEdge);
        FoundFirst(directed, edges, u, v, weight, i);
        return e.id, weight;
      }
      LookingOn(out, v, weight, i, minCost, minEdge);
      if e.target == v && (minCost.Infinity? || minCost.cost > e.cost) {
        minCost, minEdge := Finite(e.cost), e.id;
      }
    }
    LookedAtAll(directed, edges, u, v, weight, minCost, minEdge);
    return minEdge, if minEdge == -1 || minCost.Infinity? then 0 else minCost.cost;
  }

  lemma NothingLookedAt(out: seq<Edge>, v: nat, weight: nat)
    ensures Looking(out, v, weight, 0, Infinity, -1)
  {
  }

  lemma FirstFound(out: seq<Edge>, v: nat, weight: nat, n: nat, minCost: Label, minEdge: int)
    requires Looking(out, v, weight, n, minCost, minEdge) && n < |out| && out[n].target == v && out[n].cost == weight
    ensures FirstAt(out, v, weight, n)
  {
  }

  // ---------- unwinding ----------

  /** The arc behind row `i`, taken in the direction of travel or, unwound from the far end, against it. */
  function Behind(rows: seq<Row>, i: nat, normal: bool): Edge
    requires i + 1 < |rows|
  {
    if normal then Taken(rows, i) else Edge(rows[i].edge, rows[i + 1].node, rows[i].node, rows[i].cost)
  }

  /** A chain of rows from `u` to `v` along the arcs, closed by a row without edge. */
  ghost predicate Chain(arcs: set<Edge>, u: nat, rows: seq<Row>, v: nat, normal: bool) {
    && rows != [] && rows[0].node == u
    && rows[|rows| - 1].node == v && rows[|rows| - 1].edge == -1 && rows[|rows| - 1].cost == 0
    && forall i :: 0 <= i < |rows| - 1 ==> Behind(rows, i, normal) in arcs
  }

  lemma {:induction false} ChainGrows(arcs: set<Edge>, u: nat, rows: seq<Row>, v: nat, normal: bool, first: Row)
    requires Chain(arcs, u, rows, v, normal)
    requires (if normal then Edge(first.edge, first.node, u, first.cost)
              else Edge(first.edge, u, first.node, first.cost)) in arcs
    ensures Chain(arcs, first.node, [first] + rows, v, normal)
    ensures RowsCost([first] + rows) == first.cost + RowsCost(rows)
  {
    var longer := [first] + rows;
    forall i | 0 <= i < |longer| - 1 ensures Behind(longer, i, normal) in arcs {
      if i > 0 {
        assert Behind(longer, i, normal) == Behind(rows, i - 1, normal);
      }
    }
    assert longer[1..] == rows;
  }

  /** A finished vertex other than the start: its predecessor was finished before it, and an arc leads from there. */
  lemma Predecessor(arcs: set<Edge>, s: nat, h: Half, trail: seq<nat>, v: nat, k: nat)
    requires Dijkstra(arcs, s, h, trail, {}) && k <= |trail| && v in trail[..k] && v != s
    ensures v < |h.cost| == |h.predecessor| == |h.edge| && Derived(arcs, h.cost, h.predecessor, h.edge, v)
    ensures exists i :: 0 <= i < k && trail[i] == v && h.predecessor[v] in trail[..i]
  {
    hide Labelled, Waiting, Settled, Begun;
    var i :| 0 <= i < k && trail[i] == v;
    assert v in trail;
    assert ClimbsAt(s, h.predecessor, trail, i);
    assert h.finished[v] && h.cost[v].Finite? by {
      WhileFinite(arcs, s, h, v);
    }
    assert RootedAt(arcs, s, h.cost, h.predecessor, h.edge, trail, {}, v);
  }

  lemma WhileFinite(arcs: set<Edge>, s: nat, h: Half, v: nat)
    requires Shaped(arcs, s, h) && Settled(arcs, h) && v < |h.finished| && h.finished[v]
    ensures h.cost[v].Finite?
  {
  }

  /** The arc that accounts for a label, as the graph has it. */
  lemma RealArc(arcs: set<Edge>, normal: bool, searched: set<Edge>, h: Half, v: nat)
    requires searched == if normal then arcs else Backwards(arcs)
    requires v < |h.cost| == |h.predecessor| == |h.edge| && Derived(searched, h.cost, h.predecessor, h.edge, v)
    ensures var u, c := h.predecessor[v], h.cost[v].cost - h.cost[h.predecessor[v]].cost;
      exists k :: (if normal then Edge(k, u, v, c) else Edge(k, v, u, c)) in arcs
  {
    var u, c := h.predecessor[v], h.cost[v].cost - h.cost[h.predecessor[v]].cost;
    if !normal {
      var e :| e in arcs && Flip(e) == Edge(h.edge[v], u, v, c);
      assert e == Edge(h.edge[v], v, u, c);
    }
  }

  /** The start of the search, and no other finished vertex, is its own predecessor. */
  lemma OwnPredecessor(arcs: set<Edge>, s: nat, h: Half, trail: seq<nat>, v: nat)
    requires Dijkstra(arcs, s, h, trail, {}) && v in trail
    ensures v < |h.cost| == |h.predecessor| && h.cost[v].Finite?
    ensures h.predecessor[v] == v <==> v == s
    ensures s < |h.cost| && h.cost[s] == Finite(0)
  {
    hide Sound, Real, Waiting, Begun, Climbs;
    assert h.finished[v];
    WhileFinite(arcs, s, h, v);
    assert RootedAt(arcs, s, h.cost, h.predecessor, h.edge, trail, {}, v);
  }

  /** `complete_path`: from the start of the search to a vertex that it has finished. The constructor that calls it
      does not set the total, to which every row adds: `unset` is what is found there. */
  method CompletePath(directed: bool, edges: seq<Edge>, s: nat, vTarget: nat, h: Half, normal: bool, unset: nat,
                      ghost searched: set<Edge>, ghost trail: seq<nat>)
    returns (p: Path)
    requires searched == if normal then Arcs(directed, edges) else Backwards(Arcs(directed, edges))
    requires Dijkstra(searched, s, h, trail, {}) && vTarget in trail
    ensures p.startId == s && p.endId == vTarget && p.totCost == unset + RowsCost(p.rows)
    ensures vTarget == s ==> p.rows == []
    ensures vTarget != s ==> Chain(Arcs(directed, edges), s, p.rows, vTarget, normal) && |p.rows| >= 2
    ensures vTarget < |h.cost| && h.cost[vTarget] == Finite(RowsCost(p.rows))
  {
    hide Dijkstra, Arcs, Backwards, Derived;
    OwnPredecessor(searched, s, h, trail, vTarget);
    p := Path(s, vTarget, [], unset);
    if vTarget == h.predecessor[vTarget] {
      return;
    }
    var rows := [Row(vTarget, -1, 0, h.cost[vTarget].cost)];
    var target, total := vTarget, unset;
    ghost var k: nat := |trail|;
    assert trail[..k] == trail;
    assert rows[1..] == [];
    while target != s
      invariant k <= |trail| && target in trail[..k] && target in trail
      invariant target < |h.cost| == |h.predecessor| && h.cost[target].Finite?
      invariant Chain(Arcs(directed, edges), target, rows, vTarget, normal) && (|rows| == 1 ==> target == vTarget)
      invariant RowsCost(rows) + h.cost[target].cost == h.cost[vTarget].cost && total == unset + RowsCost(rows)
      decreases k
    {
      OwnPredecessor(searched, s, h, trail, target);
      if target == h.predecessor[target] { break; }
      Predecessor(searched, s, h, trail, target, k);
      var u := h.predecessor[target];
      DerivedCosts(searched, h, target);
      RealArc(Arcs(directed, edges), normal, searched, h, target);
      var id, cost := -1, h.cost[target].cost - h.cost[u].cost;
      if normal {
        id, cost := GetEdgeId(directed, edges, u, target, cost);
      } else {
        id, cost := GetEdgeId(directed, edges, target, u, cost);
      }
      ChainGrows(Arcs(directed, edges), target, rows, vTarget, normal, Row(u, id, cost, h.cost[target].cost - cost));
      rows := [Row(u, id, cost, h.cost[target].cost - cost)] + rows;
      total := total + cost;
      ghost var i :| 0 <= i < k && trail[i] == target && u in trail[..i];
      k := i;
      target := u;
    }
    p := p.(rows := rows, totCost := total);
  }

  lemma DerivedCosts(arcs: set<Edge>, h: Half, v: nat)
    requires v < |h.cost| == |h.predecessor| == |h.edge| && Derived(arcs, h.cost, h.predecessor, h.edge, v)
    ensures h.predecessor[v] < |h.cost| && h.cost[h.predecessor[v]].Finite? && h.cost[v].Finite?
    ensures h.cost[h.predecessor[v]].cost <= h.cost[v].cost
  {
  }

  // ---------- reversing and appending ----------

  /** `Path::reverse`: the rows the other way round; each edge moves to the row that now takes it. */
  method Reverse(p: Path) returns (r: Path)
    ensures r.startId == p.endId && r.endId == p.startId && r.totCost == p.totCost
    ensures |p.rows| <= 1 ==> r.rows == p.rows
    ensures |p.rows| > 1 ==> Turned(p.rows, r.rows) && Aggregated(r.rows)
  {
    r := Path(p.endId, p.startId, p.rows, p.totCost);
    if |p.rows| <= 1 {
      return;
    }
    hide Aggregated, TurnedRow, Turned;
    var newPath: seq<Row> := [];
    for i := 0 to |p.rows|
      invariant |newPath| == i
      invariant forall k :: 0 <= k < i ==> newPath[k] == TurnedRow(p.rows, i - 1 - k)
    {
      newPath := [TurnedRow(p.rows, i)] + newPath;
    }
    TurnedAtFirst(p.rows, newPath);
    NothingAggregated();
    for i := 0 to |newPath|
      invariant |newPath| == |p.rows| && Turned(p.rows, newPath)
      invariant Aggregated(newPath[..i])
    {
      var before := newPath;
      var aggCost := if i == 0 then 0 else newPath[i - 1].aggCost + newPath[i - 1].cost;
      newPath := newPath[i := newPath[i].(aggCost := aggCost)];
      TurnedStill(p.rows, before, i, aggCost);
      AggregatedSnoc(before[..i], newPath[i]);
      assert newPath[..i + 1] == before[..i] + [newPath[i]];
    }
    assert newPath[..|newPath|] == newPath;
    r := r.(rows := newPath);
  }

  function TurnedRow(rows: seq<Row>, i: nat): Row
    requires i < |rows|
  {
    Row(rows[i].node, if i == 0 then -1 else rows[i - 1].edge, if i == 0 then 0 else rows[i - 1].cost, 0)
  }

  ghost predicate Turned(rows: seq<Row>, turned: seq<Row>) {
    && |turned| == |rows|
    && forall k :: 0 <= k < |rows| ==> turned[k] == TurnedRow(rows, |rows| - 1 - k).(aggCost := turned[k].aggCost)
  }

  lemma TurnedAtFirst(rows: seq<Row>, turned: seq<Row>)
    requires |turned| == |rows| && forall k :: 0 <= k < |rows| ==> turned[k] == TurnedRow(rows, |rows| - 1 - k)
    ensures Turned(rows, turned)
  {
    hide TurnedRow;
  }

  lemma TurnedStill(rows: seq<Row>, turned: seq<Row>, i: nat, aggCost: nat)
    requires Turned(rows, turned) && i < |turned|
    ensures Turned(rows, turned[i := turned[i].(aggCost := aggCost)])
  {
    hide TurnedRow;
  }

  /** An unwound chain, reversed, is a chain in the direction of travel, for the same cost. */
  lemma {:induction false} TurnedChain(arcs: set<Edge>, u: nat, rows: seq<Row>, v: nat, turned: seq<Row>)
    requires Chain(arcs, u, rows, v, false) && Turned(rows, turned)
    ensures Chain(arcs, v, turned, u, true) && RowsCost(turned) == RowsCost(rows)
  {
    forall i | 0 <= i < |turned| - 1 ensures Behind(turned, i, true) in arcs {
      assert Behind(turned, i, true) == Behind(rows, |rows| - 2 - i, false);
    }
    TurnedCost(rows, turned, |rows|);
    assert rows[..|rows|] == rows && turned[..0] == [];
    assert turned[0..] == turned;
    var m := |rows| - 1;
    assert rows == rows[..m] + [rows[m]];
    RowsCostAppend(rows[..m], [rows[m]]);
    assert [rows[m]][1..] == [];
  }

  lemma {:induction false} TurnedCost(rows: seq<Row>, turned: seq<Row>, k: nat)
    requires Turned(rows, turned) && rows != [] && rows[|rows| - 1].cost == 0 && k <= |rows|
    ensures k > 0 ==> RowsCost(turned[|rows| - k..]) == RowsCost(rows[..k - 1])
  {
    if k > 1 {
      TurnedCost(rows, turned, k - 1);
      var n := |rows|;
      assert turned[n - k..][0] == turned[n - k] && turned[n - k..][1..] == turned[n - (k - 1)..];
      assert rows[..k - 1] == rows[..k - 2] + [rows[k - 2]];
      RowsCostAppend(rows[..k - 2], [rows[k - 2]]);
      assert [rows[k - 2]][1..] == [];
    } else if k == 1 {
      assert turned[|rows| - 1..] == [turned[|rows| - 1]];
      assert [turned[|rows| - 1]][1..] == [];
      assert rows[..0] == [];
    }
  }

  /** `Path::append`: the first path loses its closing row, the second one goes on counting. */
  method Append(p: Path, other: Path) returns (r: Path)
    requires p.endId == other.startId
    requires other.startId == other.endId ==> other.rows == []
    requires p.startId == p.endId ==> p.rows == []
    requires p.startId != p.endId && other.startId != other.endId ==> p.rows != [] && p.rows[|p.rows| - 1].edge == -1
    ensures r.startId == p.startId && r.endId == other.endId
    ensures other.startId == other.endId ==> r.rows == p.rows && r.totCost == p.totCost
    ensures other.startId != other.endId && p.startId == p.endId ==> r.rows == other.rows && r.totCost == other.totCost
    ensures p.startId != p.endId && other.startId != other.endId ==>
      Joined(p.rows[..|p.rows| - 1], other.rows, p.rows[|p.rows| - 1].aggCost, r.rows) &&
      r.totCost == p.totCost + RowsCost(other.rows)
  {
    if other.startId == other.endId {
      return p;
    }
    if p.startId == p.endId {
      return other;
    }
    var last := p.rows[|p.rows| - 1];
    var rows, total := p.rows[..|p.rows| - 1], p.totCost;
    for i := 0 to |other.rows|
      invariant Joined(p.rows[..|p.rows| - 1], other.rows[..i], last.aggCost, rows)
      invariant total == p.totCost + RowsCost(other.rows[..i])
    {
      assert other.rows[..i + 1] == other.rows[..i] + [other.rows[i]] && [other.rows[i]][1..] == [];
      RowsCostAppend(other.rows[..i], [other.rows[i]]);
      total := total + other.rows[i].cost;
      rows := rows + [other.rows[i].(aggCost := other.rows[i].aggCost + last.aggCost)];
    }
    assert other.rows[..|other.rows|] == other.rows;
    r := Path(p.startId, other.endId, rows, total);
  }

  /** `rows` is `a` followed by `b` with `shift` added to its `agg_cost` column. */
  ghost predicate Joined(a: seq<Row>, b: seq<Row>, shift: nat, rows: seq<Row>) {
    && |rows| == |a| + |b| && rows[..|a|] == a
    && forall i :: 0 <= i < |b| ==> rows[|a| + i] == b[i].(aggCost := b[i].aggCost + shift)
  }

  /** Two chains that meet are one chain without the closing row of the first. */
  lemma {:induction false} ChainsJoin(arcs: set<Edge>, u: nat, first: seq<Row>, v: nat, second: seq<Row>, w: nat)
    requires Chain(arcs, u, first, v, true) && Chain(arcs, v, second, w, true)
    ensures Chain(arcs, u, first[..|first| - 1] + second, w, true)
    ensures RowsCost(first[..|first| - 1] + second) == RowsCost(first) + RowsCost(second)
    decreases first
  {
    if |first| == 1 {
      assert first[..0] + second == second && first[1..] == [];
    } else {
      var rest := first[1..];
      forall i | 0 <= i < |rest| - 1 ensures Behind(rest, i, true) in arcs {
        assert Behind(rest, i, true) == Behind(first, i + 1, true);
      }
      ChainsJoin(arcs, rest[0].node, rest, v, second, w);
      assert Behind(first, 0, true) in arcs;
      ChainGrows(arcs, rest[0].node, rest[..|rest| - 1] + second, w, true, first[0]);
      assert first[..|first| - 1] + second == [first[0]] + (rest[..|rest| - 1] + second);
    }
  }

  lemma {:induction false} JoinedChain(arcs: set<Edge>, u: nat, first: seq<Row>, v: nat, second: seq<Row>, w: nat,
                                       shift: nat, rows: seq<Row>)
    requires Chain(arcs, u, first, v, true) && Chain(arcs, v, second, w, true)
    requires Joined(first[..|first| - 1], second, shift, rows)
    ensures Chain(arcs, u, rows, w, true) && RowsCost(rows) == RowsCost(first) + RowsCost(second)
  {
    var shifted := rows[|first| - 1..];
    forall i | 0 <= i < |second| ensures shifted[i] == second[i].(aggCost := second[i].aggCost + shift) {
      assert shifted[i] == rows[|first| - 1 + i];
    }
    forall i | 0 <= i < |shifted| - 1 ensures Behind(shifted, i, true) in arcs {
      assert Behind(shifted, i, true) == Behind(second, i, true);
    }
    SameRowsCost(second, shifted);
    ChainsJoin(arcs, u, first, v, shifted, w);
    assert rows == first[..|first| - 1] + shifted;
  }

  // ---------- looking the edges up again ----------

  /** The rows that the out-edges of `node` with the id `id` give. */
  function Matches(out: seq<Edge>, node: nat, id: int): seq<Row> {
    if out == [] then [] else Match(out[0], node, id) + Matches(out[1..], node, id)
  }

  function Match(e: Edge, node: nat, id: int): seq<Row> {
    if e.id == id then [Row(node, id, e.cost, 0)] else []
  }

  /** What one row becomes: a closing row, or a row for every out-edge with its edge id. */
  function Again(directed: bool, edges: seq<Edge>, endId: nat, row: Row): seq<Row> {
    if row.edge == -1 then [Row(endId, -1, 0, 0)] else Matches(OutEdges(directed, edges, row.node), row.node, row.edge)
  }

  function Rebuilt(directed: bool, edges: seq<Edge>, endId: nat, rows: seq<Row>): seq<Row> {
    if rows == [] then [] else Again(directed, edges, endId, rows[0]) + Rebuilt(directed, edges, endId, rows[1..])
  }

  lemma {:induction false} RebuiltSnoc(directed: bool, edges: seq<Edge>, endId: nat, rows: seq<Row>, row: Row)
    ensures Rebuilt(directed, edges, endId, rows + [row]) ==
            Rebuilt(directed, edges, endId, rows) + Again(directed, edges, endId, row)
  {
    if rows == [] {
      assert ([] + [row])[1..] == [];
    } else {
      assert (rows + [row])[1..] == rows[1..] + [row];
      RebuiltSnoc(directed, edges, endId, rows[1..], row);
    }
  }

  lemma {:induction false} MatchesSnoc(out: seq<Edge>, node: nat, id: int, e: Edge)
    ensures Matches(out + [e], node, id) == Matches(out, node, id) + Match(e, node, id)
  {
    if out == [] {
      assert ([] + [e])[1..] == [];
    } else {
      hide Match;
      assert (out + [e])[1..] == out[1..] + [e];
      MatchesSnoc(out[1..], node, id, e);
      var first, rest, last := Match(out[0], node, id), Matches(out[1..], node, id), Match(e, node, id);
      assert first + (rest + last) == (first + rest) + last;
    }
  }

  /** The inner loop of the constructor. */
  method LookUp(out: seq<Edge>, p: Row, before: seq<Row>) returns (rows: seq<Row>)
    ensures rows == before + Matches(out, p.node, p.edge)
  {
    rows := before;
    for j := 0 to |out|
      invariant rows == before + Matches(out[..j], p.node, p.edge)
    {
      assert out[..j + 1] == out[..j] + [out[j]];
      MatchesSnoc(out[..j], p.node, p.edge, out[j]);
      if out[j].id == p.edge {
        rows := rows + [Row(p.node, p.edge, out[j].cost, 0)];
      }
    }
    assert out[..|out|] == out;
  }

  /** The constructor that takes costs and edges from the graph again. */
  method Rebuild(directed: bool, edges: seq<Edge>, original: Path, onlyCost: bool) returns (r: Path)
    ensures r.startId == original.startId && r.endId == original.endId
    ensures original.rows == [] ==> r.rows == [] && r.totCost == 0
    ensures original.rows != [] ==>
      var again := Rebuilt(directed, edges, original.endId, original.rows);
      r.totCost == RowsCost(again) &&
      (if onlyCost then r.rows == [Row(r.endId, -1, r.totCost, r.totCost)] else SameButAggregated(again, r.rows))
  {
    r := Path(original.startId, original.endId, [], 0);
    if original.rows == [] {
      return;
    }
    var rows: seq<Row> := [];
    for i := 0 to |original.rows|
      invariant rows == Rebuilt(directed, edges, original.endId, original.rows[..i])
    {
      var p := original.rows[i];
      assert original.rows[..i + 1] == original.rows[..i] + [p];
      RebuiltSnoc(directed, edges, original.endId, original.rows[..i], p);
      if p.edge == -1 {
        rows := rows + [Row(original.endId, -1, 0, 0)];
      } else {
        rows := LookUp(OutEdges(directed, edges, p.node), p, rows);
      }
    }
    assert original.rows[..|original.rows|] == original.rows;
    r := RecalculateAggCost(r.(rows := rows));
    if onlyCost {
      r := r.(rows := [Row(r.endId, -1, r.totCost, r.totCost)]);
    }
  }

  // ---------- when the second look-up is harmless ----------

  /** Arcs whose id is that of no edge cost nothing, and out-edges of one vertex that share an id cost nothing. */
  ghost predicate EchoFree(directed: bool, edges: seq<Edge>) {
    && (forall e :: e in Arcs(directed, edges) && e.id == -1 ==> e.cost == 0)
    && (forall v: nat :: CheapEchoes(OutEdges(directed, edges, v)))
  }

  ghost predicate CheapEchoes(out: seq<Edge>) {
    forall i, j :: 0 <= i < j < |out| && out[i].id == out[j].id ==> out[i].cost == 0 && out[j].cost == 0
  }

  lemma CheapTail(out: seq<Edge>)
    requires CheapEchoes(out) && out != []
    ensures CheapEchoes(out[1..])
    ensures forall f :: f in out[1..] && f.id == out[0].id ==> f.cost == 0 && out[0].cost == 0
  {
    forall i, j | 0 <= i < j < |out[1..]| && out[1..][i].id == out[1..][j].id
      ensures out[1..][i].cost == 0 && out[1..][j].cost == 0
    {
      assert out[1..][i] == out[i + 1] && out[1..][j] == out[j + 1];
    }
    forall f | f in out[1..] && f.id == out[0].id ensures f.cost == 0 && out[0].cost == 0 {
      var j :| 0 <= j < |out[1..]| && out[1..][j] == f;
      assert out[j + 1] == f;
    }
  }

  /** With cheap echoes only, all out-edges with the id of `e` together cost what `e` costs. */
  lemma {:induction false} CheapMatches(out: seq<Edge>, node: nat, e: Edge)
    requires CheapEchoes(out) && e in out
    ensures RowsCost(Matches(out, node, e.id)) == e.cost
  {
    hide CheapEchoes;
    var rest := out[1..];
    CheapTail(out);
    RowsCostAppend(Match(out[0], node, e.id), Matches(rest, node, e.id));
    MatchCost(out[0], node, e.id);
    if out[0].id != e.id {
      CheapMatches(rest, node, e);
    } else if f :| f in rest && f.id == e.id {
      CheapMatches(rest, node, f);
    } else {
      NoMatch(rest, node, e.id);
      assert e == out[0] && RowsCost([]) == 0;
    }
  }

  lemma MatchCost(e: Edge, node: nat, id: int)
    ensures RowsCost(Match(e, node, id)) == if e.id == id then e.cost else 0
  {
    var row := Row(node, id, e.cost, 0);
    assert [row][1..] == [] && RowsCost([]) == 0;
  }

  /** Every out-edge with the id adds its cost. */
  lemma {:induction false} MatchesCost(out: seq<Edge>, node: nat, id: int, j: nat)
    requires j < |out| && out[j].id == id
    ensures RowsCost(Matches(out, node, id)) >= out[j].cost && |Matches(out, node, id)| >= 1
    ensures forall i :: 0 <= i < j && out[i].id == id ==>
      RowsCost(Matches(out, node, id)) >= out[i].cost + out[j].cost && |Matches(out, node, id)| >= 2
  {
    MatchCost(out[0], node, id);
    RowsCostAppend(Match(out[0], node, id), Matches(out[1..], node, id));
    hide RowsCost;
    if j > 0 {
      assert out[1..][j - 1] == out[j];
      MatchesCost(out[1..], node, id, j - 1);
      assert forall i :: 0 < i < j ==> out[i] == out[1..][i - 1];
    }
  }

  lemma {:induction false} EchoFreeCost(directed: bool, edges: seq<Edge>, endId: nat, row: Row, e: Edge)
    requires EchoFree(directed, edges) && e in Arcs(directed, edges)
    requires row.node == e.source && row.edge == e.id
    ensures RowsCost(Again(directed, edges, endId, row)) == e.cost
  {
    hide Arcs, Matches, OutEdges, CheapEchoes;
    if row.edge == -1 {
      assert RowsCost([Row(endId, -1, 0, 0)]) == 0;
    } else {
      OutEdgesAreArcs(directed, edges, e.source);
      CheapMatches(OutEdges(directed, edges, e.source), e.source, e);
    }
  }

  lemma {:induction false} RebuiltKeepsCost(directed: bool, edges: seq<Edge>, endId: nat, u: nat, rows: seq<Row>,
                                            v: nat)
    requires EchoFree(directed, edges) && Chain(Arcs(directed, edges), u, rows, v, true)
    ensures RowsCost(Rebuilt(directed, edges, endId, rows)) == RowsCost(rows)
    decreases rows
  {
    hide Arcs, Matches, OutEdges, EchoFree;
    var rest := rows[1..];
    RowsCostAppend(Again(directed, edges, endId, rows[0]), Rebuilt(directed, edges, endId, rest));
    if rest == [] {
      assert RowsCost([Row(endId, -1, 0, 0)]) == 0;
    } else {
      var e := Behind(rows, 0, true);
      assert e in Arcs(directed, edges);
      EchoFreeCost(directed, edges, endId, rows[0], e);
      forall i | 0 <= i < |rest| - 1 ensures Behind(rest, i, true) in Arcs(directed, edges) {
        assert Behind(rest, i, true) == Behind(rows, i + 1, true);
      }
      RebuiltKeepsCost(directed, edges, endId, rest[0].node, rest, v);
    }
  }

  /** Looking the edges up again leaves every chain at its cost exactly if echoes cost nothing. */
  lemma {:induction false} RebuiltCost(directed: bool, edges: seq<Edge>)
    ensures EchoFree(directed, edges) <==>
            forall u, rows, v :: Chain(Arcs(directed, edges), u, rows, v, true) ==>
              RowsCost(Rebuilt(directed, edges, v, rows)) == RowsCost(rows)
  {
    hide Chain, Arcs, OutEdges, Rebuilt, RowsCost;
    if EchoFree(directed, edges) {
      hide EchoFree;
      forall u, rows, v | Chain(Arcs(directed, edges), u, rows, v, true)
        ensures RowsCost(Rebuilt(directed, edges, v, rows)) == RowsCost(rows)
      {
        RebuiltKeepsCost(directed, edges, v, u, rows, v);
      }
    } else {
      CostlyEcho(directed, edges);
    }
  }

  /** A costly echo shows on a chain of one edge. */
  lemma {:induction false} CostlyEcho(directed: bool, edges: seq<Edge>)
    requires !EchoFree(directed, edges)
    ensures exists u, rows, v :: Chain(Arcs(directed, edges), u, rows, v, true) &&
              RowsCost(Rebuilt(directed, edges, v, rows)) != RowsCost(rows)
  {
    hide Chain, Arcs, OutEdges, Rebuilt, Matches;
    if e :| e in Arcs(directed, edges) && e.id == -1 && e.cost != 0 {
      OneEdgeChain(directed, edges, e);
      assert [Row(e.target, -1, 0, 0)][1..] == [] && RowsCost([]) == 0;
    } else {
      var v: nat :| !CheapEchoes(OutEdges(directed, edges, v));
      var out := OutEdges(directed, edges, v);
      var i, j :| 0 <= i < j < |out| && out[i].id == out[j].id && !(out[i].cost == 0 && out[j].cost == 0);
      OutEdgesAreArcs(directed, edges, v);
      assert out[i] in out && out[j] in out;
      MatchesCost(out, v, out[i].id, j);
      var e := if out[j].cost != 0 then out[i] else out[j];
      OneEdgeChain(directed, edges, e);
    }
  }

  lemma {:induction false} OneEdgeChain(directed: bool, edges: seq<Edge>, e: Edge)
    requires e in Arcs(directed, edges)
    ensures var rows := [Row(e.source, e.id, e.cost, 0), Row(e.target, -1, 0, 0)];
      && Chain(Arcs(directed, edges), e.source, rows, e.target, true) && RowsCost(rows) == e.cost
      && Rebuilt(directed, edges, e.target, rows) == Again(directed, edges, e.target, rows[0]) +
        [Row(e.target, -1, 0, 0)]
      && RowsCost(Rebuilt(directed, edges, e.target, rows)) == RowsCost(Again(directed, edges, e.target, rows[0]))
  {
    hide Arcs, OutEdges, Matches;
    var first, last := Row(e.source, e.id, e.cost, 0), Row(e.target, -1, 0, 0);
    var rows := [first, last];
    assert rows[1..] == [last] && [last][1..] == [];
    assert Behind(rows, 0, true) == e;
    var again := Again(directed, edges, e.target, first);
    RowsCostAppend(again, Rebuilt(directed, edges, e.target, [last]));
    assert Rebuilt(directed, edges, e.target, [last]) == [last];
  }

  /** An undirected edge whose two directions cost 2 and 3 is stored twice under one id,
      and a path of cost 2 comes out at 5. */
  lemma TwoWayEdgeCountsTwice()
    ensures var edges := [Edge(7, 0, 1, 2), Edge(7, 1, 0, 3)];
      && Chain(Arcs(false, edges), 0, [Row(0, 7, 2, 0), Row(1, -1, 0, 2)], 1, true)
      && Rebuilt(false, edges, 1, [Row(0, 7, 2, 0), Row(1, -1, 0, 2)]) ==
        [Row(0, 7, 2, 0), Row(0, 7, 3, 0), Row(1, -1, 0, 0)]
      && !EchoFree(false, edges)
  {
    var a, b := Edge(7, 0, 1, 2), Edge(7, 1, 0, 3);
    var edges := [a, b];
    var rows := [Row(0, 7, 2, 0), Row(1, -1, 0, 2)];
    assert a in edges && edges[1..] == [b] && [b][1..] == [];
    assert Pick([b], Oriented(false, 0)) == [Flip(b)] + Pick([], Oriented(false, 0));
    assert OutEdges(false, edges, 0) == [a, Flip(b)];
    assert [a, Flip(b)][1..] == [Flip(b)] && [Flip(b)][1..] == [];
    assert Matches([Flip(b)], 0, 7) == [Row(0, 7, 3, 0)];
    assert Matches([a, Flip(b)], 0, 7) == [Row(0, 7, 2, 0), Row(0, 7, 3, 0)];
    assert Behind(rows, 0, true) == a;
    assert rows[1..] == [rows[1]] && [rows[1]][1..] == [];
    assert Rebuilt(false, edges, 1, [rows[1]]) == [Row(1, -1, 0, 0)];
    var twice := [Row(0, 7, 2, 0), Row(0, 7, 3, 0)];
    assert twice[1..] == [twice[1]] && [twice[1]][1..] == [];
    assert RowsCost(twice) == 5;
    assert a in Arcs(false, edges);
  }

  /** No vertex has two out-edges with the same id, unless it is that of no edge; and an arc with that id is a loop
      without cost at a vertex that no arc leaves for another one. */
  ghost predicate OwnIds(directed: bool, edges: seq<Edge>) {
    && (forall v: nat :: Apart(OutEdges(directed, edges, v)))
    && (forall e :: e in Arcs(directed, edges) && e.id == -1 ==> e.cost == 0 && Stuck(Arcs(directed, edges), e.source))
  }

  ghost predicate Apart(out: seq<Edge>) {
    forall i, j :: 0 <= i < j < |out| && out[i].id == out[j].id ==> out[i].id == -1
  }

  ghost predicate Stuck(arcs: set<Edge>, u: nat) {
    forall e :: e in arcs && e.source == u ==> e.target == u
  }

  /** The same rows, but for the `agg_cost` column. */
  ghost predicate SameRows(rows: seq<Row>, again: seq<Row>) {
    |again| == |rows| && forall i :: 0 <= i < |rows| ==> again[i] == rows[i].(aggCost := 0)
  }

  lemma {:induction false} OneMatch(out: seq<Edge>, node: nat, e: Edge)
    requires Apart(out) && e in out && e.id != -1
    ensures Matches(out, node, e.id) == [Row(node, e.id, e.cost, 0)]
  {
    ApartTail(out);
    if out[0] == e {
      NoMatch(out[1..], node, e.id);
    } else {
      OneMatch(out[1..], node, e);
    }
  }

  lemma ApartTail(out: seq<Edge>)
    requires Apart(out) && out != []
    ensures Apart(out[1..]) && forall f :: f in out[1..] && f.id == out[0].id ==> f.id == -1
  {
    forall i, j | 0 <= i < j < |out[1..]| && out[1..][i].id == out[1..][j].id ensures out[1..][i].id == -1 {
      assert out[1..][i] == out[i + 1] && out[1..][j] == out[j + 1];
    }
    forall f | f in out[1..] && f.id == out[0].id ensures f.id == -1 {
      var j :| 0 <= j < |out[1..]| && out[1..][j] == f;
      assert out[j + 1] == f;
    }
  }

  lemma {:induction false} NoMatch(out: seq<Edge>, node: nat, id: int)
    requires forall f :: f in out ==> f.id != id
    ensures Matches(out, node, id) == []
  {
    if out != [] {
      NoMatch(out[1..], node, id);
    }
  }

  lemma ChainRest(arcs: set<Edge>, u: nat, rows: seq<Row>, v: nat)
    requires Chain(arcs, u, rows, v, true) && |rows| > 1
    ensures Behind(rows, 0, true) in arcs && Chain(arcs, rows[1].node, rows[1..], v, true)
  {
    var rest := rows[1..];
    forall i | 0 <= i < |rest| - 1 ensures Behind(rest, i, true) in arcs {
      assert Behind(rest, i, true) == Behind(rows, i + 1, true);
    }
  }

  /** A chain from a vertex that no arc leaves for another one ends where it began. */
  lemma {:induction false} StuckChain(arcs: set<Edge>, u: nat, rows: seq<Row>, v: nat)
    requires Stuck(arcs, u) && Chain(arcs, u, rows, v, true)
    ensures u == v
    decreases rows
  {
    if |rows| > 1 {
      ChainRest(arcs, u, rows, v);
      StuckChain(arcs, u, rows[1..], v);
    }
  }

  /** With ids of their own, a chain is rebuilt as it was. */
  lemma {:induction false} RebuiltAsWas(directed: bool, edges: seq<Edge>, u: nat, rows: seq<Row>, v: nat)
    requires OwnIds(directed, edges) && Chain(Arcs(directed, edges), u, rows, v, true)
    ensures SameRows(rows, Rebuilt(directed, edges, v, rows))
    decreases rows
  {
    hide Matches, OutEdges, Arcs, Apart, Stuck;
    var rest := rows[1..];
    if rest != [] {
      var e := Behind(rows, 0, true);
      ChainRest(Arcs(directed, edges), u, rows, v);
      OutEdgesAreArcs(directed, edges, e.source);
      if e.id == -1 {
        StuckChain(Arcs(directed, edges), u, rows, v);
      } else {
        OneMatch(OutEdges(directed, edges, e.source), e.source, e);
      }
      RebuiltAsWas(directed, edges, rest[0].node, rest, v);
    }
  }

  /** Looking the edges up again gives every chain back exactly if the ids are their own. */
  lemma {:induction false} RebuiltIsSame(directed: bool, edges: seq<Edge>)
    ensures OwnIds(directed, edges) <==>
            forall u, rows, v :: Chain(Arcs(directed, edges), u, rows, v, true) ==>
              SameRows(rows, Rebuilt(directed, edges, v, rows))
  {
    hide Chain, Arcs, OutEdges, Rebuilt, SameRows;
    if OwnIds(directed, edges) {
      hide OwnIds;
      forall u, rows, v | Chain(Arcs(directed, edges), u, rows, v, true)
        ensures SameRows(rows, Rebuilt(directed, edges, v, rows))
      {
        RebuiltAsWas(directed, edges, u, rows, v);
      }
    } else {
      Confused(directed, edges);
    }
  }

  /** Ids that are not their own show on a chain of one or two edges. */
  lemma {:induction false} Confused(directed: bool, edges: seq<Edge>)
    requires !OwnIds(directed, edges)
    ensures exists u, rows, v :: Chain(Arcs(directed, edges), u, rows, v, true) &&
              !SameRows(rows, Rebuilt(directed, edges, v, rows))
  {
    hide Chain, Arcs, OutEdges, Rebuilt, SameRows;
    if v: nat :| !Apart(OutEdges(directed, edges, v)) {
      var out := OutEdges(directed, edges, v);
      var i, j :| 0 <= i < j < |out| && out[i].id == out[j].id && out[i].id != -1;
      OutEdgesAreArcs(directed, edges, v);
      assert out[i] in out;
      TwiceTooMany(directed, edges, out[i], i, j);
    } else {
      var e :| e in Arcs(directed, edges) && e.id == -1 && !(e.cost == 0 && Stuck(Arcs(directed, edges), e.source));
      if e.cost != 0 {
        LostOnTheWay(directed, edges, e);
      } else {
        var f :| f in Arcs(directed, edges) && f.source == e.source && f.target != e.source;
        LostOnTheWay(directed, edges, e);
        if e.source == e.target {
          TwoEdgeChain(directed, edges, e, f);
        }
      }
    }
  }

  lemma {:induction false} TwiceTooMany(directed: bool, edges: seq<Edge>, e: Edge, i: nat, j: nat)
    requires e in Arcs(directed, edges) && e.id != -1
    requires var out := OutEdges(directed, edges, e.source); i < j < |out| && out[i] == e && out[j].id == e.id
    ensures exists u, rows, v :: Chain(Arcs(directed, edges), u, rows, v, true) &&
              !SameRows(rows, Rebuilt(directed, edges, v, rows))
  {
    hide Chain, Arcs, OutEdges, Matches, Rebuilt;
    OneEdgeChain(directed, edges, e);
    MatchesCost(OutEdges(directed, edges, e.source), e.source, e.id, j);
  }

  /** An arc with the id of no edge comes back as a closing row. */
  lemma {:induction false} LostOnTheWay(directed: bool, edges: seq<Edge>, e: Edge)
    requires e in Arcs(directed, edges) && e.id == -1
    ensures e.cost != 0 || e.source != e.target ==>
      exists u, rows, v :: Chain(Arcs(directed, edges), u, rows, v, true) &&
        !SameRows(rows, Rebuilt(directed, edges, v, rows))
  {
    hide Chain, Arcs, Rebuilt;
    OneEdgeChain(directed, edges, e);
    if e.cost != 0 || e.source != e.target {
      var rows := [Row(e.source, e.id, e.cost, 0), Row(e.target, -1, 0, 0)];
      assert Rebuilt(directed, edges, e.target, rows)[0] == Row(e.target, -1, 0, 0);
      assert !SameRows(rows, Rebuilt(directed, edges, e.target, rows));
    }
  }

  lemma {:induction false} TwoEdgeChain(directed: bool, edges: seq<Edge>, e: Edge, f: Edge)
    requires e in Arcs(directed, edges) && f in Arcs(directed, edges) && e.id == -1 && e.cost == 0
    requires e.target == e.source == f.source != f.target
    ensures exists u, rows, v :: Chain(Arcs(directed, edges), u, rows, v, true) &&
              !SameRows(rows, Rebuilt(directed, edges, v, rows))
  {
    hide Arcs, OutEdges;
    var rows := [Row(f.source, f.id, f.cost, 0), Row(f.target, -1, 0, 0)];
    OneEdgeChain(directed, edges, f);
    ChainGrows(Arcs(directed, edges), f.source, rows, f.target, true, Row(e.source, -1, 0, 0));
    var longer := [Row(e.source, -1, 0, 0)] + rows;
    assert Rebuilt(directed, edges, f.target, longer)[0] == Row(f.target, -1, 0, 0);
    assert !SameRows(longer, Rebuilt(directed, edges, f.target, longer));
  }

  // ---------- the whole run ----------

  /** A way from `s` to `t` as the two halves give it: nothing if they meet where both began. */
  ghost predicate Way(arcs: set<Edge>, s: nat, t: nat, rows: seq<Row>, cost: nat) {
    RowsCost(rows) == cost && (if rows == [] then s == t else Chain(arcs, s, rows, t, true) && |rows| >= 2)
  }

  /** Unwinds both halves from `v` and puts them together. */
  method Through(directed: bool, edges: seq<Edge>, s: nat, t: nat, v: nat, forward: Half, backward: Half, unset: nat,
                 ghost ft: seq<nat>, ghost bt: seq<nat>)
    returns (p: Path)
    requires Dijkstra(Arcs(directed, edges), s, forward, ft, {}) && v in ft
    requires Dijkstra(Backwards(Arcs(directed, edges)), t, backward, bt, {}) && v in bt
    ensures p.startId == s && p.endId == t
    ensures v < |forward.cost| && v < |backward.cost| && forward.cost[v].Finite? && backward.cost[v].Finite?
    ensures Way(Arcs(directed, edges), s, t, p.rows, forward.cost[v].cost + backward.cost[v].cost)
  {
    hide Dijkstra, Arcs, Backwards;
    var first := CompletePath(directed, edges, s, v, forward, true, unset, Arcs(directed, edges), ft);
    var far := CompletePath(directed, edges, t, v, backward, false, unset, Backwards(Arcs(directed, edges)), bt);
    var second := Reverse(far);
    if v != t {
      TurnedChain(Arcs(directed, edges), t, far.rows, v, second.rows);
    }
    p := Append(first, second);
    if v != s && v != t {
      JoinedChain(Arcs(directed, edges), s, first.rows, v, second.rows, t, first.rows[|first.rows| - 1].aggCost,
        p.rows);
    }
  }

  lemma AttainedTrails(arcs: set<Edge>, s: nat, t: nat, f: Half, ft: seq<nat>, b: Half, bt: seq<nat>, best: Label,
                       vMin: nat)
    requires Underway(arcs, s, t, f, ft, b, bt, best, vMin) && best.Finite?
    ensures Dijkstra(arcs, s, f, ft, {}) && Dijkstra(Backwards(arcs), t, b, bt, {}) && vMin in ft && vMin in bt
    ensures vMin < |f.cost| && vMin < |b.cost| && f.cost[vMin].Finite? && b.cost[vMin].Finite?
    ensures best.cost == f.cost[vMin].cost + b.cost[vMin].cost
  {
    assert Trailed(f.finished, ft) && Trailed(b.finished, bt) && Shaped(arcs, s, f) && Shaped(Backwards(arcs), t, b);
    hide Dijkstra;
  }

  /** What the second look-up returns for the rows of a way. */
  ghost predicate LookedUp(directed: bool, edges: seq<Edge>, t: nat, rows: seq<Row>, onlyCost: bool, r: Path) {
    if rows == [] then r.rows == [] && r.totCost == 0
    else
      var again := Rebuilt(directed, edges, t, rows);
      r.totCost == RowsCost(again) &&
      (if onlyCost then r.rows == [Row(t, -1, r.totCost, r.totCost)] else SameButAggregated(again, r.rows))
  }

  /** The path is what the second look-up makes of a way that costs `cost`. */
  ghost predicate Returned(directed: bool, edges: seq<Edge>, s: nat, t: nat, cost: nat, onlyCost: bool, r: Path) {
    exists rows :: Way(Arcs(directed, edges), s, t, rows, cost) && LookedUp(directed, edges, t, rows, onlyCost, r)
  }

  lemma OwnIdsAreEchoFree(directed: bool, edges: seq<Edge>)
    requires OwnIds(directed, edges)
    ensures EchoFree(directed, edges)
  {
    hide Arcs, OutEdges, Stuck;
    forall v: nat, i, j | 0 <= i < j < |OutEdges(directed, edges, v)| &&
                     OutEdges(directed, edges, v)[i].id == OutEdges(directed, edges, v)[j].id
      ensures OutEdges(directed, edges, v)[i].cost == 0 && OutEdges(directed, edges, v)[j].cost == 0
    {
      assert Apart(OutEdges(directed, edges, v));
      OutEdgesAreArcs(directed, edges, v);
      assert OutEdges(directed, edges, v)[i] in OutEdges(directed, edges, v);
      assert OutEdges(directed, edges, v)[j] in OutEdges(directed, edges, v);
    }
  }

  lemma WayRebuilt(directed: bool, edges: seq<Edge>, s: nat, t: nat, rows: seq<Row>, cost: nat, onlyCost: bool, r: Path)
    requires Way(Arcs(directed, edges), s, t, rows, cost) && LookedUp(directed, edges, t, rows, onlyCost, r)
    ensures EchoFree(directed, edges) ==> r.totCost == cost
    ensures OwnIds(directed, edges) && !onlyCost ==>
      Way(Arcs(directed, edges), s, t, r.rows, cost) && Aggregated(r.rows)
  {
    hide EchoFree, OwnIds, Arcs, Rebuilt;
    if OwnIds(directed, edges) {
      OwnIdsAreEchoFree(directed, edges);
    }
    if rows != [] && EchoFree(directed, edges) {
      RebuiltKeepsCost(directed, edges, t, s, rows, t);
    }
    if rows != [] && OwnIds(directed, edges) {
      var again := Rebuilt(directed, edges, t, rows);
      RebuiltAsWas(directed, edges, s, rows, t);
      SameRowsCost(rows, again);
      if !onlyCost {
        SameRowsCost(again, r.rows);
        forall i | 0 <= i < |r.rows| - 1 ensures Behind(r.rows, i, true) in Arcs(directed, edges) {
          assert Behind(r.rows, i, true) == Behind(rows, i, true);
        }
      }
    }
  }

  /** `pgr_bdDijkstra`: searches from both ends and puts the path together. */
  method PgrBdDijkstra(g: Search, source: nat, target: nat, onlyCost: bool, unset: nat) returns (path: Path)
    requires Fits(g.Ways(), g.n) && source < g.n && target < g.n
    modifies g
    ensures exists stopped :: Answer(g.Ways(), source, target, g.bestCost, stopped)
    ensures g.bestCost.Infinity? ==> path == Path(0, 0, [], 0)
    ensures g.bestCost.Finite? ==> path.startId == source && path.endId == target
    ensures g.bestCost.Finite? ==> Returned(g.directed, g.edges, source, target, g.bestCost.cost, onlyCost, path)
    ensures g.bestCost.Finite? && EchoFree(g.directed, g.edges) ==> path.totCost == g.bestCost.cost
    ensures g.bestCost.Finite? && OwnIds(g.directed, g.edges) && !onlyCost ==>
      Way(g.Ways(), source, target, path.rows, g.bestCost.cost) && Aggregated(path.rows)
  {
    ghost var stopped := g.Run(source, target);
    path := Path(0, 0, [], 0);
    if g.bestCost.Infinity? {
      return;
    }
    AttainedTrails(g.Ways(), source, target, g.forward, g.forwardTrail, g.backward, g.backwardTrail, g.bestCost,
      g.vMinNode);
    hide Answer, Arcs, EchoFree, OwnIds;
    var way := Through(g.directed, g.edges, source, target, g.vMinNode, g.forward, g.backward, unset, g.forwardTrail,
      g.backwardTrail);
    path := Rebuild(g.directed, g.edges, way, onlyCost);
    assert LookedUp(g.directed, g.edges, target, way.rows, onlyCost, path);
    WayRebuilt(g.directed, g.edges, source, target, way.rows, g.bestCost.cost, onlyCost, path);
  }
}
