/** include/chinese/chinesePostman.hpp: a closed route over every edge of a directed graph. */
module ChinesePostman {
  import opened Graphs
  import opened Paths
  import opened Hierholzer

  /** A row of the edges table; only positive costs make edges. */
  datatype EdgeRow = EdgeRow(id: int, source: nat, target: nat, cost: int, reverseCost: int)

  /** Flow along one edge of the flow graph, as the min-cost max-flow computation reports it. */
  datatype Flow = Flow(source: nat, target: nat, flow: nat)

  // ---------- degrees ----------

  function Kept(r: EdgeRow): seq<Edge> {
    (if r.cost > 0 then [Edge(r.id, r.source, r.target, r.cost)] else []) +
    (if r.reverseCost > 0 then [Edge(r.id, r.target, r.source, r.reverseCost)] else [])
  }

  function KeptEdges(rows: seq<EdgeRow>): seq<Edge> {
    if rows == [] then [] else KeptEdges(rows[..|rows| - 1]) + Kept(rows[|rows| - 1])
  }

  /** A row offers an edge from source to target at its cost, one back at its reverse cost, if these are positive. */
  predicate Offers(r: EdgeRow, e: Edge) {
    && e.id == r.id && e.cost > 0
    && ((e.source == r.source && e.target == r.target && e.cost == r.cost) ||
        (e.source == r.target && e.target == r.source && e.cost == r.reverseCost))
  }

  /** All that the rows charge for. */
  function Charges(rows: seq<EdgeRow>): nat {
    if rows == [] then 0
    else
      var r := rows[|rows| - 1];
      Charges(rows[..|rows| - 1]) + (if r.cost > 0 then r.cost else 0) + if r.reverseCost > 0 then r.reverseCost else 0
  }

  /** The row read from the other end: ends and costs exchanged. */
  function TurnedRound(r: EdgeRow): EdgeRow {
    EdgeRow(r.id, r.target, r.source, r.reverseCost, r.cost)
  }

  lemma {:induction false} KeptAreOffered(rows: seq<EdgeRow>)
    ensures forall e :: e in KeptEdges(rows) <==> exists r :: r in rows && Offers(r, e)
  {
    if rows != [] {
      var front, last := rows[..|rows| - 1], rows[|rows| - 1];
      KeptAreOffered(front);
      assert rows == front + [last];
      forall e ensures e in Kept(last) <==> Offers(last, e) {
      }
      hide Kept, Offers;
      assert forall r :: r in rows <==> r in front || r == last;
    }
  }

  lemma {:induction false} KeptCost(rows: seq<EdgeRow>)
    ensures Cost(KeptEdges(rows)) == Charges(rows)
  {
    if rows != [] {
      var front, r := rows[..|rows| - 1], rows[|rows| - 1];
      KeptCost(front);
      hide Cost;
      var es := KeptEdges(front);
      var there := Edge(r.id, r.source, r.target, PositivePart(r.cost));
      var back := Edge(r.id, r.target, r.source, PositivePart(r.reverseCost));
      var es' := if r.cost > 0 then es + [there] else es;
      CostSnoc(es, there);
      CostSnoc(es', back);
      assert KeptEdges(rows) == if r.reverseCost > 0 then es' + [back] else es';
    } else {
      assert Cost(KeptEdges(rows)) == 0;
    }
  }

  /** Whichever end a row is read from, the same edges are kept, each as often. */
  lemma {:induction false} TurnedKeepsBag(rows: seq<EdgeRow>, i: nat)
    requires i < |rows|
    ensures multiset(KeptEdges(rows[i := TurnedRound(rows[i])])) == multiset(KeptEdges(rows))
  {
    hide *;
    var turned := rows[i := TurnedRound(rows[i])];
    var n := |rows| - 1;
    KeptSnoc(rows);
    KeptSnoc(turned);
    if i == n {
      assert turned[..n] == rows[..n];
      TurnedKeepsOne(rows[n]);
    } else {
      TurnedKeepsBag(rows[..n], i);
      assert turned[..n] == rows[..n][i := TurnedRound(rows[..n][i])];
    }
  }

  lemma {:induction false} KeptSnoc(rows: seq<EdgeRow>)
    requires rows != []
    ensures multiset(KeptEdges(rows)) ==
            multiset(KeptEdges(rows[..|rows| - 1])) + multiset(Kept(rows[|rows| - 1]))
  {
  }

  lemma TurnedKeepsOne(r: EdgeRow)
    ensures multiset(Kept(TurnedRound(r))) == multiset(Kept(r))
  {
  }

  ghost function Degree(es: seq<Edge>, x: nat): int {
    Balance(es, {}, x, |es|)
  }

  lemma {:induction false} BalancePrefix(es: seq<Edge>, more: seq<Edge>, x: nat, n: nat)
    requires n <= |es|
    ensures Balance(es + more, {}, x, n) == Balance(es, {}, x, n)
  {
    if n > 0 {
      BalancePrefix(es, more, x, n - 1);
    }
  }

  lemma DegreeSnoc(es: seq<Edge>, e: Edge, x: nat)
    ensures Degree(es + [e], x) == Degree(es, x) + Turn(e, x)
  {
    BalancePrefix(es, [e], x, |es|);
  }

  method OriginalEdges(rows: seq<EdgeRow>) returns (es: seq<Edge>, vertices: set<nat>)
    ensures es == KeptEdges(rows)
    ensures (forall e :: e in es <==> exists r :: r in rows && Offers(r, e)) && Cost(es) == Charges(rows)
    ensures forall v :: v in vertices <==> Endpoint(es, v)
  {
    KeptAreOffered(rows);
    KeptCost(rows);
    es, vertices := [], {};
    for i := 0 to |rows|
      invariant es == KeptEdges(rows[..i])
      invariant forall v :: v in vertices <==> Endpoint(es, v)
    {
      ghost var es0 := es;
      var r := rows[i];
      assert rows[..i + 1][..i] == rows[..i];
      if r.cost > 0 {
        EndpointSnoc(es, Edge(r.id, r.source, r.target, r.cost));
        es := es + [Edge(r.id, r.source, r.target, r.cost)];
        vertices := vertices + {r.source, r.target};
      }
      if r.reverseCost > 0 {
        EndpointSnoc(es, Edge(r.id, r.target, r.source, r.reverseCost));
        es := es + [Edge(r.id, r.target, r.source, r.reverseCost)];
        vertices := vertices + {r.source, r.target};
      }
      assert es == es0 + Kept(r);
    }
    assert rows[..|rows|] == rows;
  }

  predicate Endpoint(es: seq<Edge>, v: nat) {
    exists k :: 0 <= k < |es| && (es[k].source == v || es[k].target == v)
  }

  lemma EndpointSnoc(es: seq<Edge>, e: Edge)
    ensures forall v :: Endpoint(es + [e], v) <==> Endpoint(es, v) || v == e.source || v == e.target
  {
    forall v ensures Endpoint(es + [e], v) <==> Endpoint(es, v) || v == e.source || v == e.target {
      assert (es + [e])[|es|] == e;
      if k :| 0 <= k < |es| && (es[k].source == v || es[k].target == v) {
        assert (es + [e])[k] == es[k];
      }
    }
  }

  // ---------- the cheapest edge between two vertices ----------

  type EdgeIndex = map<(nat, nat), Edge>

  /** For every pair of ends that occurs, one of its edges of lowest cost. */
  ghost predicate CheapestOf(es: seq<Edge>, index: EdgeIndex) {
    && (forall k :: 0 <= k < |es| ==>
          (es[k].source, es[k].target) in index && index[(es[k].source, es[k].target)].cost <= es[k].cost)
    && (forall p :: p in index ==> index[p] in es && (index[p].source, index[p].target) == p)
  }

  /** `deg` has the degree of every vertex of the edges, and of no other. */
  ghost predicate DegreesOf(es: seq<Edge>, deg: map<nat, int>) {
    && (forall v :: v in deg <==> Endpoint(es, v))
    && (forall v :: Degree(es, v) == if v in deg then deg[v] else 0)
  }

  lemma DegreesStep(es: seq<Edge>, e: Edge, deg: map<nat, int>)
    requires DegreesOf(es, deg)
    ensures var deg' := deg[e.source := (if e.source in deg then deg[e.source] else 0) + 1];
      DegreesOf(es + [e], deg'[e.target := (if e.target in deg' then deg'[e.target] else 0) - 1])
  {
    hide Degree, Endpoint;
    EndpointSnoc(es, e);
    forall v ensures Degree(es + [e], v) == Degree(es, v) + Turn(e, v) {
      DegreeSnoc(es, e, v);
    }
  }

  /** Counts, for each vertex, edges out minus edges in, and remembers the cheapest edge for each pair of ends. */
  method DegreesAndCheapest(es: seq<Edge>) returns (deg: map<nat, int>, index: EdgeIndex)
    ensures DegreesOf(es, deg) && CheapestOf(es, index)
  {
    deg, index := map[], map[];
    for i := 0 to |es|
      invariant DegreesOf(es[..i], deg) && CheapestOf(es[..i], index)
    {
      hide DegreesOf, CheapestOf;
      var e := es[i];
      assert es[..i + 1] == es[..i] + [e];
      DegreesStep(es[..i], e, deg);
      CheapestStep(es[..i], e, index);
      deg := deg[e.source := (if e.source in deg then deg[e.source] else 0) + 1];
      deg := deg[e.target := (if e.target in deg then deg[e.target] else 0) - 1];
      var p := (e.source, e.target);
      if p !in index {
        index := index[p := e];
      } else if index[p].cost > e.cost {
        index := index[p := e];
      }
    }
    assert es[..|es|] == es;
  }

  lemma CheapestStep(es: seq<Edge>, e: Edge, index: EdgeIndex)
    requires CheapestOf(es, index)
    ensures var p := (e.source, e.target);
      CheapestOf(es + [e], if p in index && index[p].cost <= e.cost then index else index[p := e])
  {
    var all := es + [e];
    assert forall k :: 0 <= k < |es| ==> all[k] == es[k];
    assert all[|es|] == e;
  }

  // ---------- adding the flow ----------

  predicate Super(f: Flow, superSource: nat, superTarget: nat) {
    f.source == superSource || f.source == superTarget || f.target == superSource || f.target == superTarget
  }

  function FlowTurn(f: Flow, x: nat): int {
    f.flow * ((if f.source == x then 1 else 0) - (if f.target == x then 1 else 0))
  }

  /** Flow out of `x` minus flow into `x`: along all edges, and along the original ones only. */
  function NetFlow(flows: seq<Flow>, x: nat): int {
    if flows == [] then 0 else NetFlow(flows[..|flows| - 1], x) + FlowTurn(flows[|flows| - 1], x)
  }

  function NetAdded(flows: seq<Flow>, superSource: nat, superTarget: nat, x: nat): int {
    if flows == [] then 0
    else
      var f := flows[|flows| - 1];
      NetAdded(flows[..|flows| - 1], superSource, superTarget, x) +
      if Super(f, superSource, superTarget) then 0 else FlowTurn(f, x)
  }

  /** Total flow reported from `a` to `b`. */
  function Through(flows: seq<Flow>, a: nat, b: nat): nat {
    if flows == [] then 0
    else
      var f := flows[|flows| - 1];
      Through(flows[..|flows| - 1], a, b) + if f.source == a && f.target == b then f.flow else 0
  }

  function PositivePart(d: int): nat {
    if d > 0 then d else 0
  }

  /** The flow is conserved at every vertex and fills every super edge: out of the super source into the vertices
      with too few ways out, and from the vertices with too many into the super target. */
  ghost predicate Saturating(es: seq<Edge>, superSource: nat, superTarget: nat, flows: seq<Flow>) {
    && superSource != superTarget && !Endpoint(es, superSource) && !Endpoint(es, superTarget)
    && (forall i :: 0 <= i < |flows| ==>
          flows[i].target != superSource && flows[i].source != superTarget &&
          !(flows[i].source == superSource && flows[i].target == superTarget))
    && (forall x :: x != superSource && x != superTarget ==>
          NetFlow(flows, x) == 0 &&
          Through(flows, x, superTarget) == PositivePart(Degree(es, x)) &&
          Through(flows, superSource, x) == PositivePart(-Degree(es, x)))
  }

  lemma {:induction false} NetAddedIsTheRest(flows: seq<Flow>, superSource: nat, superTarget: nat, x: nat)
    requires superSource != superTarget && x != superSource && x != superTarget
    requires forall i :: 0 <= i < |flows| ==> flows[i].target != superSource && flows[i].source != superTarget
    ensures NetAdded(flows, superSource, superTarget, x) ==
            NetFlow(flows, x) - Through(flows, x, superTarget) + Through(flows, superSource, x)
  {
    if flows != [] {
      NetAddedIsTheRest(flows[..|flows| - 1], superSource, superTarget, x);
    }
  }

  function Copies(es: seq<Edge>, e: Edge, times: nat): seq<Edge> {
    if times == 0 then es else Copies(es, e, times - 1) + [e]
  }

  lemma {:induction false} CopiesCount(es: seq<Edge>, e: Edge, times: nat, x: nat)
    ensures Degree(Copies(es, e, times), x) == Degree(es, x) + times * Turn(e, x)
    ensures Cost(Copies(es, e, times)) == Cost(es) + times * e.cost
  {
    if times > 0 {
      CopiesCount(es, e, times - 1, x);
      DegreeSnoc(Copies(es, e, times - 1), e, x);
      CostSnoc(Copies(es, e, times - 1), e);
      assert times * e.cost == (times - 1) * e.cost + e.cost;
      hide Degree, Cost;
      assert times * Turn(e, x) == (times - 1) * Turn(e, x) + Turn(e, x);
    }
  }

  /** Every flow is either super flow or runs along some original edge. */
  ghost predicate Carried(flows: seq<Flow>, index: EdgeIndex, superSource: nat, superTarget: nat) {
    forall i :: 0 <= i < |flows| ==>
      Super(flows[i], superSource, superTarget) || (flows[i].source, flows[i].target) in index
  }

  ghost function WithFlow(es: seq<Edge>, index: EdgeIndex, flows: seq<Flow>, superSource: nat,
                          superTarget: nat): seq<Edge>
    requires Carried(flows, index, superSource, superTarget)
  {
    if flows == [] then es
    else
      var f, before := flows[|flows| - 1], WithFlow(es, index, flows[..|flows| - 1], superSource, superTarget);
      if Super(f, superSource, superTarget) then before else Copies(before, index[(f.source, f.target)], f.flow)
  }

  function AddedCost(flows: seq<Flow>, index: EdgeIndex, superSource: nat, superTarget: nat): nat {
    if flows == [] then 0
    else
      var f := flows[|flows| - 1];
      AddedCost(flows[..|flows| - 1], index, superSource, superTarget) +
      if !Super(f, superSource, superTarget) && (f.source, f.target) in index
      then f.flow * index[(f.source, f.target)].cost else 0
  }

  lemma {:induction false} WithFlowCount(es: seq<Edge>, index: EdgeIndex, flows: seq<Flow>, superSource: nat,
                                         superTarget: nat, x: nat)
    requires CheapestOf(es, index) && Carried(flows, index, superSource, superTarget)
    ensures Degree(WithFlow(es, index, flows, superSource, superTarget), x) ==
            Degree(es, x) + NetAdded(flows, superSource, superTarget, x)
    ensures Cost(WithFlow(es, index, flows, superSource, superTarget)) ==
            Cost(es) + AddedCost(flows, index, superSource, superTarget)
  {
    if flows != [] {
      var f, before := flows[|flows| - 1], WithFlow(es, index, flows[..|flows| - 1], superSource, superTarget);
      WithFlowCount(es, index, flows[..|flows| - 1], superSource, superTarget, x);
      if !Super(f, superSource, superTarget) {
        CopiesCount(before, index[(f.source, f.target)], f.flow, x);
        hide Degree, Cost, Copies;
        assert Turn(index[(f.source, f.target)], x) ==
               (if f.source == x then 1 else 0) - (if f.target == x then 1 else 0);
      }
    }
  }

  /** With the flow added, every vertex is left as often as it is entered. */
  lemma {:induction false} FlowBalances(es: seq<Edge>, index: EdgeIndex, flows: seq<Flow>, superSource: nat,
                                        superTarget: nat, x: nat)
    requires CheapestOf(es, index) && Carried(flows, index, superSource, superTarget)
    requires Saturating(es, superSource, superTarget, flows)
    ensures Degree(WithFlow(es, index, flows, superSource, superTarget), x) == 0
  {
    WithFlowCount(es, index, flows, superSource, superTarget, x);
    if x == superSource || x == superTarget {
      NotAnEndpoint(es, x, |es|);
      NoAddedAtSuper(flows, superSource, superTarget, x);
    } else {
      NetAddedIsTheRest(flows, superSource, superTarget, x);
    }
  }

  lemma {:induction false} NotAnEndpoint(es: seq<Edge>, x: nat, n: nat)
    requires n <= |es| && !Endpoint(es, x)
    ensures Balance(es, {}, x, n) == 0
  {
    if n > 0 {
      NotAnEndpoint(es, x, n - 1);
    }
  }

  lemma {:induction false} NoAddedAtSuper(flows: seq<Flow>, superSource: nat, superTarget: nat, x: nat)
    requires x == superSource || x == superTarget
    ensures NetAdded(flows, superSource, superTarget, x) == 0
  {
    if flows != [] {
      NoAddedAtSuper(flows[..|flows| - 1], superSource, superTarget, x);
    }
  }

  lemma {:induction false} WithFlowMembers(es: seq<Edge>, index: EdgeIndex, flows: seq<Flow>, superSource: nat,
                                           superTarget: nat)
    requires CheapestOf(es, index) && Carried(flows, index, superSource, superTarget)
    ensures es <= WithFlow(es, index, flows, superSource, superTarget)
    ensures forall e :: e in WithFlow(es, index, flows, superSource, superTarget) ==>
              e in es && (e.source, e.target) in index && index[(e.source, e.target)].cost <= e.cost
    ensures forall k :: |es| <= k < |WithFlow(es, index, flows, superSource, superTarget)| ==>
              var e := WithFlow(es, index, flows, superSource, superTarget)[k];
              (e.source, e.target) in index && index[(e.source, e.target)] == e
  {
    if flows == [] {
      forall e | e in es ensures (e.source, e.target) in index && index[(e.source, e.target)].cost <= e.cost {
        var k :| 0 <= k < |es| && es[k] == e;
      }
    } else {
      var f, before := flows[|flows| - 1], WithFlow(es, index, flows[..|flows| - 1], superSource, superTarget);
      WithFlowMembers(es, index, flows[..|flows| - 1], superSource, superTarget);
      if !Super(f, superSource, superTarget) {
        CopiesMembers(before, index[(f.source, f.target)], f.flow);
      }
    }
  }

  lemma {:induction false} CopiesMembers(es: seq<Edge>, e: Edge, times: nat)
    ensures es <= Copies(es, e, times)
    ensures forall k :: |es| <= k < |Copies(es, e, times)| ==> Copies(es, e, times)[k] == e
    ensures forall x :: x in Copies(es, e, times) ==> x in es || x == e
  {
    if times > 0 {
      CopiesMembers(es, e, times - 1);
    }
  }

  /** The original edges, then one more copy of the cheapest edge for every unit of flow between its ends. */
  method AddFlow(es: seq<Edge>, index: EdgeIndex, flows: seq<Flow>, superSource: nat, superTarget: nat)
    returns (resultEdges: seq<Edge>)
    requires Carried(flows, index, superSource, superTarget)
    ensures resultEdges == WithFlow(es, index, flows, superSource, superTarget)
  {
    resultEdges := es;
    for i := 0 to |flows|
      invariant resultEdges == WithFlow(es, index, flows[..i], superSource, superTarget)
    {
      var f := flows[i];
      assert flows[..i + 1][..i] == flows[..i];
      if !Super(f, superSource, superTarget) {
        var newEdge := index[(f.source, f.target)];
        ghost var before := resultEdges;
        var flow := f.flow;
        while flow > 0
          invariant 0 <= flow <= f.flow
          invariant resultEdges == Copies(before, newEdge, f.flow - flow)
        {
          resultEdges := resultEdges + [newEdge];
          flow := flow - 1;
        }
      }
    }
    assert flows[..|flows|] == flows;
  }

  lemma {:induction false} CostSnoc(es: seq<Edge>, e: Edge)
    ensures Cost(es + [e]) == Cost(es) + e.cost
  {
    if es == [] {
      assert [] + [e] == [e] && [e][1..] == [];
    } else {
      assert (es + [e])[1..] == es[1..] + [e];
      CostSnoc(es[1..], e);
    }
  }

  // ---------- the route ----------

  /** Row `i` takes a cheapest edge to the next node, the last row closes, and the costs add up. */
  ghost predicate Routed(nodes: seq<nat>, index: EdgeIndex, path: seq<Row>) {
    && |path| == |nodes| && nodes != []
    && (forall i :: 0 <= i < |path| ==> path[i].node == nodes[i])
    && (forall i :: 0 <= i < |path| - 1 ==> RowOf(nodes, index, path[i], i))
    && path[|path| - 1].edge == -1 && path[|path| - 1].cost == 0
    && Aggregated(path)
  }

  ghost predicate RowOf(nodes: seq<nat>, index: EdgeIndex, row: Row, i: nat)
    requires i + 1 < |nodes|
  {
    var p := (nodes[i], nodes[i + 1]);
    p in index && row.edge == index[p].id && row.cost == index[p].cost
  }

  /** Pops the stack and lays down a row for each step. */
  method BuildResultPath(index: EdgeIndex, stack: seq<nat>) returns (path: seq<Row>)
    requires forall p :: p in index ==> (index[p].source, index[p].target) == p
    requires forall i :: 0 < i < |stack| ==> (stack[i], stack[i - 1]) in index
    ensures stack == [] ==> path == []
    ensures stack != [] ==> Routed(Reversed(stack), index, path)
  {
    path := [];
    if stack == [] {
      return;
    }
    hide Routed, RowsSoFar, RowOf, Reversed;
    ghost var nodes := Reversed(stack);
    var pathStack := stack[..|stack| - 1];
    var preNode := stack[|stack| - 1];
    NoRows(nodes, index);
    while pathStack != []
      invariant |pathStack| < |stack| && pathStack == stack[..|pathStack|]
      invariant |path| + |pathStack| + 1 == |stack|
      invariant preNode == stack[|pathStack|]
      invariant RowsSoFar(nodes, index, path)
      decreases |pathStack|
    {
      var nowNode := pathStack[|pathStack| - 1];
      assert preNode == nodes[|path|] && nowNode == nodes[|path| + 1];
      var e := index[(preNode, nowNode)];
      var agg := if path == [] then 0 else path[|path| - 1].aggCost + path[|path| - 1].cost;
      MoreRows(nodes, index, path, Row(e.source, e.id, e.cost, agg));
      path := path + [Row(e.source, e.id, e.cost, agg)];
      pathStack := pathStack[..|pathStack| - 1];
      preNode := nowNode;
    }
    LastRow(nodes, index, path);
    path := path + [Row(preNode, -1, 0, if path == [] then 0 else path[|path| - 1].aggCost + path[|path| - 1].cost)];
  }

  lemma NoRows(nodes: seq<nat>, index: EdgeIndex)
    requires nodes != []
    ensures RowsSoFar(nodes, index, [])
  {
  }

  lemma LastRow(nodes: seq<nat>, index: EdgeIndex, path: seq<Row>)
    requires RowsSoFar(nodes, index, path) && |path| + 1 == |nodes|
    ensures var agg := if path == [] then 0 else path[|path| - 1].aggCost + path[|path| - 1].cost;
      Routed(nodes, index, path + [Row(nodes[|path|], -1, 0, agg)])
  {
    hide Aggregated;
    var agg := if path == [] then 0 else path[|path| - 1].aggCost + path[|path| - 1].cost;
    AggregatedSnoc(path, Row(nodes[|path|], -1, 0, agg));
  }

  ghost predicate RowsSoFar(nodes: seq<nat>, index: EdgeIndex, path: seq<Row>) {
    && |path| < |nodes|
    && (forall i :: 0 <= i < |path| ==> path[i].node == nodes[i] && RowOf(nodes, index, path[i], i))
    && Aggregated(path)
  }

  lemma MoreRows(nodes: seq<nat>, index: EdgeIndex, path: seq<Row>, row: Row)
    requires RowsSoFar(nodes, index, path) && |path| + 1 < |nodes|
    requires row.node == nodes[|path|]
    requires (nodes[|path|], nodes[|path| + 1]) in index
    requires var e := index[(nodes[|path|], nodes[|path| + 1])]; row.edge == e.id && row.cost == e.cost
    requires row.aggCost == if path == [] then 0 else path[|path| - 1].aggCost + path[|path| - 1].cost
    ensures RowsSoFar(nodes, index, path + [row])
  {
    hide Aggregated;
    AggregatedSnoc(path, row);
  }

  /** No original edge has a cheaper parallel. */
  ghost predicate NoDearerParallel(es: seq<Edge>) {
    forall e, f :: e in es && f in es && e.source == f.source && e.target == f.target ==> e.cost <= f.cost
  }

  // ---------- the cost of the route ----------

  function Price(index: EdgeIndex, e: Edge): nat {
    if (e.source, e.target) in index then index[(e.source, e.target)].cost else 0
  }

  /** What taking the cheapest edge for each of the result edges costs. */
  function Prices(index: EdgeIndex, es: seq<Edge>): nat {
    if es == [] then 0 else Price(index, es[0]) + Prices(index, es[1..])
  }

  ghost function Along(es: seq<Edge>, w: seq<nat>): seq<Edge> {
    seq(|w|, i requires 0 <= i < |w| => if w[i] < |es| then es[w[i]] else Edge(0, 0, 0, 0))
  }

  lemma {:induction false} PricesAppend(index: EdgeIndex, a: seq<Edge>, b: seq<Edge>)
    ensures Prices(index, a + b) == Prices(index, a) + Prices(index, b)
  {
    if a == [] {
      assert a + b == b;
    } else {
      assert (a + b)[1..] == a[1..] + b;
      PricesAppend(index, a[1..], b);
    }
  }

  // ---------- sums over edges ----------

  function Total(f: Edge -> int, es: seq<Edge>): int {
    if es == [] then 0 else f(es[0]) + Total(f, es[1..])
  }

  lemma {:induction false} TotalSnoc(f: Edge -> int, es: seq<Edge>, e: Edge)
    ensures Total(f, es + [e]) == Total(f, es) + f(e)
  {
    if es == [] {
      assert [] + [e] == [e] && [e][1..] == [];
    } else {
      assert (es + [e])[1..] == es[1..] + [e];
      TotalSnoc(f, es[1..], e);
    }
  }

  /** The sum over the edges with numbers in `chosen`, below `n`. */
  ghost function TotalOf(f: Edge -> int, es: seq<Edge>, chosen: set<nat>, n: nat): int
    requires n <= |es|
  {
    if n == 0 then 0
    else TotalOf(f, es, chosen, n - 1) + if n - 1 in chosen then f(es[n - 1]) else 0
  }

  lemma {:induction false} ChooseOneMore(f: Edge -> int, es: seq<Edge>, chosen: set<nat>, k: nat, n: nat)
    requires n <= |es| && k < |es| && k !in chosen
    ensures TotalOf(f, es, chosen + {k}, n) == TotalOf(f, es, chosen, n) + if k < n then f(es[k]) else 0
  {
    if n > 0 {
      ChooseOneMore(f, es, chosen, k, n - 1);
    }
  }

  lemma {:induction false} ChooseAll(f: Edge -> int, es: seq<Edge>, chosen: set<nat>, n: nat)
    requires n <= |es| && forall k :: 0 <= k < n ==> k in chosen
    ensures TotalOf(f, es, chosen, n) == Total(f, es[..n])
  {
    if n > 0 {
      ChooseAll(f, es, chosen, n - 1);
      assert es[..n] == es[..n - 1] + [es[n - 1]];
      TotalSnoc(f, es[..n - 1], es[n - 1]);
    }
  }

  lemma {:induction false} ChooseNone(f: Edge -> int, es: seq<Edge>, n: nat)
    requires n <= |es|
    ensures TotalOf(f, es, {}, n) == 0
  {
    if n > 0 {
      ChooseNone(f, es, n - 1);
    }
  }

  ghost function Numbers(w: seq<nat>): set<nat> {
    set k | k in w
  }

  ghost predicate Different(w: seq<nat>) {
    forall i, j :: 0 <= i < j < |w| ==> w[i] != w[j]
  }

  /** A trail that takes no edge twice sums up each edge it takes once. */
  lemma {:induction false} AlongSums(f: Edge -> int, es: seq<Edge>, w: seq<nat>)
    requires Different(w) && forall k :: k in w ==> k < |es|
    ensures Total(f, Along(es, w)) == TotalOf(f, es, Numbers(w), |es|)
  {
    if w == [] {
      assert Numbers(w) == {} && Along(es, w) == [];
      ChooseNone(f, es, |es|);
    } else {
      var n := |w| - 1;
      var front, last := w[..n], w[n];
      assert w == front + [last] && last in w;
      assert forall k :: k in front ==> k in w;
      AlongSums(f, es, front);
      assert last !in Numbers(front);
      ChooseOneMore(f, es, Numbers(front), last, |es|);
      assert Numbers(w) == Numbers(front) + {last};
      assert Along(es, w) == Along(es, front) + [es[last]];
      TotalSnoc(f, Along(es, front), es[last]);
    }
  }

  /** A trail that takes every edge once sums up all the edges. */
  lemma {:induction false} AlongSumsAll(f: Edge -> int, es: seq<Edge>, w: seq<nat>)
    requires Different(w) && (forall k :: k in w ==> k < |es|) && forall k :: 0 <= k < |es| ==> k in w
    ensures Total(f, Along(es, w)) == Total(f, es)
  {
    AlongSums(f, es, w);
    ChooseAll(f, es, Numbers(w), |es|);
    assert es[..|es|] == es;
  }

  function PriceOf(index: EdgeIndex): Edge -> int {
    (e: Edge) => Price(index, e)
  }

  lemma {:induction false} PricesTotal(index: EdgeIndex, es: seq<Edge>)
    ensures Prices(index, es) == Total(PriceOf(index), es)
  {
    if es != [] {
      PricesTotal(index, es[1..]);
    }
  }

  lemma {:induction false} RoutePrices(nodes: seq<nat>, index: EdgeIndex, path: seq<Row>, taken: seq<Edge>, n: nat)
    requires Routed(nodes, index, path) && |taken| == |path| - 1 && n < |path|
    requires forall i :: 0 <= i < |taken| ==> taken[i].source == nodes[i] && taken[i].target == nodes[i + 1]
    ensures path[n].aggCost == Prices(index, taken[..n])
  {
    if n > 0 {
      RoutePrices(nodes, index, path, taken, n - 1);
      assert RowOf(nodes, index, path[n - 1], n - 1);
      assert taken[..n] == taken[..n - 1] + [taken[n - 1]];
      PricesAppend(index, taken[..n - 1], [taken[n - 1]]);
      assert [taken[n - 1]][1..] == [];
    }
  }

  lemma {:induction false} PricesBelowCost(index: EdgeIndex, es: seq<Edge>)
    requires forall e :: e in es ==> Price(index, e) <= e.cost
    ensures Prices(index, es) <= Cost(es)
    ensures Prices(index, es) == Cost(es) <==> forall e :: e in es ==> Price(index, e) == e.cost
  {
    if es != [] {
      PricesBelowCost(index, es[1..]);
      assert es == [es[0]] + es[1..];
    }
  }

  lemma {:induction false} TrailNodes(es: seq<Edge>, start: nat, w: seq<nat>, r: nat, i: nat)
    requires Trail(es, start, w, r) && i < |w|
    ensures w[i] < |es| && es[w[i]].source == ([start] + Targets(es, w))[i]
    ensures es[w[i]].target == ([start] + Targets(es, w))[i + 1]
    decreases w
  {
    if i > 0 {
      TrailNodes(es, es[w[0]].target, w[1..], r, i - 1);
      assert Targets(es, w)[i - 1] == ([es[w[0]].target] + Targets(es, w[1..]))[i - 1];
    }
  }

  /** The route's total is what the result edges cost exactly when no original edge has a cheaper parallel. */
  lemma {:induction false} RouteCost(es: seq<Edge>, index: EdgeIndex, flows: seq<Flow>, superSource: nat,
                                     superTarget: nat, start: nat, w: seq<nat>, path: seq<Row>)
    requires CheapestOf(es, index) && Carried(flows, index, superSource, superTarget)
    requires var res := WithFlow(es, index, flows, superSource, superTarget);
      Circuit(res, start, w) && Routed([start] + Targets(res, w), index, path)
    requires forall k :: 0 <= k < |WithFlow(es, index, flows, superSource, superTarget)| ==> k in w
    ensures path[|path| - 1].aggCost <= Cost(es) + AddedCost(flows, index, superSource, superTarget)
    ensures path[|path| - 1].aggCost == Cost(es) + AddedCost(flows, index, superSource, superTarget) <==>
      NoDearerParallel(es)
  {
    var res := WithFlow(es, index, flows, superSource, superTarget);
    var taken, nodes := Along(res, w), [start] + Targets(res, w);
    forall i | 0 <= i < |taken| ensures taken[i].source == nodes[i] && taken[i].target == nodes[i + 1] {
      TrailNodes(res, start, w, start, i);
    }
    RoutePrices(nodes, index, path, taken, |path| - 1);
    assert taken[..|path| - 1] == taken;
    TrailInRange(res, start, w, start);
    AlongSumsAll(PriceOf(index), res, w);
    PricesTotal(index, taken);
    PricesTotal(index, res);
    WithFlowMembers(es, index, flows, superSource, superTarget);
    WithFlowCount(es, index, flows, superSource, superTarget, 0);
    PricesBelowCost(index, res);
    FairMeansNoDearer(es, index, res);
  }

  lemma FairMeansNoDearer(es: seq<Edge>, index: EdgeIndex, res: seq<Edge>)
    requires CheapestOf(es, index) && es <= res && forall e :: e in res ==> e in es
    ensures (forall e :: e in res ==> Price(index, e) == e.cost) <==> NoDearerParallel(es)
  {
    forall e | e in es ensures e in res && (e.source, e.target) in index && index[(e.source, e.target)].cost <= e.cost {
      var k :| 0 <= k < |es| && es[k] == e;
      assert res[k] == e;
    }
  }

  // ---------- the whole computation ----------

  /** The flow fills every super edge, and all the rest of it runs along original edges. */
  ghost predicate FlowFor(es: seq<Edge>, superSource: nat, superTarget: nat, flows: seq<Flow>) {
    && Saturating(es, superSource, superTarget, flows)
    && forall i :: 0 <= i < |flows| ==> Super(flows[i], superSource, superTarget) || OnSomeEdge(es, flows[i])
  }

  ghost predicate OnSomeEdge(es: seq<Edge>, f: Flow) {
    exists k :: 0 <= k < |es| && es[k].source == f.source && es[k].target == f.target
  }

  lemma FlowIsCarried(es: seq<Edge>, index: EdgeIndex, superSource: nat, superTarget: nat, flows: seq<Flow>)
    requires CheapestOf(es, index) && FlowFor(es, superSource, superTarget, flows)
    ensures Carried(flows, index, superSource, superTarget)
  {
  }

  /** The route follows a circuit through every result edge: each original edge and a copy per unit of flow.
      Its total is what those cost exactly when no original edge has a cheaper parallel. */
  ghost predicate PostmanRoute(es: seq<Edge>, index: EdgeIndex, flows: seq<Flow>, superSource: nat, superTarget: nat,
                               start: nat, w: seq<nat>, path: seq<Row>)
    requires Carried(flows, index, superSource, superTarget)
  {
    var res := WithFlow(es, index, flows, superSource, superTarget);
    && Circuit(res, start, w)
    && (forall k :: 0 <= k < |res| ==> k in w)
    && Routed([start] + Targets(res, w), index, path)
    && (path[|path| - 1].aggCost == Cost(es) + AddedCost(flows, index, superSource, superTarget) <==>
        NoDearerParallel(es))
  }

  /** Every vertex of the kept edges can be reached from `start` along result edges. */
  ghost predicate AllInReach(es: seq<Edge>, res: seq<Edge>, start: nat) {
    forall v :: Endpoint(es, v) ==> Reaches(res, start, v)
  }

  /** Where the traversal begins: looking up a start that no edge leaves gives the first list there is. */
  ghost function Served(es: seq<Edge>, start: nat): nat
    requires es != []
  {
    if Leaves(es, start) then start else es[0].source
  }

  ghost predicate Leaves(es: seq<Edge>, v: nat) {
    exists k :: 0 <= k < |es| && es[k].source == v
  }

  /** Builds the adjacency lists and traverses a balanced graph. */
  method Traverse(resultEdges: seq<Edge>, start: nat) returns (stack: seq<nat>, visited: set<nat>, ghost w: seq<nat>)
    requires Balanced(resultEdges) && resultEdges != []
    ensures Circuit(resultEdges, Served(resultEdges, start), w)
    ensures Reversed(stack) == [start] + Targets(resultEdges, w)
    ensures forall v :: v in visited <==> v == start || Reaches(resultEdges, Served(resultEdges, start), v)
  {
    var resultGraph, vToVecid := BuildResultGraph(resultEdges);
    BalancedWaysOn(resultEdges, resultGraph, vToVecid);
    ghost var s := Served(resultEdges, start);
    SameServed(resultEdges, resultGraph, vToVecid, start);
    assert Leftover(resultEdges, {}, s, s);
    hide Balanced, Indexed, WaysOn, Finished, Leftover, Circuit, Reaches, Targets, Reversed;
    var t := new Traversal(resultEdges, resultGraph, vToVecid);
    w := t.EulerCircuitDFS(start, s);
    FinishedIsCircuit(resultEdges, Log(t.edgeVisited, t.vertexVisited, t.pathStack), start, s, w);
    stack, visited := t.pathStack, t.vertexVisited;
  }

  lemma SameServed(es: seq<Edge>, graph: seq<seq<nat>>, index: map<nat, nat>, start: nat)
    requires es != [] && Indexed(es, graph, index)
    ensures Served(es, start) == Hierholzer.Served(es, index, start)
    ensures exists k :: 0 <= k < |es| && es[k].source == Served(es, start)
  {
    if start in index {
      var list := graph[index[start]];
      assert ListOf(es, list, start, |es|);
      assert list[0] in list && es[list[0]].source == start;
    }
  }

  lemma VisitedAll(es: seq<Edge>, vertices: set<nat>, res: seq<Edge>, start: nat, s: nat, visited: set<nat>)
    requires forall v :: v in vertices <==> Endpoint(es, v)
    requires forall v :: v in visited <==> v == start || Reaches(res, s, v)
    requires s == start || !Endpoint(es, start)
    ensures vertices - visited == {} <==> AllInReach(es, res, s)
  {
    hide Endpoint;
    assert Trail(res, s, [], s) && Reaches(res, s, s);
    hide Reaches;
    if vertices - visited == {} {
      forall v | Endpoint(es, v) ensures Reaches(res, s, v) {
        assert v in vertices && v !in vertices - visited;
      }
    }
  }

  lemma {:induction false} RouteIsPostmans(es: seq<Edge>, index: EdgeIndex, flows: seq<Flow>, superSource: nat,
                                           superTarget: nat, start: nat, w: seq<nat>, path: seq<Row>)
    requires CheapestOf(es, index) && Carried(flows, index, superSource, superTarget)
    requires var res := WithFlow(es, index, flows, superSource, superTarget);
      Circuit(res, start, w) && AllInReach(es, res, start) && Routed([start] + Targets(res, w), index, path)
    ensures path != [] && PostmanRoute(es, index, flows, superSource, superTarget, start, w, path)
  {
    EveryEdgeTaken(es, index, flows, superSource, superTarget, start, w);
    RouteCost(es, index, flows, superSource, superTarget, start, w, path);
  }

  lemma {:induction false} ResultIsBalanced(es: seq<Edge>, index: EdgeIndex, flows: seq<Flow>, superSource: nat,
                                            superTarget: nat)
    requires CheapestOf(es, index) && Carried(flows, index, superSource, superTarget)
    requires FlowFor(es, superSource, superTarget, flows)
    ensures Balanced(WithFlow(es, index, flows, superSource, superTarget))
  {
    var res := WithFlow(es, index, flows, superSource, superTarget);
    forall x ensures Balance(res, {}, x, |res|) == 0 {
      FlowBalances(es, index, flows, superSource, superTarget, x);
      assert Degree(res, x) == 0;
    }
  }

  /** In a balanced graph some edge leaves every vertex that lies on an edge. */
  lemma SomeEdgeLeaves(res: seq<Edge>, v: nat, k: nat)
    requires Balanced(res) && k < |res| && (res[k].source == v || res[k].target == v)
    ensures exists j :: 0 <= j < |res| && res[j].source == v
  {
    if forall j :: 0 <= j < |res| ==> res[j].source != v {
      EnteredMeansLeft(res, v, |res|);
      assert false;
    }
  }

  /** The start vertex lies on an original edge, so some result edge leaves it. */
  lemma {:induction false} StartIsKnown(es: seq<Edge>, start: nat, index: EdgeIndex, flows: seq<Flow>, superSource: nat,
                                        superTarget: nat)
    requires Endpoint(es, start)
    requires CheapestOf(es, index) && Carried(flows, index, superSource, superTarget)
    requires Balanced(WithFlow(es, index, flows, superSource, superTarget))
    ensures var res := WithFlow(es, index, flows, superSource, superTarget);
      exists k :: 0 <= k < |res| && res[k].source == start
  {
    var res := WithFlow(es, index, flows, superSource, superTarget);
    WithFlowMembers(es, index, flows, superSource, superTarget);
    var k :| 0 <= k < |es| && (es[k].source == start || es[k].target == start);
    assert res[k] == es[k];
    hide WithFlow;
    SomeEdgeLeaves(res, start, k);
  }

  lemma {:induction false} EveryEdgeTaken(es: seq<Edge>, index: EdgeIndex, flows: seq<Flow>, superSource: nat,
                                          superTarget: nat, start: nat, w: seq<nat>)
    requires CheapestOf(es, index) && Carried(flows, index, superSource, superTarget)
    requires Circuit(WithFlow(es, index, flows, superSource, superTarget), start, w)
    requires forall v :: Endpoint(es, v) ==> Reaches(WithFlow(es, index, flows, superSource, superTarget), start, v)
    ensures forall k :: 0 <= k < |WithFlow(es, index, flows, superSource, superTarget)| ==> k in w
  {
    var res := WithFlow(es, index, flows, superSource, superTarget);
    WithFlowMembers(es, index, flows, superSource, superTarget);
    forall k | 0 <= k < |res| ensures k in w {
      assert res[k] in es;
      var j :| 0 <= j < |es| && es[j] == res[k];
      assert Endpoint(es, res[k].source);
    }
  }

  lemma {:induction false} StackInIndex(es: seq<Edge>, index: EdgeIndex, flows: seq<Flow>, superSource: nat,
                                        superTarget: nat, start: nat, w: seq<nat>, stack: seq<nat>)
    requires CheapestOf(es, index) && Carried(flows, index, superSource, superTarget)
    requires var res := WithFlow(es, index, flows, superSource, superTarget);
      Circuit(res, start, w) && Reversed(stack) == [start] + Targets(res, w)
    ensures stack != []
    ensures forall p :: p in index ==> (index[p].source, index[p].target) == p
    ensures forall i :: 0 < i < |stack| ==> (stack[i], stack[i - 1]) in index
  {
    var res := WithFlow(es, index, flows, superSource, superTarget);
    var nodes := [start] + Targets(res, w);
    WithFlowMembers(es, index, flows, superSource, superTarget);
    forall i | 0 < i < |stack| ensures (stack[i], stack[i - 1]) in index {
      var j := |stack| - 1 - i;
      assert stack[i] == Reversed(stack)[j] == nodes[j];
      assert stack[i - 1] == Reversed(stack)[j + 1] == nodes[j + 1];
      TrailNodes(res, start, w, start, j);
      assert res[w[j]] in res;
    }
    assert |Reversed(stack)| > 0;
  }
}
