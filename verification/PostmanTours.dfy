/** include/chinese/chinesePostman.hpp as a whole: the cost it reports is that of a cheapest tour over every edge. */
module PostmanTours {
  import opened Graphs
  import opened Paths
  import opened Hierholzer
  import opened ChinesePostman
  import opened FlowNetwork

  /** A closed walk from `v` that takes every edge at least once. */
  ghost predicate Tour(es: seq<Edge>, v: nat, w: seq<nat>) {
    Trail(es, v, w, v) && forall k :: 0 <= k < |es| ==> k in w
  }

  // ---------- sums along a tour ----------

  function TurnOf(x: nat): Edge -> int {
    (e: Edge) => Turn(e, x)
  }

  function CostOf(): Edge -> int {
    (e: Edge) => e.cost
  }

  lemma {:induction false} CostTotal(es: seq<Edge>)
    ensures Cost(es) == Total(CostOf(), es)
  {
    if es != [] {
      CostTotal(es[1..]);
    }
  }

  lemma {:induction false} DegreeTotal(es: seq<Edge>, x: nat)
    ensures Degree(es, x) == Total(TurnOf(x), es)
  {
    if es != [] {
      var front, e := es[..|es| - 1], es[|es| - 1];
      assert es == front + [e];
      DegreeTotal(front, x);
      DegreeSnoc(front, e, x);
      TotalSnoc(TurnOf(x), front, e);
    }
  }

  /** A trail leaves where it starts once more than it enters, and the other way round where it ends. */
  lemma {:induction false} TrailTurns(es: seq<Edge>, v: nat, w: seq<nat>, r: nat, x: nat)
    requires Trail(es, v, w, r)
    ensures Total(TurnOf(x), Along(es, w)) == (if x == v then 1 else 0) - (if x == r then 1 else 0)
    decreases w
  {
    if w == [] {
      assert Along(es, w) == [];
    } else {
      TrailTurns(es, es[w[0]].target, w[1..], r, x);
      assert Along(es, w)[1..] == Along(es, w[1..]);
    }
  }

  // ---------- the flow of a tour ----------

  /** The first time each edge is taken, and one unit of flow for every further time. */
  function Firsts(w: seq<nat>): seq<nat> {
    if w == [] then []
    else
      var front, k := w[..|w| - 1], w[|w| - 1];
      Firsts(front) + if k in front then [] else [k]
  }

  ghost function Repeats(es: seq<Edge>, w: seq<nat>): seq<Flow> {
    if w == [] then []
    else
      var front, k := w[..|w| - 1], w[|w| - 1];
      Repeats(es, front) + if k in front && k < |es| then [Flow(es[k].source, es[k].target, 1)] else []
  }

  lemma {:induction false} FirstsAre(w: seq<nat>)
    ensures Different(Firsts(w)) && forall k :: k in Firsts(w) <==> k in w
  {
    if w != [] {
      var front := w[..|w| - 1];
      FirstsAre(front);
      assert w == front + [w[|w| - 1]];
    }
  }

  lemma {:induction false} RepeatsRunAlong(es: seq<Edge>, w: seq<nat>)
    ensures forall f :: f in Repeats(es, w) ==> f.flow > 0 && OnSomeEdge(es, f)
  {
    if w != [] {
      RepeatsRunAlong(es, w[..|w| - 1]);
    }
  }

  /** What a walk turns at `x` is what its first times turn and what the flow takes there. */
  lemma {:induction false} RepeatsTurn(es: seq<Edge>, w: seq<nat>, x: nat)
    requires forall k :: k in w ==> k < |es|
    ensures Total(TurnOf(x), Along(es, w)) == Total(TurnOf(x), Along(es, Firsts(w))) + NetFlow(Repeats(es, w), x)
  {
    if w == [] {
      assert Along(es, w) == Along(es, Firsts(w)) == [];
    } else {
      var front, k := w[..|w| - 1], w[|w| - 1];
      assert w == front + [k] && k in w;
      assert forall j :: j in front ==> j in w;
      RepeatsTurn(es, front, x);
      assert Along(es, w) == Along(es, front) + [es[k]];
      TotalSnoc(TurnOf(x), Along(es, front), es[k]);
      if k in front {
        var f := Flow(es[k].source, es[k].target, 1);
        assert Firsts(w) == Firsts(front);
        NetSnoc(Repeats(es, front), f, x);
        assert FlowTurn(f, x) == TurnOf(x)(es[k]);
      } else {
        assert Repeats(es, w) == Repeats(es, front);
        assert Along(es, Firsts(w)) == Along(es, Firsts(front)) + [es[k]];
        TotalSnoc(TurnOf(x), Along(es, Firsts(front)), es[k]);
      }
    }
  }

  /** The flow costs no more than the walk pays beyond the first times. */
  lemma {:induction false} RepeatsCost(es: seq<Edge>, w: seq<nat>, index: EdgeIndex, s: nat, t: nat)
    requires CheapestOf(es, index) && forall k :: k in w ==> k < |es|
    ensures Cost(Along(es, Firsts(w))) + AddedCost(Repeats(es, w), index, s, t) <= Cost(Along(es, w))
  {
    if w == [] {
      assert Along(es, w) == Along(es, Firsts(w)) == [];
    } else {
      hide Cost, AddedCost;
      var front, k := w[..|w| - 1], w[|w| - 1];
      assert w == front + [k] && k in w;
      assert forall j :: j in front ==> j in w;
      RepeatsCost(es, front, index, s, t);
      assert Along(es, w) == Along(es, front) + [es[k]];
      CostSnoc(Along(es, front), es[k]);
      if k in front {
        assert Firsts(w) == Firsts(front);
        AddedSnoc(Repeats(es, front), Flow(es[k].source, es[k].target, 1), index, s, t);
      } else {
        assert Repeats(es, w) == Repeats(es, front);
        assert Along(es, Firsts(w)) == Along(es, Firsts(front)) + [es[k]];
        CostSnoc(Along(es, Firsts(front)), es[k]);
      }
    }
  }

  lemma {:induction false} NetSnoc(flows: seq<Flow>, f: Flow, x: nat)
    ensures NetFlow(flows + [f], x) == NetFlow(flows, x) + FlowTurn(f, x)
  {
    assert (flows + [f])[..|flows|] == flows;
  }

  lemma {:induction false} AddedSnoc(flows: seq<Flow>, f: Flow, index: EdgeIndex, s: nat, t: nat)
    ensures AddedCost(flows + [f], index, s, t) == AddedCost(flows, index, s, t) +
            if !Super(f, s, t) && (f.source, f.target) in index then f.flow * index[(f.source, f.target)].cost else 0
  {
    assert (flows + [f])[..|flows|] == flows;
  }

  lemma {:induction false} ThroughSnoc(flows: seq<Flow>, f: Flow, a: nat, b: nat)
    ensures Through(flows + [f], a, b) == Through(flows, a, b) + if f.source == a && f.target == b then f.flow else 0
  {
    assert (flows + [f])[..|flows|] == flows;
  }

  /** The full pipe at `p`, if there is one. */
  ghost function FullPipe(es: seq<Edge>, s: nat, t: nat, p: nat): seq<Flow> {
    var d := Degree(es, p);
    if d > 0 then [Flow(p, t, d)] else if d < 0 then [Flow(s, p, -d)] else []
  }

  /** `flows` and then full pipes at all vertices below `n`. */
  ghost function WithPipes(es: seq<Edge>, s: nat, t: nat, flows: seq<Flow>, n: nat): seq<Flow> {
    if n == 0 then flows else WithPipes(es, s, t, flows, n - 1) + FullPipe(es, s, t, n - 1)
  }

  lemma {:induction false} PipeAt(es: seq<Edge>, s: nat, t: nat, flows: seq<Flow>, p: nat, x: nat)
    requires p < s < t
    ensures x < s ==>
      NetFlow(flows + FullPipe(es, s, t, p), x) == NetFlow(flows, x) + if x == p then Degree(es, x) else 0
    ensures x > t ==> NetFlow(flows + FullPipe(es, s, t, p), x) == NetFlow(flows, x)
    ensures Through(flows + FullPipe(es, s, t, p), s, x) ==
            Through(flows, s, x) + if x == p then PositivePart(-Degree(es, x)) else 0
    ensures Through(flows + FullPipe(es, s, t, p), x, t) ==
            Through(flows, x, t) + if x == p then PositivePart(Degree(es, x)) else 0
  {
    hide Degree, NetFlow, Through;
    var d := Degree(es, p);
    if d != 0 {
      var f := if d > 0 then Flow(p, t, d) else Flow(s, p, -d);
      NetSnoc(flows, f, x);
      ThroughSnoc(flows, f, s, x);
      ThroughSnoc(flows, f, x, t);
    } else {
      assert flows + [] == flows;
    }
  }

  /** What full pipes add at `x`. */
  lemma {:induction false} PipesAt(es: seq<Edge>, s: nat, t: nat, flows: seq<Flow>, n: nat, x: nat)
    requires n <= s < t
    ensures x < s ==>
      NetFlow(WithPipes(es, s, t, flows, n), x) == NetFlow(flows, x) + if x < n then Degree(es, x) else 0
    ensures x > t ==> NetFlow(WithPipes(es, s, t, flows, n), x) == NetFlow(flows, x)
    ensures Through(WithPipes(es, s, t, flows, n), s, x) ==
            Through(flows, s, x) + if x < n then PositivePart(-Degree(es, x)) else 0
    ensures Through(WithPipes(es, s, t, flows, n), x, t) ==
            Through(flows, x, t) + if x < n then PositivePart(Degree(es, x)) else 0
  {
    hide Degree, NetFlow, Through, FullPipe, PositivePart;
    if n > 0 {
      PipesAt(es, s, t, flows, n - 1, x);
      PipeAt(es, s, t, WithPipes(es, s, t, flows, n - 1), n - 1, x);
    }
  }

  lemma {:induction false} PipesCostNothing(es: seq<Edge>, s: nat, t: nat, flows: seq<Flow>, n: nat, index: EdgeIndex)
    ensures AddedCost(WithPipes(es, s, t, flows, n), index, s, t) == AddedCost(flows, index, s, t)
  {
    hide Degree, AddedCost;
    if n > 0 {
      PipesCostNothing(es, s, t, flows, n - 1, index);
      var d, before := Degree(es, n - 1), WithPipes(es, s, t, flows, n - 1);
      if d != 0 {
        AddedSnoc(before, if d > 0 then Flow(n - 1, t, d) else Flow(s, n - 1, -d), index, s, t);
      } else {
        assert before + [] == before;
      }
    }
  }

  lemma {:induction false} NothingThrough(flows: seq<Flow>, a: nat, b: nat)
    requires forall f :: f in flows ==> f.source != a || f.target != b
    ensures Through(flows, a, b) == 0
  {
    if flows != [] {
      NothingThrough(flows[..|flows| - 1], a, b);
    }
  }

  lemma {:induction false} CapacityMeansPipe(pipes: seq<Pipe>, a: nat, b: nat)
    requires Capacity(pipes, a, b) > 0
    ensures exists p :: p in pipes && p.source == a && p.target == b
  {
    var front, p := pipes[..|pipes| - 1], pipes[|pipes| - 1];
    if !(p.source == a && p.target == b) {
      CapacityMeansPipe(front, a, b);
      var q :| q in front && q.source == a && q.target == b;
      assert q in pipes;
    }
  }

  lemma {:induction false} PipesAreReal(es: seq<Edge>, s: nat, t: nat, pipes: seq<Pipe>, flows: seq<Flow>, n: nat)
    requires PipesFor(es, s, t, pipes) && n <= s && forall f :: f in flows ==> f.flow > 0 && OnSomeEdge(es, f)
    ensures forall f :: f in WithPipes(es, s, t, flows, n) ==> f.flow > 0 && (OnSomeEdge(es, f) || OnSomePipe(pipes, f))
  {
    if n > 0 {
      PipesAreReal(es, s, t, pipes, flows, n - 1);
      var d := Degree(es, n - 1);
      hide OnSomeEdge, Degree;
      if d > 0 {
        CapacityMeansPipe(pipes, n - 1, t);
      } else if d < 0 {
        CapacityMeansPipe(pipes, s, n - 1);
      }
    }
  }

  ghost function TourFlow(es: seq<Edge>, s: nat, t: nat, w: seq<nat>): seq<Flow> {
    WithPipes(es, s, t, Repeats(es, w), s)
  }

  /** Taking the edges of a tour again, over and above once each, fills every pipe. */
  lemma {:induction false} TourFills(es: seq<Edge>, s: nat, t: nat, pipes: seq<Pipe>, v: nat, w: seq<nat>)
    requires PipesFor(es, s, t, pipes) && Tour(es, v, w)
    ensures Feasible(es, s, t, pipes, TourFlow(es, s, t, w))
    ensures Value(TourFlow(es, s, t, w), s) == TotalDegree(es)
  {
    var flows, again := TourFlow(es, s, t, w), Repeats(es, w);
    TrailInRange(es, v, w, v);
    RepeatsRunAlong(es, w);
    PipesAreReal(es, s, t, pipes, again, s);
    RepeatsEnds(es, w);
    forall x: nat ensures x != s && x != t ==> NetFlow(flows, x) == 0
      ensures Through(flows, s, x) == Capacity(pipes, s, x) && Through(flows, x, t) == Capacity(pipes, x, t)
    {
      PipesAt(es, s, t, again, s, x);
      NothingThrough(again, s, x);
      NothingThrough(again, x, t);
      RepeatsNet(es, v, w, x);
      if x > t {
        HighAbove(es, x);
      }
    }
    assert Feasible(es, s, t, pipes, flows);
    FillsAll(es, s, t, pipes, flows);
  }

  lemma {:induction false} HighAbove(es: seq<Edge>, x: nat)
    requires x > Highest(es)
    ensures Degree(es, x) == 0
  {
    HighestIs(es);
    forall k | 0 <= k < |es| ensures es[k].source != x && es[k].target != x {
      assert es[k] in es;
    }
    NotAnEndpoint(es, x, |es|);
  }

  lemma {:induction false} RepeatsEnds(es: seq<Edge>, w: seq<nat>)
    ensures forall f :: f in Repeats(es, w) ==> f.source <= Highest(es) && f.target <= Highest(es)
  {
    RepeatsRunAlong(es, w);
    HighestIs(es);
    forall f | f in Repeats(es, w) ensures f.source <= Highest(es) && f.target <= Highest(es) {
      var k :| 0 <= k < |es| && es[k].source == f.source && es[k].target == f.target;
      assert es[k] in es;
    }
  }

  /** At every vertex the repeats take out what the edges leave too little. */
  lemma {:induction false} RepeatsNet(es: seq<Edge>, v: nat, w: seq<nat>, x: nat)
    requires Tour(es, v, w)
    ensures NetFlow(Repeats(es, w), x) == -Degree(es, x)
  {
    TrailInRange(es, v, w, v);
    TrailTurns(es, v, w, v, x);
    RepeatsTurn(es, w, x);
    FirstsAre(w);
    AlongSumsAll(TurnOf(x), es, Firsts(w));
    DegreeTotal(es, x);
  }

  lemma {:induction false} FillsAll(es: seq<Edge>, s: nat, t: nat, pipes: seq<Pipe>, flows: seq<Flow>)
    requires PipesFor(es, s, t, pipes) && Feasible(es, s, t, pipes, flows)
    requires forall x: nat :: Through(flows, s, x) == Capacity(pipes, s, x)
    ensures Value(flows, s) == TotalDegree(es)
  {
    FlowEnds(es, s, t, pipes, flows);
    ValueIsSum(flows, s, s);
    HighestIs(es);
    SurplusIsLack(es, s);
    SumSame(OutAt(flows, s), Lack(es), s);
  }

  // ---------- the cheapest tour ----------

  /** A largest flow, and the cheapest of these: what the min-cost max-flow computation promises. */
  ghost predicate MinCostMaxFlow(es: seq<Edge>, index: EdgeIndex, s: nat, t: nat, pipes: seq<Pipe>, flows: seq<Flow>) {
    && Feasible(es, s, t, pipes, flows)
    && forall other :: Feasible(es, s, t, pipes, other) ==>
         Value(other, s) < Value(flows, s) ||
         (Value(other, s) == Value(flows, s) && AddedCost(flows, index, s, t) <= AddedCost(other, index, s, t))
  }

  /** If there is a tour, the flow fills every pipe, and no tour costs less than the edges and the flow. */
  lemma {:induction false} NoTourIsCheaper(es: seq<Edge>, index: EdgeIndex, s: nat, t: nat, pipes: seq<Pipe>,
                                           flows: seq<Flow>, v: nat, w: seq<nat>)
    requires PipesFor(es, s, t, pipes) && CheapestOf(es, index) && MinCostMaxFlow(es, index, s, t, pipes, flows)
    requires Tour(es, v, w)
    ensures Value(flows, s) == TotalDegree(es)
    ensures Cost(es) + AddedCost(flows, index, s, t) <= Cost(Along(es, w))
  {
    hide Feasible, PipesFor;
    var other := TourFlow(es, s, t, w);
    TourFills(es, s, t, pipes, v, w);
    FullFlowSaturates(es, s, t, pipes, flows);
    TrailInRange(es, v, w, v);
    RepeatsCost(es, w, index, s, t);
    PipesCostNothing(es, s, t, Repeats(es, w), s, index);
    FirstsAre(w);
    AlongSumsAll(CostOf(), es, Firsts(w));
    CostTotal(es);
    CostTotal(Along(es, Firsts(w)));
  }

  /** A trail over a longer list whose edges are all in the shorter one, over the shorter one. */
  lemma {:induction false} ToOriginal(es: seq<Edge>, res: seq<Edge>, u: nat, w: seq<nat>, r: nat) returns (t: seq<nat>)
    requires Trail(res, u, w, r) && es <= res && forall e :: e in res ==> e in es
    ensures Trail(es, u, t, r) && |t| == |w| && Along(es, t) == Along(res, w) && Targets(es, t) == Targets(res, w)
    ensures forall i :: 0 <= i < |w| && w[i] < |es| ==> t[i] == w[i]
    decreases w
  {
    if w == [] {
      t := [];
    } else {
      var e := res[w[0]];
      assert e in res;
      var j: nat :| j < |es| && es[j] == e;
      var k := if w[0] < |es| then w[0] else j;
      var rest := ToOriginal(es, res, e.target, w[1..], r);
      t := [k] + rest;
      assert t[1..] == rest;
      assert Along(es, t) == [e] + Along(es, rest) && Along(res, w) == [e] + Along(res, w[1..]);
      assert Targets(es, t) == [e.target] + Targets(es, rest) && Targets(res, w) == [e.target] + Targets(res, w[1..]);
    }
  }

  lemma {:induction false} ToLonger(es: seq<Edge>, res: seq<Edge>, u: nat, w: seq<nat>, r: nat)
    requires Trail(es, u, w, r) && es <= res
    ensures Trail(res, u, w, r)
    decreases w
  {
    if w != [] {
      ToLonger(es, res, es[w[0]].target, w[1..], r);
    }
  }

  /** The circuit over the result edges is a tour of the original ones, for what the edges and the flow cost. */
  lemma CircuitIsTour(es: seq<Edge>, index: EdgeIndex, flows: seq<Flow>, s: nat, t: nat, start: nat, w: seq<nat>)
    returns (tour: seq<nat>)
    requires CheapestOf(es, index) && Carried(flows, index, s, t)
    requires Circuit(WithFlow(es, index, flows, s, t), start, w)
    requires forall k :: 0 <= k < |WithFlow(es, index, flows, s, t)| ==> k in w
    ensures Tour(es, start, tour) && Cost(Along(es, tour)) == Cost(es) + AddedCost(flows, index, s, t)
    ensures Targets(es, tour) == Targets(WithFlow(es, index, flows, s, t), w)
  {
    var res := WithFlow(es, index, flows, s, t);
    WithFlowMembers(es, index, flows, s, t);
    tour := ToOriginal(es, res, start, w, start);
    forall k | 0 <= k < |es| ensures k in tour {
      assert k in w;
      var i :| 0 <= i < |w| && w[i] == k;
      assert tour[i] == k;
    }
    TrailInRange(res, start, w, start);
    AlongSumsAll(CostOf(), res, w);
    CostTotal(res);
    CostTotal(Along(res, w));
    WithFlowCount(es, index, flows, s, t, 0);
  }

  /** On a tour everything is in reach. */
  lemma TourReachesAll(es: seq<Edge>, res: seq<Edge>, start: nat, w: seq<nat>)
    requires Tour(es, start, w) && es <= res
    ensures AllInReach(es, res, start)
  {
    forall v | Endpoint(es, v) ensures Reaches(res, start, v) {
      var k: nat :| k < |es| && (es[k].source == v || es[k].target == v);
      assert k in w;
      var i :| 0 <= i < |w| && w[i] == k;
      TrailPrefix(es, start, w, start, i);
      ToLonger(es, res, start, w[..i], es[k].source);
      assert [k][1..] == [];
      assert Trail(res, es[k].source, [k], es[k].target);
      TrailAppend(res, start, w[..i], es[k].source, [k], es[k].target);
    }
  }

  /** Copies of edges lead nowhere else. */
  lemma {:induction false} CopiesReachNoFarther(es: seq<Edge>, index: EdgeIndex, flows: seq<Flow>, s: nat, t: nat,
                                                start: nat)
    requires CheapestOf(es, index) && Carried(flows, index, s, t)
    ensures AllInReach(es, WithFlow(es, index, flows, s, t), start) <==> AllInReach(es, es, start)
  {
    var res := WithFlow(es, index, flows, s, t);
    WithFlowMembers(es, index, flows, s, t);
    hide Endpoint, WithFlow;
    forall v ensures Reaches(es, start, v) <==> Reaches(res, start, v) {
      if w :| Trail(es, start, w, v) {
        ToLonger(es, res, start, w, v);
      }
      if w :| Trail(res, start, w, v) {
        var t := ToOriginal(es, res, start, w, v);
      }
    }
  }

  /** Two circuits apart. */
  const ISLANDS: seq<Edge> := [Edge(1, 0, 1, 1), Edge(2, 1, 0, 1), Edge(3, 2, 3, 1), Edge(4, 3, 2, 1)]

  lemma {:induction false} StaysAshore(w: seq<nat>, u: nat, v: nat)
    requires Trail(ISLANDS, u, w, v)
    ensures u < 2 ==> 2 !in w
    ensures u >= 2 ==> 0 !in w
    decreases w
  {
    if w != [] {
      StaysAshore(w[1..], ISLANDS[w[0]].target, v);
    }
  }

  lemma NoSurplus(x: nat)
    ensures Degree(ISLANDS, x) == 0
  {
    DegreeTotal(ISLANDS, x);
    var two, one := [ISLANDS[2], ISLANDS[3]], [ISLANDS[3]];
    assert ISLANDS[1..][1..] == two && two[1..] == one && one[1..] == [];
  }

  lemma NoIslandTour(v: nat, w: seq<nat>)
    ensures !Tour(ISLANDS, v, w)
  {
    if Trail(ISLANDS, v, w, v) {
      StaysAshore(w, v, v);
    }
  }

  /** On two circuits apart no flow is needed, so their cost is reported, but there is no tour. */
  lemma {:induction false} CostWithoutTour(index: EdgeIndex, s: nat, t: nat, pipes: seq<Pipe>)
    requires PipesFor(ISLANDS, s, t, pipes) && CheapestOf(ISLANDS, index)
    ensures MinCostMaxFlow(ISLANDS, index, s, t, pipes, []) && Value([], s) == TotalDegree(ISLANDS)
    ensures !exists v, w :: Tour(ISLANDS, v, w)
  {
    hide Degree, Tour, Highest, PipesFor, CheapestOf;
    forall x: nat ensures Degree(ISLANDS, x) == 0 {
      NoSurplus(x);
    }
    SumZero(Surplus(ISLANDS), Highest(ISLANDS) + 1);
    forall other | Feasible(ISLANDS, s, t, pipes, other) ensures Value(other, s) == 0 {
      FullFlowSaturates(ISLANDS, s, t, pipes, other);
    }
    forall v, w ensures !Tour(ISLANDS, v, w) {
      NoIslandTour(v, w);
    }
  }

  // ---------- the program ----------

  /** The route is there exactly if there is a tour from `start`. It goes along a tour; the cost reported is that of
      this
      tour, and no tour from anywhere costs less. The route's own total is that cost exactly if no edge has a cheaper
      parallel, and too low otherwise. */
  ghost predicate Answer(es: seq<Edge>, index: EdgeIndex, start: nat, cost: int, path: seq<Row>) {
    && (path != [] <==> exists w :: Tour(es, start, w))
    && (path != [] ==>
          && (exists w ::
                Tour(es, start, w) && Cost(Along(es, w)) == cost && Routed([start] + Targets(es, w), index, path))
          && (forall v, w :: Tour(es, v, w) ==> cost <= Cost(Along(es, w)))
          && path[|path| - 1].aggCost <= cost
          && (path[|path| - 1].aggCost == cost <==> NoDearerParallel(es)))
  }

  /** Two edges from 0 to 1, the second one dearer, and one edge back. */
  const DEARER: seq<Edge> := [Edge(1, 0, 1, 1), Edge(2, 0, 1, 3), Edge(3, 1, 0, 1)]

  /** There is a route, and its total is lower than the cost reported: the route takes the cheaper edge twice. */
  lemma TotalFallsShort(index: EdgeIndex, cost: int, path: seq<Row>)
    requires Answer(DEARER, index, 0, cost, path)
    ensures path != [] && path[|path| - 1].aggCost < cost <= 6
  {
    hide Routed, Tour, Along, Cost;
    var w := DearerTour();
    assert DEARER[0] in DEARER && DEARER[1] in DEARER;
  }

  lemma FourCost(a: Edge, b: Edge, c: Edge, d: Edge)
    ensures Cost([a, b, c, d]) == a.cost + b.cost + c.cost + d.cost
  {
    CostSnoc([], a);
    CostSnoc([a], b);
    CostSnoc([a, b], c);
    CostSnoc([a, b, c], d);
    hide Cost;
    assert [] + [a] == [a] && [a] + [b] == [a, b] && [a, b] + [c] == [a, b, c] && [a, b, c] + [d] == [a, b, c, d];
    assert Cost([]) == 0 by {
      NoCost();
    }
  }

  lemma NoCost()
    ensures Cost([]) == 0
  {
  }

  lemma DearerTour() returns (w: seq<nat>)
    ensures Tour(DEARER, 0, w) && Cost(Along(DEARER, w)) == 6
  {
    w := [0, 2, 1, 2];
    assert w[0] == 0 && w[1] == 2 && w[2] == 1;
    assert Trail(DEARER, 0, w, 0) by {
      assert w[1..] == [2, 1, 2] && [2, 1, 2][1..] == [1, 2] && [1, 2][1..] == [2] && [2][1..] == [];
      assert Trail(DEARER, 1, [2], 0) && Trail(DEARER, 0, [1, 2], 0) && Trail(DEARER, 1, [2, 1, 2], 0);
    }
    var a, b, c := DEARER[0], DEARER[1], DEARER[2];
    assert Along(DEARER, w) == [a, c, b, c];
    FourCost(a, c, b, c);
  }

  lemma {:induction false} FullFlowFits(es: seq<Edge>, s: nat, t: nat, pipes: seq<Pipe>, flows: seq<Flow>)
    requires PipesFor(es, s, t, pipes) && Feasible(es, s, t, pipes, flows) && Value(flows, s) == TotalDegree(es)
    ensures FlowFor(es, s, t, flows)
  {
    FullFlowSaturates(es, s, t, pipes, flows);
    forall i | 0 <= i < |flows| ensures Super(flows[i], s, t) || OnSomeEdge(es, flows[i]) {
      assert flows[i] in flows;
      if !OnSomeEdge(es, flows[i]) {
        var p :| p in pipes && p.source == flows[i].source && p.target == flows[i].target;
      }
    }
  }

  /** Without a route there is no tour. */
  lemma {:induction false} NoRouteNoTour(es: seq<Edge>, index: EdgeIndex, s: nat, t: nat, pipes: seq<Pipe>,
                                         flows: seq<Flow>, start: nat, cost: int)
    requires PipesFor(es, s, t, pipes) && CheapestOf(es, index) && MinCostMaxFlow(es, index, s, t, pipes, flows)
    requires Value(flows, s) == TotalDegree(es) ==>
      Carried(flows, index, s, t) && !AllInReach(es, WithFlow(es, index, flows, s, t), start)
    ensures Answer(es, index, start, cost, [])
  {
    if w :| Tour(es, start, w) {
      NoTourIsCheaper(es, index, s, t, pipes, flows, start, w);
      WithFlowMembers(es, index, flows, s, t);
      TourReachesAll(es, WithFlow(es, index, flows, s, t), start, w);
      assert false;
    }
  }

  lemma {:induction false} RouteIsBest(es: seq<Edge>, index: EdgeIndex, s: nat, t: nat, pipes: seq<Pipe>,
                                       flows: seq<Flow>, start: nat, w: seq<nat>, path: seq<Row>)
    requires PipesFor(es, s, t, pipes) && CheapestOf(es, index) && MinCostMaxFlow(es, index, s, t, pipes, flows)
    requires Carried(flows, index, s, t) && path != [] && PostmanRoute(es, index, flows, s, t, start, w, path)
    ensures Answer(es, index, start, Cost(es) + AddedCost(flows, index, s, t), path)
  {
    var cost := Cost(es) + AddedCost(flows, index, s, t);
    var tour := CircuitIsTour(es, index, flows, s, t, start, w);
    RouteCost(es, index, flows, s, t, start, w, path);
    forall v, other | Tour(es, v, other) ensures cost <= Cost(Along(es, other)) {
      NoTourIsCheaper(es, index, s, t, pipes, flows, v, other);
    }
  }

  lemma SomethingKept(rows: seq<EdgeRow>, es: seq<Edge>)
    requires exists r :: r in rows && (r.cost > 0 || r.reverseCost > 0)
    requires forall e :: e in es <==> exists r :: r in rows && Offers(r, e)
    ensures es != []
  {
    var r :| r in rows && (r.cost > 0 || r.reverseCost > 0);
    var e := if r.cost > 0 then Edge(r.id, r.source, r.target, r.cost)
             else Edge(r.id, r.target, r.source, r.reverseCost);
    assert Offers(r, e) && e in es;
  }

  class PostmanGraph {
    var startPoint: nat
    var originalEdges: seq<Edge>
    var vertices: set<nat>
    var edgeToIdx: EdgeIndex
    var superSource: nat
    var superTarget: nat
    var pipes: seq<Pipe>
    var totalDeg: nat
    var mCost: int
    var resultPath: seq<Row>

    ghost predicate Built()
      reads this
    {
      && originalEdges != [] && (forall v :: v in vertices <==> Endpoint(originalEdges, v))
      && CheapestOf(originalEdges, edgeToIdx) && PipesFor(originalEdges, superSource, superTarget, pipes)
      && totalDeg == TotalDegree(originalEdges)
    }

    /** Keeps the edges that cost something, and lays out the flow network.
        There must be one: the program asks for the last vertex of all. */
    constructor (rows: seq<EdgeRow>)
      requires exists r :: r in rows && (r.cost > 0 || r.reverseCost > 0)
      ensures Built() && originalEdges == KeptEdges(rows) && startPoint == rows[0].source && resultPath == []
      ensures (forall e :: e in originalEdges <==> exists r :: r in rows && Offers(r, e))
      ensures Cost(originalEdges) == Charges(rows)
    {
      var es, vs := OriginalEdges(rows);
      SomethingKept(rows, es);
      var deg, index := DegreesAndCheapest(es);
      var ps, s, t, total := BuildPipes(es, deg);
      startPoint, originalEdges, vertices, edgeToIdx := rows[0].source, es, vs, index;
      pipes, superSource, superTarget, totalDeg := ps, s, t, total;
      mCost, resultPath := -1, [];
    }

    /** Given a min-cost max-flow, the cost and the route. If the start lies on no edge, the traversal begins elsewhere;
        should it get everywhere, the program would go on to look up an edge from the start, which there is none of. */
    method SetPathEdges(flows: seq<Flow>)
      requires Built() && MinCostMaxFlow(originalEdges, edgeToIdx, superSource, superTarget, pipes, flows)
      requires Endpoint(originalEdges, startPoint) || Value(flows, superSource) != totalDeg ||
               !AllInReach(originalEdges, originalEdges, originalEdges[0].source)
      modifies this`mCost, this`resultPath
      ensures mCost == if Value(flows, superSource) == totalDeg
                       then Cost(originalEdges) + AddedCost(flows, edgeToIdx, superSource, superTarget) else -1
      ensures Answer(originalEdges, edgeToIdx, startPoint, mCost, resultPath)
      ensures mCost != -1 ==> (resultPath != [] <==> AllInReach(originalEdges, originalEdges, startPoint))
    {
      hide *;
      ghost var es, index, s, t := originalEdges, edgeToIdx, superSource, superTarget;
      WhenBuilt(this);
      resultPath := [];
      if Value(flows, superSource) != totalDeg {
        mCost := -1;
        NoRouteNoTour(es, index, s, t, pipes, flows, startPoint, mCost);
        return;
      }
      mCost := Cost(originalEdges) + AddedCost(flows, edgeToIdx, superSource, superTarget);
      FullFlow(es, index, s, t, pipes, flows);
      var resultEdges := AddFlow(originalEdges, edgeToIdx, flows, superSource, superTarget);
      ghost var w;
      var pathStack, vertexVisited;
      pathStack, vertexVisited, w := Traverse(resultEdges, startPoint);
      WhereServed(es, index, flows, s, t, startPoint);
      VisitedAll(es, vertices, resultEdges, startPoint, ChinesePostman.Served(resultEdges, startPoint), vertexVisited);
      if vertices - vertexVisited != {} {
        NoRouteNoTour(es, index, s, t, pipes, flows, startPoint, mCost);
        return;
      }
      StackInIndex(es, index, flows, s, t, startPoint, w, pathStack);
      resultPath := BuildResultPath(edgeToIdx, pathStack);
      RouteIsPostmans(es, index, flows, s, t, startPoint, w, resultPath);
      RouteIsBest(es, index, s, t, pipes, flows, startPoint, w, resultPath);
    }
  }

  lemma WhenBuilt(g: PostmanGraph)
    requires g.Built()
    ensures g.originalEdges != [] && (forall v :: v in g.vertices <==> Endpoint(g.originalEdges, v))
    ensures CheapestOf(g.originalEdges, g.edgeToIdx) && PipesFor(g.originalEdges, g.superSource, g.superTarget, g.pipes)
    ensures g.totalDeg == TotalDegree(g.originalEdges)
  {
  }

  lemma {:induction false} FullFlow(es: seq<Edge>, index: EdgeIndex, s: nat, t: nat, pipes: seq<Pipe>, flows: seq<Flow>)
    requires PipesFor(es, s, t, pipes) && CheapestOf(es, index) && MinCostMaxFlow(es, index, s, t, pipes, flows)
    requires Value(flows, s) == TotalDegree(es) && es != []
    ensures Carried(flows, index, s, t)
    ensures Balanced(WithFlow(es, index, flows, s, t)) && WithFlow(es, index, flows, s, t) != []
  {
    FullFlowFits(es, s, t, pipes, flows);
    FlowIsCarried(es, index, s, t, flows);
    ResultIsBalanced(es, index, flows, s, t);
    WithFlowMembers(es, index, flows, s, t);
  }

  /** The traversal begins at the start if that lies on an edge, else at the source of the first edge; and from a vertex
      that lies on no edge nothing is in reach. */
  lemma {:induction false} WhereServed(es: seq<Edge>, index: EdgeIndex, flows: seq<Flow>, s: nat, t: nat, start: nat)
    requires CheapestOf(es, index) && Carried(flows, index, s, t) && es != []
    requires Balanced(WithFlow(es, index, flows, s, t)) && WithFlow(es, index, flows, s, t) != []
    ensures var res := WithFlow(es, index, flows, s, t);
      && ChinesePostman.Served(res, start) == (if Endpoint(es, start) then start else es[0].source)
      && (AllInReach(es, res, start) <==> AllInReach(es, es, start))
      && (AllInReach(es, res, es[0].source) <==> AllInReach(es, es, es[0].source))
      && (!Endpoint(es, start) ==> !AllInReach(es, res, start))
  {
    hide WithFlow, AllInReach, Balanced, CheapestOf, Carried;
    CopiesReachNoFarther(es, index, flows, s, t, start);
    CopiesReachNoFarther(es, index, flows, s, t, es[0].source);
    WithFlowMembers(es, index, flows, s, t);
    var res := WithFlow(es, index, flows, s, t);
    assert res[0] == es[0];
    if Endpoint(es, start) {
      StartIsKnown(es, start, index, flows, s, t);
    } else {
      OutOfReach(es, start);
      forall k | 0 <= k < |res| ensures res[k].source != start {
        assert res[k] in es;
        var j :| 0 <= j < |es| && es[j] == res[k];
      }
    }
  }

  lemma OutOfReach(es: seq<Edge>, start: nat)
    requires es != [] && !Endpoint(es, start)
    ensures !AllInReach(es, es, start)
  {
    var v := es[0].source;
    assert Endpoint(es, v);
    if w :| Trail(es, start, w, v) {
      assert false;
    }
  }
}
