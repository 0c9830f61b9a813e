/** include/contraction/contractionHierarchies.hpp: making the shortcuts past one vertex; the inner Dijkstra search is a
    parameter. */
module ContractionShortcuts {
  import opened Graphs
  import opened Labels
  import opened Bypass
  import opened ContractionGraph
  import opened ShortcutRules
  import opened ShortcutChoice

  // ---------- contracting one vertex ----------

  /** The cost of the dearest way on over `v` by first edges, but no less than the first edge from `u` itself;
      0 if there is none. */
  method ComputePmax(g: Graph, u: nat, v: nat, outs: set<nat>) returns (p: nat)
    ensures var e := First(g.directed, g.edges, u, v);
      if e.Infinity? then p == 0 else
        && e.cost <= p && (forall w, d: nat :: w in outs && WayOn(g.directed, g.edges, e.cost, u, v, w, d) ==> d <= p)
        && (p == e.cost || exists w :: w in outs && WayOn(g.directed, g.edges, e.cost, u, v, w, p))
        && p == PMax(g.directed, g.edges, e.cost, e.cost, u, v, outs)
  {
    p := 0;
    var e := First(g.directed, g.edges, u, v);
    if e.Finite? {
      p := e.cost;
      var rest := outs;
      while rest != {}
        invariant PMax(g.directed, g.edges, e.cost, p, u, v, rest) ==
          PMax(g.directed, g.edges, e.cost, e.cost, u, v, outs)
        decreases rest
      {
        var w := ContractionGraph.Front(rest);
        LowestIs(rest, w);
        var f := First(g.directed, g.edges, v, w);
        if f.Finite? && u != w && e.cost + f.cost > p {
          p := e.cost + f.cost;
        }
        rest := rest - {w};
      }
      PMaxIsDearest(g.directed, g.edges, e.cost, e.cost, u, v, outs);
    }
  }

  method ProcessChShortcut(g: Graph, u: nat, v: nat, w: nat) returns (made: seq<CHEdge>)
    requires v < |g.contracted| == |g.ids| && Has(g.directed, g.edges, u, v) && Has(g.directed, g.edges, v, w)
    modifies g`edges, g`minEdgeId
    ensures g.edges == old(g.edges) + made && g.contracted == old(g.contracted)
    ensures if IsShortcutPossible(g.directed, old(g.edges), u, v, w) && !Has(g.directed, old(g.edges), u, w)
            then |made| == 1 && made[0].source == u && made[0].target == w &&
                 Priced(g.directed, old(g.edges), v, {g.ids[v]} + g.contracted[v], made[0])
            else made == []
  {
    made := [];
    if IsShortcutPossible(g.directed, g.edges, u, v, w) && !Has(g.directed, g.edges, u, w) {
      var s := g.ProcessShortcut(u, v, w);
      made := [s];
    }
  }

  /** Shortcuts past `v`: they avoid it, stay among the vertices with edges and stand for walks in `base`. */
  ghost predicate Fitting(directed: bool, live: set<nat>, base: set<Edge>, v: nat, made: seq<CHEdge>) {
    forall s :: s in made ==>
      && s.source != v && s.target != v && s.source in live && s.target in live
      && Real(base, Plain(s)) && (!directed ==> Real(base, Flip(Plain(s))))
  }

  /** What `made`, appended to `es`, is and keeps. */
  ghost predicate Appended(directed: bool, live: set<nat>, base: set<Edge>, es: seq<CHEdge>, v: nat,
                           made: seq<CHEdge>) {
    Fitting(directed, live, base, v, made) && Grounded(base, ArcsOf(directed, es + made))
  }

  lemma AppendedMore(directed: bool, live: set<nat>, base: set<Edge>, es: seq<CHEdge>, v: nat, made: seq<CHEdge>,
                     more: seq<CHEdge>)
    requires Appended(directed, live, base, es, v, made) && Appended(directed, live, base, es + made, v, more)
    ensures Appended(directed, live, base, es, v, made + more)
  {
    hide Real, ArcsOf, Grounded;
    assert (es + made) + more == es + (made + more);
  }

  lemma AppendedNothing(directed: bool, live: set<nat>, base: set<Edge>, es: seq<CHEdge>, v: nat)
    requires Grounded(base, ArcsOf(directed, es))
    ensures Appended(directed, live, base, es, v, [])
  {
    assert es + [] == es;
  }

  lemma AppendedOne(directed: bool, live: set<nat>, base: set<Edge>, es: seq<CHEdge>, u: nat, v: nat, w: nat,
                    names: set<int>, s: CHEdge)
    requires Grounded(base, ArcsOf(directed, es)) && Live(es) <= live && s.source == u && s.target == w
    requires Priced(directed, es, v, names, s) && IsShortcutPossible(directed, es, u, v, w)
    requires Has(directed, es, u, v) && Has(directed, es, v, w)
    ensures Appended(directed, live, base, es, v, [s])
  {
    hide Real, ArcsOf, Grounded;
    ShortcutIsReal(directed, base, es, v, s);
  }

  lemma WantedBare(directed: bool, es: seq<CHEdge>, tree: Tree, u: nat, v: nat, w: nat)
    ensures Wanted(directed, BareAll(es), tree, u, v, w) <==> Wanted(directed, es, tree, u, v, w)
    ensures IsShortcutPossible(directed, BareAll(es), u, v, w) <==> IsShortcutPossible(directed, es, u, v, w)
  {
    hide First, Least, BareAll, Has;
    BareSame(directed, es, u, v);
    BareSame(directed, es, v, u);
    BareSame(directed, es, v, w);
    BareSame(directed, es, w, v);
    BareSame(directed, es, u, w);
  }

  lemma OneBare(directed: bool, es: seq<CHEdge>, tree: Tree, u: nat, v: nat, w: nat, names: set<int>, made: seq<CHEdge>)
    requires if Wanted(directed, es, tree, u, v, w)
             then |made| == 1 && made[0].source == u && made[0].target == w && Priced(directed, es, v, names, made[0])
             else made == []
    ensures BareAll(made) == One(directed, BareAll(es), tree, u, v, w)
  {
    hide Wanted, First, Least, Has, IsShortcutPossible, NamesBetween, CheapestCost;
    WantedBare(directed, es, tree, u, v, w);
    if made != [] {
      PriceIsLeast(directed, es, v, made[0]);
      BareSame(directed, es, u, v);
      BareSame(directed, es, v, w);
      assert BareAll(made) == [Bare(made[0])];
    } else {
      BareNone();
    }
  }

  lemma {:induction false} PriceIsLeast(directed: bool, es: seq<CHEdge>, v: nat, s: CHEdge)
    requires ShortcutOver(directed, es, v, s)
    ensures Least(directed, es, s.source, v).Finite? && Least(directed, es, v, s.target).Finite?
    ensures s.cost == Least(directed, es, s.source, v).cost + Least(directed, es, v, s.target).cost
  {
    var c: nat, d: nat :| CheapestCost(directed, es, s.source, v, c) && CheapestCost(directed, es, v, s.target, d) &&
      s.cost == c + d;
    LeastIsCheapest(directed, es, s.source, v, c);
    LeastIsCheapest(directed, es, v, s.target, d);
  }

  /** One round of the loop that makes the shortcuts from `u` over `v`. */
  method Consider(g: Graph, tree: Tree, u: nat, v: nat, w: nat, ghost base: set<Edge>, ghost live: set<nat>)
    returns (made: seq<CHEdge>)
    requires v < |g.contracted| == |g.ids| && Grounded(base, ArcsOf(g.directed, g.edges)) && Live(g.edges) <= live
    modifies g`edges, g`minEdgeId
    ensures g.edges == old(g.edges) + made
    ensures Appended(g.directed, live, base, old(g.edges), v, made)
    ensures BareAll(made) == One(g.directed, BareAll(old(g.edges)), tree, u, v, w)
  {
    hide Has, IsShortcutPossible, First, Grounded, ArcsOf, Live, Appended, One, Priced;
    ghost var es, names := g.edges, {g.ids[v]} + g.contracted[v];
    made := [];
    AppendedNothing(g.directed, live, base, es, v);
    FirstAndLeast(g.directed, es, u, v);
    FirstAndLeast(g.directed, es, v, w);
    FirstAndLeast(g.directed, es, u, w);
    var e, f, uw := First(g.directed, g.edges, u, v), First(g.directed, g.edges, v, w),
      First(g.directed, g.edges, u, w);
    if u != w && e.Finite? && f.Finite? &&
       (uw.Infinity? || (tree.distance(w).Finite? && tree.distance(w).cost < uw.cost)) {
      if tree.predecessor(w) == v && tree.predecessor(v) == u && tree.distance(w) == Finite(e.cost + f.cost) {
        made := ProcessChShortcut(g, u, v, w);
        if made != [] {
          AppendedOne(g.directed, live, base, es, u, v, w, names, made[0]);
          assert made == [made[0]];
        }
      }
    }
    OneBare(g.directed, es, tree, u, v, w, names, made);
  }

  /** The state of the loop over `outs`: `made` so far, `rest` to come. */
  lemma {:induction false} FromStep(directed: bool, es: seq<CHEdge>, tree: Tree, u: nat, v: nat, outs: set<nat>,
                                    made: seq<CHEdge>, rest: set<nat>, w: nat, more: seq<CHEdge>)
    requires rest != {} && w == Lowest(rest) && BareAll(more) == One(directed, BareAll(es + made), tree, u, v, w)
    requires From(directed, BareAll(es), tree, u, v, outs) ==
      BareAll(made) + From(directed, BareAll(es + made), tree, u, v, rest)
    ensures From(directed, BareAll(es), tree, u, v, outs) ==
            BareAll(made + more) + From(directed, BareAll(es + (made + more)), tree, u, v, rest - {w})
  {
    hide One, Lowest;
    BareAppend(made, more);
    BareAppend(es + made, more);
    assert (es + made) + more == es + (made + more);
    var later := From(directed, BareAll(es + made) + BareAll(more), tree, u, v, rest - {w});
    assert From(directed, BareAll(es + made), tree, u, v, rest) == BareAll(more) + later;
    assert BareAll(made) + (BareAll(more) + later) == (BareAll(made) + BareAll(more)) + later;
  }

  /** In the loop over `outs`: `made` so far, `rest` to come. */
  ghost predicate Making(directed: bool, live: set<nat>, base: set<Edge>, es: seq<CHEdge>, tree: Tree, u: nat, v: nat,
                         outs: set<nat>, made: seq<CHEdge>, rest: set<nat>) {
    && Live(es + made) <= live && Appended(directed, live, base, es, v, made)
    && From(directed, BareAll(es), tree, u, v, outs) ==
      BareAll(made) + From(directed, BareAll(es + made), tree, u, v, rest)
  }

  lemma StartMaking(directed: bool, live: set<nat>, base: set<Edge>, es: seq<CHEdge>, tree: Tree, u: nat, v: nat,
                    outs: set<nat>)
    requires Grounded(base, ArcsOf(directed, es)) && Live(es) <= live
    ensures Making(directed, live, base, es, tree, u, v, outs, [], outs)
  {
    AppendedNothing(directed, live, base, es, v);
    BareNone();
    hide From, Appended, Grounded, Live, BareAll;
    assert es + [] == es;
    var all := From(directed, BareAll(es), tree, u, v, outs);
    assert [] + all == all;
  }

  lemma {:induction false} WhileMaking(directed: bool, live: set<nat>, base: set<Edge>, es: seq<CHEdge>, tree: Tree,
                                       u: nat, v: nat, outs: set<nat>, made: seq<CHEdge>, rest: set<nat>)
    requires Making(directed, live, base, es, tree, u, v, outs, made, rest)
    ensures Grounded(base, ArcsOf(directed, es + made)) && Live(es + made) <= live
    ensures Appended(directed, live, base, es, v, made)
    ensures rest == {} ==> BareAll(made) == From(directed, BareAll(es), tree, u, v, outs)
  {
  }

  lemma KeepMaking(directed: bool, live: set<nat>, base: set<Edge>, es: seq<CHEdge>, tree: Tree, u: nat, v: nat,
                   outs: set<nat>, made: seq<CHEdge>, rest: set<nat>, w: nat, more: seq<CHEdge>)
    requires Making(directed, live, base, es, tree, u, v, outs, made, rest)
    requires w in rest && (forall y :: y in rest ==> w <= y)
    requires Appended(directed, live, base, es + made, v, more)
    requires BareAll(more) == One(directed, BareAll(es + made), tree, u, v, w)
    ensures Making(directed, live, base, es, tree, u, v, outs, made + more, rest - {w})
    ensures (es + made) + more == es + (made + more)
  {
    hide From, Live, Appended, One, BareAll, Lowest;
    LowestIs(rest, w);
    FromStep(directed, es, tree, u, v, outs, made, rest, w, more);
    AppendedMore(directed, live, base, es, v, made, more);
    LiveMore(directed, live, base, es + made, v, more);
    assert (es + made) + more == es + (made + more);
  }

  lemma {:induction false} ForIs(directed: bool, es: seq<CHEdge>, oracle: Oracle, u: nat, v: nat, outs: set<nat>,
                                 p: nat)
    requires var e := First(directed, es, u, v);
      p == if e.Finite? then PMax(directed, es, e.cost, e.cost, u, v, outs) else 0
    ensures For(directed, BareAll(es), oracle, u, v, outs) ==
            if p > 0 then From(directed, BareAll(es), oracle(BareAll(es), u, p), u, v, outs) else []
  {
    PMaxBare(directed, es, u, v, outs);
    hide From, PMax, First, BareAll;
  }

  /** `compute_shortcuts`: the shortcuts from `u` over `v`. */
  method ComputeShortcuts(g: Graph, oracle: Oracle, u: nat, v: nat, outs: set<nat>, ghost base: set<Edge>,
                          ghost live: set<nat>)
    returns (made: seq<CHEdge>)
    requires v < |g.contracted| == |g.ids| && Grounded(base, ArcsOf(g.directed, g.edges)) && Live(g.edges) <= live
    modifies g`edges, g`minEdgeId
    ensures g.edges == old(g.edges) + made && Live(g.edges) <= live
    ensures Appended(g.directed, live, base, old(g.edges), v, made)
    ensures BareAll(made) == For(g.directed, BareAll(old(g.edges)), oracle, u, v, outs)
    ensures RightOracle(g.directed, oracle) ==>
      && RightlyFrom(g.directed, old(g.edges), u, v, outs, made)
      && RightFrom(g.directed, BareAll(old(g.edges)), oracle, u, v, outs, BareAll(made))
  {
    hide *;
    ghost var es := g.edges;
    made := [];
    AppendedNothing(g.directed, live, base, es, v);
    var pMax := ComputePmax(g, u, v, outs);
    ForIs(g.directed, es, oracle, u, v, outs, pMax);
    assert es + [] == es;
    BareNone();
    if pMax > 0 {
      var tree := oracle(BareAll(g.edges), u, pMax);
      var rest := outs;
      StartMaking(g.directed, live, base, es, tree, u, v, outs);
      while rest != {}
        invariant g.edges == es + made
        invariant Making(g.directed, live, base, es, tree, u, v, outs, made, rest)
        decreases rest
      {
        WhileMaking(g.directed, live, base, es, tree, u, v, outs, made, rest);
        var w := ContractionGraph.Front(rest);
        var more := Consider(g, tree, u, v, w, base, live);
        KeepMaking(g.directed, live, base, es, tree, u, v, outs, made, rest, w, more);
        made := made + more;
        rest := rest - {w};
      }
      WhileMaking(g.directed, live, base, es, tree, u, v, outs, made, rest);
    }
    if RightOracle(g.directed, oracle) {
      ForIsRight(g.directed, BareAll(es), oracle, u, v, outs);
      BareRightlyFrom(g.directed, es, oracle, u, v, outs, made);
    }
  }

  lemma BareNone()
    ensures BareAll([]) == []
  {
  }

  lemma LiveMore(directed: bool, live: set<nat>, base: set<Edge>, es: seq<CHEdge>, v: nat, made: seq<CHEdge>)
    requires Live(es) <= live && Appended(directed, live, base, es, v, made)
    ensures Live(es + made) <= live
  {
  }

  lemma {:induction false} PMaxSame(directed: bool, es: seq<CHEdge>, c: nat, p: nat, u: nat, v: nat, outs: set<nat>)
    ensures PMax(directed, BareAll(es), c, p, u, v, outs) == PMax(directed, es, c, p, u, v, outs)
    decreases outs
  {
    if outs != {} {
      var w := Lowest(outs);
      BareSame(directed, es, v, w);
      var f := First(directed, es, v, w);
      PMaxSame(directed, es, c, if f.Finite? && u != w && c + f.cost > p then c + f.cost else p, u, v, outs - {w});
    }
  }

  lemma {:induction false} PMaxBare(directed: bool, es: seq<CHEdge>, u: nat, v: nat, outs: set<nat>)
    ensures var e := First(directed, es, u, v);
      First(directed, BareAll(es), u, v) == e &&
      (e.Finite? ==>
         PMax(directed, BareAll(es), e.cost, e.cost, u, v, outs) == PMax(directed, es, e.cost, e.cost, u, v, outs))
  {
    var e := First(directed, es, u, v);
    BareSame(directed, es, u, v);
    if e.Finite? {
      PMaxSame(directed, es, e.cost, e.cost, u, v, outs);
    }
  }

  // ---------- all shortcuts past a vertex ----------

  /** In the loop over the in-neighbours: `made` so far, `rest` to come. */
  ghost predicate Passing(directed: bool, live: set<nat>, base: set<Edge>, es: seq<CHEdge>, oracle: Oracle,
                          ins: set<nat>, v: nat, outs: set<nat>, made: seq<CHEdge>, rest: set<nat>) {
    && Live(es + made) <= live && Appended(directed, live, base, es, v, made)
    && Past(directed, BareAll(es), oracle, ins, v, outs) ==
       BareAll(made) + Past(directed, BareAll(es + made), oracle, rest, v, outs)
  }

  lemma StartPassing(directed: bool, live: set<nat>, base: set<Edge>, es: seq<CHEdge>, oracle: Oracle, ins: set<nat>,
                     v: nat, outs: set<nat>)
    requires Grounded(base, ArcsOf(directed, es)) && Live(es) <= live
    ensures Passing(directed, live, base, es, oracle, ins, v, outs, [], ins)
  {
    AppendedNothing(directed, live, base, es, v);
    BareNone();
    hide Past, Appended, Grounded, Live, BareAll;
    assert es + [] == es;
    var all := Past(directed, BareAll(es), oracle, ins, v, outs);
    assert [] + all == all;
  }

  lemma {:induction false} WhilePassing(directed: bool, live: set<nat>, base: set<Edge>, es: seq<CHEdge>,
                                        oracle: Oracle, ins: set<nat>, v: nat, outs: set<nat>, made: seq<CHEdge>,
                                        rest: set<nat>)
    requires Passing(directed, live, base, es, oracle, ins, v, outs, made, rest)
    ensures Grounded(base, ArcsOf(directed, es + made)) && Live(es + made) <= live
    ensures Fitting(directed, live, base, v, made)
    ensures rest == {} ==> BareAll(made) == Past(directed, BareAll(es), oracle, ins, v, outs)
  {
  }

  lemma KeepPassing(directed: bool, live: set<nat>, base: set<Edge>, es: seq<CHEdge>, oracle: Oracle, ins: set<nat>,
                    v: nat, outs: set<nat>, made: seq<CHEdge>, rest: set<nat>, u: nat, more: seq<CHEdge>)
    requires Passing(directed, live, base, es, oracle, ins, v, outs, made, rest)
    requires u in rest && (forall y :: y in rest ==> u <= y)
    requires Appended(directed, live, base, es + made, v, more)
    requires BareAll(more) == For(directed, BareAll(es + made), oracle, u, v, outs)
    ensures Passing(directed, live, base, es, oracle, ins, v, outs, made + more, rest - {u})
    ensures (es + made) + more == es + (made + more)
  {
    hide Live, Appended, For, BareAll, Lowest;
    LowestIs(rest, u);
    BareAppend(made, more);
    BareAppend(es + made, more);
    AppendedMore(directed, live, base, es, v, made, more);
    LiveMore(directed, live, base, es + made, v, more);
    assert (es + made) + more == es + (made + more);
    var later := Past(directed, BareAll(es + made) + BareAll(more), oracle, rest - {u}, v, outs);
    assert BareAll(made) + (BareAll(more) + later) == (BareAll(made) + BareAll(more)) + later;
  }

  /** `vertex_contraction`. A simulation takes the shortcuts it made out again; they are the last edges of the graph. */
  method VertexContraction(g: Graph, oracle: Oracle, v: nat, simulation: bool, shortcuts: seq<CHEdge>,
                           ghost base: set<Edge>, ghost live: set<nat>)
    returns (metric: int, shortcuts': seq<CHEdge>)
    requires v < |g.contracted| == |g.ids| && Grounded(base, ArcsOf(g.directed, g.edges)) && Live(g.edges) <= live
    modifies g`edges, g`minEdgeId, g`contracted
    ensures metric == Metric(g.directed, BareAll(old(g.edges)), oracle, v)
    ensures |g.contracted| == old(|g.contracted|)
    ensures simulation ==> g.edges == old(g.edges) && shortcuts' == shortcuts
    ensures !simulation ==>
      ContractedOne(g.directed, oracle, live, base, old(g.edges), v, g.edges, shortcuts, shortcuts')
    ensures !simulation && RightOracle(g.directed, oracle) ==>
      RightlyMade(g.directed, old(g.edges), v, shortcuts'[|shortcuts|..])
    ensures !simulation && NoLoopAt(old(g.edges), v) && NoParallelAt(g.directed, old(g.edges), v) ==>
      |g.edges| == |old(g.edges)| + metric
  {
    hide *;
    ghost var es := g.edges;
    var ins, outs := Ins(g.directed, g.edges, v), Outs(g.directed, g.edges, v);
    var nOldEdges := if g.directed then |ins| + |outs| else |ins|;
    StartPassing(g.directed, live, base, es, oracle, ins, v, outs);
    var made := [];
    var rest := ins;
    assert es + [] == es;
    while rest != {}
      invariant g.edges == es + made && |g.contracted| == |g.ids|
      invariant Passing(g.directed, live, base, es, oracle, ins, v, outs, made, rest)
      decreases rest
    {
      WhilePassing(g.directed, live, base, es, oracle, ins, v, outs, made, rest);
      var u := ContractionGraph.Front(rest);
      var more := ComputeShortcuts(g, oracle, u, v, outs, base, live);
      KeepPassing(g.directed, live, base, es, oracle, ins, v, outs, made, rest, u, more);
      made := made + more;
      rest := rest - {u};
    }
    WhilePassing(g.directed, live, base, es, oracle, ins, v, outs, made, rest);
    MadeAll(g.directed, es, oracle, v, made);
    shortcuts' := shortcuts;
    if simulation {
      g.edges := g.edges[..|g.edges| - |made|];
    } else {
      g.edges := Cleared(g.edges, v);
      g.contracted := g.contracted[v := {}];
      shortcuts' := shortcuts + made;
      OneContracted(g.directed, oracle, live, base, es, v, made, shortcuts);
      if RightOracle(g.directed, oracle) {
        ContractedRightly(g.directed, oracle, live, base, es, v, g.edges, shortcuts, shortcuts');
      }
    }
    MetricIs(g.directed, es, oracle, v, made);
    metric := |made| - nOldEdges;
    if NoLoopAt(es, v) {
      GrowsByMetric(g.directed, es, oracle, v, made);
    }
  }

  lemma {:induction false} GrowsByMetric(directed: bool, es: seq<CHEdge>, oracle: Oracle, v: nat, made: seq<CHEdge>)
    requires NoLoopAt(es, v) && BareAll(made) == AllPast(directed, BareAll(es), oracle, v)
    ensures |Cleared(es + made, v)| == |es| + Metric(directed, BareAll(es), oracle, v) <==>
            NoParallelAt(directed, es, v)
  {
    hide AllPast, Metric, Cleared;
    var bare := BareAll(es);
    forall b | b in bare && Touches(b, v) ensures b.source != b.target {
      var i :| 0 <= i < |es| && bare[i] == b;
      assert es[i] in es && Touches(es[i], v);
    }
    assert NoParallelAt(directed, bare, v) <==> NoParallelAt(directed, es, v) by {
      assert forall i :: 0 <= i < |es| ==> bare[i] == Bare(es[i]);
      if NoParallelAt(directed, bare, v) {
        forall i, j | 0 <= i < j < |es| && Touches(es[i], v)
          ensures !Leads(directed, es[j], es[i].source, es[i].target)
        {
          assert Touches(bare[i], v) && !Leads(directed, bare[j], bare[i].source, bare[i].target);
        }
      }
    }
    MetricIsGrowth(directed, bare, oracle, v);
    BareAppend(es, made);
    BareCleared(es + made, v);
  }

  lemma ContractedRightly(directed: bool, oracle: Oracle, live: set<nat>, base: set<Edge>, es: seq<CHEdge>, v: nat,
                          es': seq<CHEdge>, shortcuts: seq<CHEdge>, shortcuts': seq<CHEdge>)
    requires ContractedOne(directed, oracle, live, base, es, v, es', shortcuts, shortcuts')
    requires RightOracle(directed, oracle)
    ensures |shortcuts| <= |shortcuts'| && RightlyMade(directed, es, v, shortcuts'[|shortcuts|..])
  {
    hide RightOracle, RightlyMade, AllPast, BareAll, Fitting, Grounded, Live, Cleared;
    AllPastIsRight(directed, BareAll(es), oracle, v);
    BareRightlyMade(directed, es, v, shortcuts'[|shortcuts|..]);
  }

  lemma {:induction false} MadeAll(directed: bool, es: seq<CHEdge>, oracle: Oracle, v: nat, made: seq<CHEdge>)
    requires BareAll(made) == Past(directed, BareAll(es), oracle, Ins(directed, es, v), v, Outs(directed, es, v))
    ensures BareAll(made) == AllPast(directed, BareAll(es), oracle, v)
  {
    BareNeighbours(directed, es, v);
    hide Past, Ins, Outs, BareAll;
  }

  lemma MetricIs(directed: bool, es: seq<CHEdge>, oracle: Oracle, v: nat, made: seq<CHEdge>)
    requires BareAll(made) == AllPast(directed, BareAll(es), oracle, v)
    ensures Metric(directed, BareAll(es), oracle, v) ==
            |made| - (if directed then |Ins(directed, es, v)| + |Outs(directed, es, v)| else |Ins(directed, es, v)|)
  {
    BareNeighbours(directed, es, v);
    assert |BareAll(made)| == |made|;
    hide AllPast;
  }

  /** The shortcuts past `v` were added to the edges and to those collected, then `v` lost its edges;
      every edge and every new shortcut stands for a walk. */
  ghost predicate ContractedOne(directed: bool, oracle: Oracle, live: set<nat>, base: set<Edge>, es: seq<CHEdge>,
                                v: nat, es': seq<CHEdge>, shortcuts: seq<CHEdge>, shortcuts': seq<CHEdge>) {
    && shortcuts <= shortcuts'
    && var made := shortcuts'[|shortcuts|..];
    && BareAll(made) == AllPast(directed, BareAll(es), oracle, v) && es' == Cleared(es + made, v)
    && Live(es') <= live - {v} && Grounded(base, ArcsOf(directed, es')) && Fitting(directed, live, base, v, made)
  }

  lemma {:induction false} OneContracted(directed: bool, oracle: Oracle, live: set<nat>, base: set<Edge>,
                                         es: seq<CHEdge>, v: nat, made: seq<CHEdge>, shortcuts: seq<CHEdge>)
    requires Live(es + made) <= live && Grounded(base, ArcsOf(directed, es + made)) &&
      Fitting(directed, live, base, v, made)
    requires BareAll(made) == AllPast(directed, BareAll(es), oracle, v)
    ensures ContractedOne(directed, oracle, live, base, es, v, Cleared(es + made, v), shortcuts, shortcuts + made)
  {
    hide Cleared, Real, Fitting, AllPast, BareAll;
    ClearedMembers(es + made, v);
    assert (shortcuts + made)[|shortcuts|..] == made;
    forall a | a in ArcsOf(directed, Cleared(es + made, v)) ensures Real(base, a) {
      ArcsFromEdges(directed, Cleared(es + made, v), a);
      ArcsFromEdges(directed, es + made, a);
    }
  }
}
