/** include/dijkstra/dijkstraVia.hpp: a route through given vertices, keeping U-turns off the graph while searching. */
module DijkstraVia {
  import opened Graphs
  import opened BaseGraph
  import opened Paths
  import opened EdwardMoore
  import Yen

  /** The arcs left once the ways to leave `s` by edge `id` are off the graph. */
  ghost function Avoiding(directed: bool, arcs: set<Edge>, s: nat, id: int): set<Edge> {
    set e | e in arcs && !(e.id == id && (e.source == s || (!directed && e.target == s)))
  }

  /** A leg takes a shortest path without the U-turn if there is one, else a shortest path at all, else it is empty. */
  ghost predicate Leg(all: set<Edge>, avoiding: set<Edge>, s: nat, t: nat, p: Path) {
    if s != t && Reachable(avoiding, s, t) then IsShortest(avoiding, s, t, p)
    else if p.rows != [] then IsShortest(all, s, t, p)
    else s == t || !Reachable(all, s, t)
  }

  lemma {:induction false} CutMember(directed: bool, edges: seq<Edge>, v: nat, id: int, e: Edge)
    ensures e in Pick(edges, NotLeaving(directed, v, id)) <==>
            e in edges && !(e.id == id && (e.source == v || (!directed && e.target == v)))
  {
    var f := NotLeaving(directed, v, id);
    PickMembers(edges, f);
    hide Pick;
    if e in Pick(edges, f) {
      var x :| x in edges && e in f(x);
      assert x == e;
    }
    assert |Leaving(directed, v, id)(e)| ==
           if e.id == id && (e.source == v || (!directed && e.target == v)) then 1 else 0;
    assert e in [e];
  }

  lemma CutArcs(directed: bool, n: nat, g: Store, v: nat, id: int)
    requires v < n
    ensures Arcs(directed, Apply(directed, n, g, CutOutgoing(v, id)).edges) ==
            Avoiding(directed, Arcs(directed, g.edges), v, id)
  {
    var cut := Apply(directed, n, g, CutOutgoing(v, id)).edges;
    forall e ensures e in cut <==> e in g.edges && !(e.id == id && (e.source == v || (!directed && e.target == v))) {
      CutMember(directed, g.edges, v, id, e);
    }
    hide Apply;
  }

  lemma BagMember(directed: bool, edges: seq<Edge>, e: Edge)
    requires e in Bag(directed, edges)
    ensures exists f :: f in edges && e == Canonical(directed, f)
  {
    var all := seq(|edges|, i requires 0 <= i < |edges| => Canonical(directed, edges[i]));
    var i :| 0 <= i < |all| && all[i] == e;
    assert edges[i] in edges;
  }

  lemma SameBagSameArcs(directed: bool, edges: seq<Edge>, edges': seq<Edge>)
    requires Bag(directed, edges) == Bag(directed, edges')
    ensures Arcs(directed, edges) <= Arcs(directed, edges')
  {
    forall e | e in Arcs(directed, edges) ensures e in Arcs(directed, edges') {
      var f :| f in edges && (e == f || (!directed && e == Flip(f)));
      InBag(directed, edges, f);
      BagMember(directed, edges', Canonical(directed, f));
      var g :| g in edges' && Canonical(directed, f) == Canonical(directed, g);
      assert g == f || (!directed && g == Flip(f));
    }
  }

  lemma OrientedCount(directed: bool, v: nat, e: Edge, f: Edge)
    requires Canonical(directed, e) == Canonical(directed, f)
    ensures |Oriented(directed, v)(e)| == |Oriented(directed, v)(f)|
  {
    assert f == e || (!directed && f == Flip(e));
  }

  /** Taking one edge out of the list takes it out of the bag, and its ways out of the out-edge list. */
  lemma WithoutOne(directed: bool, edges: seq<Edge>, k: nat, v: nat)
    requires k < |edges|
    ensures var rest := edges[..k] + edges[k + 1..];
      && Bag(directed, edges) == multiset{Canonical(directed, edges[k])} + Bag(directed, rest)
      && |OutEdges(directed, edges, v)| == |Oriented(directed, v)(edges[k])| + |OutEdges(directed, rest, v)|
  {
    var e, a, b := edges[k], edges[..k], edges[k + 1..];
    assert edges == a + ([e] + b);
    BagAppend(directed, a, [e] + b);
    BagAppend(directed, [e], b);
    BagAppend(directed, a, b);
    SmallBags(directed, e, e);
    hide Bag;
    PickAppend(a, [e] + b, Oriented(directed, v));
    PickAppend(a, b, Oriented(directed, v));
    assert ([e] + b)[1..] == b;
    hide Pick;
    assert Bag(directed, a) + (multiset{Canonical(directed, e)} + Bag(directed, b)) ==
           multiset{Canonical(directed, e)} + (Bag(directed, a) + Bag(directed, b));
  }

  /** How many ways lead out of a vertex does not depend on the order of the edges. */
  lemma {:induction false} SameBagSameDegree(directed: bool, edges: seq<Edge>, edges': seq<Edge>, v: nat)
    requires Bag(directed, edges) == Bag(directed, edges')
    ensures |OutEdges(directed, edges, v)| == |OutEdges(directed, edges', v)|
    decreases |edges|
  {
    BagSize(directed, edges);
    BagSize(directed, edges');
    if edges != [] {
      hide Bag, OutEdges, Oriented;
      InBag(directed, edges, edges[0]);
      BagMember(directed, edges', Canonical(directed, edges[0]));
      var f :| f in edges' && Canonical(directed, edges[0]) == Canonical(directed, f);
      var k :| 0 <= k < |edges'| && edges'[k] == f;
      WithoutOne(directed, edges, 0, v);
      WithoutOne(directed, edges', k, v);
      var rest, rest' := edges[..0] + edges[1..], edges'[..k] + edges'[k + 1..];
      CancelOne(Bag(directed, rest), Bag(directed, rest'), Canonical(directed, f));
      SameBagSameDegree(directed, rest, rest', v);
      OrientedCount(directed, v, edges[0], f);
    }
  }

  lemma CancelOne(rest: multiset<Edge>, rest': multiset<Edge>, e: Edge)
    requires multiset{e} + rest == multiset{e} + rest'
    ensures rest == rest'
  {
    assert (multiset{e} + rest) - multiset{e} == rest;
    assert (multiset{e} + rest') - multiset{e} == rest';
  }

  /** The graph holds the same edges as when the search began, and none is set aside. */
  ghost predicate Whole(directed: bool, edges: seq<Edge>, n: nat, g: Store) {
    Bag(directed, g.edges) == Bag(directed, edges) && g.removed == [] && Yen.Inside(n, g.edges)
  }

  lemma WholeArcs(directed: bool, edges: seq<Edge>, n: nat, g: Store)
    requires Whole(directed, edges, n, g)
    ensures Arcs(directed, g.edges) == Arcs(directed, edges)
  {
    SameBagSameArcs(directed, g.edges, edges);
    SameBagSameArcs(directed, edges, g.edges);
  }

  lemma CutAndRestoreIsWhole(directed: bool, edges: seq<Edge>, n: nat, g: Store, v: nat, id: int)
    requires Whole(directed, edges, n, g)
    ensures Yen.Inside(n, Apply(directed, n, g, CutOutgoing(v, id)).edges)
    ensures Whole(directed, edges, n, Store(Restored(Apply(directed, n, g, CutOutgoing(v, id))), []))
  {
    CutOutgoingKeepsBag(directed, n, g, v, id);
    Yen.CutsStayInside(directed, n, g, CutOutgoing(v, id));
    assert g.edges + [] == g.edges;
  }

  /** The U-turn is kept off the graph when it is unwanted, there was a last edge, and `s` is not a dead end. */
  ghost predicate LegAfter(directed: bool, edges: seq<Edge>, uTurns: bool, path: Path, s: nat, t: nat, leg: Path) {
    var all := Arcs(directed, edges);
    if !uTurns && |path.rows| > 1 && |OutEdges(directed, edges, s)| > 1
    then Leg(all, Avoiding(directed, all, s, path.rows[|path.rows| - 2].edge), s, t, leg)
    else Leg(all, all, s, t, leg)
  }

  /** The test for a dead end changes nothing: where `s` has one way out, taking that off leaves no way, and the leg is
      searched again with it. */
  lemma DeadEndTestIsIdle(directed: bool, edges: seq<Edge>, uTurns: bool, path: Path, s: nat, t: nat, leg: Path)
    requires !uTurns && |path.rows| > 1
    ensures LegAfter(directed, edges, uTurns, path, s, t, leg) <==>
      var all := Arcs(directed, edges);
      Leg(all, Avoiding(directed, all, s, path.rows[|path.rows| - 2].edge), s, t, leg)
  {
    hide IsShortest;
    var all, id := Arcs(directed, edges), path.rows[|path.rows| - 2].edge;
    if |OutEdges(directed, edges, s)| <= 1 {
      OutEdgesAreArcs(directed, edges, s);
      assert directed || forall e :: e in all ==> Flip(e) in all by {
        forall e | e in all && !directed ensures Flip(e) in all {
          assert Flip(Flip(e)) == e;
        }
      }
      hide Arcs, OutEdges;
      OneWayOut(directed, all, s, id, t, OutEdges(directed, edges, s), leg);
    }
  }

  lemma NoWayOut(arcs: set<Edge>, s: nat, t: nat)
    requires s != t && forall e :: e in arcs ==> e.source != s
    ensures !Reachable(arcs, s, t)
  {
    forall p: seq<Edge> ensures !IsWalk(arcs, s, p, t) {
      if p != [] && p[0] in arcs {
        assert p[0].source != s;
      }
    }
  }

  /** With one way out at most, either nothing is taken off at `s`, or all that there is. */
  lemma OneWayOut(directed: bool, all: set<Edge>, s: nat, id: int, t: nat, out: seq<Edge>, leg: Path)
    requires |out| <= 1 && forall e :: e in out <==> e in all && e.source == s
    requires directed || forall e :: e in all ==> Flip(e) in all
    ensures Leg(all, Avoiding(directed, all, s, id), s, t, leg) <==> Leg(all, all, s, t, leg)
  {
    var avoiding := Avoiding(directed, all, s, id);
    if out != [] && out[0].id != id {
      forall e | e in all ensures e in avoiding {
        assert e.source == s ==> e in out;
        assert !directed && e.target == s ==> Flip(e) in out;
      }
      assert avoiding == all;
    } else if s != t {
      forall e | e in avoiding ensures e.source != s {
        assert e.source == s ==> e in out;
      }
      NoWayOut(avoiding, s, t);
    }
    hide IsShortest, Reachable;
    ShortestNeedsNoMore(all, s, t, leg);
  }

  /** After a leg that arrived at `s`, the next one does not go back by the edge it arrived on, if there is another
      way. */
  lemma NoUTurn(directed: bool, edges: seq<Edge>, before: Path, r: nat, s: nat, t: nat, leg: Path)
    requires LegAfter(directed, edges, false, before, s, t, leg)
    requires IsShortest(Arcs(directed, edges), r, s, before) && s != t
    requires Reachable(Avoiding(directed, Arcs(directed, edges), s, Taken(before.rows, |before.rows| - 2).id), s, t)
    ensures Taken(before.rows, |before.rows| - 2).target == s
    ensures leg.rows != [] && leg.rows[0].edge != Taken(before.rows, |before.rows| - 2).id
  {
    var all := Arcs(directed, edges);
    var id := Taken(before.rows, |before.rows| - 2).id;
    DeadEndTestIsIdle(directed, edges, false, before, s, t, leg);
    var avoiding := Avoiding(directed, all, s, id);
    assert IsShortest(avoiding, s, t, leg);
    assert Taken(leg.rows, 0) in avoiding;
  }

  /** One leg: the search with the U-turn edge off the graph, the restore, and the second try. */
  method SearchLeg(g: Graph, ghost edges: seq<Edge>, first: bool, uTurnOnEdge: bool, path: Path, s: nat, t: nat)
    returns (leg: Path)
    requires Whole(g.directed, edges, g.n, g.State()) && s < g.n && t < g.n
    modifies g
    ensures Whole(g.directed, edges, g.n, g.State())
    ensures LegAfter(g.directed, edges, uTurnOnEdge || first, path, s, t, leg)
  {
    hide IsShortest;
    ghost var all := Arcs(g.directed, edges);
    WholeArcs(g.directed, edges, g.n, g.State());
    SameBagSameDegree(g.directed, g.edges, edges, s);
    assert Restored(g.State()) == g.edges;
    hide Arcs, Avoiding, Reachable, OutEdges, Apply, Restored;
    var cut := !uTurnOnEdge && !first && |path.rows| > 1 && |OutEdges(g.directed, g.edges, s)| > 1;
    if cut {
      var id := path.rows[|path.rows| - 2].edge;
      CutArcs(g.directed, g.n, g.State(), s, id);
      CutAndRestoreIsWhole(g.directed, edges, g.n, g.State(), s, id);
      g.DisconnectOutGoingEdge(s, id);
    }
    leg := Yen.ShortestPath(g, s, t);
    ghost var searched := Arcs(g.directed, g.edges);
    ShortestNeedsNoMore(searched, s, t, leg);
    if !uTurnOnEdge && !first {
      g.RestoreGraph();
      if leg.rows == [] {
        WholeArcs(g.directed, edges, g.n, g.State());
        leg := Yen.ShortestPath(g, s, t);
        ShortestNeedsNoMore(all, s, t, leg);
      }
    }
  }

  lemma ShortestNeedsNoMore(arcs: set<Edge>, s: nat, t: nat, p: Path)
    ensures IsShortest(arcs, s, t, p) ==> s != t && Reachable(arcs, s, t) && p.rows != []
  {
    if IsShortest(arcs, s, t, p) {
      var w :| IsWalk(arcs, s, w, t) && Cost(w) == p.totCost;
      assert p.rows[0].node == s && p.rows[|p.rows| - 1].node == t;
    }
  }

  /** A leg is empty exactly if it cannot be made. */
  lemma LegRows(directed: bool, edges: seq<Edge>, uTurns: bool, path: Path, s: nat, t: nat, leg: Path)
    requires LegAfter(directed, edges, uTurns, path, s, t, leg)
    ensures leg.rows == [] <==> s == t || !Reachable(Arcs(directed, edges), s, t)
  {
    hide IsShortest;
    var all := Arcs(directed, edges);
    ShortestNeedsNoMore(all, s, t, leg);
    if !uTurns && |path.rows| > 1 && |OutEdges(directed, edges, s)| > 1 {
      var avoiding := Avoiding(directed, all, s, path.rows[|path.rows| - 2].edge);
      ShortestNeedsNoMore(avoiding, s, t, leg);
      if Reachable(avoiding, s, t) {
        var p :| IsWalk(avoiding, s, p, t);
        WalkMono(avoiding, all, s, p, t);
      }
    }
  }

  /** What leg `k` of the route is worth, given the leg before it. */
  ghost predicate LegAt(directed: bool, edges: seq<Edge>, via: seq<nat>, paths: seq<Path>, uTurnOnEdge: bool, k: nat)
    requires k < |paths| && k + 1 < |via|
  {
    if k == 0 then LegAfter(directed, edges, true, paths[0], via[0], via[1], paths[0])
    else LegAfter(directed, edges, uTurnOnEdge, paths[k - 1], via[k], via[k + 1], paths[k])
  }

  /** Some leg cannot be made. */
  ghost predicate Stuck(directed: bool, edges: seq<Edge>, via: seq<nat>) {
    exists k :: 0 <= k < |via| - 1 && (via[k] == via[k + 1] || !Reachable(Arcs(directed, edges), via[k], via[k + 1]))
  }

  /** Whatever the outcome, the graph is left as it was found; `strict` reports all legs or none. */
  method Via(g: Graph, via: seq<nat>, strict: bool, uTurnOnEdge: bool) returns (paths: seq<Path>)
    requires Yen.Inside(g.n, g.edges) && g.removedEdges == []
    requires forall v :: v in via ==> v < g.n
    modifies g
    ensures Whole(g.directed, old(g.edges), g.n, g.State())
    ensures if strict && Stuck(g.directed, old(g.edges), via) then paths == []
            else |paths| == if via == [] then 0 else |via| - 1
    ensures forall k :: 0 <= k < |paths| ==> LegAt(g.directed, old(g.edges), via, paths, uTurnOnEdge, k)
  {
    paths := [];
    if |via| == 0 {
      return;
    }
    hide LegAfter;
    ghost var edges := g.edges;
    var path := Path(0, 0, [], 0);
    for i := 1 to |via|
      invariant Whole(g.directed, edges, g.n, g.State())
      invariant |paths| == i - 1 && (i > 1 ==> path == paths[i - 2])
      invariant strict ==> forall k :: 0 <= k < i - 1 ==>
        via[k] != via[k + 1] && Reachable(Arcs(g.directed, edges), via[k], via[k + 1])
      invariant forall k :: 0 <= k < |paths| ==> LegAt(g.directed, edges, via, paths, uTurnOnEdge, k)
    {
      assert via[i - 1] in via && via[i] in via;
      ghost var before := path;
      path := SearchLeg(g, edges, i == 1, uTurnOnEdge, path, via[i - 1], via[i]);
      LegRows(g.directed, edges, uTurnOnEdge || i == 1, before, via[i - 1], via[i], path);
      if strict && path.rows == [] {
        paths := [];
        return;
      }
      ghost var paths' := paths;
      paths := paths + [path];
      assert forall k :: 0 <= k < |paths'| ==> paths[k] == paths'[k];
      forall k | 0 <= k < |paths| ensures LegAt(g.directed, edges, via, paths, uTurnOnEdge, k) {
        assert k < |paths'| ==> LegAt(g.directed, edges, via, paths', uTurnOnEdge, k);
      }
    }
  }
}
