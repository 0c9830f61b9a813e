/** The recursive traversal of include/chinese/chinesePostman.hpp, and why it spells an Euler circuit. */
module Hierholzer {
  import opened Graphs

  // ---------- trails over edge indices ----------

  /** The edges numbered `w` lead from `v` to `r`. */
  ghost predicate Trail(es: seq<Edge>, v: nat, w: seq<nat>, r: nat)
    decreases w
  {
    if w == [] then v == r
    else w[0] < |es| && es[w[0]].source == v && Trail(es, es[w[0]].target, w[1..], r)
  }

  /** The vertex that edge number `k` leads to. */
  ghost function Head(es: seq<Edge>, k: nat): nat {
    if k < |es| then es[k].target else 0
  }

  ghost function Targets(es: seq<Edge>, w: seq<nat>): seq<nat> {
    seq(|w|, i requires 0 <= i < |w| => Head(es, w[i]))
  }

  ghost function Reversed(s: seq<nat>): (r: seq<nat>)
    ensures |r| == |s| && forall i :: 0 <= i < |s| ==> r[i] == s[|s| - 1 - i]
  {
    seq(|s|, i requires 0 <= i < |s| => s[|s| - 1 - i])
  }

  lemma ReversedAppend(a: seq<nat>, b: seq<nat>)
    ensures Reversed(a + b) == Reversed(b) + Reversed(a)
  {
  }

  lemma {:induction false} TrailInRange(es: seq<Edge>, v: nat, w: seq<nat>, r: nat)
    requires Trail(es, v, w, r)
    ensures forall k :: k in w ==> k < |es|
    decreases w
  {
    if w != [] {
      TrailInRange(es, es[w[0]].target, w[1..], r);
      assert w == [w[0]] + w[1..];
    }
  }

  lemma {:induction false} TrailAppend(es: seq<Edge>, u: nat, w: seq<nat>, v: nat, w': seq<nat>, r: nat)
    requires Trail(es, u, w, v) && Trail(es, v, w', r)
    ensures Trail(es, u, w + w', r)
    decreases w
  {
    if w == [] {
      assert w + w' == w';
    } else {
      TrailAppend(es, es[w[0]].target, w[1..], v, w', r);
      assert (w + w')[1..] == w[1..] + w';
    }
  }

  // ---------- degrees of what is not yet visited ----------

  /** Out-degree minus in-degree of `x`, counting the first `n` edges that are not visited. */
  ghost function Balance(es: seq<Edge>, visited: set<nat>, x: nat, n: nat): int
    requires n <= |es|
  {
    if n == 0 then 0
    else Balance(es, visited, x, n - 1) + (if n - 1 in visited then 0 else Turn(es[n - 1], x))
  }

  function Turn(e: Edge, x: nat): int {
    (if e.source == x then 1 else 0) - (if e.target == x then 1 else 0)
  }

  lemma {:induction false} VisitChangesBalance(es: seq<Edge>, visited: set<nat>, k: nat, x: nat, n: nat)
    requires n <= |es| && k < |es| && k !in visited
    ensures Balance(es, visited + {k}, x, n) == Balance(es, visited, x, n) - if k < n then Turn(es[k], x) else 0
  {
    if n > 0 {
      VisitChangesBalance(es, visited, k, x, n - 1);
    }
  }

  lemma {:induction false} SurplusMeansAnEdge(es: seq<Edge>, visited: set<nat>, x: nat, n: nat)
    requires n <= |es| && Balance(es, visited, x, n) > 0
    ensures exists k :: 0 <= k < n && k !in visited && es[k].source == x
  {
    if Balance(es, visited, x, n - 1) > 0 {
      SurplusMeansAnEdge(es, visited, x, n - 1);
    }
  }

  /** What is unvisited is balanced, except for one more way out of `v` and one more way into `r`. */
  ghost predicate Leftover(es: seq<Edge>, visited: set<nat>, v: nat, r: nat) {
    forall x :: Balance(es, visited, x, |es|) == (if x == v then 1 else 0) - (if x == r then 1 else 0)
  }

  lemma TakeEdge(es: seq<Edge>, visited: set<nat>, v: nat, r: nat, k: nat)
    requires Leftover(es, visited, v, r) && k < |es| && k !in visited && es[k].source == v
    ensures Leftover(es, visited + {k}, es[k].target, r)
  {
    forall x ensures Balance(es, visited + {k}, x, |es|) ==
                     (if x == es[k].target then 1 else 0) - (if x == r then 1 else 0) {
      VisitChangesBalance(es, visited, k, x, |es|);
    }
  }

  lemma NowhereToGo(es: seq<Edge>, visited: set<nat>, v: nat, r: nat)
    requires Leftover(es, visited, v, r)
    requires forall k :: 0 <= k < |es| && es[k].source == v ==> k in visited
    ensures v == r
  {
    if v != r {
      SurplusMeansAnEdge(es, visited, v, |es|);
      assert false;
    }
  }

  /** All ways out of `x` are visited. */
  ghost predicate Exhausted(es: seq<Edge>, visited: set<nat>, x: nat) {
    forall k :: 0 <= k < |es| && es[k].source == x ==> k in visited
  }

  // ---------- adjacency lists ----------

  /** The lists built from the first `n` edges hold exactly their indices, by source; list 0 is that of edge 0. */
  ghost predicate IndexedUpTo(es: seq<Edge>, graph: seq<seq<nat>>, index: map<nat, nat>, n: nat) {
    && n <= |es|
    && (forall v :: v in index ==> index[v] < |graph|)
    && (forall v :: v in index ==> ListOf(es, graph[index[v]], v, n))
    && (forall u, v :: u in index && v in index && index[u] == index[v] ==> u == v)
    && (forall k :: 0 <= k < n ==> es[k].source in index)
    && (if n == 0 then graph == [] else es[0].source in index && index[es[0].source] == 0)
  }

  /** The non-empty list of all edges out of `v` among the first `n`. */
  ghost predicate ListOf(es: seq<Edge>, list: seq<nat>, v: nat, n: nat)
    requires n <= |es|
  {
    list != [] && forall k :: k in list <==> 0 <= k < n && es[k].source == v
  }

  lemma ListGrows(es: seq<Edge>, list: seq<nat>, v: nat, n: nat)
    requires n < |es|
    ensures ListOf(es, list, v, n) && es[n].source != v ==> ListOf(es, list, v, n + 1)
    ensures ListOf(es, list, v, n) && es[n].source == v ==> ListOf(es, list + [n], v, n + 1)
  {
  }

  /** An edge from a known source goes to the end of its list. */
  lemma IndexOldSource(es: seq<Edge>, graph: seq<seq<nat>>, index: map<nat, nat>, n: nat)
    requires IndexedUpTo(es, graph, index, n) && n < |es| && es[n].source in index
    ensures var vid := index[es[n].source];
      vid < |graph| && IndexedUpTo(es, graph[vid := graph[vid] + [n]], index, n + 1)
  {
    var v := es[n].source;
    var graph' := graph[index[v] := graph[index[v]] + [n]];
    assert n > 0 by {
      assert ListOf(es, graph[index[v]], v, n);
      assert graph[index[v]][0] in graph[index[v]];
    }
    forall u | u in index ensures ListOf(es, graph'[index[u]], u, n + 1) {
      ListGrows(es, graph[index[u]], u, n);
      hide ListOf;
      assert ListOf(es, graph[index[u]], u, n);
    }
  }

  /** An edge from a new source starts a list. */
  lemma IndexNewSource(es: seq<Edge>, graph: seq<seq<nat>>, index: map<nat, nat>, n: nat)
    requires IndexedUpTo(es, graph, index, n) && n < |es| && es[n].source !in index
    ensures IndexedUpTo(es, graph + [[n]], index[es[n].source := |graph|], n + 1)
  {
    var v := es[n].source;
    var graph', index' := graph + [[n]], index[v := |graph|];
    forall u | u in index' ensures ListOf(es, graph'[index'[u]], u, n + 1) {
      if u == v {
        assert graph'[index'[u]] == [n];
      } else {
        ListGrows(es, graph[index[u]], u, n);
        hide ListOf;
        assert ListOf(es, graph[index[u]], u, n);
      }
    }
  }

  // ---------- the traversal ----------

  /** Numbers the edges in order and lists, for each source, the edges that leave it. */
  method BuildResultGraph(resultEdges: seq<Edge>) returns (resultGraph: seq<seq<nat>>, vToVecid: map<nat, nat>)
    ensures Indexed(resultEdges, resultGraph, vToVecid)
  {
    resultGraph, vToVecid := [], map[];
    for id := 0 to |resultEdges|
      invariant IndexedUpTo(resultEdges, resultGraph, vToVecid, id)
    {
      hide IndexedUpTo;
      var v := resultEdges[id].source;
      if v !in vToVecid {
        IndexNewSource(resultEdges, resultGraph, vToVecid, id);
        ghost var graph := resultGraph;
        vToVecid := vToVecid[v := |resultGraph|];
        resultGraph := resultGraph + [[]];
        assert resultGraph[|graph|] + [id] == [id];
        assert resultGraph[|graph| := [id]] == graph + [[id]];
      } else {
        IndexOldSource(resultEdges, resultGraph, vToVecid, id);
      }
      var vid := vToVecid[v];
      resultGraph := resultGraph[vid := resultGraph[vid] + [id]];
    }
  }

  /** The result edges with their adjacency lists, and what the traversal has done so far. */
  class Traversal {
    const resultEdges: seq<Edge>
    const resultGraph: seq<seq<nat>>
    const vToVecid: map<nat, nat>
    var edgeVisited: set<nat>
    var vertexVisited: set<nat>
    var pathStack: seq<nat>

    constructor (edges: seq<Edge>, graph: seq<seq<nat>>, index: map<nat, nat>)
      ensures resultEdges == edges && resultGraph == graph && vToVecid == index
      ensures edgeVisited == {} && vertexVisited == {} && pathStack == []
    {
      resultEdges, resultGraph, vToVecid := edges, graph, index;
      edgeVisited, vertexVisited, pathStack := {}, {}, [];
    }

    /** Visits everything that can be reached over unvisited edges and pushes the vertices on the way back.
        The pushed vertices, popped again, follow the edges `w`, all of them newly visited, to `r`. */
    method EulerCircuitDFS(vertex: nat, ghost r: nat) returns (ghost w: seq<nat>)
      requires resultEdges != [] && Indexed(resultEdges, resultGraph, vToVecid) && WaysOn(resultEdges, vToVecid)
      requires Leftover(resultEdges, edgeVisited, Served(resultEdges, vToVecid, vertex), r)
      modifies this
      ensures old(edgeVisited) <= edgeVisited
      ensures Finished(resultEdges, old(Log(edgeVisited, vertexVisited, pathStack)),
                       Log(edgeVisited, vertexVisited, pathStack), vertex, Served(resultEdges, vToVecid, vertex), w, r)
      decreases Unvisited(resultEdges, edgeVisited), 1
    {
      hide *;
      ghost var log0 := Log(edgeVisited, vertexVisited, pathStack);
      ghost var s := Served(resultEdges, vToVecid, vertex);
      ServedFromList(resultEdges, resultGraph, vToVecid, vertex);
      var list := resultGraph[Slot(vToVecid, vertex)];
      w := [];
      NoProgress(resultEdges, log0, s, r);
      for i := 0 to |list|
        invariant log0.edges <= edgeVisited
        invariant Progress(resultEdges, log0, Log(edgeVisited, vertexVisited, pathStack), s, w, r)
        invariant forall j :: 0 <= j < i ==> list[j] in edgeVisited
      {
        var e := list[i];
        ListedEdge(resultEdges, list, s, i);
        if e !in edgeVisited {
          VisitsShrink(resultEdges, log0.edges, edgeVisited);
          w := FollowEdge(e, log0, s, w, r);
        }
      }
      AllVisited(resultEdges, edgeVisited, s, list);
      ProgressEnds(resultEdges, log0, Log(edgeVisited, vertexVisited, pathStack), vertex, s, w, r);
      pathStack := pathStack + [vertex];
      vertexVisited := vertexVisited + {vertex};
    }

    /** Marks an unvisited edge out of `s` and traverses on from where it leads. */
    method FollowEdge(e: nat, ghost log0: Log, ghost s: nat, ghost w: seq<nat>, ghost r: nat)
      returns (ghost w': seq<nat>)
      requires resultEdges != [] && Indexed(resultEdges, resultGraph, vToVecid) && WaysOn(resultEdges, vToVecid)
      requires log0.edges <= edgeVisited
      requires Progress(resultEdges, log0, Log(edgeVisited, vertexVisited, pathStack), s, w, r)
      requires e < |resultEdges| && e !in edgeVisited && resultEdges[e].source == s
      modifies this
      ensures old(edgeVisited) + {e} <= edgeVisited
      ensures Progress(resultEdges, log0, Log(edgeVisited, vertexVisited, pathStack), s, w', r)
      decreases Unvisited(resultEdges, edgeVisited), 0
    {
      hide *;
      ghost var log1 := Log(edgeVisited, vertexVisited, pathStack);
      LeaveBy(resultEdges, vToVecid, log0, log1, s, w, r, e);
      edgeVisited := edgeVisited + {e};
      ghost var tail := EulerCircuitDFS(resultEdges[e].target, if w == [] then r else s);
      Splice(resultEdges, log0, log1, Log(edgeVisited, vertexVisited, pathStack), s, e, tail, w, r);
      w' := [e] + tail + w;
    }
  }

  lemma ListedEdge(es: seq<Edge>, list: seq<nat>, s: nat, i: nat)
    requires ListOf(es, list, s, |es|) && i < |list|
    ensures list[i] < |es| && es[list[i]].source == s
  {
    assert list[i] in list;
  }

  lemma VisitsShrink(es: seq<Edge>, visited: set<nat>, visited': set<nat>)
    requires visited <= visited'
    ensures Unvisited(es, visited') <= Unvisited(es, visited)
  {
  }

  /** Every edge leads to a vertex that some edge leaves. */
  ghost predicate WaysOn(es: seq<Edge>, index: map<nat, nat>) {
    forall k :: 0 <= k < |es| ==> es[k].target in index
  }

  /** Edges and vertices visited, and the stack. */
  datatype Log = Log(edges: set<nat>, vertices: set<nat>, stack: seq<nat>)

  /** In the middle of the list of `s`: the circuits spliced so far, except that the first ends at `r`. */
  ghost predicate Progress(es: seq<Edge>, log0: Log, log: Log, s: nat, w: seq<nat>, r: nat) {
    && (if w == [] then log.edges == log0.edges else Toured(es, log0.edges, log.edges, s, w, r))
    && Leftover(es, log.edges, s, if w == [] then r else s)
    && log.stack == log0.stack + Reversed(Targets(es, w))
    && log.vertices == log0.vertices + Reached(es, w)
  }

  /** After the list of `s`, for a call on `v`. */
  ghost predicate Finished(es: seq<Edge>, log0: Log, log: Log, v: nat, s: nat, w: seq<nat>, r: nat) {
    && Toured(es, log0.edges, log.edges, s, w, r)
    && Leftover(es, log.edges, r, r)
    && Exhausted(es, log.edges, s)
    && log.stack == log0.stack + Reversed([v] + Targets(es, w))
    && log.vertices == log0.vertices + {v} + Reached(es, w)
  }

  lemma NoProgress(es: seq<Edge>, log: Log, s: nat, r: nat)
    requires Leftover(es, log.edges, s, r)
    ensures Progress(es, log, log, s, [], r)
  {
    hide Leftover;
    assert Targets(es, []) == [] && Reversed([]) == [];
  }

  /** Leaving `s` by an unvisited edge meets what the call on the vertex it leads to asks for. */
  lemma LeaveBy(es: seq<Edge>, index: map<nat, nat>, log0: Log, log: Log, s: nat, w: seq<nat>, r: nat, k: nat)
    requires WaysOn(es, index) && Progress(es, log0, log, s, w, r) && log0.edges <= log.edges
    requires k < |es| && k !in log.edges && es[k].source == s
    ensures Served(es, index, es[k].target) == es[k].target
    ensures Leftover(es, log.edges + {k}, es[k].target, if w == [] then r else s)
    ensures Unvisited(es, log.edges + {k}) < Unvisited(es, log.edges)
  {
    TakeEdge(es, log.edges, s, if w == [] then r else s, k);
    assert k in Unvisited(es, log.edges) && k !in Unvisited(es, log.edges + {k});
  }

  lemma ProgressEnds(es: seq<Edge>, log0: Log, log: Log, v: nat, s: nat, w: seq<nat>, r: nat)
    requires Progress(es, log0, log, s, w, r) && Exhausted(es, log.edges, s)
    ensures Finished(es, log0, Log(log.edges, log.vertices + {v}, log.stack + [v]), v, s, w, r)
  {
    if w == [] {
      NowhereToGo(es, log.edges, s, r);
    }
    ReversedAppend([v], Targets(es, w));
    assert Reversed([v]) == [v];
    hide Balance, Trail;
  }

  ghost function Unvisited(es: seq<Edge>, visited: set<nat>): set<nat> {
    set k: nat | k < |es| && k !in visited
  }

  ghost function Reached(es: seq<Edge>, w: seq<nat>): set<nat> {
    set x | x in Targets(es, w)
  }

  /** A trail from `u` to `r` over edges newly visited, each once, whose vertices have no way out left. */
  ghost predicate Toured(es: seq<Edge>, visited0: set<nat>, visited: set<nat>, u: nat, w: seq<nat>, r: nat) {
    && Trail(es, u, w, r)
    && visited == visited0 + (set k | k in w)
    && (forall k :: k in w ==> k !in visited0)
    && (forall i, j :: 0 <= i < j < |w| ==> w[i] != w[j])
    && (forall x :: x in Targets(es, w) ==> Exhausted(es, visited, x))
  }

  /** The adjacency lists of all the edges. */
  ghost predicate Indexed(es: seq<Edge>, graph: seq<seq<nat>>, index: map<nat, nat>) {
    IndexedUpTo(es, graph, index, |es|)
  }

  /** The list a vertex is served from: looking up an unknown vertex in the map yields 0.
      The program also stores that 0, which a later lookup gives anyway. */
  function Slot(index: map<nat, nat>, v: nat): nat {
    if v in index then index[v] else 0
  }

  /** The vertex whose list that is. */
  ghost function Served(es: seq<Edge>, index: map<nat, nat>, v: nat): nat
    requires es != []
  {
    if v in index then v else es[0].source
  }

  lemma ServedFromList(es: seq<Edge>, graph: seq<seq<nat>>, index: map<nat, nat>, v: nat)
    requires Indexed(es, graph, index) && es != []
    ensures Slot(index, v) < |graph|
    ensures ListOf(es, graph[Slot(index, v)], Served(es, index, v), |es|)
  {
    var s := if v in index then v else es[0].source;
    assert ListOf(es, graph[index[s]], s, |es|);
  }

  lemma AllVisited(es: seq<Edge>, visited: set<nat>, s: nat, list: seq<nat>)
    requires ListOf(es, list, s, |es|)
    requires forall j :: 0 <= j < |list| ==> list[j] in visited
    ensures Exhausted(es, visited, s)
  {
    forall k | 0 <= k < |es| && es[k].source == s ensures k in visited {
      assert k in list;
    }
  }

  /** The tour of a child, entered by edge `k`, goes in front of what was toured before. */
  lemma Splice(es: seq<Edge>, log0: Log, log1: Log, log2: Log, s: nat, k: nat, tail: seq<nat>, w: seq<nat>, r: nat)
    requires k < |es| && es[k].source == s && k !in log1.edges
    requires Progress(es, log0, log1, s, w, r)
    requires Finished(es, log1.(edges := log1.edges + {k}), log2, es[k].target, es[k].target, tail,
                      if w == [] then r else s)
    ensures Progress(es, log0, log2, s, [k] + tail + w, r)
  {
    var sink := if w == [] then r else s;
    SpliceTours(es, log0.edges, log1.edges, log2.edges, s, k, tail, sink, w, r);
    StackSplice(es, k, tail, w);
    hide Toured, Targets, Reached, Reversed, Balance;
    assert log2.stack == log0.stack + (Reversed(Targets(es, w)) + Reversed([es[k].target] + Targets(es, tail)));
    assert log2.vertices == log0.vertices + ({es[k].target} + Reached(es, tail) + Reached(es, w));
  }

  lemma SpliceTours(es: seq<Edge>, visited0: set<nat>, visited1: set<nat>, visited2: set<nat>, s: nat, k: nat,
                    tail: seq<nat>, sink: nat, w: seq<nat>, r: nat)
    requires k < |es| && es[k].source == s && k !in visited1
    requires if w == [] then visited1 == visited0 && sink == r
             else Toured(es, visited0, visited1, s, w, r) && sink == s
    requires Toured(es, visited1 + {k}, visited2, es[k].target, tail, sink)
    requires Exhausted(es, visited2, es[k].target)
    ensures Toured(es, visited0, visited2, s, [k] + tail + w, r)
  {
    var front := [k] + tail;
    assert Trail(es, s, front, sink) by { assert front[1..] == tail; }
    if w == [] {
      assert front + w == front;
    } else {
      TrailAppend(es, s, front, sink, w, r);
    }
    hide Trail;
    SpliceSets(visited0, visited1, visited2, k, tail, w);
    StackSplice(es, k, tail, w);
    assert Targets(es, front + w) == [es[k].target] + Targets(es, tail) + Targets(es, w);
  }

  lemma SpliceSets(visited0: set<nat>, visited1: set<nat>, visited2: set<nat>, k: nat, tail: seq<nat>, w: seq<nat>)
    requires k !in visited1 && visited1 == visited0 + (set j | j in w)
    requires visited2 == visited1 + {k} + (set j | j in tail)
    requires forall j :: j in tail ==> j !in visited1 + {k}
    requires forall j :: j in w ==> j !in visited0
    requires forall i, j :: 0 <= i < j < |w| ==> w[i] != w[j]
    requires forall i, j :: 0 <= i < j < |tail| ==> tail[i] != tail[j]
    ensures var all := [k] + tail + w;
      && visited2 == visited0 + (set j | j in all)
      && (forall j :: j in all ==> j !in visited0)
      && (forall i, j :: 0 <= i < j < |all| ==> all[i] != all[j])
  {
    var all := [k] + tail + w;
    forall i, j | 0 <= i < j < |all| ensures all[i] != all[j] {
      if j > |tail| {
        assert all[j] == w[j - 1 - |tail|] && all[j] in w;
        if 0 < i <= |tail| {
          assert all[i] == tail[i - 1] && all[i] in tail;
        }
      } else {
        assert all[j] == tail[j - 1] && all[j] in tail;
      }
    }
  }

  lemma StackSplice(es: seq<Edge>, k: nat, tail: seq<nat>, w: seq<nat>)
    requires k < |es|
    ensures Targets(es, [k] + tail + w) == ([es[k].target] + Targets(es, tail)) + Targets(es, w)
    ensures Reversed(Targets(es, [k] + tail + w)) ==
            Reversed(Targets(es, w)) + Reversed([es[k].target] + Targets(es, tail))
    ensures Reached(es, [k] + tail + w) == {es[k].target} + Reached(es, tail) + Reached(es, w)
  {
    ReversedAppend([es[k].target] + Targets(es, tail), Targets(es, w));
  }

  // ---------- what a finished traversal of a balanced graph is ----------

  ghost predicate Reaches(es: seq<Edge>, u: nat, v: nat) {
    exists t :: Trail(es, u, t, v)
  }

  /** Every vertex is left as often as it is entered. */
  ghost predicate Balanced(es: seq<Edge>) {
    forall x :: Balance(es, {}, x, |es|) == 0
  }

  lemma {:induction false} EnteredMeansLeft(es: seq<Edge>, x: nat, n: nat)
    requires n <= |es| && forall k :: 0 <= k < n ==> es[k].source != x
    ensures Balance(es, {}, x, n) <= 0
    ensures (exists k :: 0 <= k < n && es[k].target == x) ==> Balance(es, {}, x, n) < 0
  {
    if n > 0 {
      EnteredMeansLeft(es, x, n - 1);
    }
  }

  lemma BalancedWaysOn(es: seq<Edge>, graph: seq<seq<nat>>, index: map<nat, nat>)
    requires Balanced(es) && Indexed(es, graph, index)
    ensures WaysOn(es, index)
  {
    forall k | 0 <= k < |es| ensures es[k].target in index {
      if es[k].target !in index {
        EnteredMeansLeft(es, es[k].target, |es|);
        assert false;
      }
    }
  }

  /** A closed trail through exactly the edges that can be reached from `start`, each once. */
  ghost predicate Circuit(es: seq<Edge>, start: nat, w: seq<nat>) {
    && Trail(es, start, w, start)
    && (forall i, j :: 0 <= i < j < |w| ==> w[i] != w[j])
    && (forall k :: k in w <==> 0 <= k < |es| && Reaches(es, start, es[k].source))
  }

  lemma {:induction false} ReachedAreExhausted(es: seq<Edge>, visited: set<nat>, w: seq<nat>, u: nat, t: seq<nat>,
                                               v: nat)
    requires Trail(es, u, t, v) && Exhausted(es, visited, u) && visited == (set k | k in w)
    requires forall x :: x in Targets(es, w) ==> Exhausted(es, visited, x)
    ensures Exhausted(es, visited, v)
    ensures v == u || v in Targets(es, w)
    decreases t
  {
    if t != [] {
      var i :| 0 <= i < |w| && w[i] == t[0];
      assert Targets(es, w)[i] == es[t[0]].target;
      ReachedAreExhausted(es, visited, w, es[t[0]].target, t[1..], v);
    }
  }

  lemma {:induction false} TrailPrefix(es: seq<Edge>, u: nat, w: seq<nat>, v: nat, i: nat)
    requires Trail(es, u, w, v) && i < |w|
    ensures w[i] < |es| && Trail(es, u, w[..i], es[w[i]].source)
    decreases i
  {
    if i > 0 {
      TrailPrefix(es, es[w[0]].target, w[1..], v, i - 1);
      assert w[..i][1..] == w[1..][..i - 1];
    }
  }

  lemma {:induction false} TrailEnds(es: seq<Edge>, u: nat, w: seq<nat>, v: nat)
    requires Trail(es, u, w, v) && w != []
    ensures v in Targets(es, w)
    decreases w
  {
    assert forall x :: x in Targets(es, w[1..]) ==> x in Targets(es, w) by {
      forall x | x in Targets(es, w[1..]) ensures x in Targets(es, w) {
        var i :| 0 <= i < |w[1..]| && Targets(es, w[1..])[i] == x;
        assert Targets(es, w)[i + 1] == x;
      }
    }
    if w[1..] == [] {
      assert Targets(es, w)[0] == v;
    } else {
      TrailEnds(es, es[w[0]].target, w[1..], v);
    }
  }

  lemma {:induction false} TakenIsReached(es: seq<Edge>, s: nat, w: seq<nat>, r: nat, k: nat)
    requires Trail(es, s, w, r) && k in w
    ensures k < |es| && Reaches(es, s, es[k].source) && Reaches(es, s, es[k].target)
  {
    var i :| 0 <= i < |w| && w[i] == k;
    TrailPrefix(es, s, w, r, i);
    assert Trail(es, es[k].source, [k], es[k].target) by { assert [k][1..] == []; }
    TrailAppend(es, s, w[..i], es[k].source, [k], es[k].target);
  }

  /** A balanced graph is traversed along a circuit, from the vertex whose list is served: the start, if some edge
      leaves it. The stack spells that circuit, with the start in front. */
  lemma FinishedIsCircuit(es: seq<Edge>, log: Log, start: nat, s: nat, w: seq<nat>)
    requires Finished(es, Log({}, {}, []), log, start, s, w, s)
    requires s == start || exists k :: 0 <= k < |es| && es[k].source == s
    ensures Circuit(es, s, w)
    ensures Reversed(log.stack) == [start] + Targets(es, w)
    ensures forall v :: v in log.vertices <==> v == start || Reaches(es, s, v)
  {
    TrailInRange(es, s, w, s);
    forall k | 0 <= k < |es| && Reaches(es, s, es[k].source) ensures k in w {
      var t :| Trail(es, s, t, es[k].source);
      ReachedAreExhausted(es, log.edges, w, s, t, es[k].source);
    }
    forall k | k in w ensures Reaches(es, s, es[k].source) && Reaches(es, s, es[k].target) {
      TakenIsReached(es, s, w, s, k);
    }
    assert Trail(es, s, [], s);
    hide Trail;
    forall v | v in log.vertices ensures v == start || Reaches(es, s, v) {
      if v != start {
        var i :| 0 <= i < |w| && Targets(es, w)[i] == v;
        assert w[i] in w;
      }
    }
    forall v | Reaches(es, s, v) ensures v in log.vertices {
      var t :| Trail(es, s, t, v);
      ReachedAreExhausted(es, log.edges, w, s, t, v);
      if v == s != start {
        TrailEnds(es, s, w, s);
      }
    }
  }

  /** From a start that no edge leaves, the traversal still pushes the start last, and no edge leads on from it. */
  lemma UnknownStartSpellsNoWalk(es: seq<Edge>, graph: seq<seq<nat>>, index: map<nat, nat>, log: Log, start: nat,
                                 w: seq<nat>)
    requires es != [] && Indexed(es, graph, index) && start !in index
    requires Finished(es, Log({}, {}, []), log, start, Served(es, index, start), w, Served(es, index, start))
    ensures |log.stack| >= 2 && Reversed(log.stack)[0] == start
    ensures !exists k :: 0 <= k < |es| && es[k].source == start
  {
    assert Exhausted(es, log.edges, es[0].source);
    assert 0 in log.edges;
    if w == [] {
      assert false;
    }
  }
}
