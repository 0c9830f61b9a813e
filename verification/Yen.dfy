/** include/yen/ksp.hpp: K shortest loopless paths. */
module Yen {
  import opened Graphs
  import opened BaseGraph
  import opened Weights
  import opened Paths
  import opened CompPaths
  import opened EdwardMoore
  import L = Labels
  import opened LooplessPaths
  import opened YenInvariant
  import opened Spur

  ghost predicate Inside(n: nat, edges: seq<Edge>) {
    forall e :: e in edges ==> e.source < n && e.target < n
  }

  lemma InsideFits(directed: bool, n: nat, edges: seq<Edge>)
    requires Inside(n, edges)
    ensures L.Fits(Arcs(directed, edges), n)
  {
  }

  lemma {:induction false} PickInside(n: nat, edges: seq<Edge>, f: Edge -> seq<Edge>)
    requires Inside(n, edges)
    requires forall e, x :: x in f(e) ==> x == e || x == Flip(e)
    ensures Inside(n, Pick(edges, f))
  {
    PickMembers(edges, f);
  }

  lemma CutsStayInside(directed: bool, n: nat, g: Store, cut: Cut)
    requires Inside(n, g.edges) && Inside(n, g.removed)
    ensures Inside(n, Apply(directed, n, g, cut).edges) && Inside(n, Apply(directed, n, g, cut).removed)
  {
    match cut {
      case CutEdge(u, v) =>
        PickInside(n, g.edges, NotJoining(directed, u, v));
        PickInside(n, g.edges, Joining(directed, u, v));
      case CutVertex(v) =>
        PickInside(n, g.edges, NotTouching(v));
        PickInside(n, g.edges, Oriented(directed, v));
        PickInside(n, g.edges, Entering(v));
      case CutOutgoing(v, id) =>
        PickInside(n, g.edges, NotLeaving(directed, v, id));
        PickInside(n, g.edges, Leaving(directed, v, id));
    }
  }

  lemma RouteInside(c: Query, n: nat, p: Path)
    requires Inside(n, c.edges) && FairRoute(c, p)
    ensures forall i :: 0 <= i < |p.rows| ==> p.rows[i].node < n
  {
    InsideFits(c.directed, n, c.edges);
    forall i | 0 <= i < |p.rows| ensures p.rows[i].node < n {
      var k := if i > 0 then i - 1 else 0;
      assert Taken(p.rows, k) in Arcs(c.directed, c.edges);
    }
  }

  /** The graph as the search may find it: some edges cut, none forgotten. */
  ghost predicate Usable(c: Query, n: nat, g: Store) {
    Faithful(c.directed, c.edges, g) && Inside(n, g.edges) && Inside(n, g.removed)
  }

  /** Stands for `algorithms::dijkstra` between two vertices; an empty path means there is none. */
  method ShortestPath(g: Graph, s: nat, t: nat) returns (path: Path)
    requires Inside(g.n, g.edges)
    ensures path.rows != [] ==> IsShortest(Arcs(g.directed, g.edges), s, t, path)
    ensures path.rows == [] && s < g.n && t < g.n ==> s == t || !Reachable(Arcs(g.directed, g.edges), s, t)
  {
    InsideFits(g.directed, g.n, g.edges);
    hide IsShortest, Arcs;
    var paths := OneToMany(g.directed, g.edges, g.n, s, [t]);
    if paths == [] {
      path := Path(s, t, [], 0);
    } else {
      path := paths[0];
      assert path in paths;
      ShortestHasRows(Arcs(g.directed, g.edges), s, path.endId, path);
    }
  }

  lemma ShortestHasRows(arcs: set<Edge>, s: nat, t: nat, p: Path)
    requires IsShortest(arcs, s, t, p)
    ensures p.rows != []
  {
  }

  /** There is something to look for. */
  predicate Asked(n: nat, s: nat, t: nat, k: nat) {
    s != t && k > 0 && s < n && t < n
  }

  class Ksp {
    var start: nat
    var end: nat
    var K: nat
    var heapPaths: bool
    var currResultPath: Path
    var resultSet: seq<Path>
    var heap: seq<Path>

    constructor ()
      ensures resultSet == [] && heap == []
    {
      start, end, K, heapPaths := 0, 0, 0, false;
      currResultPath := Path(0, 0, [], 0);
      resultSet, heap := [], [];
    }

    /** Cuts the edges that accepted paths take from the spur node after the same root. */
    method CutAccepted(g: Graph, ghost c: Query, i: nat, rootPath: Path) returns (ghost banned: set<nat>)
      requires c.directed == g.directed && Inside(g.n, c.edges) && Usable(c, g.n, g.State())
      requires FairRoute(c, currResultPath) && i < |currResultPath.rows|
      requires rootPath.rows == currResultPath.rows[..i]
      requires forall q :: q in resultSet ==> FairRoute(c, q)
      modifies g
      ensures Usable(c, g.n, g.State())
      ensures Pruned(c.directed, old(g.edges), g.edges, {}, currResultPath.rows[i].node, banned)
      ensures forall v :: v in banned <==>
        exists q :: q in resultSet && Nodes(currResultPath.rows)[..i + 1] + [v] <= Nodes(q.rows)
    {
      ghost var prefix := Nodes(currResultPath.rows)[..i + 1];
      var spurNode := currResultPath.rows[i].node;
      RouteInside(c, g.n, currResultPath);
      banned := {};
      for k := 0 to |resultSet|
        invariant Usable(c, g.n, g.State())
        invariant Pruned(c.directed, old(g.edges), g.edges, {}, spurNode, banned)
        invariant forall v :: v in banned <==> exists q :: q in resultSet[..k] && prefix + [v] <= Nodes(q.rows)
      {
        var path := resultSet[k];
        assert path in resultSet;
        ghost var earlier := resultSet[..k];
        assert resultSet[..k + 1] == earlier + [path];
        RouteInside(c, g.n, path);
        var same := IsEqual(path, rootPath);
        SameRoot(currResultPath, rootPath, path, i, same);
        if same && spurNode == path.rows[i].node && |path.rows| > i + 1 {
          var next := path.rows[i + 1].node;
          CutEdgePrunes(c.directed, g.n, old(g.edges), g.State(), {}, spurNode, banned, next);
          CutEdgeFaithful(c.directed, g.n, c.edges, g.State(), spurNode, next);
          CutsStayInside(c.directed, g.n, g.State(), CutEdge(spurNode, next));
          g.DisconnectEdge(path.rows[i].node, next);
          banned := banned + {next};
        }
      }
    }

    /** Cuts the nodes of the root path out of the graph. */
    method RemoveVertices(g: Graph, ghost c: Query, ghost startEdges: seq<Edge>, subpath: Path, ghost spur: nat,
                          ghost banned: set<nat>)
      requires c.directed == g.directed && Usable(c, g.n, g.State())
      requires Pruned(c.directed, startEdges, g.edges, {}, spur, banned)
      requires forall i :: 0 <= i < |subpath.rows| ==> subpath.rows[i].node < g.n
      modifies g
      ensures Usable(c, g.n, g.State())
      ensures Pruned(c.directed, startEdges, g.edges, RootsOf(Nodes(subpath.rows), |subpath.rows|), spur, banned)
    {
      ghost var nodes := Nodes(subpath.rows);
      assert RootsOf(nodes, 0) == {};
      for i := 0 to |subpath.rows|
        invariant Usable(c, g.n, g.State())
        invariant Pruned(c.directed, startEdges, g.edges, RootsOf(nodes, i), spur, banned)
      {
        var v := subpath.rows[i].node;
        CutVertexPrunes(c.directed, g.n, startEdges, g.State(), RootsOf(nodes, i), spur, banned, v);
        CutVertexFaithful(c.directed, g.n, c.edges, g.State(), v);
        CutsStayInside(c.directed, g.n, g.State(), CutVertex(v));
        g.DisconnectVertex(v);
        assert nodes[..i + 1] == nodes[..i] + [v];
        assert RootsOf(nodes, i + 1) == RootsOf(nodes, i) + {v};
      }
    }

    /** The body of the cycle for one spur node. */
    method Deviate(g: Graph, ghost c: Query, i: nat)
      requires c == Query(g.directed, c.edges, start, end)
      requires Inside(g.n, c.edges) && Usable(c, g.n, g.State()) && g.removedEdges == []
      requires Kept(c, resultSet, heap) && FairRoute(c, currResultPath) && i < |currResultPath.rows| && end < g.n
      modifies this`heap, g
      ensures Usable(c, g.n, g.State()) && g.removedEdges == []
      ensures Kept(c, resultSet, heap) && forall h :: h in old(heap) ==> h in heap
      ensures Covered(c, resultSet, heap, Nodes(currResultPath.rows)[..i + 1])
    {
      hide Usable, Pruned, Covered, FairRoute, Kept;
      ghost var before, nodes := g.edges, Nodes(currResultPath.rows);
      var spurNodeId := currResultPath.rows[i].node;
      RouteInside(c, g.n, currResultPath);
      KeptRoutes(c, resultSet, heap);
      var rootPath := GetSubpath(currResultPath, i);
      ghost var banned := CutAccepted(g, c, i, rootPath);
      RemoveVertices(g, c, before, rootPath, spurNodeId, banned);
      assert Nodes(rootPath.rows) == nodes[..i] && nodes[..i][..i] == nodes[..i];
      assert RootsOf(Nodes(rootPath.rows), i) == RootsOf(nodes, i);
      UsableInside(c, g.n, g.State());
      assert Cutting(c, before, g.edges, RootsOf(nodes, i), spurNodeId, banned) by {
        UsableInside(c, g.n, Store(before, []));
      }
      var spurPath := ShortestPath(g, spurNodeId, end);
      if |spurPath.rows| > 0 {
        SpurNodeIsNotLast(c, currResultPath, i, Arcs(g.directed, g.edges), spurPath);
        RouteEnds(c, currResultPath);
        rootPath := AppendPath(rootPath, spurPath);
        SpurCovers(c, before, g.edges, resultSet, currResultPath, i, banned, spurPath, rootPath);
        ghost var heap' := heap;
        heap := Insert(heap, rootPath);
        InsertCovers(c, resultSet, heap', heap, rootPath, nodes[..i + 1]);
      } else {
        NothingToCover(c, before, g.edges, resultSet, heap, nodes, i, banned);
      }
      UsableRestored(c, g.n, g.State());
      g.RestoreGraph();
    }

    /** Deviates at every node of the current path. */
    method DoNextCycle(g: Graph, ghost c: Query)
      requires c == Query(g.directed, c.edges, start, end) && end < g.n
      requires Inside(g.n, c.edges) && Usable(c, g.n, g.State()) && g.removedEdges == []
      requires Kept(c, resultSet, heap) && currResultPath in resultSet
      requires CoveredBut(c, resultSet, heap, Nodes(currResultPath.rows))
      modifies this`heap, g
      ensures Usable(c, g.n, g.State()) && g.removedEdges == []
      ensures Kept(c, resultSet, heap) && CoveredBut(c, resultSet, heap, [])
    {
      hide Usable, Covered, FairRoute, Kept, CoveredBut;
      ghost var nodes := Nodes(currResultPath.rows);
      KeptRoutes(c, resultSet, heap);
      for i := 0 to |currResultPath.rows|
        invariant Usable(c, g.n, g.State()) && g.removedEdges == []
        invariant Kept(c, resultSet, heap) && CoveredBut(c, resultSet, heap, nodes)
        invariant forall k :: 1 <= k <= i ==> Covered(c, resultSet, heap, nodes[..k])
      {
        ghost var heap' := heap;
        Deviate(g, c, i);
        CoveredButGrows(c, resultSet, heap', heap, nodes);
        forall k | 1 <= k <= i + 1 ensures Covered(c, resultSet, heap, nodes[..k]) {
          if k <= i {
            CoveredGrows(c, resultSet, heap', heap, nodes[..k]);
          }
        }
      }
      EveryPrefixCovered(c, resultSet, heap, nodes);
    }

    /** The first, unconstrained search. */
    method GetFirstSolution(g: Graph, ghost c: Query) returns (path: Path)
      requires c == Query(g.directed, g.edges, start, end)
      requires start < g.n && end < g.n && start != end
      requires Inside(g.n, c.edges) && resultSet == [] && heap == []
      modifies this`resultSet
      ensures path.rows == [] ==> resultSet == [] && forall p :: !NodeRoute(c, p)
      ensures path.rows != [] ==> resultSet == [path] && Kept(c, resultSet, []) && Cheapest(c, resultSet)
      ensures path.rows != [] ==> CoveredBut(c, resultSet, [], Nodes(path.rows))
    {
      var found := ShortestPath(g, start, end);
      if found.rows == [] {
        NoFirstSolution(c);
        return found;
      }
      FirstSolution(c, found);
      path := RecalculateAggCost(found);
      AlreadyAggregated(c, found, path);
      resultSet := Insert(resultSet, path);
      OnlyElement(resultSet, path);
    }

    method ExecuteYen(g: Graph, ghost c: Query)
      requires c == Query(g.directed, g.edges, start, end)
      requires start < g.n && end < g.n && start != end
      requires Inside(g.n, g.edges) && g.removedEdges == [] && K > 0
      modifies this, g
      ensures start == old(start) && end == old(end) && K == old(K) && heapPaths == old(heapPaths)
      ensures Usable(c, g.n, g.State()) && g.removedEdges == []
      ensures Kept(c, resultSet, heap) && Cheapest(c, resultSet) && |resultSet| <= K
      ensures |resultSet| < K ==> heap == [] && forall p :: NodeRoute(c, p) ==> Accepted(resultSet, p)
      ensures resultSet == [] ==> heap == []
      ensures resultSet != [] ==>
        currResultPath in resultSet && CoveredBut(c, resultSet, heap, Nodes(currResultPath.rows))
    {
      hide Usable, FairRoute, Kept, CoveredBut, Cheapest, NodeRoute;
      Clear();
      StartUsable(c, g.n);
      currResultPath := GetFirstSolution(g, c);
      if |resultSet| == 0 {
        NothingKept(c);
        return;
      }
      assert currResultPath in resultSet;
      while |resultSet| < K
        invariant Usable(c, g.n, g.State()) && g.removedEdges == []
        invariant Kept(c, resultSet, heap) && Cheapest(c, resultSet) && |resultSet| <= K
        invariant currResultPath in resultSet
        invariant CoveredBut(c, resultSet, heap, Nodes(currResultPath.rows))
        invariant start == old(start) && end == old(end) && K == old(K) && heapPaths == old(heapPaths)
      {
        DoNextCycle(g, c);
        if heap == [] {
          CoveredButMore(c, resultSet, heap, Nodes(currResultPath.rows));
          forall p | NodeRoute(c, p) ensures Accepted(resultSet, p) {
            EmptyHeapMeansAll(c, resultSet, p);
          }
          return;
        }
        currResultPath := heap[0];
        HeapHeadIsRoute(c, resultSet, heap);
        var recalculated := RecalculateAggCost(currResultPath);
        AlreadyAggregated(c, currResultPath, recalculated);
        currResultPath := recalculated;
        ghost var accepted := resultSet;
        KeptRoutes(c, resultSet, heap);
        resultSet := Insert(resultSet, currResultPath);
        AcceptBest(c, accepted, heap, resultSet);
        heap := heap[1..];
      }
    }

    /** The accepted paths, and what is left in the heap if asked for, in order.
        Inserting in order stands for `std::sort`: no two of the paths are equivalent. */
    method GetResults(ghost c: Query) returns (paths: seq<Path>)
      requires Kept(c, resultSet, heap)
      ensures Sorted(paths)
      ensures forall p :: p in paths <==> p in resultSet || (heapPaths && resultSet != [] && p in heap)
      ensures !heapPaths ==> paths == resultSet
    {
      if resultSet == [] {
        return [];
      }
      paths := resultSet;
      if heapPaths && heap != [] {
        for i := 0 to |heap|
          invariant Sorted(paths)
          invariant forall p :: p in paths <==> p in resultSet || p in heap[..i]
        {
          assert heap[..i + 1] == heap[..i] + [heap[i]];
          NotYetThere(c, resultSet, heap, i, paths);
          ghost var paths' := paths;
          paths := Insert(paths, heap[i]);
          forall p ensures p in paths <==> p in paths' || p == heap[i] {
            assert p in paths <==> p in multiset(paths);
          }
        }
        assert heap[..|heap|] == heap;
      }
    }

    /** Up to `k` loopless paths from `startVertex` to `endVertex`, cheapest by the prices listed first, and with
        `heapPaths` some more. */
    method Yen(g: Graph, startVertex: nat, endVertex: nat, k: nat, heapPaths: bool) returns (paths: seq<Path>)
      requires Inside(g.n, g.edges) && g.removedEdges == []
      modifies this, g
      ensures Asked(g.n, startVertex, endVertex, k) ==>
        forall p :: p in paths <==> p in resultSet || (heapPaths && p in heap)
      ensures !Asked(g.n, startVertex, endVertex, k) ==> paths == []
      ensures Asked(g.n, startVertex, endVertex, k) && resultSet != [] ==>
        var c := Query(g.directed, old(g.edges), startVertex, endVertex);
        currResultPath in resultSet && CoveredBut(c, resultSet, heap, Nodes(currResultPath.rows))
      ensures var c := Query(g.directed, old(g.edges), startVertex, endVertex);
        && Usable(c, g.n, g.State()) && g.removedEdges == []
        && Sorted(paths) && (!heapPaths ==> |paths| <= k)
        && (forall q :: q in paths ==> FairRoute(c, q))
        && (forall p :: NodeRoute(c, p) && !Accepted(paths, p) && startVertex < g.n && endVertex < g.n ==>
              |paths| >= k && forall j :: 0 <= j < k ==> paths[j].totCost <= NodeCost(c.directed, c.edges, p))
    {
      ghost var c := Query(g.directed, g.edges, startVertex, endVertex);
      StartUsable(c, g.n);
      if startVertex == endVertex || k == 0 {
        return [];
      }
      if !g.HasVertex(startVertex) || !g.HasVertex(endVertex) {
        return [];
      }
      Clear();
      this.start, this.end, this.K, this.heapPaths := startVertex, endVertex, k, heapPaths;
      ExecuteYen(g, c);
      paths := GetResults(c);
      FirstAreCheapest(c, resultSet, heap, k, paths);
      if !heapPaths && |paths| > k {
        paths := Resized(paths, k);
      }
    }

    static function Resized(paths: seq<Path>, k: nat): seq<Path> {
      if |paths| > k then paths[..k] else paths
    }

    method Clear()
      modifies this`resultSet, this`heap
      ensures resultSet == [] && heap == []
    {
      resultSet, heap := [], [];
    }
  }

  lemma NotYetThere(c: Query, accepted: seq<Path>, heap: seq<Path>, i: nat, paths: seq<Path>)
    requires Kept(c, accepted, heap) && i < |heap|
    requires forall p :: p in paths <==> p in accepted || p in heap[..i]
    ensures !Contains(paths, heap[i])
  {
    hide FairRoute;
    assert heap[i] in heap;
    forall p | p in paths ensures !Equivalent(p, heap[i]) {
      if p in heap[..i] {
        var j :| 0 <= j < i && heap[..i][j] == p;
        assert Less(heap[j], heap[i]);
        LessIsStrictOrder(heap[j], heap[i], heap[i]);
      }
    }
  }

  lemma {:induction false} SortedDistinct(paths: seq<Path>)
    requires Sorted(paths)
    ensures |set p | p in paths| == |paths|
  {
    if paths != [] {
      var k := |paths| - 1;
      var front := paths[..k];
      SortedDistinct(front);
      assert (set p | p in paths) == (set p | p in front) + {paths[k]};
      forall j | 0 <= j < k ensures front[j] != paths[k] {
        assert Less(paths[j], paths[k]);
        LessIsStrictOrder(paths[j], paths[k], paths[k]);
      }
    }
  }

  lemma {:induction false} FewDistinct(paths: seq<Path>)
    ensures |set p | p in paths| <= |paths|
  {
    if paths != [] {
      var k := |paths| - 1;
      FewDistinct(paths[..k]);
      assert (set p | p in paths) == (set p | p in paths[..k]) + {paths[k]};
    }
  }

  /** The first `|some|` of an ordered list containing all of `some` cost no more than any bound on `some`. */
  lemma FirstAreBounded(some: seq<Path>, all: seq<Path>, bound: nat, j: nat)
    requires Sorted(some) && Sorted(all) && j < |some|
    requires forall p :: p in some ==> p in all && p.totCost <= bound
    ensures j < |all| && all[j].totCost <= bound
  {
    SortedDistinct(some);
    var cheap := all[..if j < |all| then j else |all|];
    forall i | j < i < |all| ensures all[j].totCost <= all[i].totCost {
      assert Less(all[j], all[i]);
    }
    if j >= |all| || all[j].totCost > bound {
      forall p | p in some ensures p in cheap {
        var i :| 0 <= i < |all| && all[i] == p;
        assert p == cheap[i];
      }
      FewDistinct(cheap);
      SubsetSize(set p | p in some, set p | p in cheap);
      assert false;
    }
  }

  lemma {:induction false} SubsetSize(a: set<Path>, b: set<Path>)
    requires a <= b
    ensures |a| <= |b|
  {
    if a != {} {
      var x :| x in a;
      SubsetSize(a - {x}, b - {x});
    }
  }

  lemma FirstAreCheapest(c: Query, accepted: seq<Path>, heap: seq<Path>, k: nat, paths: seq<Path>)
    requires Kept(c, accepted, heap) && Cheapest(c, accepted) && |accepted| <= k
    requires |accepted| < k ==> forall p :: NodeRoute(c, p) ==> Accepted(accepted, p)
    requires Sorted(paths) && forall p :: p in accepted ==> p in paths
    ensures forall p :: NodeRoute(c, p) && !Accepted(paths, p) ==>
      |paths| >= k && forall j :: 0 <= j < k ==> paths[j].totCost <= NodeCost(c.directed, c.edges, p)
  {
    hide FairRoute, NodeRoute, Sorted;
    forall p | NodeRoute(c, p) && !Accepted(paths, p)
      ensures |paths| >= k && forall j :: 0 <= j < k ==> paths[j].totCost <= NodeCost(c.directed, c.edges, p)
    {
      assert !Accepted(accepted, p);
      forall j | 0 <= j < k ensures j < |paths| && paths[j].totCost <= NodeCost(c.directed, c.edges, p) {
        FirstAreBounded(accepted, paths, NodeCost(c.directed, c.edges, p), j);
      }
      if k > 0 {
        FirstAreBounded(accepted, paths, NodeCost(c.directed, c.edges, p), k - 1);
      }
    }
  }

  lemma CoveredButMore(c: Query, accepted: seq<Path>, heap: seq<Path>, pending: seq<nat>)
    requires CoveredBut(c, accepted, heap, [])
    ensures CoveredBut(c, accepted, heap, pending)
  {
    hide Covered;
    forall q, k | q in accepted && 1 <= k <= |q.rows| ensures Covered(c, accepted, heap, Nodes(q.rows)[..k]) {
      CoveredAt(c, accepted, heap, q, k);
    }
  }

  lemma CoveredButGrows(c: Query, accepted: seq<Path>, heap: seq<Path>, heap': seq<Path>, pending: seq<nat>)
    requires CoveredBut(c, accepted, heap, pending)
    requires forall h :: h in heap ==> h in heap'
    ensures CoveredBut(c, accepted, heap', pending)
  {
    hide Covered;
    forall q, k | q in accepted && 1 <= k <= |q.rows|
      ensures Nodes(q.rows)[..k] <= pending || Covered(c, accepted, heap', Nodes(q.rows)[..k])
    {
      if !(Nodes(q.rows)[..k] <= pending) {
        CoveredGrows(c, accepted, heap, heap', Nodes(q.rows)[..k]);
      }
    }
  }

  lemma EveryPrefixCovered(c: Query, accepted: seq<Path>, heap: seq<Path>, pending: seq<nat>)
    requires CoveredBut(c, accepted, heap, pending)
    requires forall k :: 1 <= k <= |pending| ==> Covered(c, accepted, heap, pending[..k])
    ensures CoveredBut(c, accepted, heap, [])
  {
    hide Covered;
    forall q, k | q in accepted && 1 <= k <= |q.rows|
      ensures Covered(c, accepted, heap, Nodes(q.rows)[..k])
    {
      var prefix := Nodes(q.rows)[..k];
      if prefix <= pending {
        assert prefix == pending[..k];
      }
    }
  }

  lemma StartUsable(c: Query, n: nat)
    requires Inside(n, c.edges)
    ensures Usable(c, n, Store(c.edges, []))
  {
    FaithfulStart(c.directed, c.edges);
  }

  /** In the uncut graph every loopless path is a walk at its price, and a shortest path is a fair route. */
  lemma WholeGraphIsCutting(c: Query)
    ensures Cutting(c, c.edges, c.edges, {}, c.s, {})
  {
    FaithfulStart(c.directed, c.edges);
  }

  lemma {:induction false} RouteIsWalk(c: Query, p: seq<nat>)
    requires NodeRoute(c, p)
    ensures IsWalk(Arcs(c.directed, c.edges), c.s, NodeWalk(c.directed, c.edges, p), c.t)
    ensures Cost(NodeWalk(c.directed, c.edges, p)) == NodeCost(c.directed, c.edges, p)
  {
    assert Available(c.directed, c.edges, c.edges, p);
    NodeWalkIsWalk(c.directed, c.edges, c.edges, p);
  }

  lemma NoFirstSolution(c: Query)
    requires !Reachable(Arcs(c.directed, c.edges), c.s, c.t)
    ensures forall p :: !NodeRoute(c, p)
  {
    forall p ensures !NodeRoute(c, p) {
      if NodeRoute(c, p) {
        RouteIsWalk(c, p);
        assert false;
      }
    }
  }

  lemma FirstSolution(c: Query, found: Path)
    requires IsShortest(Arcs(c.directed, c.edges), c.s, c.t, found)
    ensures FairRoute(c, found) && Kept(c, [found], []) && Cheapest(c, [found])
    ensures CoveredBut(c, [found], [], Nodes(found.rows))
  {
    WholeGraphIsCutting(c);
    SpurIsFair(c, c.edges, c.edges, {}, c.s, {}, found);
    forall p | NodeRoute(c, p) ensures found.totCost <= NodeCost(c.directed, c.edges, p) {
      RouteIsWalk(c, p);
    }
  }

  lemma {:induction false} AggregatedIsUnique(a: seq<Row>, b: seq<Row>, k: nat)
    requires SameButAggregated(a, b) && Aggregated(a) && k < |a|
    ensures a[k] == b[k]
  {
    if k > 0 {
      AggregatedIsUnique(a, b, k - 1);
    }
  }

  /** Recomputing the `agg_cost` column of a stored path changes nothing. */
  lemma AlreadyAggregated(c: Query, p: Path, r: Path)
    requires FairRoute(c, p)
    requires r.startId == p.startId && r.endId == p.endId
    requires SameButAggregated(p.rows, r.rows) && r.totCost == RowsCost(p.rows)
    ensures r == p
  {
    forall k | 0 <= k < |p.rows| ensures p.rows[k] == r.rows[k] {
      AggregatedIsUnique(p.rows, r.rows, k);
    }
    assert p.rows == r.rows;
  }

  lemma OnlyElement(paths: seq<Path>, p: Path)
    requires multiset(paths) == multiset([]) + multiset{p}
    ensures paths == [p]
  {
    assert |multiset(paths)| == 1;
    assert paths[0] in multiset(paths);
  }

  lemma NothingKept(c: Query)
    ensures Kept(c, [], []) && Cheapest(c, [])
  {
  }

  lemma HeapHeadIsRoute(c: Query, accepted: seq<Path>, heap: seq<Path>)
    requires Kept(c, accepted, heap) && heap != []
    ensures FairRoute(c, heap[0])
  {
    assert heap[0] in heap;
  }

  /** Moving the best path from the heap to the accepted ones keeps the whole invariant. */
  lemma AcceptBest(c: Query, accepted: seq<Path>, heap: seq<Path>, accepted': seq<Path>)
    requires Kept(c, accepted, heap) && Cheapest(c, accepted) && CoveredBut(c, accepted, heap, [])
    requires heap != [] && accepted != [] && Sorted(accepted')
    requires if Contains(accepted, heap[0]) then accepted' == accepted
             else multiset(accepted') == multiset(accepted) + multiset{heap[0]}
    ensures Kept(c, accepted', heap[1..]) && Cheapest(c, accepted')
    ensures |accepted'| == |accepted| + 1 && heap[0] in accepted'
    ensures CoveredBut(c, accepted', heap[1..], Nodes(heap[0].rows))
  {
    var best := heap[0];
    assert best in heap;
    AcceptedMembers(accepted, heap, accepted');
    AcceptKeepsKept(c, accepted, heap, accepted');
    hide FairRoute, NodeRoute, Sorted, Covered, Kept;
    forall q, k | q in accepted' && 1 <= k <= |q.rows|
      ensures Nodes(q.rows)[..k] <= Nodes(best.rows) || Covered(c, accepted', heap[1..], Nodes(q.rows)[..k])
    {
      var prefix := Nodes(q.rows)[..k];
      if q in accepted && !(prefix <= Nodes(best.rows)) {
        CoveredAt(c, accepted, heap, q, k);
        AcceptKeepsCovered(c, accepted, heap, accepted', heap[1..], best, prefix);
      }
    }
    forall q, p | q in accepted' && NodeRoute(c, p) && !Accepted(accepted', p)
      ensures q.totCost <= NodeCost(c.directed, c.edges, p)
    {
      assert !Accepted(accepted, p);
      HeapBeatsTheRest(c, accepted, heap, p);
    }
  }

  lemma AcceptedMembers(accepted: seq<Path>, heap: seq<Path>, accepted': seq<Path>)
    requires heap != [] && forall q, h :: q in accepted && h in heap ==> !Equivalent(q, h)
    requires if Contains(accepted, heap[0]) then accepted' == accepted
             else multiset(accepted') == multiset(accepted) + multiset{heap[0]}
    ensures |accepted'| == |accepted| + 1
    ensures forall q :: q in accepted' <==> q in accepted || q == heap[0]
    ensures forall h :: h in heap && h != heap[0] ==> h in heap[1..]
  {
    assert heap[0] in heap;
    assert |multiset(accepted')| == |multiset(accepted) + multiset{heap[0]}|;
    forall q ensures q in accepted' <==> q in accepted || q == heap[0] {
      assert q in accepted' <==> q in multiset(accepted');
    }
  }

  lemma AcceptKeepsKept(c: Query, accepted: seq<Path>, heap: seq<Path>, accepted': seq<Path>)
    requires Kept(c, accepted, heap) && heap != [] && Sorted(accepted')
    requires forall q :: q in accepted' <==> q in accepted || q == heap[0]
    ensures Kept(c, accepted', heap[1..])
  {
    hide FairRoute;
    forall h | h in heap[1..] ensures h in heap && !Equivalent(heap[0], h) {
      var i :| 1 <= i < |heap| && heap[i] == h;
      assert Less(heap[0], heap[i]);
      LessIsStrictOrder(heap[0], heap[i], heap[i]);
    }
    assert heap[0] in heap;
  }

  lemma KeptRoutes(c: Query, accepted: seq<Path>, heap: seq<Path>)
    requires Kept(c, accepted, heap)
    ensures Sorted(accepted) && Sorted(heap) && forall q :: q in accepted ==> FairRoute(c, q)
  {
  }

  lemma UsableInside(c: Query, n: nat, g: Store)
    requires Usable(c, n, g)
    ensures Inside(n, g.edges) && Faithful(c.directed, c.edges, g)
  {
  }

  lemma UsableRestored(c: Query, n: nat, g: Store)
    requires Usable(c, n, g)
    ensures Usable(c, n, Store(Restored(g), []))
  {
    RestoreFaithful(c.directed, c.edges, g);
  }

  lemma RouteEnds(c: Query, p: Path)
    requires FairRoute(c, p)
    ensures p.startId == c.s && p.endId == c.t
  {
  }

  lemma SpurNodeIsNotLast(c: Query, current: Path, i: nat, arcs: set<Edge>, sp: Path)
    requires FairRoute(c, current) && i < |current.rows| && IsShortest(arcs, current.rows[i].node, c.t, sp)
    ensures i < |current.rows| - 1
  {
  }

  lemma NothingToCover(c: Query, start: seq<Edge>, now: seq<Edge>, accepted: seq<Path>, heap: seq<Path>,
                       nodes: seq<nat>, i: nat, banned: set<nat>)
    requires i < |nodes| && Cutting(c, start, now, RootsOf(nodes, i), nodes[i], banned)
    requires forall v :: v in banned ==> exists q :: q in accepted && nodes[..i + 1] + [v] <= Nodes(q.rows)
    requires nodes[i] == c.t || !Reachable(Arcs(c.directed, now), nodes[i], c.t)
    ensures Covered(c, accepted, heap, nodes[..i + 1])
  {
    var prefix := nodes[..i + 1];
    forall p ensures !Candidate(c, accepted, prefix, p) {
      NoSpurNoCandidate(c, start, now, accepted, nodes, i, banned, p);
    }
    hide Candidate;
  }

  lemma HeapGrows(heap: seq<Path>, heap': seq<Path>, joined: Path)
    requires heap' == heap || multiset(heap') == multiset(heap) + multiset{joined}
    ensures forall h :: h in heap ==> h in heap'
    ensures forall h :: h in heap' ==> h in heap || h == joined
  {
    assert forall q :: q in heap' <==> q in multiset(heap');
    assert forall q :: q in heap <==> q in multiset(heap);
  }

  lemma NotAmongAccepted(c: Query, accepted: seq<Path>, prefix: seq<nat>, p: seq<nat>)
    requires Candidate(c, accepted, prefix, p)
    ensures forall q :: q in accepted ==> Nodes(q.rows) != p
  {
    assert p[..|prefix| + 1] <= p;
  }

  /** Inserting a cheapest candidate keeps the sets in order and covers its prefix. */
  lemma InsertCovers(c: Query, accepted: seq<Path>, heap: seq<Path>, heap': seq<Path>, joined: Path, prefix: seq<nat>)
    requires Kept(c, accepted, heap) && FairRoute(c, joined)
    requires Sorted(heap') && Contains(heap', joined)
    requires heap' == heap || multiset(heap') == multiset(heap) + multiset{joined}
    requires Candidate(c, accepted, prefix, Nodes(joined.rows))
    requires forall p :: Candidate(c, accepted, prefix, p) ==> joined.totCost <= NodeCost(c.directed, c.edges, p)
    ensures Kept(c, accepted, heap') && Covered(c, accepted, heap', prefix)
    ensures forall h :: h in heap ==> h in heap'
  {
    hide FairRoute, Sorted, Candidate;
    HeapGrows(heap, heap', joined);
    NotAmongAccepted(c, accepted, prefix, Nodes(joined.rows));
    var h :| h in heap' && Equivalent(h, joined);
    forall p | Candidate(c, accepted, prefix, p)
      ensures h in heap' && Matches(c, accepted, prefix, h, p)
    {
    }
  }

  /** The test of the program is the one meant: `path` goes through the root and the spur node and on. */
  lemma SameRoot(current: Path, rootPath: Path, path: Path, i: nat, same: bool)
    requires i < |current.rows| && rootPath.rows == current.rows[..i] && path.rows != []
    requires same <==> rootPath.rows == [] || Nodes(rootPath.rows) < Nodes(path.rows)
    ensures same ==> i < |path.rows|
    ensures var prefix := Nodes(current.rows)[..i + 1];
      if same && current.rows[i].node == path.rows[i].node && |path.rows| > i + 1 then
        prefix + [path.rows[i + 1].node] <= Nodes(path.rows) &&
        forall v :: prefix + [v] <= Nodes(path.rows) ==> v == path.rows[i + 1].node
      else forall v :: !(prefix + [v] <= Nodes(path.rows))
  {
    var prefix := Nodes(current.rows)[..i + 1];
    assert Nodes(rootPath.rows) == prefix[..i];
    forall v | prefix + [v] <= Nodes(path.rows)
      ensures same && |path.rows| > i + 1 && current.rows[i].node == path.rows[i].node && v == path.rows[i + 1].node
    {
      assert (prefix + [v])[i + 1] == v && (prefix + [v])[i] == current.rows[i].node;
      assert (prefix + [v])[..i] == prefix[..i];
      assert Nodes(path.rows)[..i] == prefix[..i];
    }
    if same && current.rows[i].node == path.rows[i].node && |path.rows| > i + 1 {
      assert Nodes(path.rows)[..i] == prefix[..i];
      assert prefix == prefix[..i] + [current.rows[i].node];
      assert Nodes(path.rows)[..i + 2] == prefix + [path.rows[i + 1].node];
    }
  }
}
