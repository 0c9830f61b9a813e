/** One deviation of Yen's algorithm: what cutting leaves to search, and what a spur path found there is worth. */
module Spur {
  import opened Graphs
  import opened BaseGraph
  import opened Weights
  import opened Paths
  import opened LooplessPaths
  import opened EdwardMoore
  import opened YenInvariant

  predicate Blocked(directed: bool, roots: set<nat>, spur: nat, banned: set<nat>, x: nat, y: nat) {
    || x in roots || y in roots
    || (x == spur && y in banned)
    || (!directed && y == spur && x in banned)
  }

  /** `now` is `start` without the vertices `roots` and without the edges from `spur` to `banned`. */
  ghost predicate Pruned(directed: bool, start: seq<Edge>, now: seq<Edge>, roots: set<nat>, spur: nat,
                         banned: set<nat>) {
    forall x, y :: x != y ==> PrunedAt(directed, start, now, roots, spur, banned, x, y)
  }

  ghost predicate PrunedAt(directed: bool, start: seq<Edge>, now: seq<Edge>, roots: set<nat>, spur: nat,
                           banned: set<nat>, x: nat, y: nat)
  {
    Between(directed, now, x, y) ==
    if Blocked(directed, roots, spur, banned, x, y) then [] else Between(directed, start, x, y)
  }

  lemma CutEdgePrunes(directed: bool, n: nat, start: seq<Edge>, g: Store, roots: set<nat>, spur: nat, banned: set<nat>,
                      v: nat)
    requires Pruned(directed, start, g.edges, roots, spur, banned) && spur < n && v < n
    ensures Pruned(directed, start, Apply(directed, n, g, CutEdge(spur, v)).edges, roots, spur, banned + {v})
  {
    hide Between;
    forall x, y | x != y
      ensures PrunedAt(directed, start, Apply(directed, n, g, CutEdge(spur, v)).edges, roots, spur, banned + {v}, x, y)
    {
      assert PrunedAt(directed, start, g.edges, roots, spur, banned, x, y);
      WithoutEdgeBetween(directed, g.edges, spur, v, x, y);
    }
  }

  lemma CutVertexPrunes(directed: bool, n: nat, start: seq<Edge>, g: Store, roots: set<nat>, spur: nat,
                        banned: set<nat>, v: nat)
    requires Pruned(directed, start, g.edges, roots, spur, banned) && v < n
    ensures Pruned(directed, start, Apply(directed, n, g, CutVertex(v)).edges, roots + {v}, spur, banned)
  {
    hide Between;
    forall x, y | x != y
      ensures PrunedAt(directed, start, Apply(directed, n, g, CutVertex(v)).edges, roots + {v}, spur, banned, x, y)
    {
      assert PrunedAt(directed, start, g.edges, roots, spur, banned, x, y);
      WithoutVertexBetween(directed, g.edges, v, x, y);
    }
  }

  /** Everything known about the graph while it is cut for one deviation. */
  ghost predicate Cutting(c: Query, start: seq<Edge>, now: seq<Edge>, roots: set<nat>, spur: nat, banned: set<nat>) {
    && Faithful(c.directed, c.edges, Store(start, []))
    && Pruned(c.directed, start, now, roots, spur, banned)
  }

  /** A pair of ends that is not blocked still has its edges, at the right price. */
  lemma UnblockedStep(c: Query, start: seq<Edge>, now: seq<Edge>, roots: set<nat>, spur: nat, banned: set<nat>, u: nat,
                      v: nat)
    requires Cutting(c, start, now, roots, spur, banned)
    requires u != v && !Blocked(c.directed, roots, spur, banned, u, v)
    requires Between(c.directed, c.edges, u, v) != []
    ensures StepAvailable(c.directed, c.edges, now, u, v)
  {
    hide Between;
    assert PrunedAt(c.directed, start, now, roots, spur, banned, u, v);
    assert FaithfulAt(c.directed, c.edges, Store(start, []), u, v);
    BetweenAppend(c.directed, [], [], u, v);
  }

  /** An edge still in the graph is not blocked and belongs to the original graph. */
  lemma RemainingEdge(c: Query, start: seq<Edge>, now: seq<Edge>, roots: set<nat>, spur: nat, banned: set<nat>, e: Edge)
    requires Cutting(c, start, now, roots, spur, banned)
    requires e in Arcs(c.directed, now) && e.source != e.target
    ensures !Blocked(c.directed, roots, spur, banned, e.source, e.target)
    ensures e in Arcs(c.directed, c.edges)
    ensures StepAvailable(c.directed, c.edges, now, e.source, e.target)
  {
    var u, v := e.source, e.target;
    ArcsAreBetween(c.directed, now, e);
    assert PrunedAt(c.directed, start, now, roots, spur, banned, u, v);
    assert FaithfulAt(c.directed, c.edges, Store(start, []), u, v);
    hide Between;
    BetweenAppend(c.directed, [], [], u, v);
    assert Between(c.directed, start, u, v) + [] == Between(c.directed, start, u, v);
    assert e in Between(c.directed, c.edges, u, v);
    ArcsAreBetween(c.directed, c.edges, e);
    UnblockedStep(c, start, now, roots, spur, banned, u, v);
  }

  ghost function RootsOf(nodes: seq<nat>, i: nat): set<nat>
    requires i <= |nodes|
  {
    set x | x in nodes[..i]
  }

  /** Whatever candidate leaves after `nodes[..i + 1]`, its remainder can still be walked, at its price. */
  lemma CandidatesRemain(c: Query, start: seq<Edge>, now: seq<Edge>, accepted: seq<Path>, nodes: seq<nat>, i: nat,
                         banned: set<nat>, p: seq<nat>)
    requires i < |nodes| && Cutting(c, start, now, RootsOf(nodes, i), nodes[i], banned)
    requires forall v :: v in banned ==> exists q :: q in accepted && nodes[..i + 1] + [v] <= Nodes(q.rows)
    requires Candidate(c, accepted, nodes[..i + 1], p)
    ensures i < |p| && Available(c.directed, c.edges, now, p[i..])
  {
    var roots, spur := RootsOf(nodes, i), nodes[i];
    var rest := p[i..];
    assert p[..i + 1] == nodes[..i + 1];
    forall j | 0 <= j <= i ensures p[j] == nodes[j] {
      assert p[..i + 1][j] == nodes[..i + 1][j];
    }
    assert p[i + 1] !in banned by {
      assert p[..i + 2] == nodes[..i + 1] + [p[i + 1]];
    }
    forall x | x in roots ensures exists j :: 0 <= j < i && p[j] == x {
      var j :| 0 <= j < i && nodes[..i][j] == x;
      assert p[j] == x;
    }
    forall k | 0 <= k < |rest| - 1 ensures StepAvailable(c.directed, c.edges, now, rest[k], rest[k + 1]) {
      var u, v := p[i + k], p[i + k + 1];
      assert rest[k] == u && rest[k + 1] == v;
      assert u !in roots && v !in roots;
      assert v != spur && (u == spur ==> k == 0);
      UnblockedStep(c, start, now, roots, spur, banned, u, v);
    }
  }

  /** No row of a shortest path costs more than any other edge it could have taken. */
  lemma NoDearerRow(arcs: set<Edge>, s: nat, t: nat, p: Path, i: nat, e: Edge)
    requires IsShortest(arcs, s, t, p) && i < |p.rows| - 1
    requires e in arcs && e.source == p.rows[i].node && e.target == p.rows[i + 1].node
    ensures p.rows[i].cost <= e.cost
  {
    hide IsWalk, Walk, Distinct, Aggregated;
    RowsAreWalk(arcs, p.rows, t);
    WalkTakes(p.rows, i);
    SwapEdge(arcs, s, Walk(p.rows), t, i, e);
  }

  /** A shortest spur path stays clear of everything that was cut and pays no more than the listed prices. */
  lemma SpurIsFair(c: Query, start: seq<Edge>, now: seq<Edge>, roots: set<nat>, spur: nat, banned: set<nat>, sp: Path)
    requires Cutting(c, start, now, roots, spur, banned)
    requires IsShortest(Arcs(c.directed, now), spur, c.t, sp)
    ensures Leads(Arcs(c.directed, c.edges), sp.rows, c.t) && FairRows(c.directed, c.edges, sp.rows)
    ensures forall i :: 0 <= i < |sp.rows| ==> sp.rows[i].node !in roots
    ensures sp.rows[1].node !in banned
  {
    hide Cutting, Weight, StepAvailable, Arcs;
    var rows := sp.rows;
    forall i | 0 <= i < |rows| - 1
      ensures Taken(rows, i) in Arcs(c.directed, c.edges)
      ensures rows[i].cost <= Weight(c.directed, c.edges, rows[i].node, rows[i + 1].node)
      ensures !Blocked(c.directed, roots, spur, banned, rows[i].node, rows[i + 1].node)
    {
      RemainingEdge(c, start, now, roots, spur, banned, Taken(rows, i));
      ListedRow(c, now, spur, sp, i);
    }
    forall i | 0 <= i < |rows| ensures rows[i].node !in roots {
      var k := if i > 0 then i - 1 else 0;
      assert !Blocked(c.directed, roots, spur, banned, rows[k].node, rows[k + 1].node);
    }
    assert !Blocked(c.directed, roots, spur, banned, rows[0].node, rows[1].node);
  }

  /** The edge listed first is there to be taken, so a shortest path pays no more. */
  lemma ListedRow(c: Query, now: seq<Edge>, spur: nat, sp: Path, i: nat)
    requires IsShortest(Arcs(c.directed, now), spur, c.t, sp) && i < |sp.rows| - 1
    requires StepAvailable(c.directed, c.edges, now, sp.rows[i].node, sp.rows[i + 1].node)
    ensures sp.rows[i].cost <= Weight(c.directed, c.edges, sp.rows[i].node, sp.rows[i + 1].node)
  {
    hide Between, Arcs, IsShortest;
    var u, v := sp.rows[i].node, sp.rows[i + 1].node;
    BetweenAreArcs(c.directed, now, u, v);
    var e := Between(c.directed, now, u, v)[0];
    assert e in Between(c.directed, now, u, v);
    NoDearerRow(Arcs(c.directed, now), spur, c.t, sp, i, e);
  }

  lemma JoinedLeads(c: Query, current: Path, i: nat, sp: Path, joined: Path, j: nat)
    requires FairRoute(c, current) && i < |current.rows| - 1
    requires Leads(Arcs(c.directed, c.edges), sp.rows, c.t) && FairRows(c.directed, c.edges, sp.rows)
    requires sp.rows[0].node == current.rows[i].node
    requires SameButAggregated(current.rows[..i] + sp.rows, joined.rows) && j < |joined.rows| - 1
    ensures Taken(joined.rows, j) in Arcs(c.directed, c.edges)
    ensures joined.rows[j].cost <= Weight(c.directed, c.edges, joined.rows[j].node, joined.rows[j + 1].node)
  {
    hide Weight, Arcs;
    var rows := current.rows[..i] + sp.rows;
    assert joined.rows[j] == rows[j].(aggCost := joined.rows[j].aggCost);
    assert joined.rows[j + 1] == rows[j + 1].(aggCost := joined.rows[j + 1].aggCost);
    if j < i {
      assert rows[j] == current.rows[j] && rows[j + 1].node == current.rows[j + 1].node;
      assert Taken(joined.rows, j) == Taken(current.rows, j);
    } else {
      assert rows[j] == sp.rows[j - i] && rows[j + 1] == sp.rows[j - i + 1];
      assert Taken(joined.rows, j) == Taken(sp.rows, j - i);
    }
  }

  lemma JoinedDistinct(current: seq<Row>, i: nat, sp: seq<Row>, joined: seq<Row>)
    requires Distinct(current) && i < |current| && Distinct(sp)
    requires forall j :: 0 <= j < |sp| ==> sp[j].node !in RootsOf(Nodes(current), i)
    requires SameButAggregated(current[..i] + sp, joined)
    ensures Distinct(joined) && Nodes(joined) == Nodes(current)[..i] + Nodes(sp)
  {
    var rows := current[..i] + sp;
    forall j | 0 <= j < |rows| ensures joined[j].node == rows[j].node {
      assert joined[j] == rows[j].(aggCost := joined[j].aggCost);
    }
    forall j, k | 0 <= j < k < |rows| ensures joined[j].node != joined[k].node {
      if j < i <= k {
        assert Nodes(current)[..i][j] == rows[j].node;
        assert rows[j].node in RootsOf(Nodes(current), i);
        assert rows[k] == sp[k - i];
      } else if i <= j {
        assert rows[j] == sp[j - i] && rows[k] == sp[k - i];
      }
    }
  }

  /** The rows before the spur node followed by the spur path make a loopless path again. */
  lemma JoinedIsRoute(c: Query, current: Path, i: nat, sp: Path, joined: Path)
    requires FairRoute(c, current) && i < |current.rows| - 1
    requires Leads(Arcs(c.directed, c.edges), sp.rows, c.t) && FairRows(c.directed, c.edges, sp.rows)
    requires Distinct(sp.rows) && |sp.rows| >= 2 && sp.rows[0].node == current.rows[i].node
    requires forall j :: 0 <= j < |sp.rows| ==> sp.rows[j].node !in RootsOf(Nodes(current.rows), i)
    requires joined.startId == c.s && joined.endId == c.t
    requires SameButAggregated(current.rows[..i] + sp.rows, joined.rows)
    requires joined.totCost == RowsCost(current.rows[..i]) + RowsCost(sp.rows)
    ensures FairRoute(c, joined)
    ensures Nodes(joined.rows) == Nodes(current.rows)[..i] + Nodes(sp.rows)
  {
    var rows := current.rows[..i] + sp.rows;
    forall j | 0 <= j < |rows| - 1
      ensures Taken(joined.rows, j) in Arcs(c.directed, c.edges)
      ensures joined.rows[j].cost <= Weight(c.directed, c.edges, joined.rows[j].node, joined.rows[j + 1].node)
    {
      JoinedLeads(c, current, i, sp, joined, j);
    }
    JoinedDistinct(current.rows, i, sp.rows, joined.rows);
    RowsCostAppend(current.rows[..i], sp.rows);
    SameRowsCost(rows, joined.rows);
    var last := |rows| - 1;
    assert joined.rows[last] == rows[last].(aggCost := joined.rows[last].aggCost);
    assert joined.rows[0] == rows[0].(aggCost := joined.rows[0].aggCost);
    hide Weight, Arcs, Distinct;
  }

  /** What the heap gains covers the prefix at which the deviation was made. */
  lemma SpurCovers(c: Query, start: seq<Edge>, now: seq<Edge>, accepted: seq<Path>, current: Path, i: nat,
                   banned: set<nat>, sp: Path, joined: Path)
    requires FairRoute(c, current) && i < |current.rows| - 1
    requires Cutting(c, start, now, RootsOf(Nodes(current.rows), i), current.rows[i].node, banned)
    requires forall v :: v in banned <==>
      exists q :: q in accepted && Nodes(current.rows)[..i + 1] + [v] <= Nodes(q.rows)
    requires IsShortest(Arcs(c.directed, now), current.rows[i].node, c.t, sp)
    requires joined.startId == c.s && joined.endId == c.t
    requires SameButAggregated(current.rows[..i] + sp.rows, joined.rows)
    requires joined.totCost == RowsCost(current.rows[..i]) + RowsCost(sp.rows)
    ensures FairRoute(c, joined)
    ensures Candidate(c, accepted, Nodes(current.rows)[..i + 1], Nodes(joined.rows))
    ensures forall p :: Candidate(c, accepted, Nodes(current.rows)[..i + 1], p) ==>
              joined.totCost <= NodeCost(c.directed, c.edges, p)
  {
    var nodes := Nodes(current.rows);
    var prefix := nodes[..i + 1];
    SpurIsFair(c, start, now, RootsOf(nodes, i), nodes[i], banned, sp);
    JoinedIsRoute(c, current, i, sp, joined);
    FairRouteNodes(c, joined);
    JoinedIsCandidate(c, accepted, nodes, i, banned, Nodes(sp.rows), Nodes(joined.rows));
    PrefixCost(c, current, i);
    hide FairRoute, FairRows, Leads, SameButAggregated, Aggregated;
    forall p | Candidate(c, accepted, prefix, p)
      ensures joined.totCost <= NodeCost(c.directed, c.edges, p)
    {
      CandidateCost(c, start, now, accepted, nodes, i, banned, sp, p);
    }
  }

  /** A candidate costs at least its prefix and the spur path. */
  lemma {:induction false} CandidateCost(c: Query, start: seq<Edge>, now: seq<Edge>, accepted: seq<Path>,
                                         nodes: seq<nat>, i: nat, banned: set<nat>, sp: Path, p: seq<nat>)
    requires i < |nodes| && Cutting(c, start, now, RootsOf(nodes, i), nodes[i], banned)
    requires forall v :: v in banned ==> exists q :: q in accepted && nodes[..i + 1] + [v] <= Nodes(q.rows)
    requires IsShortest(Arcs(c.directed, now), nodes[i], c.t, sp) && Candidate(c, accepted, nodes[..i + 1], p)
    ensures NodeCost(c.directed, c.edges, p) >= NodeCost(c.directed, c.edges, nodes[..i + 1]) + sp.totCost
  {
    CandidatesRemain(c, start, now, accepted, nodes, i, banned, p);
    NodeWalkIsWalk(c.directed, c.edges, now, p[i..]);
    NodeCostSplit(c.directed, c.edges, p, i);
    assert p[..i + 1] == nodes[..i + 1];
    assert p[i..][0] == p[..i + 1][i] == nodes[i];
  }

  lemma JoinedIsCandidate(c: Query, accepted: seq<Path>, nodes: seq<nat>, i: nat, banned: set<nat>, spur: seq<nat>,
                          joined: seq<nat>)
    requires i < |nodes| && |spur| >= 2 && spur[0] == nodes[i] && spur[1] !in banned
    requires NodeRoute(c, joined) && joined == nodes[..i] + spur
    requires forall v :: v in banned <==> exists q :: q in accepted && nodes[..i + 1] + [v] <= Nodes(q.rows)
    ensures Candidate(c, accepted, nodes[..i + 1], joined)
  {
    assert joined[..i + 1] == nodes[..i + 1];
    assert joined[..i + 2] == nodes[..i + 1] + [spur[1]];
  }

  lemma PrefixCost(c: Query, current: Path, i: nat)
    requires FairRoute(c, current) && i < |current.rows|
    ensures RowsCost(current.rows[..i]) <= NodeCost(c.directed, c.edges, Nodes(current.rows)[..i + 1])
  {
    var rows := current.rows[..i + 1];
    assert FairRows(c.directed, c.edges, rows);
    FairRowsCost(c.directed, c.edges, rows);
    assert rows[..|rows| - 1] == current.rows[..i];
    assert Nodes(rows) == Nodes(current.rows)[..i + 1];
  }

  /** No spur path: no candidate either. */
  lemma NoSpurNoCandidate(c: Query, start: seq<Edge>, now: seq<Edge>, accepted: seq<Path>, nodes: seq<nat>, i: nat,
                          banned: set<nat>, p: seq<nat>)
    requires i < |nodes| && Cutting(c, start, now, RootsOf(nodes, i), nodes[i], banned)
    requires forall v :: v in banned ==> exists q :: q in accepted && nodes[..i + 1] + [v] <= Nodes(q.rows)
    requires nodes[i] == c.t || !Reachable(Arcs(c.directed, now), nodes[i], c.t)
    ensures !Candidate(c, accepted, nodes[..i + 1], p)
  {
    if Candidate(c, accepted, nodes[..i + 1], p) {
      CandidateReaches(c, start, now, accepted, nodes, i, banned, p);
      assert false;
    }
  }

  lemma CandidateReaches(c: Query, start: seq<Edge>, now: seq<Edge>, accepted: seq<Path>, nodes: seq<nat>, i: nat,
                         banned: set<nat>, p: seq<nat>)
    requires i < |nodes| && Cutting(c, start, now, RootsOf(nodes, i), nodes[i], banned)
    requires forall v :: v in banned ==> exists q :: q in accepted && nodes[..i + 1] + [v] <= Nodes(q.rows)
    requires Candidate(c, accepted, nodes[..i + 1], p)
    ensures nodes[i] != c.t && Reachable(Arcs(c.directed, now), nodes[i], c.t)
  {
    CandidatesRemain(c, start, now, accepted, nodes, i, banned, p);
    NodeWalkIsWalk(c.directed, c.edges, now, p[i..]);
    assert p[i] == p[..i + 1][i] == nodes[i];
  }
}
