/** Tentative distances and the edges they came from, as the label-correcting searches keep them. */
module Labels {
  import opened Graphs
  import opened Paths

  datatype Label = Infinity | Finite(cost: nat)

  datatype Option<T> = None | Some(value: T)

  ghost predicate Fits(arcs: set<Edge>, n: nat) {
    forall e :: e in arcs ==> e.source < n && e.target < n
  }

  ghost predicate Improves(cost: seq<Label>, e: Edge)
    requires e.source < |cost| && e.target < |cost|
  {
    cost[e.source].Finite? &&
    (cost[e.target].Infinity? || cost[e.source].cost + e.cost < cost[e.target].cost)
  }

  ghost predicate Relaxed(arcs: set<Edge>, cost: seq<Label>, v: nat)
    requires Fits(arcs, |cost|) && v < |cost|
  {
    forall e :: e in arcs && e.source == v ==> !Improves(cost, e)
  }

  /** Every finite label is the cost of a real walk from `s`. */
  ghost predicate Sound(arcs: set<Edge>, s: nat, cost: seq<Label>) {
    forall v :: 0 <= v < |cost| && cost[v].Finite? ==>
      exists p :: IsWalk(arcs, s, p, v) && Cost(p) == cost[v].cost
  }

  /** The edge `from[v]` explains the label of `v`. Labels may since have dropped at its source;
      while they have not, `stamp`, the order of assignment, breaks ties between equal labels. */
  ghost predicate Explains(arcs: set<Edge>, cost: seq<Label>, from: seq<Option<Edge>>, stamp: seq<nat>, v: nat)
    requires |cost| == |from| == |stamp| && v < |cost| && from[v].Some?
  {
    var e := from[v].value;
    && e in arcs && e.target == v && e.source < |cost|
    && cost[v].Finite? && cost[e.source].Finite?
    && cost[e.source].cost + e.cost <= cost[v].cost
    && (cost[e.source].cost + e.cost == cost[v].cost ==> stamp[e.source] < stamp[v])
  }

  /** The `from` edges form a forest rooted at `s` at every moment of the search. */
  ghost predicate Tree(arcs: set<Edge>, s: nat, cost: seq<Label>, from: seq<Option<Edge>>, stamp: seq<nat>, clock: nat)
  {
    && |cost| == |from| == |stamp|
    && s < |cost| && cost[s] == Finite(0) && from[s] == None
    && (forall v :: 0 <= v < |cost| ==> stamp[v] <= clock)
    && (forall v :: 0 <= v < |cost| ==> (from[v].Some? <==> cost[v].Finite? && v != s))
    && (forall v :: 0 <= v < |cost| && from[v].Some? ==> Explains(arcs, cost, from, stamp, v))
  }

  /** Following a `from` edge backwards always goes down in this order, so it never cycles. */
  ghost predicate Before(cost: seq<Label>, stamp: seq<nat>, u: nat, v: nat)
    requires |cost| == |stamp| && u < |cost| && v < |cost|
  {
    && cost[u].Finite? && cost[v].Finite?
    && (cost[u].cost < cost[v].cost || (cost[u].cost == cost[v].cost && stamp[u] < stamp[v]))
  }

  lemma ParentIsBefore(arcs: set<Edge>, s: nat, cost: seq<Label>, from: seq<Option<Edge>>, stamp: seq<nat>, clock: nat,
                       v: nat)
    requires Tree(arcs, s, cost, from, stamp, clock) && v < |cost| && from[v].Some?
    ensures from[v].value.source < |cost| && Before(cost, stamp, from[v].value.source, v)
  {
    assert Explains(arcs, cost, from, stamp, v);
  }

  lemma RelaxKeepsSound(arcs: set<Edge>, s: nat, cost: seq<Label>, e: Edge)
    requires Fits(arcs, |cost|) && Sound(arcs, s, cost) && e in arcs && Improves(cost, e)
    ensures Sound(arcs, s, cost[e.target := Finite(cost[e.source].cost + e.cost)])
  {
    var cost' := cost[e.target := Finite(cost[e.source].cost + e.cost)];
    var p :| IsWalk(arcs, s, p, e.source) && Cost(p) == cost[e.source].cost;
    WalkSnoc(arcs, s, p, e);
    hide IsWalk, Cost;
    forall v | 0 <= v < |cost'| && cost'[v].Finite?
      ensures exists q :: IsWalk(arcs, s, q, v) && Cost(q) == cost'[v].cost
    {
      if v != e.target {
        assert cost[v].Finite?;
      }
    }
  }

  lemma RelaxExplains(arcs: set<Edge>, s: nat, cost: seq<Label>, from: seq<Option<Edge>>, stamp: seq<nat>, clock: nat,
                      e: Edge, v: nat)
    requires Fits(arcs, |cost|) && Tree(arcs, s, cost, from, stamp, clock)
    requires e in arcs && Improves(cost, e) && v < |cost| && (v == e.target || from[v].Some?)
    ensures Explains(arcs, cost[e.target := Finite(cost[e.source].cost + e.cost)], from[e.target := Some(e)],
                     stamp[e.target := clock + 1], v)
  {
    if v != e.target {
      assert Explains(arcs, cost, from, stamp, v);
    }
  }

  /** One successful relaxation keeps the forest and the soundness of the labels. */
  lemma RelaxKeepsTree(arcs: set<Edge>, s: nat, cost: seq<Label>, from: seq<Option<Edge>>, stamp: seq<nat>, clock: nat,
                       e: Edge)
    requires Fits(arcs, |cost|) && Tree(arcs, s, cost, from, stamp, clock) && Sound(arcs, s, cost)
    requires e in arcs && Improves(cost, e)
    ensures e.target != s && e.target != e.source
    ensures var d := cost[e.source].cost + e.cost;
            Sound(arcs, s, cost[e.target := Finite(d)]) &&
            Tree(arcs, s, cost[e.target := Finite(d)], from[e.target := Some(e)],
                 stamp[e.target := clock + 1], clock + 1)
  {
    RelaxKeepsSound(arcs, s, cost, e);
    var from' := from[e.target := Some(e)];
    forall v | 0 <= v < |cost| && from'[v].Some?
      ensures Explains(arcs, cost[e.target := Finite(cost[e.source].cost + e.cost)], from',
        stamp[e.target := clock + 1], v)
    {
      RelaxExplains(arcs, s, cost, from, stamp, clock, e, v);
    }
    hide Sound, Explains, Fits;
  }

  // ---------- what a relaxed labelling means ----------

  ghost predicate AllRelaxed(arcs: set<Edge>, cost: seq<Label>)
    requires Fits(arcs, |cost|)
  {
    forall v :: 0 <= v < |cost| ==> Relaxed(arcs, cost, v)
  }

  lemma {:induction false} LabelsBelowWalks(arcs: set<Edge>, cost: seq<Label>, u: nat, p: seq<Edge>, v: nat)
    requires Fits(arcs, |cost|) && AllRelaxed(arcs, cost)
    requires u < |cost| && cost[u].Finite? && IsWalk(arcs, u, p, v)
    ensures v < |cost| && cost[v].Finite? && cost[v].cost <= cost[u].cost + Cost(p)
    decreases p
  {
    if p != [] {
      assert Relaxed(arcs, cost, u) && !Improves(cost, p[0]);
      LabelsBelowWalks(arcs, cost, p[0].target, p[1..], v);
    }
  }

  /** A label is exact: infinite if the vertex is out of reach, the distance otherwise. */
  ghost predicate Exact(arcs: set<Edge>, s: nat, cost: seq<Label>, v: nat)
    requires v < |cost|
  {
    if cost[v].Infinity? then !Reachable(arcs, s, v) else IsDist(arcs, s, v, cost[v].cost)
  }

  lemma RelaxedLabelsAreExact(arcs: set<Edge>, s: nat, cost: seq<Label>, v: nat)
    requires Fits(arcs, |cost|) && AllRelaxed(arcs, cost) && Sound(arcs, s, cost)
    requires s < |cost| && cost[s] == Finite(0) && v < |cost|
    ensures Exact(arcs, s, cost, v)
  {
    forall p | IsWalk(arcs, s, p, v)
      ensures cost[v].Finite? && cost[v].cost <= Cost(p)
    {
      LabelsBelowWalks(arcs, cost, s, p, v);
    }
  }

  /** Once everything is relaxed, every `from` edge is tight. */
  ghost predicate Tight(cost: seq<Label>, from: seq<Option<Edge>>)
  {
    && |cost| == |from|
    && forall v :: 0 <= v < |from| && from[v].Some? ==>
         && from[v].value.source < |cost|
         && cost[v].Finite? && cost[from[v].value.source].Finite?
         && cost[v].cost == cost[from[v].value.source].cost + from[v].value.cost
  }

  lemma RelaxedTreeIsTight(arcs: set<Edge>, s: nat, cost: seq<Label>, from: seq<Option<Edge>>, stamp: seq<nat>,
                           clock: nat)
    requires Fits(arcs, |cost|) && AllRelaxed(arcs, cost) && Tree(arcs, s, cost, from, stamp, clock)
    ensures Tight(cost, from)
  {
    forall v | 0 <= v < |from| && from[v].Some?
      ensures from[v].value.source < |cost| && cost[v].Finite? && cost[from[v].value.source].Finite?
      ensures cost[v].cost == cost[from[v].value.source].cost + from[v].value.cost
    {
      var e := from[v].value;
      assert Explains(arcs, cost, from, stamp, v);
      assert Relaxed(arcs, cost, e.source) && !Improves(cost, e);
    }
  }

  // ---------- termination measure ----------

  /** How many labels are still infinite, and the sum of the finite ones. */
  function Infinite(cost: seq<Label>): nat {
    if cost == [] then 0 else (if cost[0].Infinity? then 1 else 0) + Infinite(cost[1..])
  }

  function FiniteSum(cost: seq<Label>): nat {
    if cost == [] then 0 else (if cost[0].Infinity? then 0 else cost[0].cost) + FiniteSum(cost[1..])
  }

  ghost predicate Smaller(a: seq<Label>, b: seq<Label>) {
    Infinite(a) < Infinite(b) || (Infinite(a) == Infinite(b) && FiniteSum(a) < FiniteSum(b))
  }

  lemma {:induction false} LoweringIsSmaller(cost: seq<Label>, v: nat, d: nat)
    requires v < |cost| && (cost[v].Infinity? || d < cost[v].cost)
    ensures Smaller(cost[v := Finite(d)], cost)
    ensures cost[v].Infinity? ==> Infinite(cost[v := Finite(d)]) < Infinite(cost)
  {
    var lowered := cost[v := Finite(d)];
    if v == 0 {
      assert lowered[1..] == cost[1..];
    } else {
      assert lowered[1..] == cost[1..][v - 1 := Finite(d)];
      LoweringIsSmaller(cost[1..], v - 1, d);
    }
  }

  // ---------- unwinding ----------

  /** Rows unwound so far: they lead to `target`, carry the labels of their nodes, and climb in the forest order. */
  ghost predicate Unwound(arcs: set<Edge>, cost: seq<Label>, stamp: seq<nat>, target: nat, rows: seq<Row>) {
    && |cost| == |stamp|
    && Leads(arcs, rows, target)
    && (forall i :: 0 <= i < |rows| ==> rows[i].node < |cost| && cost[rows[i].node] == Finite(rows[i].aggCost))
    && (forall i :: 0 <= i < |rows| - 1 ==> rows[i + 1].aggCost == rows[i].aggCost + rows[i].cost)
    && (forall i, j :: 0 <= i < j < |rows| ==> Before(cost, stamp, rows[i].node, rows[j].node))
  }

  /** Every row takes the edge that `from` has for the node of the next row. */
  ghost predicate Follows(from: seq<Option<Edge>>, rows: seq<Row>) {
    forall i :: 0 <= i < |rows| - 1 ==> FollowsAt(from, rows, i)
  }

  ghost predicate FollowsAt(from: seq<Option<Edge>>, rows: seq<Row>, i: nat)
    requires i + 1 < |rows|
  {
    rows[i + 1].node < |from| && from[rows[i + 1].node] == Some(Taken(rows, i))
  }

  lemma FollowsMore(from: seq<Option<Edge>>, rows: seq<Row>, first: Row)
    requires Follows(from, rows) && rows != [] && rows[0].node < |from|
    requires from[rows[0].node] == Some(Edge(first.edge, first.node, rows[0].node, first.cost))
    ensures Follows(from, [first] + rows)
  {
    var longer := [first] + rows;
    forall i | 0 <= i < |longer| - 1 ensures FollowsAt(from, longer, i) {
      if i > 0 {
        assert FollowsAt(from, rows, i - 1);
        assert Taken(longer, i) == Taken(rows, i - 1);
      }
    }
  }

  lemma UnwindStep(arcs: set<Edge>, cost: seq<Label>, stamp: seq<nat>, target: nat, rows: seq<Row>, e: Edge)
    requires Unwound(arcs, cost, stamp, target, rows)
    requires e in arcs && e.target == rows[0].node && e.source < |cost| && cost[e.source].Finite?
    requires cost[e.target].cost == cost[e.source].cost + e.cost
    requires Before(cost, stamp, e.source, e.target)
    ensures Unwound(arcs, cost, stamp, target, [Row(e.source, e.id, e.cost, cost[e.source].cost)] + rows)
  {
    var longer := [Row(e.source, e.id, e.cost, cost[e.source].cost)] + rows;
    forall i | 0 <= i < |longer| - 1
      ensures Taken(longer, i) in arcs && longer[i + 1].aggCost == longer[i].aggCost + longer[i].cost
    {
      if i == 0 {
        assert Taken(longer, 0) == e;
      } else {
        assert Taken(longer, i) == Taken(rows, i - 1);
        assert rows[i].aggCost == rows[i - 1].aggCost + rows[i - 1].cost;
      }
    }
    forall i, j | 0 <= i < j < |longer|
      ensures Before(cost, stamp, longer[i].node, longer[j].node)
    {
      if i > 0 {
        assert Before(cost, stamp, rows[i - 1].node, rows[j - 1].node);
      } else if j > 1 {
        assert Before(cost, stamp, rows[0].node, rows[j - 1].node);
      }
    }
  }

  lemma {:induction false} UnwoundIsRoute(arcs: set<Edge>, cost: seq<Label>, stamp: seq<nat>, s: nat, target: nat,
                                          rows: seq<Row>)
    requires Unwound(arcs, cost, stamp, target, rows) && |rows| > 1
    requires rows[0].node == s && rows[0].aggCost == 0
    ensures IsRoute(arcs, s, target, Path(s, target, rows, RowsCost(rows)))
  {
    forall i, j | 0 <= i < j < |rows|
      ensures rows[i].node != rows[j].node
    {
      assert Before(cost, stamp, rows[i].node, rows[j].node);
    }
  }

  /** Walks the `from` edges back from `target`, laying down one row per edge.
      The program appends rows and reverses at the end; here each row goes in front. */
  method GetPath(ghost arcs: set<Edge>, s: nat, target: nat, from: seq<Option<Edge>>, cost: seq<Label>,
                 ghost stamp: seq<nat>, ghost clock: nat)
    returns (path: Path)
    requires Tree(arcs, s, cost, from, stamp, clock) && Tight(cost, from)
    requires target < |from| && from[target].Some?
    ensures IsRoute(arcs, s, target, path)
    ensures path.totCost == cost[target].cost && Follows(from, path.rows)
    ensures forall i :: 0 <= i < |path.rows| ==>
      path.rows[i].node < |cost| && cost[path.rows[i].node] == Finite(path.rows[i].aggCost)
  {
    var current: nat := target;
    var rows := [Row(target, -1, 0, cost[target].cost)];
    var total := 0;
    assert Unwound(arcs, cost, stamp, target, rows);
    while from[current].Some?
      invariant current < |cost| == |from| && cost[current].Finite?
      invariant rows != [] && rows[0].node == current
      invariant |rows| == 1 ==> current == target
      invariant Unwound(arcs, cost, stamp, target, rows) && Follows(from, rows)
      invariant total == RowsCost(rows)
      invariant total + cost[current].cost == cost[target].cost
      decreases cost[current].cost, stamp[current]
    {
      var e := from[current].value;
      ParentIsBefore(arcs, s, cost, from, stamp, clock, current);
      assert Explains(arcs, cost, from, stamp, current);
      UnwindStep(arcs, cost, stamp, target, rows, e);
      FollowsMore(from, rows, Row(e.source, e.id, e.cost, cost[e.source].cost));
      rows := [Row(e.source, e.id, e.cost, cost[e.source].cost)] + rows;
      total := total + e.cost;
      current := e.source;
    }
    UnwoundIsRoute(arcs, cost, stamp, s, target, rows);
    path := Path(s, target, rows, total);
  }
}
