/** The rows of a result path and the operations of src/common/path.cpp that the searches use. */
module Paths {
  import opened Graphs

  datatype Row = Row(node: nat, edge: int, cost: nat, aggCost: nat)

  /** A path is a value: the program copies it into its result sets. */
  datatype Path = Path(startId: nat, endId: nat, rows: seq<Row>, totCost: nat)

  function Nodes(rows: seq<Row>): seq<nat> {
    seq(|rows|, i requires 0 <= i < |rows| => rows[i].node)
  }

  function RowsCost(rows: seq<Row>): nat {
    if rows == [] then 0 else rows[0].cost + RowsCost(rows[1..])
  }

  /** The edge that row `i` says is taken to reach the node of row `i + 1`. */
  function Taken(rows: seq<Row>, i: nat): Edge
    requires i + 1 < |rows|
  {
    Edge(rows[i].edge, rows[i].node, rows[i + 1].node, rows[i].cost)
  }

  /** The rows lead along edges of `arcs` to `t`, where a closing row without edge ends them. */
  ghost predicate Leads(arcs: set<Edge>, rows: seq<Row>, t: nat) {
    && rows != []
    && rows[|rows| - 1].node == t && rows[|rows| - 1].edge == -1 && rows[|rows| - 1].cost == 0
    && forall i :: 0 <= i < |rows| - 1 ==> Taken(rows, i) in arcs
  }

  /** The `agg_cost` column holds the prefix sums of the `cost` column. */
  ghost predicate Aggregated(rows: seq<Row>) {
    && (rows != [] ==> rows[0].aggCost == 0)
    && forall i :: 0 <= i < |rows| - 1 ==> rows[i + 1].aggCost == rows[i].aggCost + rows[i].cost
  }

  ghost predicate Distinct(rows: seq<Row>) {
    forall i, j :: 0 <= i < j < |rows| ==> rows[i].node != rows[j].node
  }

  /** A loopless path from `s` to a different node `t`, with all its columns filled in properly. */
  ghost predicate IsRoute(arcs: set<Edge>, s: nat, t: nat, p: Path) {
    && |p.rows| >= 2
    && p.startId == s && p.endId == t
    && p.rows[0].node == s
    && Leads(arcs, p.rows, t)
    && Distinct(p.rows)
    && Aggregated(p.rows)
    && p.totCost == RowsCost(p.rows)
  }

  /** The walk behind the rows. */
  function Walk(rows: seq<Row>): (p: seq<Edge>)
  {
    if |rows| <= 1 then [] else [Taken(rows, 0)] + Walk(rows[1..])
  }

  lemma {:induction false} RowsAreWalk(arcs: set<Edge>, rows: seq<Row>, t: nat)
    requires Leads(arcs, rows, t)
    ensures IsWalk(arcs, rows[0].node, Walk(rows), t)
    ensures Cost(Walk(rows)) == RowsCost(rows)
  {
    if |rows| == 1 {
      assert RowsCost(rows[1..]) == 0;
    } else {
      var rest := rows[1..];
      assert forall i :: 0 <= i < |rest| - 1 ==> Taken(rest, i) == Taken(rows, i + 1);
      RowsAreWalk(arcs, rest, t);
    }
  }

  lemma {:induction false} WalkTakes(rows: seq<Row>, i: nat)
    requires i + 1 < |rows|
    ensures |Walk(rows)| == |rows| - 1 && Walk(rows)[i] == Taken(rows, i)
  {
    if i > 0 {
      WalkTakes(rows[1..], i - 1);
      assert Taken(rows[1..], i - 1) == Taken(rows, i);
    } else if |rows| > 2 {
      WalkTakes(rows[1..], 0);
    }
  }

  lemma {:induction false} RowsCostAppend(a: seq<Row>, b: seq<Row>)
    ensures RowsCost(a + b) == RowsCost(a) + RowsCost(b)
  {
    if a == [] {
      assert a + b == b;
    } else {
      assert (a + b)[1..] == a[1..] + b;
      RowsCostAppend(a[1..], b);
    }
  }

  lemma NoRowsCost()
    ensures RowsCost([]) == 0
  {
  }

  lemma {:induction false} RowsCostSnoc(rows: seq<Row>, row: Row)
    ensures RowsCost(rows + [row]) == RowsCost(rows) + row.cost
  {
    RowsCostAppend(rows, [row]);
    assert [row][1..] == [];
  }

  lemma {:induction false} AggregatedTotal(rows: seq<Row>, k: nat)
    requires Aggregated(rows) && k < |rows|
    ensures rows[k].aggCost == RowsCost(rows[..k])
  {
    if k > 0 {
      AggregatedTotal(rows, k - 1);
      assert rows[..k] == rows[..k - 1] + [rows[k - 1]];
      RowsCostAppend(rows[..k - 1], [rows[k - 1]]);
    }
  }

  lemma NothingAggregated()
    ensures Aggregated([])
  {
  }

  lemma AggregatedSnoc(rows: seq<Row>, row: Row)
    requires Aggregated(rows)
    requires row.aggCost == if rows == [] then 0 else rows[|rows| - 1].aggCost + rows[|rows| - 1].cost
    ensures Aggregated(rows + [row])
  {
  }

  // ---------- operations ----------

  /** The rows with their `agg_cost` column recomputed. */
  ghost predicate SameButAggregated(rows: seq<Row>, rows': seq<Row>) {
    && |rows'| == |rows|
    && Aggregated(rows')
    && forall i :: 0 <= i < |rows| ==> rows'[i] == rows[i].(aggCost := rows'[i].aggCost)
  }

  lemma {:induction false} SameRowsCost(rows: seq<Row>, rows': seq<Row>)
    requires |rows'| == |rows| && forall i :: 0 <= i < |rows| ==> rows'[i].cost == rows[i].cost
    ensures RowsCost(rows') == RowsCost(rows)
  {
    if rows != [] {
      SameRowsCost(rows[1..], rows'[1..]);
    }
  }

  method RecalculateAggCost(p: Path) returns (r: Path)
    ensures r.startId == p.startId && r.endId == p.endId
    ensures SameButAggregated(p.rows, r.rows) && r.totCost == RowsCost(p.rows)
  {
    hide Aggregated, RowsCost;
    var total, rows := 0, p.rows;
    NothingAggregated();
    NoRowsCost();
    for i := 0 to |rows|
      invariant |rows| == |p.rows| && total == RowsCost(p.rows[..i])
      invariant forall j :: 0 <= j < |rows| ==> rows[j] == p.rows[j].(aggCost := rows[j].aggCost)
      invariant Aggregated(rows[..i])
      invariant i > 0 ==> total == rows[i - 1].aggCost + rows[i - 1].cost
    {
      ghost var done := rows[..i];
      rows := rows[i := rows[i].(aggCost := total)];
      assert rows[..i + 1] == done + [rows[i]];
      AggregatedSnoc(done, rows[i]);
      assert p.rows[..i + 1] == p.rows[..i] + [p.rows[i]];
      RowsCostSnoc(p.rows[..i], p.rows[i]);
      total := total + rows[i].cost;
    }
    assert rows[..|rows|] == rows && p.rows[..|rows|] == p.rows;
    r := Path(p.startId, p.endId, rows, total);
  }

  /** The first `j` rows. */
  method GetSubpath(p: Path, j: nat) returns (r: Path)
    requires j <= |p.rows|
    ensures r == Path(p.startId, p.endId, p.rows[..j], RowsCost(p.rows[..j]))
  {
    r := Path(p.startId, p.endId, [], 0);
    for i := 0 to j
      invariant r == Path(p.startId, p.endId, p.rows[..i], RowsCost(p.rows[..i]))
    {
      assert p.rows[..i + 1] == p.rows[..i] + [p.rows[i]];
      RowsCostAppend(p.rows[..i], [p.rows[i]]);
      assert [p.rows[i]][1..] == [];
      r := r.(rows := r.rows + [p.rows[i]], totCost := r.totCost + p.rows[i].cost);
    }
  }

  /** Whether the nodes of `sub` are a proper prefix of those of `p`; an empty `sub` always is. */
  method IsEqual(p: Path, sub: Path) returns (b: bool)
    ensures b <==> sub.rows == [] || Nodes(sub.rows) < Nodes(p.rows)
  {
    if sub.rows == [] { return true; }
    if |sub.rows| >= |p.rows| { return false; }
    for i := 0 to |sub.rows|
      invariant forall j :: 0 <= j < i ==> p.rows[j].node == sub.rows[j].node
    {
      if p.rows[i].node != sub.rows[i].node {
        assert Nodes(p.rows)[i] != Nodes(sub.rows)[i];
        return false;
      }
    }
    assert Nodes(sub.rows) == Nodes(p.rows)[..|sub.rows|];
    return true;
  }

  method AppendPath(p: Path, o: Path) returns (r: Path)
    ensures r.startId == p.startId && r.endId == p.endId
    ensures SameButAggregated(p.rows + o.rows, r.rows) && r.totCost == RowsCost(p.rows) + RowsCost(o.rows)
  {
    RowsCostAppend(p.rows, o.rows);
    r := RecalculateAggCost(p.(rows := p.rows + o.rows));
  }
}
