/** Edges, walks and shortest distances: the vocabulary every other module shares. */
module Graphs {

  /** A row of the edges table, or an edge of the Boost graph. */
  datatype Edge = Edge(id: int, source: nat, target: nat, cost: nat)

  function Flip(e: Edge): Edge {
    Edge(e.id, e.target, e.source, e.cost)
  }

  /** The ways an edge list can be traversed: undirected edges go both ways. */
  ghost function Arcs(directed: bool, edges: seq<Edge>): set<Edge> {
    (set e | e in edges) + (if directed then {} else set e | e in edges :: Flip(e))
  }

  /** Goes through an edge list once, in order, taking from each edge what `f` takes. */
  function Pick(edges: seq<Edge>, f: Edge -> seq<Edge>): seq<Edge> {
    if edges == [] then [] else f(edges[0]) + Pick(edges[1..], f)
  }

  lemma {:induction false} PickMembers(edges: seq<Edge>, f: Edge -> seq<Edge>)
    ensures forall x :: x in Pick(edges, f) <==> exists e :: e in edges && x in f(e)
  {
    if edges != [] {
      PickMembers(edges[1..], f);
      assert forall e :: e in edges <==> e == edges[0] || e in edges[1..];
    }
  }

  lemma {:induction false} PickAppend(a: seq<Edge>, b: seq<Edge>, f: Edge -> seq<Edge>)
    ensures Pick(a + b, f) == Pick(a, f) + Pick(b, f)
  {
    if a == [] {
      assert a + b == b;
    } else {
      assert (a + b)[1..] == a[1..] + b;
      PickAppend(a[1..], b, f);
    }
  }

  /** How one stored edge shows up in the out-edge list of `v`; an undirected self-loop shows up twice. */
  function Oriented(directed: bool, v: nat): Edge -> seq<Edge> {
    (e: Edge) => (if e.source == v then [e] else []) + (if !directed && e.target == v then [Flip(e)] else [])
  }

  /** The out-edge list of `v`, in insertion order and oriented away from `v`. */
  function OutEdges(directed: bool, edges: seq<Edge>, v: nat): seq<Edge> {
    Pick(edges, Oriented(directed, v))
  }

  lemma OutEdgesAreArcs(directed: bool, edges: seq<Edge>, v: nat)
    ensures forall e :: e in OutEdges(directed, edges, v) <==> e in Arcs(directed, edges) && e.source == v
  {
    PickMembers(edges, Oriented(directed, v));
    forall e | e in Arcs(directed, edges) && e.source == v
      ensures exists f :: f in edges && e in Oriented(directed, v)(f)
    {
      if e in edges {
        assert e in Oriented(directed, v)(e);
      } else {
        var f :| f in edges && e == Flip(f);
        assert e in Oriented(directed, v)(f);
      }
    }
  }

  /** Every arc costs nothing or `w`. */
  ghost predicate ZeroOr(arcs: set<Edge>, w: nat) {
    w > 0 && forall e :: e in arcs ==> e.cost == 0 || e.cost == w
  }

  // ---------- walks ----------

  ghost predicate IsWalk(arcs: set<Edge>, u: nat, p: seq<Edge>, v: nat)
    decreases p
  {
    if p == [] then u == v
    else p[0] in arcs && p[0].source == u && IsWalk(arcs, p[0].target, p[1..], v)
  }

  function Cost(p: seq<Edge>): nat {
    if p == [] then 0 else p[0].cost + Cost(p[1..])
  }

  ghost predicate Reachable(arcs: set<Edge>, u: nat, v: nat) {
    exists p :: IsWalk(arcs, u, p, v)
  }

  /** `d` is the cost of a cheapest walk from `u` to `v`. */
  ghost predicate IsDist(arcs: set<Edge>, u: nat, v: nat, d: nat) {
    && (exists p :: IsWalk(arcs, u, p, v) && Cost(p) == d)
    && (forall p :: IsWalk(arcs, u, p, v) ==> d <= Cost(p))
  }

  lemma {:induction false} WalkAppend(arcs: set<Edge>, u: nat, p: seq<Edge>, v: nat, q: seq<Edge>, w: nat)
    requires IsWalk(arcs, u, p, v) && IsWalk(arcs, v, q, w)
    ensures IsWalk(arcs, u, p + q, w) && Cost(p + q) == Cost(p) + Cost(q)
    decreases p
  {
    if p == [] {
      assert p + q == q;
    } else {
      WalkAppend(arcs, p[0].target, p[1..], v, q, w);
      assert (p + q)[1..] == p[1..] + q;
    }
  }

  lemma {:induction false} WalkSnoc(arcs: set<Edge>, u: nat, p: seq<Edge>, e: Edge)
    requires IsWalk(arcs, u, p, e.source) && e in arcs
    ensures IsWalk(arcs, u, p + [e], e.target) && Cost(p + [e]) == Cost(p) + e.cost
  {
    assert [e][1..] == [];
    assert IsWalk(arcs, e.source, [e], e.target);
    WalkAppend(arcs, u, p, e.source, [e], e.target);
  }

  /** An edge of a walk exchanged for another one between the same ends. */
  lemma {:induction false} SwapEdge(arcs: set<Edge>, u: nat, p: seq<Edge>, v: nat, i: nat, e: Edge)
    requires IsWalk(arcs, u, p, v) && i < |p| && e in arcs && e.source == p[i].source && e.target == p[i].target
    ensures IsWalk(arcs, u, p[i := e], v) && Cost(p[i := e]) == Cost(p) - p[i].cost + e.cost
    decreases p
  {
    if i == 0 {
      assert p[i := e][1..] == p[1..];
    } else {
      SwapEdge(arcs, p[0].target, p[1..], v, i - 1, e);
      assert p[i := e][1..] == p[1..][i - 1 := e];
    }
  }

  lemma {:induction false} WalkMono(arcs: set<Edge>, more: set<Edge>, u: nat, p: seq<Edge>, v: nat)
    requires arcs <= more && IsWalk(arcs, u, p, v)
    ensures IsWalk(more, u, p, v)
    decreases p
  {
    if p != [] {
      WalkMono(arcs, more, p[0].target, p[1..], v);
    }
  }

  lemma DistUnique(arcs: set<Edge>, u: nat, v: nat, c: nat, d: nat)
    requires IsDist(arcs, u, v, c) && IsDist(arcs, u, v, d)
    ensures c == d
  {
    var p :| IsWalk(arcs, u, p, v) && Cost(p) == c;
    var q :| IsWalk(arcs, u, q, v) && Cost(q) == d;
  }
}
