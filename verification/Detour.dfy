/** A run of the bidirectional search that ends with a dearer path than the shortest one. */
module Detour {
  import opened Graphs
  import opened Labels
  import opened TwoQueues
  import opened Bidirectional

  /** From 0 to 1 there is an edge of cost 20; over 2 it costs 12 + 12 and over 3 it costs 13 + 13. */
  const ROADS: seq<Edge> := [Edge(1, 0, 1, 20), Edge(2, 0, 2, 12), Edge(3, 2, 1, 12), Edge(4, 0, 3, 13),
    Edge(5, 3, 1, 13)]

  lemma PickFive(a: Edge, b: Edge, c: Edge, d: Edge, e: Edge, f: Edge -> seq<Edge>)
    ensures Pick([a, b, c, d, e], f) == f(a) + f(b) + f(c) + f(d) + f(e)
  {
    assert [a, b, c, d, e][1..] == [b, c, d, e] && [b, c, d, e][1..] == [c, d, e];
    assert [c, d, e][1..] == [d, e] && [d, e][1..] == [e] && [e][1..] == [];
    assert Pick([d, e], f) == f(d) + (f(e) + Pick([], f));
    assert Pick([c, d, e], f) == f(c) + Pick([d, e], f);
    assert Pick([b, c, d, e], f) == f(b) + Pick([c, d, e], f);
  }

  lemma OutRoads()
    ensures OutEdges(true, ROADS, 0) == [ROADS[0], ROADS[1], ROADS[3]]
    ensures OutEdges(true, ROADS, 2) == [ROADS[2]]
    ensures OutEdges(true, ROADS, 3) == [ROADS[4]]
  {
    forall v: nat {
      PickFive(ROADS[0], ROADS[1], ROADS[2], ROADS[3], ROADS[4], Oriented(true, v));
    }
  }

  lemma InRoads()
    ensures InEdges(true, ROADS, 1) == [Flip(ROADS[0]), Flip(ROADS[2]), Flip(ROADS[4])]
    ensures InEdges(true, ROADS, 2) == [Flip(ROADS[1])]
    ensures InEdges(true, ROADS, 3) == [Flip(ROADS[3])]
  {
    assert Flips(ROADS) == [Flip(ROADS[0]), Flip(ROADS[1]), Flip(ROADS[2]), Flip(ROADS[3]), Flip(ROADS[4])];
    forall v: nat {
      PickFive(Flip(ROADS[0]), Flip(ROADS[1]), Flip(ROADS[2]), Flip(ROADS[3]), Flip(ROADS[4]), Oriented(true, v));
    }
  }

  lemma {:induction false} ExploredThree(h: Half, a: Edge, b: Edge, c: Edge, x: Entry)
    ensures Explored(h, [a, b, c], x) == Explored(Tried(Tried(Tried(h, a, x), b, x), c, x), [], x)
  {
    hide Tried;
    assert [a, b, c][1..] == [b, c] && [b, c][1..] == [c] && [c][1..] == [];
    assert Explored(Tried(Tried(h, a, x), b, x), [c], x) == Explored(Tried(Tried(Tried(h, a, x), b, x), c, x), [], x);
  }

  lemma {:induction false} ExploredOne(h: Half, a: Edge, x: Entry)
    ensures Explored(h, [a], x) == Explored(Tried(h, a, x), [], x)
  {
    hide Tried;
    assert [a][1..] == [];
  }

  /** The forward half after 0, 1, 2 and 3 vertices; below, the backward half. */
  const F0: Half := Half([Finite(0), Infinity, Infinity, Infinity], [0, 1, 2, 3], [-1, -1, -1, -1],
                         [false, false, false, false], [Entry(0, 0)])
  const F1: Half := Half([Finite(0), Finite(20), Finite(12), Finite(13)], [0, 0, 0, 0], [-1, 1, 2, 4],
                         [true, false, false, false], [Entry(12, 2), Entry(13, 3), Entry(20, 1)])
  const F2: Half := F1.(finished := [true, false, true, false], queue := [Entry(13, 3), Entry(20, 1)])
  const F3: Half := F1.(finished := [true, false, true, true], queue := [Entry(20, 1)])
  const B0: Half := Half([Infinity, Finite(0), Infinity, Infinity], [0, 1, 2, 3], [-1, -1, -1, -1],
                         [false, false, false, false], [Entry(0, 1)])
  const B1: Half := Half([Finite(20), Finite(0), Finite(12), Finite(13)], [1, 1, 1, 1], [1, -1, 3, 5],
                         [false, true, false, false], [Entry(12, 2), Entry(13, 3), Entry(20, 0)])
  const B2: Half := B1.(finished := [false, true, true, false], queue := [Entry(13, 3), Entry(20, 0)])
  const B3: Half := B1.(finished := [false, true, true, true], queue := [Entry(20, 0)])

  lemma Starts()
    ensures Start(4, 0) == F0 && Start(4, 1) == B0
  {
    assert Start(4, 0).cost == F0.cost && Start(4, 1).cost == B0.cost;
    assert Start(4, 0).predecessor == F0.predecessor && Start(4, 0).edge == F0.edge &&
      Start(4, 0).finished == F0.finished;
    assert Start(4, 1).predecessor == B0.predecessor && Start(4, 1).edge == B0.edge &&
      Start(4, 1).finished == B0.finished;
  }

  lemma ForwardFirst()
    ensures Advanced(F0, [ROADS[0], ROADS[1], ROADS[3]]) == F1
  {
    var x, h := Entry(0, 0), F0.(queue := []);
    assert F0.queue[1..] == [];
    ExploredThree(h, ROADS[0], ROADS[1], ROADS[3], x);
    var h1 := Tried(h, ROADS[0], x);
    assert h1 == Half([Finite(0), Finite(20), Infinity, Infinity], [0, 0, 2, 3], [-1, 1, -1, -1], F0.finished,
      [Entry(20, 1)]);
    var h2 := Tried(h1, ROADS[1], x);
    assert h2 == Half([Finite(0), Finite(20), Finite(12), Infinity], [0, 0, 0, 3], [-1, 1, 2, -1], F0.finished,
                      [Entry(12, 2), Entry(20, 1)]);
    var h3 := Tried(h2, ROADS[3], x);
    assert [Entry(12, 2), Entry(20, 1)][1..] == [Entry(20, 1)];
    assert h3 == F1.(finished := F0.finished);
    assert Explored(h3, [], x) == F1;
  }

  lemma BackwardFirst()
    ensures Advanced(B0, [Flip(ROADS[0]), Flip(ROADS[2]), Flip(ROADS[4])]) == B1
  {
    var x, h := Entry(0, 1), B0.(queue := []);
    assert B0.queue[1..] == [];
    ExploredThree(h, Flip(ROADS[0]), Flip(ROADS[2]), Flip(ROADS[4]), x);
    var h1 := Tried(h, Flip(ROADS[0]), x);
    assert h1 == Half([Finite(20), Finite(0), Infinity, Infinity], [1, 1, 2, 3], [1, -1, -1, -1], B0.finished,
      [Entry(20, 0)]);
    var h2 := Tried(h1, Flip(ROADS[2]), x);
    assert h2 == Half([Finite(20), Finite(0), Finite(12), Infinity], [1, 1, 1, 3], [1, -1, 3, -1], B0.finished,
                      [Entry(12, 2), Entry(20, 0)]);
    var h3 := Tried(h2, Flip(ROADS[4]), x);
    assert [Entry(12, 2), Entry(20, 0)][1..] == [Entry(20, 0)];
    assert h3 == B1.(finished := B0.finished);
    assert Explored(h3, [], x) == B1;
  }

  lemma LaterOnes()
    ensures Advanced(F1, [ROADS[2]]) == F2 && Advanced(F2, [ROADS[4]]) == F3
    ensures Advanced(B1, [Flip(ROADS[1])]) == B2 && Advanced(B2, [Flip(ROADS[3])]) == B3
  {
    assert F1.queue[1..] == F2.queue && F2.queue[1..] == F3.queue;
    assert B1.queue[1..] == B2.queue && B2.queue[1..] == B3.queue;
    ExploredOne(F1.(queue := F2.queue), ROADS[2], Entry(12, 2));
    ExploredOne(F2.(queue := F3.queue), ROADS[4], Entry(13, 3));
    ExploredOne(B1.(queue := B2.queue), Flip(ROADS[1]), Entry(12, 2));
    ExploredOne(B2.(queue := B3.queue), Flip(ROADS[3]), Entry(13, 3));
  }

  lemma Rounds()
    ensures Round(true, ROADS, Both(F0, B0, Infinity, 0)) == (Both(F1, B0, Infinity, 0), false)
    ensures Round(true, ROADS, Both(F1, B0, Infinity, 0)) == (Both(F1, B1, Infinity, 0), false)
    ensures Round(true, ROADS, Both(F1, B1, Infinity, 0)) == (Both(F2, B1, Infinity, 0), false)
    ensures Round(true, ROADS, Both(F2, B1, Infinity, 0)) == (Both(F2, B2, Finite(24), 2), false)
    ensures Round(true, ROADS, Both(F2, B2, Finite(24), 2)) == (Both(F3, B2, Finite(24), 2), false)
    ensures Round(true, ROADS, Both(F3, B2, Finite(24), 2)) == (Both(F3, B3, Finite(24), 2), true)
  {
    OutRoads();
    InRoads();
    ForwardFirst();
    BackwardFirst();
    LaterOnes();
    hide Advanced, OutEdges, InEdges;
  }

  lemma SixRounds(more: nat)
    ensures Play(true, ROADS, Both(F0, B0, Infinity, 0), more + 6) == (Both(F3, B3, Finite(24), 2), true)
  {
    Rounds();
    hide Round;
    assert Play(true, ROADS, Both(F3, B2, Finite(24), 2), more + 1) == (Both(F3, B3, Finite(24), 2), true);
    assert Play(true, ROADS, Both(F2, B2, Finite(24), 2), more + 2) ==
      Play(true, ROADS, Both(F3, B2, Finite(24), 2), more + 1);
    assert Play(true, ROADS, Both(F2, B1, Infinity, 0), more + 3) ==
      Play(true, ROADS, Both(F2, B2, Finite(24), 2), more + 2);
    assert Play(true, ROADS, Both(F1, B1, Infinity, 0), more + 4) ==
      Play(true, ROADS, Both(F2, B1, Infinity, 0), more + 3);
    assert Play(true, ROADS, Both(F1, B0, Infinity, 0), more + 5) ==
      Play(true, ROADS, Both(F1, B1, Infinity, 0), more + 4);
  }

  lemma DirectRoad()
    ensures IsDist(Arcs(true, ROADS), 0, 1, 20)
  {
    var arcs := Arcs(true, ROADS);
    var cost := [Finite(0), Finite(20), Finite(12), Finite(13)];
    assert forall e :: e in arcs <==> e in ROADS;
    assert Fits(arcs, |cost|);
    forall v | 0 <= v < |cost| ensures Relaxed(arcs, cost, v) {
    }
    forall p | IsWalk(arcs, 0, p, 1) ensures 20 <= Cost(p) {
      LabelsBelowWalks(arcs, cost, 0, p, 1);
    }
    assert [ROADS[0]][1..] == [] && ROADS[0] in arcs;
    assert IsWalk(arcs, 0, [ROADS[0]], 1) && Cost([ROADS[0]]) == 20;
  }

  /** The search gives 24 although the edge from 0 to 1 costs 20. */
  lemma MissesTheDirectRoad(end: (Both, bool))
    requires PlaysOut(true, ROADS, Both(Start(4, 0), Start(4, 1), Infinity, 0), end)
    ensures end.0.best == Finite(24) && end.1
    ensures IsDist(Arcs(true, ROADS), 0, 1, 20)
  {
    Starts();
    DirectRoad();
    hide Play, Start;
    var rounds: nat :| PlaysTo(true, ROADS, Both(F0, B0, Infinity, 0), rounds, end);
    SixRounds(rounds);
    assert Play(true, ROADS, Both(F0, B0, Infinity, 0), rounds + 6) == end;
  }
}
