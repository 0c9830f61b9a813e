/** Two graphs that differ only in the order of two parallel edges: in one the bidirectional search finds the free way,
    in the other it finds none. */
module EdgeOrder {
  import opened Graphs
  import opened Labels
  import opened TwoQueues
  import opened Bidirectional

  const DEAR := Edge(1, 0, 1, 5)
  const FREE := Edge(2, 0, 1, 0)

  lemma TwoOut(a: Edge, b: Edge, v: nat)
    requires a.source == b.source && a.target == b.target
    ensures OutEdges(true, [a, b], v) == if v == a.source then [a, b] else []
    ensures InEdges(true, [a, b], v) == if v == a.target then [Flip(a), Flip(b)] else []
  {
    assert [a, b][1..] == [b] && [b][1..] == [];
    assert Flips([a, b]) == [Flip(a), Flip(b)];
    assert [Flip(a), Flip(b)][1..] == [Flip(b)] && [Flip(b)][1..] == [];
    var f := Oriented(true, v);
    assert Pick([b], f) == f(b) + Pick([], f);
    assert Pick([Flip(b)], f) == f(Flip(b)) + Pick([], f);
  }

  /** The half whose search began at `v`, once the other vertex has the label `d` by the edge `id`. */
  function Reached(v: nat, d: nat, id: int, finished: seq<bool>, queue: seq<Entry>): Half {
    if v == 0 then Half([Finite(0), Finite(d)], [0, 0], [-1, id], finished, queue)
    else Half([Finite(d), Finite(0)], [1, 1], [id, -1], finished, queue)
  }

  function Fresh(v: nat, queue: seq<Entry>): Half {
    if v == 0 then Half([Finite(0), Infinity], [0, 1], [-1, -1], [false, false], queue)
    else Half([Infinity, Finite(0)], [0, 1], [-1, -1], [false, false], queue)
  }

  lemma Updates<T>(a: T, b: T, c: T)
    ensures [a, b][0 := c] == [c, b] && [a, b][1 := c] == [a, c]
  {
  }

  lemma TriedFirst(v: nat, e: Edge)
    requires (v == 0 && e.target == 1) || (v == 1 && e.target == 0)
    ensures Tried(Fresh(v, []), e, Entry(0, v)) == Reached(v, e.cost, e.id, [false, false], [Entry(e.cost, e.target)])
  {
    Updates(Finite(0), Infinity, Finite(e.cost));
    Updates(Infinity, Finite(0), Finite(e.cost));
    Updates(0, 1, v);
    Updates(-1, -1, e.id);
  }

  lemma {:induction false} TriedAgain(v: nat, d: nat, id: int, queue: seq<Entry>, e: Edge)
    requires (v == 0 && e.target == 1) || (v == 1 && e.target == 0)
    ensures Tried(Reached(v, d, id, [false, false], queue), e, Entry(0, v)) ==
            if e.cost < d then Reached(v, e.cost, e.id, [false, false], Push(queue, Entry(e.cost, e.target)))
            else Reached(v, d, id, [false, false], queue)
  {
    hide Push;
    Updates(Finite(0), Finite(d), Finite(e.cost));
    Updates(Finite(d), Finite(0), Finite(e.cost));
    Updates(v, v, v);
    Updates(-1, id, e.id);
    Updates(id, -1, e.id);
  }

  /** The first exploration of a half, over two edges to the other vertex. */
  lemma {:induction false} BeginsWith(v: nat, a: Edge, b: Edge)
    requires (v == 0 && a.target == b.target == 1) || (v == 1 && a.target == b.target == 0)
    ensures Advanced(Fresh(v, [Entry(0, v)]), [a, b]) ==
            if b.cost < a.cost
            then Reached(v, b.cost, b.id, [v == 0, v == 1], Push([Entry(a.cost, a.target)], Entry(b.cost, a.target)))
            else Reached(v, a.cost, a.id, [v == 0, v == 1], [Entry(a.cost, a.target)])
  {
    var x, h := Entry(0, v), Fresh(v, []);
    assert [x][1..] == [];
    TriedFirst(v, a);
    TriedAgain(v, a.cost, a.id, [Entry(a.cost, a.target)], b);
    Updates(false, false, true);
    hide Tried, Push;
    assert [a, b][1..] == [b] && [b][1..] == [];
    var h1 := Tried(h, a, x);
    var h2 := Tried(h1, b, x);
    assert Explored(h, [a, b], x) == Explored(h1, [b], x);
    assert Explored(h1, [b], x) == Explored(h2, [], x);
  }

  /** Exploring the other vertex, from which nothing leads on; and dropping an entry for it once it is finished. */
  lemma EndsWith(v: nat, d: nat, id: int, x: Entry, rest: seq<Entry>)
    requires (v == 0 && x.vertex == 1) || (v == 1 && x.vertex == 0)
    ensures Advanced(Reached(v, d, id, [v == 0, v == 1], [x] + rest), []) == Reached(v, d, id, [true, true], rest)
    ensures Advanced(Reached(v, d, id, [true, true], [x] + rest), []) == Reached(v, d, id, [true, true], rest)
  {
    assert ([x] + rest)[1..] == rest;
    Updates(v == 0, v == 1, true);
  }

  /** The two halves at the start. */
  const F0: Half := Fresh(0, [Entry(0, 0)])
  const B0: Half := Fresh(1, [Entry(0, 1)])

  lemma Starts()
    ensures Start(2, 0) == F0 && Start(2, 1) == B0
  {
    assert Start(2, 0).cost == F0.cost && Start(2, 1).cost == B0.cost;
    assert Start(2, 0).predecessor == F0.predecessor && Start(2, 0).edge == F0.edge &&
      Start(2, 0).finished == F0.finished;
    assert Start(2, 1).predecessor == B0.predecessor && Start(2, 1).edge == B0.edge &&
      Start(2, 1).finished == B0.finished;
  }

  // ---------- the free edge first ----------

  const L1: Half := Reached(0, 0, 2, [true, false], [Entry(0, 1)])
  const L2: Half := Reached(0, 0, 2, [true, true], [])

  lemma FreeFirst()
    ensures Advanced(F0, [FREE, DEAR]) == L1 && Advanced(L1, []) == L2
  {
    hide Advanced;
    BeginsWith(0, FREE, DEAR);
    EndsWith(0, 0, 2, Entry(0, 1), []);
    assert [Entry(0, 1)] + [] == [Entry(0, 1)];
  }

  /** The forward search runs dry before the backward search gets its first turn. */
  lemma RunsDry(more: nat)
    ensures Play(true, [FREE, DEAR], Both(F0, B0, Infinity, 0), more + 2) == (Both(L2, B0, Infinity, 0), false)
  {
    FreeFirst();
    TwoOut(FREE, DEAR, 0);
    TwoOut(FREE, DEAR, 1);
    hide Advanced, OutEdges, InEdges;
    assert Round(true, [FREE, DEAR], Both(F0, B0, Infinity, 0)) == (Both(L1, B0, Infinity, 0), false);
    assert Round(true, [FREE, DEAR], Both(L1, B0, Infinity, 0)) == (Both(L2, B0, Infinity, 0), false);
    hide Round;
    assert Play(true, [FREE, DEAR], Both(L1, B0, Infinity, 0), more + 1) == (Both(L2, B0, Infinity, 0), false);
  }

  // ---------- the dear edge first ----------

  const E1: Half := Reached(0, 0, 2, [true, false], [Entry(0, 1), Entry(5, 1)])
  const E2: Half := Reached(0, 0, 2, [true, true], [Entry(5, 1)])
  const E3: Half := Reached(0, 0, 2, [true, true], [])
  const B1: Half := Reached(1, 0, 2, [false, true], [Entry(0, 0), Entry(5, 0)])
  const B2: Half := Reached(1, 0, 2, [true, true], [Entry(5, 0)])

  lemma DearFirst()
    ensures Advanced(F0, [DEAR, FREE]) == E1 && Advanced(E1, []) == E2 && Advanced(E2, []) == E3
  {
    hide Advanced;
    BeginsWith(0, DEAR, FREE);
    EndsWith(0, 0, 2, Entry(0, 1), [Entry(5, 1)]);
    EndsWith(0, 0, 2, Entry(5, 1), []);
    assert [Entry(0, 1)] + [Entry(5, 1)] == [Entry(0, 1), Entry(5, 1)] && [Entry(5, 1)] + [] == [Entry(5, 1)];
  }

  lemma DearBack()
    ensures Advanced(B0, [Flip(DEAR), Flip(FREE)]) == B1 && Advanced(B1, []) == B2
  {
    hide Advanced;
    BeginsWith(1, Flip(DEAR), Flip(FREE));
    EndsWith(1, 0, 2, Entry(0, 0), [Entry(5, 0)]);
    assert [Entry(0, 0)] + [Entry(5, 0)] == [Entry(0, 0), Entry(5, 0)];
  }

  lemma Rounds()
    ensures Round(true, [DEAR, FREE], Both(F0, B0, Infinity, 0)) == (Both(E1, B0, Infinity, 0), false)
    ensures Round(true, [DEAR, FREE], Both(E1, B0, Infinity, 0)) == (Both(E2, B0, Infinity, 0), false)
    ensures Round(true, [DEAR, FREE], Both(E2, B0, Infinity, 0)) == (Both(E2, B1, Finite(0), 1), false)
    ensures Round(true, [DEAR, FREE], Both(E2, B1, Finite(0), 1)) == (Both(E2, B2, Finite(0), 0), false)
    ensures Round(true, [DEAR, FREE], Both(E2, B2, Finite(0), 0)) == (Both(E3, B2, Finite(0), 1), false)
  {
    DearFirst();
    DearBack();
    TwoOut(DEAR, FREE, 0);
    TwoOut(DEAR, FREE, 1);
    hide Advanced, OutEdges, InEdges;
  }

  /** The entry left over from the dear edge keeps the forward queue filled until the backward search gets its turn. */
  lemma GetsThere(more: nat)
    ensures Play(true, [DEAR, FREE], Both(F0, B0, Infinity, 0), more + 5) == (Both(E3, B2, Finite(0), 1), false)
  {
    Rounds();
    hide Round;
    assert Play(true, [DEAR, FREE], Both(E2, B2, Finite(0), 0), more + 1) == (Both(E3, B2, Finite(0), 1), false);
    assert Play(true, [DEAR, FREE], Both(E2, B1, Finite(0), 1), more + 2) == (Both(E3, B2, Finite(0), 1), false);
    assert Play(true, [DEAR, FREE], Both(E2, B0, Infinity, 0), more + 3) == (Both(E3, B2, Finite(0), 1), false);
    assert Play(true, [DEAR, FREE], Both(E1, B0, Infinity, 0), more + 4) == (Both(E3, B2, Finite(0), 1), false);
  }

  /** The arcs are the same, and 1 can be reached from 0 for nothing; only with the dear edge first is that found. */
  lemma OrderDecides(late: (Both, bool), early: (Both, bool))
    requires PlaysOut(true, [FREE, DEAR], Both(Start(2, 0), Start(2, 1), Infinity, 0), late)
    requires PlaysOut(true, [DEAR, FREE], Both(Start(2, 0), Start(2, 1), Infinity, 0), early)
    ensures Arcs(true, [FREE, DEAR]) == Arcs(true, [DEAR, FREE]) && Reachable(Arcs(true, [FREE, DEAR]), 0, 1)
    ensures late.0.best == Infinity && early.0.best == Finite(0)
  {
    Starts();
    hide Play, Start;
    var j: nat :| PlaysTo(true, [FREE, DEAR], Both(F0, B0, Infinity, 0), j, late);
    RunsDry(j);
    assert Play(true, [FREE, DEAR], Both(F0, B0, Infinity, 0), j + 2) == late;
    var k: nat :| PlaysTo(true, [DEAR, FREE], Both(F0, B0, Infinity, 0), k, early);
    GetsThere(k);
    assert Play(true, [DEAR, FREE], Both(F0, B0, Infinity, 0), k + 5) == early;
    hide PlaysTo;
    assert FREE in [FREE, DEAR] && [FREE][1..] == [];
    assert IsWalk(Arcs(true, [FREE, DEAR]), 0, [FREE], 1);
  }
}
