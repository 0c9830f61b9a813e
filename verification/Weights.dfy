/** Which edges a search can still use while edges are cut, and what survives a restore. */
module Weights {
  import opened Graphs
  import opened BaseGraph

  lemma {:induction false} PickThrough(edges: seq<Edge>, f: Edge -> seq<Edge>, g: Edge -> seq<Edge>,
                                       h: Edge -> seq<Edge>)
    requires forall e :: Pick(f(e), g) == h(e)
    ensures Pick(Pick(edges, f), g) == Pick(edges, h)
  {
    if edges != [] {
      PickThrough(edges[1..], f, g, h);
      PickAppend(f(edges[0]), Pick(edges[1..], f), g);
    }
  }

  lemma PickOne(e: Edge, f: Edge -> seq<Edge>)
    ensures Pick([e], f) == f(e) && Pick([], f) == []
  {
    assert Pick([e], f) == f(e) + Pick([e][1..], f);
  }

  lemma PickTwo(e: Edge, e': Edge, f: Edge -> seq<Edge>)
    ensures Pick([e, e'], f) == f(e) + f(e')
  {
    assert [e, e'] == [e] + [e'];
    PickAppend([e], [e'], f);
    PickOne(e, f);
    PickOne(e', f);
  }

  predicate SameEnds(directed: bool, u: nat, v: nat, x: nat, y: nat) {
    (x == u && y == v) || (!directed && x == v && y == u)
  }

  /** Cutting the edges between `u` and `v` leaves the edges between other ends alone. */
  lemma {:induction false} WithoutEdgeBetween(directed: bool, edges: seq<Edge>, u: nat, v: nat, x: nat, y: nat)
    requires x != y
    ensures Between(directed, Pick(edges, NotJoining(directed, u, v)), x, y) ==
            if SameEnds(directed, u, v, x, y) then [] else Between(directed, edges, x, y)
  {
    var f, g := NotJoining(directed, u, v), Joining(directed, x, y);
    var h := if SameEnds(directed, u, v, x, y) then Nothing() else g;
    forall e ensures Pick(f(e), g) == h(e) {
      NotJoiningJoining(directed, u, v, x, y, e);
    }
    PickThrough(edges, f, g, h);
    PickNothing(edges);
  }

  lemma NotJoiningJoining(directed: bool, u: nat, v: nat, x: nat, y: nat, e: Edge)
    requires x != y
    ensures Pick(NotJoining(directed, u, v)(e), Joining(directed, x, y)) ==
            if SameEnds(directed, u, v, x, y) then [] else Joining(directed, x, y)(e)
  {
    PickOne(e, Joining(directed, x, y));
    if Joining(directed, u, v)(e) == [] {
      assert NotJoining(directed, u, v)(e) == [e];
    } else {
      assert NotJoining(directed, u, v)(e) == [];
    }
  }

  lemma {:induction false} WithoutVertexBetween(directed: bool, edges: seq<Edge>, v: nat, x: nat, y: nat)
    requires x != y
    ensures Between(directed, Pick(edges, NotTouching(v)), x, y) ==
            if v == x || v == y then [] else Between(directed, edges, x, y)
  {
    var f, g := NotTouching(v), Joining(directed, x, y);
    var h := if v == x || v == y then Nothing() else g;
    forall e ensures Pick(f(e), g) == h(e) {
      NotTouchingJoining(directed, v, x, y, e);
    }
    PickThrough(edges, f, g, h);
    PickNothing(edges);
  }

  lemma NotTouchingJoining(directed: bool, v: nat, x: nat, y: nat, e: Edge)
    requires x != y
    ensures Pick(NotTouching(v)(e), Joining(directed, x, y)) ==
            if v == x || v == y then [] else Joining(directed, x, y)(e)
  {
    PickOne(e, Joining(directed, x, y));
    if e.source == v || e.target == v {
      assert NotTouching(v)(e) == [];
    } else {
      assert NotTouching(v)(e) == [e];
    }
  }

  /** What cutting a vertex saves are exactly the edges between it and every other vertex. */
  lemma SavedBetween(directed: bool, edges: seq<Edge>, v: nat, x: nat, y: nat)
    requires x != y
    ensures Between(directed, SavedByVertex(directed, edges, v), x, y) ==
            if v == x || v == y then Between(directed, edges, x, y) else []
  {
    var f, g := Oriented(directed, v), Joining(directed, x, y);
    var h := if v == x || (!directed && v == y) then g else Nothing();
    forall e ensures Pick(f(e), g) == h(e) {
      PickOne(e, g);
      PickOne(Flip(e), g);
      PickTwo(e, Flip(e), g);
      assert f(e) == if e.source == v then (if !directed && e.target == v then [e, Flip(e)] else [e])
                     else if !directed && e.target == v then [Flip(e)] else [];
    }
    PickThrough(edges, f, g, h);
    PickNothing(edges);
    if directed {
      var h' := if v == y then g else Nothing();
      forall e ensures Pick(Entering(v)(e), g) == h'(e) {
        PickOne(e, g);
      }
      PickThrough(edges, Entering(v), g, h');
      PickAppend(OutEdges(directed, edges, v), Pick(edges, Entering(v)), g);
    } else {
      PickAppend(OutEdges(directed, edges, v), [], g);
    }
  }

  lemma {:induction false} FlippedBetween(edges: seq<Edge>, x: nat, y: nat)
    requires x != y
    ensures |Between(false, edges, y, x)| == |Between(false, edges, x, y)|
    ensures Between(false, edges, x, y) != [] ==> Between(false, edges, y, x)[0] == Flip(Between(false, edges, x, y)[0])
  {
    if edges != [] {
      FlippedBetween(edges[1..], x, y);
    }
  }

  // ---------- what survives cutting and restoring ----------

  /** Of the edges `b` that one pair of ends had, `e` are in the graph and `r` are saved: all that is left is
      on one side, none is new, and the first, which is the one that can be relied on, costs what it did. */
  ghost predicate FaithfulClass(b: seq<Edge>, e: seq<Edge>, r: seq<Edge>) {
    && (e == [] || r == [])
    && (forall z :: z in e + r ==> z in b)
    && (b == [] <==> e + r == [])
    && (b != [] ==> (e + r)[0].cost == b[0].cost)
  }

  lemma CutClass(b: seq<Edge>, e: seq<Edge>, r: seq<Edge>)
    requires FaithfulClass(b, e, r)
    ensures FaithfulClass(b, [], r + if e == [] then [] else [e[0]])
    ensures FaithfulClass(b, [], r + e) && FaithfulClass(b, e, r + []) && FaithfulClass(b, e + r, [])
  {
  }

  ghost predicate FaithfulAt(directed: bool, orig: seq<Edge>, g: Store, x: nat, y: nat) {
    FaithfulClass(Between(directed, orig, x, y), Between(directed, g.edges, x, y), Between(directed, g.removed, x, y))
  }

  ghost predicate Faithful(directed: bool, orig: seq<Edge>, g: Store) {
    forall x, y :: x != y ==> FaithfulAt(directed, orig, g, x, y)
  }

  lemma FaithfulStart(directed: bool, orig: seq<Edge>)
    ensures Faithful(directed, orig, Store(orig, []))
  {
  }

  /** Whichever way one looks at it, the one edge that cutting saves is the first of its class. */
  lemma SavedFirstBetween(directed: bool, edges: seq<Edge>, u: nat, v: nat, x: nat, y: nat)
    requires u != v && x != y
    ensures var cut, all := Between(directed, edges, u, v), Between(directed, edges, x, y);
      Between(directed, if cut == [] then [] else [cut[0]], x, y) ==
      if SameEnds(directed, u, v, x, y) && all != [] then [all[0]] else []
  {
    var cut := Between(directed, edges, u, v);
    BetweenJoins(directed, edges, u, v);
    if !directed {
      FlippedBetween(edges, u, v);
    }
    if cut != [] {
      assert cut[0] in cut;
      PickOne(cut[0], Joining(directed, x, y));
    }
  }

  lemma CutEdgeFaithful(directed: bool, n: nat, orig: seq<Edge>, g: Store, u: nat, v: nat)
    requires Faithful(directed, orig, g) && u != v && u < n && v < n
    ensures Faithful(directed, orig, Apply(directed, n, g, CutEdge(u, v)))
  {
    hide FaithfulClass, Between, Pick;
    var g' := Apply(directed, n, g, CutEdge(u, v));
    var cut := Between(directed, g.edges, u, v);
    var saved := if cut == [] then [] else [cut[0]];
    forall x, y | x != y ensures FaithfulAt(directed, orig, g', x, y) {
      assert FaithfulAt(directed, orig, g, x, y);
      WithoutEdgeBetween(directed, g.edges, u, v, x, y);
      SavedFirstBetween(directed, g.edges, u, v, x, y);
      BetweenAppend(directed, g.removed, saved, x, y);
      CutClass(Between(directed, orig, x, y), Between(directed, g.edges, x, y), Between(directed, g.removed, x, y));
    }
  }

  lemma BetweenAppend(directed: bool, a: seq<Edge>, b: seq<Edge>, x: nat, y: nat)
    ensures Between(directed, a + b, x, y) == Between(directed, a, x, y) + Between(directed, b, x, y)
    ensures Between(directed, [], x, y) == []
  {
    PickAppend(a, b, Joining(directed, x, y));
  }

  lemma CutVertexFaithful(directed: bool, n: nat, orig: seq<Edge>, g: Store, v: nat)
    requires Faithful(directed, orig, g) && v < n
    ensures Faithful(directed, orig, Apply(directed, n, g, CutVertex(v)))
  {
    hide FaithfulClass, Between, Pick, SavedByVertex;
    var g' := Apply(directed, n, g, CutVertex(v));
    forall x, y | x != y ensures FaithfulAt(directed, orig, g', x, y) {
      assert FaithfulAt(directed, orig, g, x, y);
      WithoutVertexBetween(directed, g.edges, v, x, y);
      SavedBetween(directed, g.edges, v, x, y);
      BetweenAppend(directed, g.removed, SavedByVertex(directed, g.edges, v), x, y);
      CutClass(Between(directed, orig, x, y), Between(directed, g.edges, x, y), Between(directed, g.removed, x, y));
    }
  }

  lemma RestoreFaithful(directed: bool, orig: seq<Edge>, g: Store)
    requires Faithful(directed, orig, g)
    ensures Faithful(directed, orig, Store(Restored(g), []))
  {
    hide FaithfulClass, Between;
    forall x, y | x != y ensures FaithfulAt(directed, orig, Store(Restored(g), []), x, y) {
      assert FaithfulAt(directed, orig, g, x, y);
      BetweenAppend(directed, g.edges, g.removed, x, y);
      CutClass(Between(directed, orig, x, y), Between(directed, g.edges, x, y), Between(directed, g.removed, x, y));
    }
  }
}
