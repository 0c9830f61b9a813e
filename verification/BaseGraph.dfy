/** include/cpp_common/base_graph.hpp: cutting edges out of a graph and putting them back. */
module BaseGraph {
  import opened Graphs

  // ---------- what the operations take from the edge list, edge by edge ----------

  function Joining(directed: bool, u: nat, v: nat): Edge -> seq<Edge> {
    (e: Edge) => if e.source == u && e.target == v then [e]
                 else if !directed && e.source == v && e.target == u then [Flip(e)]
                 else []
  }

  function NotJoining(directed: bool, u: nat, v: nat): Edge -> seq<Edge> {
    (e: Edge) => if Joining(directed, u, v)(e) == [] then [e] else []
  }

  function NotTouching(v: nat): Edge -> seq<Edge> {
    (e: Edge) => if e.source == v || e.target == v then [] else [e]
  }

  function Entering(v: nat): Edge -> seq<Edge> {
    (e: Edge) => if e.target == v then [e] else []
  }

  function Leaving(directed: bool, v: nat, id: int): Edge -> seq<Edge> {
    (e: Edge) => if e.id == id && e.source == v then [e]
                 else if !directed && e.id == id && e.target == v then [Flip(e)]
                 else []
  }

  function NotLeaving(directed: bool, v: nat, id: int): Edge -> seq<Edge> {
    (e: Edge) => if Leaving(directed, v, id)(e) == [] then [e] else []
  }

  /** The edges from `u` to `v`, oriented that way, in the order in which the out-edge list of `u` shows them. */
  function Between(directed: bool, edges: seq<Edge>, u: nat, v: nat): seq<Edge> {
    Pick(edges, Joining(directed, u, v))
  }

  function SelfLoop(v: nat): Edge -> seq<Edge> {
    (e: Edge) => if e.source == e.target == v then [e] else []
  }

  function SelfLoops(edges: seq<Edge>, v: nat): seq<Edge> {
    Pick(edges, SelfLoop(v))
  }

  // ---------- the operations on the pair (edges, removed edges) ----------

  datatype Cut = CutEdge(u: nat, v: nat) | CutVertex(v: nat) | CutOutgoing(v: nat, id: int)

  datatype Store = Store(edges: seq<Edge>, removed: seq<Edge>)

  function SavedByVertex(directed: bool, edges: seq<Edge>, v: nat): seq<Edge> {
    OutEdges(directed, edges, v) + (if directed then Pick(edges, Entering(v)) else [])
  }

  function Apply(directed: bool, n: nat, g: Store, cut: Cut): Store {
    match cut
    case CutEdge(u, v) =>
      if u < n && v < n then
        var between := Between(directed, g.edges, u, v);
        Store(Pick(g.edges, NotJoining(directed, u, v)), g.removed + if between == [] then [] else [between[0]])
      else g
    case CutVertex(v) =>
      if v < n then
        Store(Pick(g.edges, NotTouching(v)), g.removed + SavedByVertex(directed, g.edges, v))
      else g
    case CutOutgoing(v, id) =>
      if v < n then
        Store(Pick(g.edges, NotLeaving(directed, v, id)), g.removed + Pick(g.edges, Leaving(directed, v, id)))
      else g
  }

  function Restored(g: Store): seq<Edge> {
    g.edges + g.removed
  }

  // ---------- the graph as a bag of edges ----------

  /** Undirected edges may come back with their ends exchanged. */
  function Canonical(directed: bool, e: Edge): Edge {
    if directed || e.source <= e.target then e else Flip(e)
  }

  function Bag(directed: bool, edges: seq<Edge>): multiset<Edge> {
    multiset(seq(|edges|, i requires 0 <= i < |edges| => Canonical(directed, edges[i])))
  }

  lemma BagAppend(directed: bool, a: seq<Edge>, b: seq<Edge>)
    ensures Bag(directed, a + b) == Bag(directed, a) + Bag(directed, b)
  {
    assert seq(|a + b|, i requires 0 <= i < |a + b| => Canonical(directed, (a + b)[i])) ==
           seq(|a|, i requires 0 <= i < |a| => Canonical(directed, a[i])) +
           seq(|b|, i requires 0 <= i < |b| => Canonical(directed, b[i]));
  }

  lemma BagSize(directed: bool, edges: seq<Edge>)
    ensures |Bag(directed, edges)| == |edges|
  {
  }

  lemma EmptyBag(directed: bool)
    ensures Bag(directed, []) == multiset{}
  {
  }

  lemma SmallBags(directed: bool, e: Edge, f: Edge)
    ensures Bag(directed, []) == multiset{}
    ensures Bag(directed, [e]) == multiset{Canonical(directed, e)}
    ensures Bag(directed, [e, f]) == multiset{Canonical(directed, e), Canonical(directed, f)}
  {
    assert seq(1, i requires 0 <= i < 1 => Canonical(directed, [e][i])) == [Canonical(directed, e)];
    assert seq(2, i requires 0 <= i < 2 => Canonical(directed, [e, f][i])) ==
           [Canonical(directed, e), Canonical(directed, f)];
  }

  lemma AddNothing(a: multiset<Edge>)
    ensures a + multiset{} == a
  {
  }

  lemma AddBags(a: multiset<Edge>, a': multiset<Edge>, b: multiset<Edge>, b': multiset<Edge>, c: multiset<Edge>,
                c': multiset<Edge>, d: multiset<Edge>, d': multiset<Edge>, e: multiset<Edge>, e': multiset<Edge>)
    requires a + b + c == e + d && a' + b' + c' == e' + d'
    ensures (a + a') + (b + b') + (c + c') == (e + e') + (d + d')
  {
    assert (a + a') + (b + b') + (c + c') == (a + b + c) + (a' + b' + c');
    assert (e + e') + (d + d') == (e + d) + (e' + d');
  }

  /** `a`, `b` and `c` share out every edge, except that what `d` takes is given out once more. */
  ghost predicate ShareOut(directed: bool, a: Edge -> seq<Edge>, b: Edge -> seq<Edge>, c: Edge -> seq<Edge>,
                           d: Edge -> seq<Edge>)
  {
    forall e :: SharesOut(directed, a(e), b(e), c(e), e, d(e))
  }

  ghost predicate SharesOut(directed: bool, a: seq<Edge>, b: seq<Edge>, c: seq<Edge>, e: Edge, d: seq<Edge>) {
    Bag(directed, a) + Bag(directed, b) + Bag(directed, c) == Bag(directed, [e]) + Bag(directed, d)
  }

  lemma {:induction false} PicksShareOut(directed: bool, edges: seq<Edge>, a: Edge -> seq<Edge>, b: Edge -> seq<Edge>,
                                         c: Edge -> seq<Edge>, d: Edge -> seq<Edge>)
    requires ShareOut(directed, a, b, c, d)
    ensures Bag(directed, Pick(edges, a)) + Bag(directed, Pick(edges, b)) + Bag(directed, Pick(edges, c)) ==
            Bag(directed, edges) + Bag(directed, Pick(edges, d))
  {
    if edges != [] {
      var e, rest := edges[0], edges[1..];
      PicksShareOut(directed, rest, a, b, c, d);
      assert SharesOut(directed, a(e), b(e), c(e), e, d(e));
      hide Bag, ShareOut;
      assert edges == [e] + rest;
      var pa, pb, pc, pd := Pick(rest, a), Pick(rest, b), Pick(rest, c), Pick(rest, d);
      assert Pick(edges, a) == a(e) + pa && Pick(edges, b) == b(e) + pb;
      assert Pick(edges, c) == c(e) + pc && Pick(edges, d) == d(e) + pd;
      hide Pick;
      BagAppend(directed, a(e), pa);
      BagAppend(directed, b(e), pb);
      BagAppend(directed, c(e), pc);
      BagAppend(directed, d(e), pd);
      BagAppend(directed, [e], rest);
      AddBags(Bag(directed, a(e)), Bag(directed, pa), Bag(directed, b(e)), Bag(directed, pb),
              Bag(directed, c(e)), Bag(directed, pc), Bag(directed, d(e)), Bag(directed, pd),
              Bag(directed, [e]), Bag(directed, rest));
    }
  }

  function Nothing(): Edge -> seq<Edge> {
    (e: Edge) => []
  }

  lemma {:induction false} PickNothing(edges: seq<Edge>)
    ensures Pick(edges, Nothing()) == []
  {
    if edges != [] {
      PickNothing(edges[1..]);
    }
  }

  lemma JoiningSharesOut(directed: bool, u: nat, v: nat, e: Edge)
    ensures SharesOut(directed, NotJoining(directed, u, v)(e), Joining(directed, u, v)(e), Nothing()(e), e,
      Nothing()(e))
  {
    SmallBags(directed, e, Flip(e));
    SmallBags(directed, Flip(e), e);
    hide Bag;
  }

  lemma SameCanonical(directed: bool, e: Edge)
    ensures !directed ==> Canonical(directed, Flip(e)) == Canonical(directed, e)
  {
  }

  /** A self-loop is seen twice, an edge on one side only once. */
  lemma SeenShares(directed: bool, e: Edge)
    ensures SharesOut(directed, [], if directed then [e] else [e, Flip(e)], if directed then [e] else [], e, [e])
    ensures SharesOut(directed, [], [e], [], e, []) && SharesOut(directed, [e], [], [], e, [])
    ensures SharesOut(directed, [], if directed then [] else [Flip(e)], if directed then [e] else [], e, [])
  {
    SmallBags(directed, e, Flip(e));
    SmallBags(directed, Flip(e), e);
    SameCanonical(directed, e);
    hide Bag, Canonical;
  }

  lemma TouchingSharesOut(directed: bool, v: nat, e: Edge)
    ensures SharesOut(directed, NotTouching(v)(e), Oriented(directed, v)(e),
                      (if directed then Entering(v) else Nothing())(e), e, SelfLoop(v)(e))
  {
    SeenShares(directed, e);
    hide SharesOut;
    var a, b, d := NotTouching(v)(e), Oriented(directed, v)(e), SelfLoop(v)(e);
    var c := (if directed then Entering(v) else Nothing())(e);
    if e.source == v && e.target == v {
      assert a == [] && b == (if directed then [e] else [e, Flip(e)]) && c == (if directed then [e] else []) &&
        d == [e];
    } else if e.source == v {
      assert a == [] && b == [e] && c == [] && d == [];
    } else if e.target == v {
      assert a == [] && b == (if directed then [] else [Flip(e)]) && c == (if directed then [e] else []) && d == [];
    } else {
      assert a == [e] && b == [] && c == [] && d == [];
    }
  }

  lemma LeavingSharesOut(directed: bool, v: nat, id: int, e: Edge)
    ensures SharesOut(directed, NotLeaving(directed, v, id)(e), Leaving(directed, v, id)(e), Nothing()(e), e,
      Nothing()(e))
  {
    SmallBags(directed, e, Flip(e));
    SmallBags(directed, Flip(e), e);
    hide Bag;
  }

  /** What a cut leaves and what it takes away make up the edge list. */
  lemma {:induction false} WithoutEdgeBag(directed: bool, edges: seq<Edge>, u: nat, v: nat)
    ensures Bag(directed, Pick(edges, NotJoining(directed, u, v))) + Bag(directed, Between(directed, edges, u, v)) ==
            Bag(directed, edges)
  {
    hide SharesOut, Bag;
    var a, b, c := NotJoining(directed, u, v), Joining(directed, u, v), Nothing();
    forall e ensures SharesOut(directed, a(e), b(e), c(e), e, c(e)) {
      JoiningSharesOut(directed, u, v, e);
    }
    PicksShareOut(directed, edges, a, b, c, c);
    PickNothing(edges);
    EmptyBag(directed);
    AddNothing(Bag(directed, Pick(edges, a)) + Bag(directed, Pick(edges, b)));
    AddNothing(Bag(directed, edges));
  }

  lemma {:induction false} WithoutVertexBag(directed: bool, edges: seq<Edge>, v: nat)
    ensures Bag(directed, Pick(edges, NotTouching(v))) + Bag(directed, SavedByVertex(directed, edges, v)) ==
            Bag(directed, edges) + Bag(directed, SelfLoops(edges, v))
  {
    hide SharesOut, Bag;
    var a, b, d := NotTouching(v), Oriented(directed, v), SelfLoop(v);
    var c := if directed then Entering(v) else Nothing();
    forall e ensures SharesOut(directed, a(e), b(e), c(e), e, d(e)) {
      TouchingSharesOut(directed, v, e);
    }
    PicksShareOut(directed, edges, a, b, c, d);
    PickNothing(edges);
    BagAppend(directed, OutEdges(directed, edges, v), Pick(edges, c));
  }

  lemma {:induction false} WithoutLeavingBag(directed: bool, edges: seq<Edge>, v: nat, id: int)
    ensures Bag(directed, Pick(edges, NotLeaving(directed, v, id))) +
            Bag(directed, Pick(edges, Leaving(directed, v, id))) == Bag(directed, edges)
  {
    hide SharesOut, Bag;
    var a, b, c := NotLeaving(directed, v, id), Leaving(directed, v, id), Nothing();
    forall e ensures SharesOut(directed, a(e), b(e), c(e), e, c(e)) {
      LeavingSharesOut(directed, v, id, e);
    }
    PicksShareOut(directed, edges, a, b, c, c);
    PickNothing(edges);
    EmptyBag(directed);
    AddNothing(Bag(directed, Pick(edges, a)) + Bag(directed, Pick(edges, b)));
    AddNothing(Bag(directed, edges));
  }

  /** Only the first of the removed edges is saved: enough exactly when there is at most one. */
  lemma CutEdgeKeepsBag(directed: bool, n: nat, g: Store, u: nat, v: nat)
    requires u < n && v < n
    ensures Bag(directed, Restored(Apply(directed, n, g, CutEdge(u, v)))) == Bag(directed, Restored(g)) <==>
            |Between(directed, g.edges, u, v)| <= 1
  {
    var g' := Apply(directed, n, g, CutEdge(u, v));
    var between := Between(directed, g.edges, u, v);
    var saved := if between == [] then [] else [between[0]];
    WithoutEdgeBag(directed, g.edges, u, v);
    BagAppend(directed, g.edges, g.removed);
    BagAppend(directed, g'.edges, g'.removed);
    BagAppend(directed, g.removed, saved);
    BagSize(directed, between);
    BagSize(directed, saved);
    hide Bag, Between;
    CancelBags(Bag(directed, g'.edges), Bag(directed, g.removed), Bag(directed, saved), Bag(directed, between));
    if |between| <= 1 {
      assert between == saved;
    }
  }

  lemma CancelBags(rest: multiset<Edge>, removed: multiset<Edge>, saved: multiset<Edge>, all: multiset<Edge>)
    ensures rest + (removed + saved) == (rest + all) + removed ==> saved == all
    ensures (rest + all) + removed == rest + (removed + all)
  {
    if rest + (removed + saved) == (rest + all) + removed {
      forall e ensures saved[e] == all[e] {
        assert (rest + (removed + saved))[e] == ((rest + all) + removed)[e];
      }
    }
  }

  /** A self-loop of the vertex is saved twice; nothing else goes wrong. */
  lemma CutVertexKeepsBag(directed: bool, n: nat, g: Store, v: nat)
    requires v < n
    ensures Bag(directed, Restored(Apply(directed, n, g, CutVertex(v)))) == Bag(directed, Restored(g)) <==>
            SelfLoops(g.edges, v) == []
  {
    var g' := Apply(directed, n, g, CutVertex(v));
    var saved, loops := SavedByVertex(directed, g.edges, v), SelfLoops(g.edges, v);
    WithoutVertexBag(directed, g.edges, v);
    BagAppend(directed, g.edges, g.removed);
    BagAppend(directed, g'.edges, g'.removed);
    BagAppend(directed, g.removed, saved);
    BagSize(directed, loops);
    hide Bag, SavedByVertex, SelfLoops;
    var extra := Bag(directed, loops);
    assert Bag(directed, Restored(g')) == Bag(directed, Restored(g)) + extra by {
      assert Bag(directed, g'.edges) + (Bag(directed, g.removed) + Bag(directed, saved)) ==
             (Bag(directed, g'.edges) + Bag(directed, saved)) + Bag(directed, g.removed);
    }
    assert |Bag(directed, Restored(g)) + extra| == |Bag(directed, Restored(g))| + |extra|;
  }

  lemma CutOutgoingKeepsBag(directed: bool, n: nat, g: Store, v: nat, id: int)
    ensures Bag(directed, Restored(Apply(directed, n, g, CutOutgoing(v, id)))) == Bag(directed, Restored(g))
  {
    var g' := Apply(directed, n, g, CutOutgoing(v, id));
    WithoutLeavingBag(directed, g.edges, v, id);
    BagAppend(directed, g.edges, g.removed);
    BagAppend(directed, g'.edges, g'.removed);
    BagAppend(directed, g.removed, Pick(g.edges, Leaving(directed, v, id)));
  }

  // ---------- whole runs of cuts ----------

  function Run(directed: bool, n: nat, g: Store, cuts: seq<Cut>): Store
    decreases |cuts|
  {
    if cuts == [] then g else Run(directed, n, Apply(directed, n, g, cuts[0]), cuts[1..])
  }

  /** No self-loops and no two edges between the same ends. */
  ghost predicate Simple(bag: multiset<Edge>) {
    && (forall e :: e in bag ==> e.source != e.target && bag[e] == 1)
    && (forall e, f :: e in bag && f in bag && e.source == f.source && e.target == f.target ==> e == f)
  }

  lemma InBag(directed: bool, edges: seq<Edge>, e: Edge)
    requires e in edges
    ensures Canonical(directed, e) in Bag(directed, edges)
  {
    var i :| 0 <= i < |edges| && edges[i] == e;
    var all := seq(|edges|, j requires 0 <= j < |edges| => Canonical(directed, edges[j]));
    assert all[i] == Canonical(directed, e);
  }

  lemma TwoInBag(directed: bool, edges: seq<Edge>)
    requires |edges| >= 2
    ensures multiset{Canonical(directed, edges[0]), Canonical(directed, edges[1])} <= Bag(directed, edges)
  {
    assert edges == [edges[0], edges[1]] + edges[2..];
    BagAppend(directed, [edges[0], edges[1]], edges[2..]);
    SmallBags(directed, edges[0], edges[1]);
    hide Bag;
  }

  lemma BetweenJoins(directed: bool, edges: seq<Edge>, u: nat, v: nat)
    ensures forall e :: e in Between(directed, edges, u, v) ==> e.source == u && e.target == v
  {
    PickMembers(edges, Joining(directed, u, v));
  }

  lemma SimpleGraphsHaveNoParallels(directed: bool, g: Store, u: nat, v: nat)
    requires Simple(Bag(directed, Restored(g)))
    ensures |Between(directed, g.edges, u, v)| <= 1
  {
    hide Bag;
    var bag := Bag(directed, Restored(g));
    var between := Between(directed, g.edges, u, v);
    if |between| >= 2 {
      BagAppend(directed, g.edges, g.removed);
      WithoutEdgeBag(directed, g.edges, u, v);
      TwoInBag(directed, between);
      BetweenJoins(directed, g.edges, u, v);
      assert false;
    }
  }

  lemma SimpleGraphsHaveNoLoops(directed: bool, g: Store, v: nat)
    requires Simple(Bag(directed, Restored(g)))
    ensures SelfLoops(g.edges, v) == []
  {
    hide Bag;
    var loops := SelfLoops(g.edges, v);
    BagAppend(directed, g.edges, g.removed);
    PickMembers(g.edges, SelfLoop(v));
    if loops != [] {
      assert loops[0] in loops;
      InBag(directed, g.edges, loops[0]);
      assert false;
    }
  }

  /** On a graph without parallel edges or self-loops, restoring undoes any run of cuts. */
  lemma {:induction false} RestoreUndoesCuts(directed: bool, n: nat, g: Store, cuts: seq<Cut>)
    requires Simple(Bag(directed, Restored(g)))
    ensures Bag(directed, Restored(Run(directed, n, g, cuts))) == Bag(directed, Restored(g))
    decreases |cuts|
  {
    hide Bag, Simple;
    if cuts != [] {
      var g' := Apply(directed, n, g, cuts[0]);
      match cuts[0] {
        case CutEdge(u, v) =>
          if u < n && v < n {
            SimpleGraphsHaveNoParallels(directed, g, u, v);
            CutEdgeKeepsBag(directed, n, g, u, v);
          }
        case CutVertex(v) =>
          if v < n {
            SimpleGraphsHaveNoLoops(directed, g, v);
            CutVertexKeepsBag(directed, n, g, v);
          }
        case CutOutgoing(v, id) =>
          CutOutgoingKeepsBag(directed, n, g, v, id);
      }
      RestoreUndoesCuts(directed, n, g', cuts[1..]);
    }
  }

  /** Cutting outgoing edges only, restoring undoes any run on any multigraph. */
  lemma {:induction false} RestoreUndoesOutgoingCuts(directed: bool, n: nat, g: Store, cuts: seq<Cut>)
    requires forall i :: 0 <= i < |cuts| ==> cuts[i].CutOutgoing?
    ensures Bag(directed, Restored(Run(directed, n, g, cuts))) == Bag(directed, Restored(g))
    decreases |cuts|
  {
    hide Bag;
    if cuts != [] {
      CutOutgoingKeepsBag(directed, n, g, cuts[0].v, cuts[0].id);
      RestoreUndoesOutgoingCuts(directed, n, Apply(directed, n, g, cuts[0]), cuts[1..]);
    }
  }

  // ---------- the class ----------

  lemma {:induction false} BetweenLeadsOutEdges(directed: bool, edges: seq<Edge>, u: nat, v: nat, i: nat)
    requires i <= |OutEdges(directed, edges, u)|
    requires forall j :: 0 <= j < i ==> OutEdges(directed, edges, u)[j].target != v
    ensures var out, between := OutEdges(directed, edges, u), Between(directed, edges, u, v);
      && (i == |out| ==> between == [])
      && (i < |out| && out[i].target == v ==> between != [] && between[0] == out[i])
    decreases |edges|
  {
    if edges == [] {
      return;
    }
    hide *;
    var e, rest, f := edges[0], edges[1..], Joining(directed, u, v);
    var out, own, later := OutEdges(directed, edges, u), Oriented(directed, u)(e), OutEdges(directed, rest, u);
    OutEdgesCons(directed, edges, u, v);
    OwnJoins(directed, u, v, e);
    if i >= |own| {
      forall j | 0 <= j < i - |own| ensures later[j].target != v {
        assert later[j] == out[j + |own|];
      }
      BetweenLeadsOutEdges(directed, rest, u, v, i - |own|);
      forall j | 0 <= j < |own| ensures own[j].target != v {
        assert own[j] == out[j];
      }
    } else {
      assert out[i] == own[i] && forall j :: 0 <= j < i ==> own[j] == out[j];
    }
  }

  lemma OutEdgesCons(directed: bool, edges: seq<Edge>, u: nat, v: nat)
    requires edges != []
    ensures OutEdges(directed, edges, u) == Oriented(directed, u)(edges[0]) + OutEdges(directed, edges[1..], u)
    ensures Between(directed, edges, u, v) == Joining(directed, u, v)(edges[0]) + Between(directed, edges[1..], u, v)
  {
  }

  /** Of the one or two out-edges that an edge is, the first to lead to `v` is the one that joins. */
  lemma OwnJoins(directed: bool, u: nat, v: nat, e: Edge)
    ensures var own, join := Oriented(directed, u)(e), Joining(directed, u, v)(e);
      && ((forall j :: 0 <= j < |own| ==> own[j].target != v) ==> join == [])
      && (forall i :: 0 <= i < |own| && own[i].target == v && (forall j :: 0 <= j < i ==> own[j].target != v) ==>
            join != [] && join[0] == own[i])
  {
    var own := Oriented(directed, u)(e);
    assert e.source == u ==> own[0] == e;
    assert !directed && e.target == u ==> own[|own| - 1] == Flip(e);
  }

  /** The first out-edge that leads to `v` is the one cutting saves. */
  lemma FirstOutIsSaved(directed: bool, n: nat, g: Store, u: nat, v: nat, i: nat)
    requires u < n && v < n && i <= |OutEdges(directed, g.edges, u)|
    requires forall j :: 0 <= j < i ==> OutEdges(directed, g.edges, u)[j].target != v
    requires var out := OutEdges(directed, g.edges, u); i < |out| ==> out[i].target == v
    ensures var out := OutEdges(directed, g.edges, u);
      Apply(directed, n, g, CutEdge(u, v)) ==
      Store(Pick(g.edges, NotJoining(directed, u, v)), g.removed + if i < |out| then [out[i]] else [])
  {
    hide OutEdges, Between, Pick;
    BetweenLeadsOutEdges(directed, g.edges, u, v, i);
  }

  lemma {:induction false} PickRemoveAt(edges: seq<Edge>, k: nat, f: Edge -> seq<Edge>)
    requires k < |edges| && f(edges[k]) == []
    ensures Pick(edges[..k] + edges[k + 1..], f) == Pick(edges, f)
  {
    assert edges == edges[..k] + [edges[k]] + edges[k + 1..];
    PickAppend(edges[..k], edges[k + 1..], f);
    PickAppend(edges[..k] + [edges[k]], edges[k + 1..], f);
    PickAppend(edges[..k], [edges[k]], f);
    assert [edges[k]][1..] == [];
  }

  lemma {:induction false} PickFirst(edges: seq<Edge>, k: nat, f: Edge -> seq<Edge>)
    requires k < |edges| && forall j :: 0 <= j < k ==> f(edges[j]) == []
    ensures Pick(edges, f) == f(edges[k]) + Pick(edges[..k] + edges[k + 1..], f)
  {
    if k == 0 {
      assert edges[..0] + edges[1..] == edges[1..];
    } else {
      PickFirst(edges[1..], k - 1, f);
      assert (edges[..k] + edges[k + 1..])[1..] == edges[1..][..k - 1] + edges[1..][k..];
    }
  }

  lemma {:induction false} PickEmpty(edges: seq<Edge>, f: Edge -> seq<Edge>)
    requires forall j :: 0 <= j < |edges| ==> f(edges[j]) == []
    ensures Pick(edges, f) == []
  {
    if edges != [] {
      PickEmpty(edges[1..], f);
    }
  }

  /** Keeping what another pick leaves out changes nothing when the other pick finds nothing. */
  lemma {:induction false} PickAll(edges: seq<Edge>, f: Edge -> seq<Edge>)
    requires forall j :: 0 <= j < |edges| ==> f(edges[j]) == [edges[j]]
    ensures Pick(edges, f) == edges
  {
    if edges != [] {
      PickAll(edges[1..], f);
    }
  }

  lemma Regroup(a: seq<Edge>, b: seq<Edge>, c: seq<Edge>)
    ensures (a + b) + c == a + (b + c)
  {
  }

  lemma FirstLeavingMoves(directed: bool, edges: seq<Edge>, k: nat, v: nat, id: int)
    requires k < |edges| && Leaving(directed, v, id)(edges[k]) != []
    requires forall j :: 0 <= j < k ==> Leaving(directed, v, id)(edges[j]) == []
    ensures var leaving, staying, rest := Leaving(directed, v, id), NotLeaving(directed, v, id),
      edges[..k] + edges[k + 1..];
      Pick(edges, leaving) == leaving(edges[k]) + Pick(rest, leaving) && Pick(edges, staying) == Pick(rest, staying)
  {
    PickFirst(edges, k, Leaving(directed, v, id));
    PickRemoveAt(edges, k, NotLeaving(directed, v, id));
  }

  lemma {:induction false} NoneLeaving(directed: bool, edges: seq<Edge>, v: nat, id: int)
    requires forall j :: 0 <= j < |edges| ==> Leaving(directed, v, id)(edges[j]) == []
    ensures Pick(edges, Leaving(directed, v, id)) == [] && Pick(edges, NotLeaving(directed, v, id)) == edges
  {
    PickEmpty(edges, Leaving(directed, v, id));
    PickAll(edges, NotLeaving(directed, v, id));
  }

  class Graph {
    const n: nat
    const directed: bool
    var edges: seq<Edge>
    var removedEdges: seq<Edge>

    constructor (directed: bool, n: nat, edges: seq<Edge>)
      ensures this.directed == directed && this.n == n
      ensures State() == Store(edges, [])
    {
      this.directed, this.n, this.edges, removedEdges := directed, n, edges, [];
    }

    function State(): Store
      reads this
    {
      Store(edges, removedEdges)
    }

    predicate HasVertex(v: nat) {
      v < n
    }

    method DisconnectEdge(u: nat, v: nat)
      modifies this
      ensures State() == Apply(directed, n, old(State()), CutEdge(u, v))
    {
      if !HasVertex(u) || !HasVertex(v) {
        return;
      }
      hide OutEdges, Pick, Apply;
      var out := OutEdges(directed, edges, u);
      var i := 0;
      while i < |out| && out[i].target != v
        invariant 0 <= i <= |out|
        invariant forall j :: 0 <= j < i ==> out[j].target != v
      {
        i := i + 1;
      }
      FirstOutIsSaved(directed, n, State(), u, v, i);
      if i < |out| {
        removedEdges := removedEdges + [out[i]];
        assert out[..i + 1] == out[..i] + [out[i]];
      }
      edges := Pick(edges, NotJoining(directed, u, v));
    }

    /** Copies edges about to be deleted into `removedEdges`, one by one. */
    method Save(deleted: seq<Edge>)
      modifies this`removedEdges
      ensures removedEdges == old(removedEdges) + deleted
    {
      for i := 0 to |deleted|
        invariant removedEdges == old(removedEdges) + deleted[..i]
      {
        removedEdges := removedEdges + [deleted[i]];
      }
    }

    method DisconnectVertex(v: nat)
      modifies this
      ensures State() == Apply(directed, n, old(State()), CutVertex(v))
    {
      if !HasVertex(v) {
        return;
      }
      Save(OutEdges(directed, edges, v));
      if directed {
        Save(Pick(edges, Entering(v)));
      }
      edges := Pick(edges, NotTouching(v));
    }

    method DisconnectOutGoingEdge(v: nat, id: int)
      modifies this
      ensures State() == Apply(directed, n, old(State()), CutOutgoing(v, id))
    {
      if !HasVertex(v) {
        return;
      }
      var change := true;
      hide Leaving, NotLeaving, Pick;
      ghost var leaving, staying := Leaving(directed, v, id), NotLeaving(directed, v, id);
      ghost var saved := removedEdges + Pick(edges, leaving);
      ghost var kept := Pick(edges, staying);
      while change
        invariant removedEdges + Pick(edges, leaving) == saved && Pick(edges, staying) == kept
        invariant !change ==> forall j :: 0 <= j < |edges| ==> leaving(edges[j]) == []
        decreases |edges|, change
      {
        change := false;
        var k := FirstLeaving(v, id);
        if k < |edges| {
          FirstLeavingMoves(directed, edges, k, v, id);
          var first, rest := Leaving(directed, v, id)(edges[k]), edges[..k] + edges[k + 1..];
          Regroup(removedEdges, first, Pick(rest, leaving));
          removedEdges := removedEdges + first;
          edges := rest;
          change := true;
        }
      }
      NoneLeaving(directed, edges, v, id);
    }

    /** Position of the first edge with the given id that leaves `v`. */
    method FirstLeaving(v: nat, id: int) returns (k: nat)
      ensures k <= |edges|
      ensures forall j :: 0 <= j < k ==> Leaving(directed, v, id)(edges[j]) == []
      ensures k < |edges| ==> Leaving(directed, v, id)(edges[k]) != []
    {
      k := 0;
      while k < |edges| && Leaving(directed, v, id)(edges[k]) == []
        invariant k <= |edges|
        invariant forall j :: 0 <= j < k ==> Leaving(directed, v, id)(edges[j]) == []
      {
        k := k + 1;
      }
    }

    method RestoreGraph()
      modifies this
      ensures State() == Store(Restored(old(State())), [])
    {
      while |removedEdges| != 0
        invariant edges + removedEdges == old(edges + removedEdges)
        decreases |removedEdges|
      {
        edges := edges + [removedEdges[0]];
        removedEdges := removedEdges[1..];
      }
    }
  }
}
