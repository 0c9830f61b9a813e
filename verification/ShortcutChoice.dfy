/** include/contraction/contractionHierarchies.hpp: what the choice of shortcuts is worth if the inner search does what
    Dijkstra's does until it meets a vertex beyond the distance to stop at. */
module ShortcutChoice {
  import opened Graphs
  import opened Labels
  import opened Bypass
  import opened ContractionGraph
  import opened ShortcutRules

  // ---------- a right tree ----------

  ghost predicate PassedOn(tree: Tree, a: Edge, x: nat) {
    && a.source == tree.predecessor(x) && a.target == x && tree.distance(a.source).Finite?
    && tree.distance(x) == Finite(tree.distance(a.source).cost + a.cost)
  }

  /** An arc from its predecessor accounts for the label of `x`. */
  ghost predicate Parent(arcs: set<Edge>, tree: Tree, x: nat) {
    exists a :: a in arcs && PassedOn(tree, a, x)
  }

  ghost predicate Within(tree: Tree, p: nat, x: nat) {
    tree.distance(x).Finite? && tree.distance(x).cost <= p
  }

  /** Labels belong to walks from `u` and come from predecessors, and up to `p` every vertex has passed its label on. */
  ghost predicate RightTree(arcs: set<Edge>, u: nat, p: nat, tree: Tree) {
    && tree.distance(u) == Finite(0)
    && (forall x: nat :: tree.distance(x).Finite? ==> Real(arcs, Edge(0, u, x, tree.distance(x).cost)))
    && (forall x: nat :: x != u && tree.distance(x).Finite? ==> Parent(arcs, tree, x))
    && (forall a :: a in arcs && Within(tree, p, a.source) ==>
          tree.distance(a.target).Finite? && tree.distance(a.target).cost <= tree.distance(a.source).cost + a.cost)
  }

  ghost predicate RightOracle(directed: bool, oracle: Oracle) {
    forall es, u, p :: RightTree(ArcsOf(directed, es), u, p, oracle(es, u, p))
  }

  lemma {:induction false} LabelsReach(arcs: set<Edge>, u: nat, p: nat, tree: Tree, z: nat, q: seq<Edge>, x: nat)
    requires RightTree(arcs, u, p, tree) && IsWalk(arcs, z, q, x)
    requires tree.distance(z).Finite? && tree.distance(z).cost + Cost(q) <= p
    ensures tree.distance(x).Finite? && tree.distance(x).cost <= tree.distance(z).cost + Cost(q)
    decreases q
  {
    hide Real, Parent;
    if q != [] {
      assert Within(tree, p, q[0].source);
      LabelsReach(arcs, u, p, tree, q[0].target, q[1..], x);
    }
  }

  /** Up to `p` a label is the distance. */
  lemma LabelIsDist(arcs: set<Edge>, u: nat, p: nat, tree: Tree, w: nat, c: nat)
    requires RightTree(arcs, u, p, tree) && tree.distance(w) == Finite(c) && c <= p
    ensures IsDist(arcs, u, w, c)
  {
    hide Parent;
    assert Real(arcs, Edge(0, u, w, c));
    forall q | IsWalk(arcs, u, q, w) ensures c <= Cost(q) {
      if Cost(q) < c {
        LabelsReach(arcs, u, p, tree, u, q, w);
      }
    }
  }

  // ---------- first and cheapest edges as arcs ----------

  lemma HasArc(directed: bool, es: seq<CHEdge>, u: nat, w: nat)
    ensures Has(directed, es, u, w) <==> exists a :: a in ArcsOf(directed, es) && a.source == u && a.target == w
  {
    if Has(directed, es, u, w) {
      var e :| e in es && Leads(directed, e, u, w);
      LeadingArc(directed, es, e, u, w);
    }
    if a :| a in ArcsOf(directed, es) && a.source == u && a.target == w {
      ArcAtVertex(directed, es, u, a);
    }
  }

  lemma LeadingArc(directed: bool, es: seq<CHEdge>, e: CHEdge, u: nat, w: nat)
    requires e in es && Leads(directed, e, u, w)
    ensures Edge(e.id, u, w, e.cost) in ArcsOf(directed, es)
  {
    ArcsFromEdges(directed, es, Edge(e.id, u, w, e.cost));
    assert Plain(e) == Edge(e.id, u, w, e.cost) || (!directed && Flip(Plain(e)) == Edge(e.id, u, w, e.cost));
  }

  lemma {:induction false} FirstIsEdge(directed: bool, es: seq<CHEdge>, u: nat, v: nat)
    ensures First(directed, es, u, v).Finite? ==>
      exists e :: e in es && Leads(directed, e, u, v) && First(directed, es, u, v) == Finite(e.cost)
  {
    if es != [] {
      FirstIsEdge(directed, es[1..], u, v);
      if Leads(directed, es[0], u, v) {
        assert es[0] in es;
      } else if First(directed, es, u, v).Finite? {
        var e :| e in es[1..] && Leads(directed, e, u, v) && First(directed, es[1..], u, v) == Finite(e.cost);
        assert e in es;
      }
    }
  }

  /** The first edge is an arc, the cheapest one is too, and no arc between the two vertices is cheaper than that. */
  lemma {:induction false} EdgesAsArcs(directed: bool, es: seq<CHEdge>, u: nat, v: nat)
    requires Has(directed, es, u, v)
    ensures var e, l := First(directed, es, u, v), Least(directed, es, u, v);
      && e.Finite? && l.Finite? && l.cost <= e.cost
      && (exists a :: a in ArcsOf(directed, es) && a.source == u && a.target == v && a.cost == e.cost)
      && (exists a :: a in ArcsOf(directed, es) && a.source == u && a.target == v && a.cost == l.cost)
      && (forall a :: a in ArcsOf(directed, es) && a.source == u && a.target == v ==> l.cost <= a.cost)
  {
    FirstAndLeast(directed, es, u, v);
    FirstIsEdge(directed, es, u, v);
    var e :| e in es && Leads(directed, e, u, v) && First(directed, es, u, v) == Finite(e.cost);
    LeadingArc(directed, es, e, u, v);
    CheapestArc(directed, es, u, v, Least(directed, es, u, v).cost);
  }

  lemma {:induction false} TwoArcs(arcs: set<Edge>, a: Edge, b: Edge)
    requires a in arcs && b in arcs && a.target == b.source
    ensures IsWalk(arcs, a.source, [a, b], b.target) && Cost([a, b]) == a.cost + b.cost
  {
    WalkSnoc(arcs, a.source, [], a);
    assert [] + [a] == [a] && [a] + [b] == [a, b];
    WalkSnoc(arcs, a.source, [a], b);
  }

  // ---------- one shortcut ----------

  /** No walk from `u` to `w` costs less than `c`, and none but two arcs over `v` costs as little. */
  ghost predicate OnlyWay(arcs: set<Edge>, u: nat, v: nat, w: nat, c: nat) {
    forall q: seq<Edge> :: IsWalk(arcs, u, q, w) ==> c < Cost(q) || (c == Cost(q) && |q| == 2 && q[0].target == v)
  }

  /** The last arc of the tree's way to `x`, and a walk to where it begins. */
  lemma LastArc(arcs: set<Edge>, u: nat, p: nat, tree: Tree, x: nat) returns (r: seq<Edge>, a: Edge)
    requires RightTree(arcs, u, p, tree) && x != u && tree.distance(x).Finite?
    ensures a in arcs && PassedOn(tree, a, x)
    ensures IsWalk(arcs, u, r, a.source) && Cost(r) == tree.distance(a.source).cost
  {
    assert Parent(arcs, tree, x);
    a :| a in arcs && PassedOn(tree, a, x);
    assert Real(arcs, Edge(0, u, a.source, tree.distance(a.source).cost));
    r :| IsWalk(arcs, u, r, a.source) && Cost(r) == tree.distance(a.source).cost;
  }

  /** If the way over `v` is the only shortest one, every right tree takes it. */
  lemma TreeTakesOnlyWay(arcs: set<Edge>, u: nat, p: nat, tree: Tree, v: nat, w: nat, a: Edge, b: Edge)
    requires RightTree(arcs, u, p, tree) && u != v && v != w && u != w
    requires a in arcs && a.source == u && a.target == v && b in arcs && b.source == v && b.target == w
    requires a.cost + b.cost <= p && OnlyWay(arcs, u, v, w, a.cost + b.cost)
    ensures tree.distance(w) == Finite(a.cost + b.cost) && tree.predecessor(w) == v && tree.predecessor(v) == u
  {
    hide RightTree;
    var c := a.cost + b.cost;
    TwoArcs(arcs, a, b);
    WithinLabel(arcs, u, p, tree, [a, b], w);
    LabelIsDist(arcs, u, p, tree, w, tree.distance(w).cost);
    var r, last := LastArc(arcs, u, p, tree, w);
    WalkSnoc(arcs, u, r, last);
    assert |r + [last]| == 2 && (r + [last])[0] == r[0] && r[1..] == [];
    assert last.source == v;
    var r', first := LastArc(arcs, u, p, tree, v);
    WalkSnoc(arcs, u, r', first);
    WalkSnoc(arcs, u, r' + [first], last);
    assert |r' + [first] + [last]| == 2;
    assert r' == [];
  }

  lemma {:induction false} WithinLabel(arcs: set<Edge>, u: nat, p: nat, tree: Tree, q: seq<Edge>, x: nat)
    requires RightTree(arcs, u, p, tree) && IsWalk(arcs, u, q, x) && Cost(q) <= p
    ensures tree.distance(x).Finite? && tree.distance(x).cost <= Cost(q)
  {
    assert tree.distance(u) == Finite(0);
    LabelsReach(arcs, u, p, tree, u, q, x);
  }

  /** The ways over `v` by the first edges, for short. */
  ghost predicate Offered(directed: bool, es: seq<CHEdge>, u: nat, v: nat, w: nat) {
    && Has(directed, es, u, v) && Has(directed, es, v, w) && !Has(directed, es, u, w)
    && IsShortcutPossible(directed, es, u, v, w)
  }

  /** The only shortest way from `u` to `w` is that over `v` by the first edges, and it may be replaced. */
  ghost predicate Needed(directed: bool, es: seq<CHEdge>, u: nat, v: nat, w: nat) {
    && Offered(directed, es, u, v, w)
    && var e, f := First(directed, es, u, v), First(directed, es, v, w);
    && e.Finite? && f.Finite? && OnlyWay(ArcsOf(directed, es), u, v, w, e.cost + f.cost)
  }

  lemma {:induction false} FirstFinite(directed: bool, es: seq<CHEdge>, u: nat, v: nat, w: nat)
    requires Offered(directed, es, u, v, w)
    ensures u != v && v != w && u != w
    ensures First(directed, es, u, v).Finite? && First(directed, es, v, w).Finite?
    ensures First(directed, es, u, w).Infinity?
  {
    hide Has;
    FirstAndLeast(directed, es, u, v);
    FirstAndLeast(directed, es, v, w);
    FirstAndLeast(directed, es, u, w);
  }

  /** A needed shortcut is wanted by every right tree. */
  lemma {:induction false} NeededIsWanted(directed: bool, es: seq<CHEdge>, p: nat, tree: Tree, u: nat, v: nat, w: nat)
    requires RightTree(ArcsOf(directed, es), u, p, tree) && Needed(directed, es, u, v, w)
    requires First(directed, es, u, v).Finite? && First(directed, es, v, w).Finite?
    requires First(directed, es, u, v).cost + First(directed, es, v, w).cost <= p
    ensures Wanted(directed, es, tree, u, v, w)
  {
    hide RightTree, OnlyWay, ArcsOf, Has, First, Least, IsShortcutPossible;
    FirstFinite(directed, es, u, v, w);
    EdgesAsArcs(directed, es, u, v);
    EdgesAsArcs(directed, es, v, w);
    var arcs := ArcsOf(directed, es);
    var a :| a in arcs && a.source == u && a.target == v && a.cost == First(directed, es, u, v).cost;
    var b :| b in arcs && b.source == v && b.target == w && b.cost == First(directed, es, v, w).cost;
    TreeTakesOnlyWay(arcs, u, p, tree, v, w, a, b);
  }

  /** A wanted shortcut is offered, and costs what the shortest way costs. */
  lemma {:induction false} WantedIsDue(directed: bool, es: seq<CHEdge>, p: nat, tree: Tree, u: nat, v: nat, w: nat)
    requires RightTree(ArcsOf(directed, es), u, p, tree) && Wanted(directed, es, tree, u, v, w)
    requires First(directed, es, u, v).Finite? && First(directed, es, v, w).Finite?
    requires First(directed, es, u, v).cost + First(directed, es, v, w).cost <= p
    ensures Offered(directed, es, u, v, w)
    ensures Least(directed, es, u, v) == First(directed, es, u, v) &&
      Least(directed, es, v, w) == First(directed, es, v, w)
    ensures IsDist(ArcsOf(directed, es), u, w, First(directed, es, u, v).cost + First(directed, es, v, w).cost)
  {
    hide RightTree, ArcsOf, Has, First, Least, IsShortcutPossible, IsDist;
    var arcs := ArcsOf(directed, es);
    FirstAndLeast(directed, es, u, v);
    FirstAndLeast(directed, es, v, w);
    FirstAndLeast(directed, es, u, w);
    EdgesAsArcs(directed, es, u, v);
    EdgesAsArcs(directed, es, v, w);
    var c := First(directed, es, u, v).cost + First(directed, es, v, w).cost;
    LabelIsDist(arcs, u, p, tree, w, c);
    var a :| a in arcs && a.source == u && a.target == v && a.cost == Least(directed, es, u, v).cost;
    var b :| b in arcs && b.source == v && b.target == w && b.cost == Least(directed, es, v, w).cost;
    TwoArcs(arcs, a, b);
    NoLess(arcs, u, w, c, [a, b]);
  }

  lemma {:induction false} NoLess(arcs: set<Edge>, u: nat, w: nat, c: nat, q: seq<Edge>)
    requires IsDist(arcs, u, w, c) && IsWalk(arcs, u, q, w)
    ensures c <= Cost(q)
  {
  }

  /** By a right tree, a shortcut that may be made is made exactly if the tree leads from `u` over `v` to `w` and of
      parallel edges on this way the first is a cheapest one. */
  lemma {:induction false} WantedExactly(directed: bool, es: seq<CHEdge>, p: nat, tree: Tree, u: nat, v: nat, w: nat)
    requires RightTree(ArcsOf(directed, es), u, p, tree) && Offered(directed, es, u, v, w)
    requires First(directed, es, u, v).Finite? ==> First(directed, es, u, v).cost <= p
    ensures Wanted(directed, es, tree, u, v, w) <==>
      && tree.distance(w).Finite? && tree.predecessor(w) == v && tree.predecessor(v) == u
      && First(directed, es, u, v) == Least(directed, es, u, v)
      && First(directed, es, v, w) == Least(directed, es, v, w)
  {
    hide RightTree, ArcsOf, Has, First, Least, IsShortcutPossible;
    FirstFinite(directed, es, u, v, w);
    EdgesAsArcs(directed, es, u, v);
    EdgesAsArcs(directed, es, v, w);
    if tree.distance(w).Finite? && tree.predecessor(w) == v && tree.predecessor(v) == u {
      TreeOverV(directed, es, p, tree, u, v, w);
    }
  }

  lemma {:induction false} TreeOverV(directed: bool, es: seq<CHEdge>, p: nat, tree: Tree, u: nat, v: nat, w: nat)
    requires RightTree(ArcsOf(directed, es), u, p, tree) && u != v && u != w
    requires Has(directed, es, u, v) && Has(directed, es, v, w)
    requires tree.distance(w).Finite? && tree.predecessor(w) == v && tree.predecessor(v) == u
    requires First(directed, es, u, v).Finite? && First(directed, es, u, v).cost <= p
    ensures Least(directed, es, u, v).Finite? && Least(directed, es, v, w).Finite?
    ensures tree.distance(w) == Finite(Least(directed, es, u, v).cost + Least(directed, es, v, w).cost)
  {
    hide ArcsOf, Has, First, Least, Real;
    var arcs := ArcsOf(directed, es);
    EdgesAsArcs(directed, es, u, v);
    EdgesAsArcs(directed, es, v, w);
    var a :| a in arcs && a.source == u && a.target == v && a.cost == Least(directed, es, u, v).cost;
    var b :| b in arcs && b.source == v && b.target == w && b.cost == Least(directed, es, v, w).cost;
    assert Parent(arcs, tree, w);
    var b' :| b' in arcs && PassedOn(tree, b', w);
    assert Parent(arcs, tree, v);
    var a' :| a' in arcs && PassedOn(tree, a', v);
    assert Within(tree, p, u);
    assert tree.distance(v) == Finite(a.cost) && Within(tree, p, v);
  }

  // ---------- edges that do not matter at a vertex ----------

  lemma {:induction false} Beside(directed: bool, es: seq<CHEdge>, s: CHEdge, x: nat, y: nat)
    requires !Leads(directed, s, x, y)
    ensures First(directed, es + [s], x, y) == First(directed, es, x, y)
    ensures Least(directed, es + [s], x, y) == Least(directed, es, x, y)
    ensures Has(directed, es + [s], x, y) <==> Has(directed, es, x, y)
  {
    if es == [] {
      assert [] + [s] == [s] && [s][1..] == [];
    } else {
      assert (es + [s])[1..] == es[1..] + [s];
      Beside(directed, es[1..], s, x, y);
      HasTail(directed, es, x, y);
      HasTail(directed, es + [s], x, y);
    }
  }

  lemma {:induction false} BesideAll(directed: bool, es: seq<CHEdge>, more: seq<CHEdge>, x: nat, y: nat)
    requires forall s :: s in more ==> !Leads(directed, s, x, y)
    ensures First(directed, es + more, x, y) == First(directed, es, x, y)
    ensures Least(directed, es + more, x, y) == Least(directed, es, x, y)
    ensures Has(directed, es + more, x, y) <==> Has(directed, es, x, y)
    decreases more
  {
    if more == [] {
      assert es + more == es;
    } else {
      hide First, Least, Has;
      assert es + more == (es + [more[0]]) + more[1..];
      Beside(directed, es, more[0], x, y);
      BesideAll(directed, es + [more[0]], more[1..], x, y);
    }
  }

  ghost predicate Avoids(made: seq<CHEdge>, v: nat) {
    forall s :: s in made ==> !Touches(s, v)
  }

  lemma AvoidsMore(made: seq<CHEdge>, more: seq<CHEdge>, v: nat)
    requires Avoids(made, v) && Avoids(more, v)
    ensures Avoids(made + more, v)
  {
  }

  /** Edges that avoid `v` change nothing about the ways over it. */
  lemma {:induction false} SameWaysOver(directed: bool, es: seq<CHEdge>, made: seq<CHEdge>, u: nat, v: nat, w: nat)
    requires Avoids(made, v)
    ensures First(directed, es + made, u, v) == First(directed, es, u, v)
    ensures First(directed, es + made, v, w) == First(directed, es, v, w)
    ensures Least(directed, es + made, u, v) == Least(directed, es, u, v)
    ensures Least(directed, es + made, v, w) == Least(directed, es, v, w)
    ensures Has(directed, es + made, u, v) <==> Has(directed, es, u, v)
    ensures Has(directed, es + made, v, w) <==> Has(directed, es, v, w)
    ensures IsShortcutPossible(directed, es + made, u, v, w) <==> IsShortcutPossible(directed, es, u, v, w)
  {
    hide First, Least, Has;
    BesideAll(directed, es, made, u, v);
    BesideAll(directed, es, made, v, u);
    BesideAll(directed, es, made, v, w);
    BesideAll(directed, es, made, w, v);
  }

  // ---------- the shortcuts from one vertex ----------

  lemma {:induction false} OneIs(directed: bool, es: seq<CHEdge>, tree: Tree, u: nat, v: nat, w: nat)
    ensures var made := One(directed, es, tree, u, v, w);
      if Wanted(directed, es, tree, u, v, w) then
        && First(directed, es, u, v).Finite? && First(directed, es, v, w).Finite?
        && Least(directed, es, u, v).Finite? && Least(directed, es, v, w).Finite?
        && u != v && v != w && u != w && !Has(directed, es, u, w)
        && made == [CHEdge(0, u, w, Least(directed, es, u, v).cost + Least(directed, es, v, w).cost, {})]
      else made == []
  {
    hide Has, First, Least;
    FirstAndLeast(directed, es, u, v);
    FirstAndLeast(directed, es, v, w);
    FirstAndLeast(directed, es, u, w);
  }

  /** Making one shortcut changes nothing about the others from the same vertex. */
  lemma OneUnaffected(directed: bool, es: seq<CHEdge>, tree: Tree, u: nat, v: nat, w: nat, w': nat)
    requires w != w'
    ensures One(directed, es + One(directed, es, tree, u, v, w), tree, u, v, w') == One(directed, es, tree, u, v, w')
  {
    OneIs(directed, es, tree, u, v, w);
    var made := One(directed, es, tree, u, v, w);
    hide Has, First, Least, IsShortcutPossible;
    if made == [] {
      assert es + made == es;
    } else {
      SameWaysOver(directed, es, made, u, v, w');
      BesideAll(directed, es, made, u, w');
    }
  }

  /** Each shortcut joins two vertices that no edge joined before, those made earlier included. */
  ghost predicate Fresh(directed: bool, es: seq<CHEdge>, made: seq<CHEdge>) {
    forall j :: 0 <= j < |made| ==> !Has(directed, es + made[..j], made[j].source, made[j].target)
  }

  lemma FreshAppend(directed: bool, es: seq<CHEdge>, a: seq<CHEdge>, b: seq<CHEdge>)
    requires Fresh(directed, es, a) && Fresh(directed, es + a, b)
    ensures Fresh(directed, es, a + b)
  {
    hide Has;
    forall j | 0 <= j < |a + b| ensures !Has(directed, es + (a + b)[..j], (a + b)[j].source, (a + b)[j].target) {
      if j < |a| {
        assert (a + b)[..j] == a[..j];
      } else {
        assert es + (a + b)[..j] == (es + a) + b[..j - |a|];
      }
    }
  }

  /** The shortcuts from `u` are those wanted, each once. */
  lemma {:induction false} FromIs(directed: bool, es: seq<CHEdge>, tree: Tree, u: nat, v: nat, outs: set<nat>)
    ensures forall s :: s in From(directed, es, tree, u, v, outs) <==>
      exists w :: w in outs && One(directed, es, tree, u, v, w) == [s]
    ensures Fresh(directed, es, From(directed, es, tree, u, v, outs))
    decreases outs
  {
    hide One, Has;
    if outs != {} {
      var w := Lowest(outs);
      var made := One(directed, es, tree, u, v, w);
      var rest := From(directed, es + made, tree, u, v, outs - {w});
      FromIs(directed, es + made, tree, u, v, outs - {w});
      OneIs(directed, es, tree, u, v, w);
      forall w' | w' in outs && w' != w
        ensures One(directed, es + made, tree, u, v, w') == One(directed, es, tree, u, v, w')
      {
        OneUnaffected(directed, es, tree, u, v, w, w');
      }
      forall s ensures s in made + rest <==> exists x :: x in outs && One(directed, es, tree, u, v, x) == [s] {
        assert s in made <==> One(directed, es, tree, u, v, w) == [s];
        if x :| x in outs && One(directed, es, tree, u, v, x) == [s] {
          assert x == w || x in outs - {w};
        }
      }
      FreshOne(directed, es, made);
      FreshAppend(directed, es, made, rest);
    }
  }

  lemma FreshOne(directed: bool, es: seq<CHEdge>, made: seq<CHEdge>)
    requires made == [] || (|made| == 1 && !Has(directed, es, made[0].source, made[0].target))
    ensures Fresh(directed, es, made)
  {
    assert es + [] == es;
  }

  /** A search is made from `u`: some edge to `v`, or way on over it, costs something. */
  ghost predicate Pays(directed: bool, es: seq<CHEdge>, u: nat, v: nat, outs: set<nat>) {
    var e := First(directed, es, u, v);
    && e.Finite?
    && (e.cost > 0 || exists w, d: nat :: w in outs && WayOn(directed, es, e.cost, u, v, w, d) && d > 0)
  }

  /** The shortcut may be made, and costs what the first edges over `v` cost and what the shortest way between its ends
      costs. */
  ghost predicate Due(directed: bool, es: seq<CHEdge>, v: nat, s: CHEdge) {
    var e, f := First(directed, es, s.source, v), First(directed, es, v, s.target);
    && Offered(directed, es, s.source, v, s.target) && e.Finite? && f.Finite? && s.cost == e.cost + f.cost
    && IsDist(ArcsOf(directed, es), s.source, s.target, s.cost)
  }

  /** The cost of a shortcut is that of the cheapest edges over `v`. */
  ghost predicate Built(directed: bool, es: seq<CHEdge>, v: nat, s: CHEdge) {
    var a, b := Least(directed, es, s.source, v), Least(directed, es, v, s.target);
    Has(directed, es, s.source, v) && Has(directed, es, v, s.target) && a.Finite? && b.Finite? &&
      s.cost == a.cost + b.cost
  }

  /** How far the search from `u` goes. */
  ghost function Reach(directed: bool, es: seq<CHEdge>, u: nat, v: nat, outs: set<nat>): nat {
    var e := First(directed, es, u, v);
    if e.Finite? then PMax(directed, es, e.cost, e.cost, u, v, outs) else 0
  }

  lemma {:induction false} ReachIsEnough(directed: bool, es: seq<CHEdge>, u: nat, v: nat, outs: set<nat>)
    requires First(directed, es, u, v).Finite?
    ensures First(directed, es, u, v).cost <= Reach(directed, es, u, v, outs)
    ensures forall w :: w in outs && u != w && First(directed, es, v, w).Finite? ==>
      First(directed, es, u, v).cost + First(directed, es, v, w).cost <= Reach(directed, es, u, v, outs)
    ensures Reach(directed, es, u, v, outs) > 0 <==> Pays(directed, es, u, v, outs)
  {
    var e := First(directed, es, u, v);
    PMaxIsDearest(directed, es, e.cost, e.cost, u, v, outs);
    hide First, PMax;
    forall w | w in outs && u != w && First(directed, es, v, w).Finite?
      ensures e.cost + First(directed, es, v, w).cost <= Reach(directed, es, u, v, outs)
    {
      assert WayOn(directed, es, e.cost, u, v, w, e.cost + First(directed, es, v, w).cost);
    }
  }

  /** The tree leads from `u` over `v` to `w`, and of parallel edges on this way the first is a cheapest one. */
  ghost predicate TreeLeads(directed: bool, es: seq<CHEdge>, tree: Tree, u: nat, v: nat, w: nat) {
    && tree.distance(w).Finite? && tree.predecessor(w) == v && tree.predecessor(v) == u
    && First(directed, es, u, v) == Least(directed, es, u, v) && First(directed, es, v, w) == Least(directed, es, v, w)
  }

  /** What the shortcuts from one vertex are worth. */
  ghost predicate RightFrom(directed: bool, es: seq<CHEdge>, oracle: Oracle, u: nat, v: nat, outs: set<nat>,
                            made: seq<CHEdge>) {
    && (forall s :: s in made ==>
          s.source == u && s.target in outs && Due(directed, es, v, s) && Built(directed, es, v, s))
    && (forall w :: w in outs && Needed(directed, es, u, v, w) && Pays(directed, es, u, v, outs) ==> MadeTo(made, w))
    && (forall w :: w in outs && Offered(directed, es, u, v, w) ==>
          (MadeTo(made, w) <==>
           Pays(directed, es, u, v, outs) &&
           TreeLeads(directed, es, oracle(es, u, Reach(directed, es, u, v, outs)), u, v, w)))
    && Fresh(directed, es, made)
  }

  ghost predicate MadeTo(made: seq<CHEdge>, w: nat) {
    exists s :: s in made && s.target == w
  }

  lemma {:induction false} ForIsFrom(directed: bool, es: seq<CHEdge>, oracle: Oracle, u: nat, v: nat, outs: set<nat>)
    ensures var p := Reach(directed, es, u, v, outs);
      For(directed, es, oracle, u, v, outs) == if p > 0 then From(directed, es, oracle(es, u, p), u, v, outs) else []
  {
    hide From, PMax, First;
  }

  /** Why one of them is there. */
  lemma MadeIsDue(directed: bool, es: seq<CHEdge>, tree: Tree, u: nat, v: nat, w: nat, outs: set<nat>, s: CHEdge)
    requires RightTree(ArcsOf(directed, es), u, Reach(directed, es, u, v, outs), tree)
    requires w in outs && One(directed, es, tree, u, v, w) == [s]
    ensures s.source == u && s.target == w && Due(directed, es, v, s) && Built(directed, es, v, s)
    ensures Wanted(directed, es, tree, u, v, w)
  {
    hide RightTree, Wanted, Reach, First, Least, Has, IsDist, ArcsOf, One;
    OneIs(directed, es, tree, u, v, w);
    ReachIsEnough(directed, es, u, v, outs);
    WantedIsDue(directed, es, Reach(directed, es, u, v, outs), tree, u, v, w);
  }

  lemma WantedIsMade(directed: bool, es: seq<CHEdge>, tree: Tree, u: nat, v: nat, w: nat, outs: set<nat>,
                     made: seq<CHEdge>)
    requires w in outs && Wanted(directed, es, tree, u, v, w)
    requires forall s :: s in made <==> exists x :: x in outs && One(directed, es, tree, u, v, x) == [s]
    ensures MadeTo(made, w)
  {
    hide Wanted, One;
    OneIs(directed, es, tree, u, v, w);
    var s := One(directed, es, tree, u, v, w)[0];
    assert One(directed, es, tree, u, v, w) == [s];
    assert s in made;
  }

  lemma ForIsRight(directed: bool, es: seq<CHEdge>, oracle: Oracle, u: nat, v: nat, outs: set<nat>)
    requires RightOracle(directed, oracle)
    ensures RightFrom(directed, es, oracle, u, v, outs, For(directed, es, oracle, u, v, outs))
  {
    var p := Reach(directed, es, u, v, outs);
    var tree, made := oracle(es, u, p), For(directed, es, oracle, u, v, outs);
    assert RightTree(ArcsOf(directed, es), u, p, tree);
    hide *;
    ForIsFrom(directed, es, oracle, u, v, outs);
    if First(directed, es, u, v).Finite? && p > 0 {
      FromIsRight(directed, es, oracle, u, v, outs, p, tree, made);
    } else {
      NoneIsRight(directed, es, oracle, u, v, outs);
    }
  }

  lemma {:induction false} NoneIsRight(directed: bool, es: seq<CHEdge>, oracle: Oracle, u: nat, v: nat, outs: set<nat>)
    requires !(First(directed, es, u, v).Finite? && Reach(directed, es, u, v, outs) > 0)
    ensures RightFrom(directed, es, oracle, u, v, outs, []) && Reach(directed, es, u, v, outs) == 0
  {
    if First(directed, es, u, v).Finite? {
      ReachIsEnough(directed, es, u, v, outs);
    }
    hide First, PMax, Needed, Offered, TreeLeads;
  }

  lemma {:induction false} FromIsRight(directed: bool, es: seq<CHEdge>, oracle: Oracle, u: nat, v: nat, outs: set<nat>,
                                       p: nat, tree: Tree, made: seq<CHEdge>)
    requires p == Reach(directed, es, u, v, outs) > 0 && tree == oracle(es, u, p)
    requires RightTree(ArcsOf(directed, es), u, p, tree) && made == From(directed, es, tree, u, v, outs)
    requires First(directed, es, u, v).Finite?
    ensures RightFrom(directed, es, oracle, u, v, outs, made)
  {
    hide RightTree, Wanted, Reach, First, Least, Has, IsDist, ArcsOf, One, From, Pays, Needed, Offered, Due, Built,
         TreeLeads, Fresh, MadeTo;
    FromIs(directed, es, tree, u, v, outs);
    ReachIsEnough(directed, es, u, v, outs);
    forall s | s in made
      ensures s.source == u && s.target in outs && Due(directed, es, v, s) && Built(directed, es, v, s)
    {
      var w :| w in outs && One(directed, es, tree, u, v, w) == [s];
      MadeIsDue(directed, es, tree, u, v, w, outs, s);
    }
    forall w | w in outs && Needed(directed, es, u, v, w) ensures MadeTo(made, w) {
      NeededWithin(directed, es, tree, u, v, w, outs);
      WantedIsMade(directed, es, tree, u, v, w, outs, made);
    }
    forall w | w in outs && Offered(directed, es, u, v, w)
      ensures MadeTo(made, w) <==> TreeLeads(directed, es, tree, u, v, w)
    {
      OfferedExactly(directed, es, tree, u, v, w, outs);
      if Wanted(directed, es, tree, u, v, w) {
        WantedIsMade(directed, es, tree, u, v, w, outs, made);
      } else {
        UnwantedIsNotMade(directed, es, tree, u, v, w, outs, made);
      }
    }
  }

  lemma NeededWithin(directed: bool, es: seq<CHEdge>, tree: Tree, u: nat, v: nat, w: nat, outs: set<nat>)
    requires RightTree(ArcsOf(directed, es), u, Reach(directed, es, u, v, outs), tree)
    requires w in outs && Needed(directed, es, u, v, w)
    ensures Wanted(directed, es, tree, u, v, w)
  {
    hide RightTree, Wanted, Reach, First, Least, Has, OnlyWay, ArcsOf, IsShortcutPossible;
    FirstFinite(directed, es, u, v, w);
    ReachIsEnough(directed, es, u, v, outs);
    NeededIsWanted(directed, es, Reach(directed, es, u, v, outs), tree, u, v, w);
  }

  lemma OfferedExactly(directed: bool, es: seq<CHEdge>, tree: Tree, u: nat, v: nat, w: nat, outs: set<nat>)
    requires RightTree(ArcsOf(directed, es), u, Reach(directed, es, u, v, outs), tree)
    requires Offered(directed, es, u, v, w)
    ensures Wanted(directed, es, tree, u, v, w) <==> TreeLeads(directed, es, tree, u, v, w)
  {
    hide RightTree, Wanted, Reach, First, Least, Offered, ArcsOf;
    FirstFinite(directed, es, u, v, w);
    ReachIsEnough(directed, es, u, v, outs);
    WantedExactly(directed, es, Reach(directed, es, u, v, outs), tree, u, v, w);
  }

  lemma UnwantedIsNotMade(directed: bool, es: seq<CHEdge>, tree: Tree, u: nat, v: nat, w: nat, outs: set<nat>,
                          made: seq<CHEdge>)
    requires !Wanted(directed, es, tree, u, v, w)
    requires forall s :: s in made <==> exists x :: x in outs && One(directed, es, tree, u, v, x) == [s]
    ensures !MadeTo(made, w)
  {
    hide Wanted, One;
    if s :| s in made && s.target == w {
      var x :| x in outs && One(directed, es, tree, u, v, x) == [s];
      OneIs(directed, es, tree, u, v, x);
      assert false;
    }
  }

  // ---------- all shortcuts past a vertex ----------

  ghost predicate IsOver(v: nat, a: Edge, c: Edge, d: Edge) {
    c.source == a.source && c.target == v && d.source == v && d.target == a.target && c.cost + d.cost == a.cost
  }

  /** Two arcs of `base` lead over `v` where the arc leads, for the same cost. */
  ghost predicate Over(base: set<Edge>, v: nat, a: Edge) {
    exists c, d :: c in base && d in base && IsOver(v, a, c, d)
  }

  ghost predicate OldOrOver(base: set<Edge>, v: nat, arcs: set<Edge>) {
    forall a :: a in arcs ==> a in base || Over(base, v, a)
  }

  /** Each arc that is not old taken apart. */
  lemma {:induction false} TakeApart(base: set<Edge>, v: nat, arcs: set<Edge>, x: nat, p: seq<Edge>, y: nat)
    returns (q: seq<Edge>)
    requires OldOrOver(base, v, arcs) && IsWalk(arcs, x, p, y)
    ensures IsWalk(base, x, q, y) && Cost(q) == Cost(p) && |q| >= |p| && (|q| == |p| ==> q == p)
    decreases p
  {
    if p == [] {
      q := [];
    } else {
      var rest := TakeApart(base, v, arcs, p[0].target, p[1..], y);
      if p[0] in base {
        q := [p[0]] + rest;
        assert q[1..] == rest && p == [p[0]] + p[1..];
      } else {
        var c, d :| c in base && d in base && IsOver(v, p[0], c, d);
        TwoArcs(base, c, d);
        WalkAppend(base, x, [c, d], p[0].target, rest, y);
        q := [c, d] + rest;
      }
    }
  }

  /** As long as no arc leads from `u` to `w`, the only way stays the only way. */
  lemma OnlyWayStays(base: set<Edge>, arcs: set<Edge>, u: nat, v: nat, w: nat, c: nat)
    requires OldOrOver(base, v, arcs) && OnlyWay(base, u, v, w, c) && u != w
    requires forall a :: a in arcs ==> !(a.source == u && a.target == w)
    ensures OnlyWay(arcs, u, v, w, c)
  {
    hide OldOrOver;
    forall p: seq<Edge> | IsWalk(arcs, u, p, w) ensures c < Cost(p) || (c == Cost(p) && |p| == 2 && p[0].target == v) {
      var q := TakeApart(base, v, arcs, u, p, w);
      if |p| == 1 {
        assert p[1..] == [] && IsWalk(arcs, p[0].target, [], w);
        assert false;
      }
    }
  }

  /** `made` avoids `v`, and stands for ways over it. */
  ghost predicate Extends(directed: bool, base: seq<CHEdge>, v: nat, made: seq<CHEdge>) {
    Avoids(made, v) && OldOrOver(ArcsOf(directed, base), v, ArcsOf(directed, base + made))
  }

  lemma ExtendsDistances(directed: bool, base: seq<CHEdge>, v: nat, made: seq<CHEdge>)
    requires Extends(directed, base, v, made)
    ensures SameDistances(ArcsOf(directed, base), ArcsOf(directed, base + made), {})
  {
    var arcs, arcs' := ArcsOf(directed, base), ArcsOf(directed, base + made);
    OwnGround(arcs);
    forall a | a in arcs ensures a in arcs' {
      ArcsFromEdges(directed, base, a);
      ArcsFromEdges(directed, base + made, a);
    }
    hide ArcsOf;
    forall a | a in arcs' ensures Real(arcs, a) {
      if a !in arcs {
        var c, d :| c in arcs && d in arcs && IsOver(v, a, c, d);
        TwoArcs(arcs, c, d);
      }
    }
    GroundedDistances(arcs, arcs');
  }

  /** A shortcut, in both directions if need be, stands for the cheapest edges over `v`. */
  lemma BuiltIsOver(directed: bool, base: seq<CHEdge>, v: nat, s: CHEdge)
    requires Built(directed, base, v, s)
    ensures Over(ArcsOf(directed, base), v, Plain(s)) && (!directed ==> Over(ArcsOf(directed, base), v, Flip(Plain(s))))
  {
    hide Has, Least, First, ArcsOf;
    var arcs := ArcsOf(directed, base);
    EdgesAsArcs(directed, base, s.source, v);
    EdgesAsArcs(directed, base, v, s.target);
    var c :| c in arcs && c.source == s.source && c.target == v && c.cost == Least(directed, base, s.source, v).cost;
    var d :| d in arcs && d.source == v && d.target == s.target && d.cost == Least(directed, base, v, s.target).cost;
    assert IsOver(v, Plain(s), c, d);
    if !directed {
      FlippedArcs(base, c);
      FlippedArcs(base, d);
      assert IsOver(v, Flip(Plain(s)), Flip(d), Flip(c));
    }
  }

  lemma ExtendsMore(directed: bool, base: seq<CHEdge>, v: nat, done: seq<CHEdge>, made: seq<CHEdge>)
    requires Extends(directed, base, v, done) && Avoids(made, v)
    requires forall s :: s in made ==> Built(directed, base, v, s)
    ensures Extends(directed, base, v, done + made)
  {
    hide Built, Over, Avoids;
    AvoidsMore(done, made, v);
    var all := base + (done + made);
    forall a | a in ArcsOf(directed, all) ensures a in ArcsOf(directed, base) || Over(ArcsOf(directed, base), v, a) {
      ArcsFromEdges(directed, all, a);
      var e :| e in all && (Plain(e) == a || (!directed && Flip(Plain(e)) == a));
      if e in made {
        BuiltIsOver(directed, base, v, e);
      } else {
        assert e in base + done;
        ArcsFromEdges(directed, base + done, a);
      }
    }
  }

  lemma HasAppend(directed: bool, a: seq<CHEdge>, b: seq<CHEdge>, x: nat, y: nat)
    ensures Has(directed, a + b, x, y) <==> Has(directed, a, x, y) || Has(directed, b, x, y)
  {
    assert forall e :: e in a + b <==> e in a || e in b;
  }

  lemma DueBefore(directed: bool, base: seq<CHEdge>, done: seq<CHEdge>, v: nat, s: CHEdge)
    requires Extends(directed, base, v, done)
    requires Due(directed, base + done, v, s) && Built(directed, base + done, v, s)
    ensures Due(directed, base, v, s) && Built(directed, base, v, s) && !Touches(s, v)
  {
    hide Has, First, Least, ArcsOf, IsDist, OldOrOver, Avoids, SameDistances;
    SameWaysOver(directed, base, done, s.source, v, s.target);
    HasAppend(directed, base, done, s.source, s.target);
    ExtendsDistances(directed, base, v, done);
    SameDistancesMeaning(ArcsOf(directed, base), ArcsOf(directed, base + done), {}, s.source, s.target, s.cost);
    FirstFinite(directed, base, s.source, v, s.target);
  }

  lemma NeededLater(directed: bool, base: seq<CHEdge>, done: seq<CHEdge>, u: nat, v: nat, w: nat, outs: set<nat>)
    requires Extends(directed, base, v, done) && Needed(directed, base, u, v, w) && Pays(directed, base, u, v, outs)
    ensures Pays(directed, base + done, u, v, outs)
    ensures Has(directed, done, u, w) || Needed(directed, base + done, u, v, w)
  {
    hide First, Least, ArcsOf, OnlyWay, OldOrOver, Avoids, Has, IsShortcutPossible;
    FirstFinite(directed, base, u, v, w);
    PaysStill(directed, base, done, u, v, outs);
    SameWaysOver(directed, base, done, u, v, w);
    HasAppend(directed, base, done, u, w);
    if !Has(directed, done, u, w) {
      HasArc(directed, base + done, u, w);
      var c := First(directed, base, u, v).cost + First(directed, base, v, w).cost;
      OnlyWayStays(ArcsOf(directed, base), ArcsOf(directed, base + done), u, v, w, c);
    }
  }

  lemma PaysStill(directed: bool, base: seq<CHEdge>, done: seq<CHEdge>, u: nat, v: nat, outs: set<nat>)
    requires Avoids(done, v)
    ensures Pays(directed, base + done, u, v, outs) <==> Pays(directed, base, u, v, outs)
  {
    hide First, Avoids;
    SameWaysOver(directed, base, done, u, v, u);
    forall w, d: nat, c: nat
      ensures WayOn(directed, base + done, c, u, v, w, d) <==> WayOn(directed, base, c, u, v, w, d)
    {
      SameWaysOver(directed, base, done, u, v, w);
    }
  }

  /** The shortcuts from `ins` past `v`, after some have been made already. */
  ghost predicate RightPast(directed: bool, base: seq<CHEdge>, done: seq<CHEdge>, ins: set<nat>, v: nat, outs: set<nat>,
                            made: seq<CHEdge>) {
    && (forall s :: s in made ==> s.source in ins && s.target in outs && Due(directed, base, v, s))
    && (forall u, w :: u in ins && w in outs && Needed(directed, base, u, v, w) && Pays(directed, base, u, v, outs) ==>
          Has(directed, done + made, u, w))
    && Fresh(directed, base + done, made)
  }

  lemma FirstOfPast(directed: bool, base: seq<CHEdge>, done: seq<CHEdge>, oracle: Oracle, u: nat, v: nat,
                    outs: set<nat>, made: seq<CHEdge>)
    requires Extends(directed, base, v, done) && RightFrom(directed, base + done, oracle, u, v, outs, made)
    ensures RightPast(directed, base, done, {u}, v, outs, made) && Extends(directed, base, v, done + made)
  {
    hide Due, Built, Needed, Pays, Extends, Offered, TreeLeads, Has, MadeTo, Fresh;
    forall s | s in made ensures Due(directed, base, v, s) && Built(directed, base, v, s) && !Touches(s, v) {
      DueBefore(directed, base, done, v, s);
    }
    ExtendsMore(directed, base, v, done, made);
    forall w | w in outs && Needed(directed, base, u, v, w) && Pays(directed, base, u, v, outs)
      ensures Has(directed, done + made, u, w)
    {
      NeededLater(directed, base, done, u, v, w, outs);
      HasAppend(directed, done, made, u, w);
      if !Has(directed, done, u, w) {
        MadeToHas(directed, made, u, w);
      }
    }
  }

  /** What the shortcuts from `u` past `v` are worth, without the tree. */
  ghost predicate RightlyFrom(directed: bool, es: seq<CHEdge>, u: nat, v: nat, outs: set<nat>, made: seq<CHEdge>) {
    && (forall s :: s in made ==> s.source == u && s.target in outs && Due(directed, es, v, s))
    && (forall w :: w in outs && Needed(directed, es, u, v, w) && Pays(directed, es, u, v, outs) ==> MadeTo(made, w))
    && Fresh(directed, es, made)
  }

  lemma MadeToHas(directed: bool, made: seq<CHEdge>, u: nat, w: nat)
    requires MadeTo(made, w) && forall s :: s in made ==> s.source == u
    ensures Has(directed, made, u, w)
  {
    var s :| s in made && s.target == w;
    assert Leads(directed, s, u, w);
  }

  lemma RestOfPast(directed: bool, base: seq<CHEdge>, done: seq<CHEdge>, ins: set<nat>, u: nat, v: nat, outs: set<nat>,
                   made: seq<CHEdge>, rest: seq<CHEdge>)
    requires u in ins && RightPast(directed, base, done, {u}, v, outs, made)
    requires RightPast(directed, base, done + made, ins - {u}, v, outs, rest)
    ensures RightPast(directed, base, done, ins, v, outs, made + rest)
  {
    hide Due, Needed, Pays, Has, Fresh;
    assert base + (done + made) == base + done + made;
    FreshAppend(directed, base + done, made, rest);
    forall x, w | x in ins && w in outs && Needed(directed, base, x, v, w) && Pays(directed, base, x, v, outs)
      ensures Has(directed, done + (made + rest), x, w)
    {
      assert done + (made + rest) == done + made + rest;
      HasAppend(directed, done + made, rest, x, w);
      assert x in {u} || x in ins - {u};
    }
    forall s | s in made + rest ensures s.source in ins && s.target in outs && Due(directed, base, v, s) {
      assert s in made || s in rest;
    }
  }

  lemma {:induction false} PastIsRight(directed: bool, base: seq<CHEdge>, done: seq<CHEdge>, oracle: Oracle,
                                       ins: set<nat>, v: nat, outs: set<nat>)
    requires RightOracle(directed, oracle) && Extends(directed, base, v, done)
    ensures RightPast(directed, base, done, ins, v, outs, Past(directed, base + done, oracle, ins, v, outs))
    decreases ins
  {
    hide RightOracle, Extends, Due, Needed, Pays, Has, Fresh, For, RightFrom, Lowest;
    if ins == {} {
      assert Past(directed, base + done, oracle, ins, v, outs) == [];
      FreshOne(directed, base + done, []);
    } else {
      hide RightPast;
      var u := Lowest(ins);
      var made := For(directed, base + done, oracle, u, v, outs);
      ForIsRight(directed, base + done, oracle, u, v, outs);
      FirstOfPast(directed, base, done, oracle, u, v, outs, made);
      assert base + done + made == base + (done + made);
      PastIsRight(directed, base, done + made, oracle, ins - {u}, v, outs);
      RestOfPast(directed, base, done, ins, u, v, outs, made,
                 Past(directed, base + (done + made), oracle, ins - {u}, v, outs));
    }
  }

  /** What the shortcuts made past `v` are worth: each may be made and costs what the shortest way between its ends
      costs, none joins vertices that are joined already, and where the way over `v` by the first edges is the only
      shortest one there is a shortcut, unless all ways on from there are free. */
  ghost predicate RightlyMade(directed: bool, es: seq<CHEdge>, v: nat, made: seq<CHEdge>) {
    && (forall s :: s in made ==> Due(directed, es, v, s))
    && (forall u, w :: Needed(directed, es, u, v, w) && Pays(directed, es, u, v, Outs(directed, es, v)) ==>
          Has(directed, made, u, w))
    && Fresh(directed, es, made)
  }

  lemma AllPastIsRight(directed: bool, es: seq<CHEdge>, oracle: Oracle, v: nat)
    requires RightOracle(directed, oracle)
    ensures RightlyMade(directed, es, v, AllPast(directed, es, oracle, v))
  {
    hide RightOracle, Due, Pays, Fresh, Past, Has, First, OnlyWay, ArcsOf, IsShortcutPossible, Over;
    assert es + [] == es;
    PastIsRight(directed, es, [], oracle, Ins(directed, es, v), v, Outs(directed, es, v));
    InsAndOuts(directed, es, v);
    var made := AllPast(directed, es, oracle, v);
    assert [] + made == made;
    hide Ins, Outs;
  }

  // ---------- the same for edges with their ids ----------

  function Stripped(a: Edge): Edge {
    Edge(0, a.source, a.target, a.cost)
  }

  lemma BareArcs(directed: bool, es: seq<CHEdge>)
    ensures forall a :: a in ArcsOf(directed, es) ==> Stripped(a) in ArcsOf(directed, BareAll(es))
    ensures forall b :: b in ArcsOf(directed, BareAll(es)) ==> exists a :: a in ArcsOf(directed, es) && Stripped(a) == b
  {
    forall a | a in ArcsOf(directed, es) ensures Stripped(a) in ArcsOf(directed, BareAll(es)) {
      ArcsFromEdges(directed, es, a);
      var e :| e in es && (Plain(e) == a || (!directed && Flip(Plain(e)) == a));
      BareMember(es, e);
      ArcsFromEdges(directed, BareAll(es), Stripped(a));
    }
    forall b | b in ArcsOf(directed, BareAll(es)) ensures exists a :: a in ArcsOf(directed, es) && Stripped(a) == b {
      ArcsFromEdges(directed, BareAll(es), b);
      var f :| f in BareAll(es) && (Plain(f) == b || (!directed && Flip(Plain(f)) == b));
      var i :| 0 <= i < |es| && BareAll(es)[i] == f;
      var a := if Plain(f) == b then Plain(es[i]) else Flip(Plain(es[i]));
      assert es[i] in es;
      ArcsFromEdges(directed, es, a);
      assert Stripped(a) == b;
    }
  }

  lemma BareMember(es: seq<CHEdge>, e: CHEdge)
    requires e in es
    ensures Bare(e) in BareAll(es)
  {
    var i :| 0 <= i < |es| && es[i] == e;
    assert BareAll(es)[i] == Bare(e);
  }

  /** Walks of the same length, the same cost and the same first stop. */
  ghost predicate Alike(p: seq<Edge>, q: seq<Edge>) {
    |p| == |q| && Cost(p) == Cost(q) && (p != [] ==> p[0].target == q[0].target)
  }

  lemma {:induction false} StripWalk(directed: bool, es: seq<CHEdge>, x: nat, p: seq<Edge>, y: nat)
    returns (q: seq<Edge>)
    requires IsWalk(ArcsOf(directed, es), x, p, y)
    ensures IsWalk(ArcsOf(directed, BareAll(es)), x, q, y) && Alike(p, q)
    decreases p
  {
    BareArcs(directed, es);
    if p == [] {
      q := [];
    } else {
      var rest := StripWalk(directed, es, p[0].target, p[1..], y);
      q := [Stripped(p[0])] + rest;
      assert q[1..] == rest;
    }
  }

  lemma {:induction false} DressWalk(directed: bool, es: seq<CHEdge>, x: nat, p: seq<Edge>, y: nat)
    returns (q: seq<Edge>)
    requires IsWalk(ArcsOf(directed, BareAll(es)), x, p, y)
    ensures IsWalk(ArcsOf(directed, es), x, q, y) && Alike(p, q)
    decreases p
  {
    BareArcs(directed, es);
    if p == [] {
      q := [];
    } else {
      var rest := DressWalk(directed, es, p[0].target, p[1..], y);
      var a :| a in ArcsOf(directed, es) && Stripped(a) == p[0];
      q := [a] + rest;
      assert q[1..] == rest;
    }
  }

  lemma BareDist(directed: bool, es: seq<CHEdge>, x: nat, y: nat, d: nat)
    requires IsDist(ArcsOf(directed, BareAll(es)), x, y, d)
    ensures IsDist(ArcsOf(directed, es), x, y, d)
  {
    hide IsWalk, ArcsOf, BareAll;
    var p :| IsWalk(ArcsOf(directed, BareAll(es)), x, p, y) && Cost(p) == d;
    var q := DressWalk(directed, es, x, p, y);
    forall r | IsWalk(ArcsOf(directed, es), x, r, y) ensures d <= Cost(r) {
      var r' := StripWalk(directed, es, x, r, y);
    }
  }

  lemma BareOnlyWay(directed: bool, es: seq<CHEdge>, u: nat, v: nat, w: nat, c: nat)
    requires OnlyWay(ArcsOf(directed, es), u, v, w, c)
    ensures OnlyWay(ArcsOf(directed, BareAll(es)), u, v, w, c)
  {
    hide IsWalk, ArcsOf, BareAll;
    forall p: seq<Edge> | IsWalk(ArcsOf(directed, BareAll(es)), u, p, w)
      ensures c < Cost(p) || (c == Cost(p) && |p| == 2 && p[0].target == v)
    {
      var q := DressWalk(directed, es, u, p, w);
    }
  }

  lemma {:induction false} BareOffered(directed: bool, es: seq<CHEdge>, u: nat, v: nat, w: nat)
    ensures Offered(directed, BareAll(es), u, v, w) <==> Offered(directed, es, u, v, w)
    ensures First(directed, BareAll(es), u, v) == First(directed, es, u, v)
    ensures First(directed, BareAll(es), v, w) == First(directed, es, v, w)
    ensures Least(directed, BareAll(es), u, v) == Least(directed, es, u, v)
    ensures Least(directed, BareAll(es), v, w) == Least(directed, es, v, w)
  {
    hide Has, First, Least, BareAll;
    BareSame(directed, es, u, v);
    BareSame(directed, es, v, u);
    BareSame(directed, es, v, w);
    BareSame(directed, es, w, v);
    BareSame(directed, es, u, w);
  }

  lemma BareNeeded(directed: bool, es: seq<CHEdge>, u: nat, v: nat, w: nat)
    requires Needed(directed, es, u, v, w)
    ensures Needed(directed, BareAll(es), u, v, w)
  {
    hide First, Least, BareAll, OnlyWay, ArcsOf, Offered;
    BareOffered(directed, es, u, v, w);
    BareOnlyWay(directed, es, u, v, w, First(directed, es, u, v).cost + First(directed, es, v, w).cost);
  }

  lemma BareDue(directed: bool, es: seq<CHEdge>, v: nat, s: CHEdge)
    requires Due(directed, BareAll(es), v, Bare(s))
    ensures Due(directed, es, v, s)
  {
    hide First, Least, BareAll, ArcsOf, Offered, IsDist;
    BareOffered(directed, es, s.source, v, s.target);
    BareDist(directed, es, s.source, s.target, s.cost);
  }

  lemma BarePays(directed: bool, es: seq<CHEdge>, u: nat, v: nat, outs: set<nat>)
    ensures Pays(directed, BareAll(es), u, v, outs) <==> Pays(directed, es, u, v, outs)
  {
    hide First, Least, BareAll, Has;
    BareSame(directed, es, u, v);
    forall w, d: nat, c: nat
      ensures WayOn(directed, BareAll(es), c, u, v, w, d) <==> WayOn(directed, es, c, u, v, w, d)
    {
      BareSame(directed, es, v, w);
    }
  }

  lemma BareFresh(directed: bool, es: seq<CHEdge>, made: seq<CHEdge>)
    requires Fresh(directed, BareAll(es), BareAll(made))
    ensures Fresh(directed, es, made)
  {
    hide Has;
    forall j | 0 <= j < |made| ensures !Has(directed, es + made[..j], made[j].source, made[j].target) {
      assert BareAll(made)[..j] == BareAll(made[..j]) && BareAll(made)[j] == Bare(made[j]);
      BareAppend(es, made[..j]);
      BareSame(directed, es + made[..j], made[j].source, made[j].target);
    }
  }

  lemma BareRightlyMade(directed: bool, es: seq<CHEdge>, v: nat, made: seq<CHEdge>)
    requires RightlyMade(directed, BareAll(es), v, BareAll(made))
    ensures RightlyMade(directed, es, v, made)
  {
    hide First, Least, BareAll, Has, Due, Needed, Pays, Fresh, Ins, Outs;
    BareNeighbours(directed, es, v);
    BareFresh(directed, es, made);
    forall s | s in made ensures Due(directed, es, v, s) {
      BareMember(made, s);
      BareDue(directed, es, v, s);
    }
    forall u, w | Needed(directed, es, u, v, w) && Pays(directed, es, u, v, Outs(directed, es, v))
      ensures Has(directed, made, u, w)
    {
      BareNeeded(directed, es, u, v, w);
      BarePays(directed, es, u, v, Outs(directed, es, v));
      BareSame(directed, made, u, w);
    }
  }

  lemma BareRightlyFrom(directed: bool, es: seq<CHEdge>, oracle: Oracle, u: nat, v: nat, outs: set<nat>,
                        made: seq<CHEdge>)
    requires RightFrom(directed, BareAll(es), oracle, u, v, outs, BareAll(made))
    ensures RightlyFrom(directed, es, u, v, outs, made)
  {
    hide First, Least, Has, Due, Built, Needed, Pays, Fresh, Offered, TreeLeads, BareAll;
    BareFresh(directed, es, made);
    forall s | s in made ensures s.source == u && s.target in outs && Due(directed, es, v, s) {
      BareMember(made, s);
      BareDue(directed, es, v, s);
    }
    forall w | w in outs && Needed(directed, es, u, v, w) && Pays(directed, es, u, v, outs) ensures MadeTo(made, w) {
      BareNeeded(directed, es, u, v, w);
      BarePays(directed, es, u, v, outs);
      BareMadeTo(made, w);
    }
  }

  lemma BareMadeTo(made: seq<CHEdge>, w: nat)
    requires MadeTo(BareAll(made), w)
    ensures MadeTo(made, w)
  {
    var b :| b in BareAll(made) && b.target == w;
    var i :| 0 <= i < |made| && BareAll(made)[i] == b;
    assert made[i] in made;
  }

  // ---------- a needed shortcut that is not made ----------

  /** Two edges from 0 to 1, the dearer one first, and one on from 1 to 2. */
  const TWOLANES: seq<CHEdge> := [CHEdge(1, 0, 1, 2, {}), CHEdge(2, 0, 1, 1, {}), CHEdge(3, 1, 2, 1, {})]

  lemma LanesEdges()
    ensures First(true, TWOLANES, 0, 1) == Finite(2) && First(true, TWOLANES, 1, 2) == Finite(1)
    ensures forall x, y :: Has(true, TWOLANES, x, y) <==> (x == 0 && y == 1) || (x == 1 && y == 2)
    ensures IsDist(ArcsOf(true, TWOLANES), 0, 2, 2)
  {
    var a, b, c := TWOLANES[0], TWOLANES[1], TWOLANES[2];
    assert TWOLANES[1..] == [b, c] && [b, c][1..] == [c];
    assert First(true, [c], 1, 2) == Finite(1) && First(true, [b, c], 1, 2) == First(true, [c], 1, 2);
    assert a in TWOLANES && b in TWOLANES && c in TWOLANES;
    assert forall e :: e in TWOLANES <==> e == a || e == b || e == c;
    var arcs := ArcsOf(true, TWOLANES);
    assert arcs == {Plain(a), Plain(b), Plain(c)};
    TwoArcs(arcs, Plain(b), Plain(c));
    var cost := [Finite(0), Finite(1), Finite(2)];
    assert Fits(arcs, |cost|);
    forall p | IsWalk(arcs, 0, p, 2) ensures 2 <= Cost(p) {
      LabelsBelowWalks(arcs, cost, 0, p, 2);
    }
  }

  /** No shortcut is made past 1, whatever the search: the first edges cost 3, and the shortest way, over 1 too, 2. */
  lemma DearerFirst(made: seq<CHEdge>)
    requires RightlyMade(true, TWOLANES, 1, made)
    ensures made == [] && IsDist(ArcsOf(true, TWOLANES), 0, 2, 2)
  {
    hide First, Has, ArcsOf, IsDist, Needed, Pays, Fresh, IsShortcutPossible;
    LanesEdges();
    if made != [] {
      var s := made[0];
      assert Due(true, TWOLANES, 1, s);
      assert s.source == 0 && s.target == 2;
      SameDist(ArcsOf(true, TWOLANES), 0, 2, 2, 3);
    }
  }

  lemma SameDist(arcs: set<Edge>, x: nat, y: nat, c: nat, d: nat)
    ensures IsDist(arcs, x, y, c) && IsDist(arcs, x, y, d) ==> c == d
  {
    if IsDist(arcs, x, y, c) && IsDist(arcs, x, y, d) {
      DistUnique(arcs, x, y, c, d);
    }
  }
}
