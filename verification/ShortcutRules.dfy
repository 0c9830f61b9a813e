/** include/contraction/contractionHierarchies.hpp: which shortcuts past a vertex are made, as a function of edges,
    start and search. */
module ShortcutRules {
  import opened Graphs
  import opened Labels
  import opened Bypass
  import opened ContractionGraph

  // ---------- what the decisions depend on ----------

  /** An edge without its id and without what was contracted into it. */
  function Bare(e: CHEdge): CHEdge {
    CHEdge(0, e.source, e.target, e.cost, {})
  }

  function BareAll(es: seq<CHEdge>): seq<CHEdge> {
    seq(|es|, i requires 0 <= i < |es| => Bare(es[i]))
  }

  /** What a search from one vertex up to a distance leaves behind. */
  datatype Tree = Tree(predecessor: nat -> nat, distance: nat -> Label)

  /** The search, as a function of the edges, the start and the distance to stop at. */
  type Oracle = (seq<CHEdge>, nat, nat) -> Tree

  /** `boost::edge`: the first edge that leads from `u` to `v`. */
  function First(directed: bool, es: seq<CHEdge>, u: nat, v: nat): Label {
    if es == [] then Infinity
    else if Leads(directed, es[0], u, v) then Finite(es[0].cost)
    else First(directed, es[1..], u, v)
  }

  /** The cost of the cheapest edge that leads from `u` to `v`. */
  function Least(directed: bool, es: seq<CHEdge>, u: nat, v: nat): Label {
    if es == [] then Infinity
    else
      var rest := Least(directed, es[1..], u, v);
      if Leads(directed, es[0], u, v) && (rest.Infinity? || es[0].cost < rest.cost) then Finite(es[0].cost) else rest
  }

  lemma BareTail(es: seq<CHEdge>)
    requires es != []
    ensures BareAll(es)[0] == Bare(es[0]) && BareAll(es)[1..] == BareAll(es[1..])
  {
  }

  lemma BareAppend(a: seq<CHEdge>, b: seq<CHEdge>)
    ensures BareAll(a + b) == BareAll(a) + BareAll(b)
  {
  }

  lemma {:induction false} BareCleared(es: seq<CHEdge>, v: nat)
    ensures BareAll(Cleared(es, v)) == Cleared(BareAll(es), v)
  {
    if es != [] {
      BareTail(es);
      BareCleared(es[1..], v);
      BareAppend(if Touches(es[0], v) then [] else [es[0]], Cleared(es[1..], v));
    }
  }

  lemma {:induction false} BareSame(directed: bool, es: seq<CHEdge>, u: nat, v: nat)
    ensures First(directed, BareAll(es), u, v) == First(directed, es, u, v)
    ensures Least(directed, BareAll(es), u, v) == Least(directed, es, u, v)
    ensures Has(directed, BareAll(es), u, v) <==> Has(directed, es, u, v)
  {
    if es != [] {
      BareTail(es);
      BareSame(directed, es[1..], u, v);
      HasTail(directed, es, u, v);
      HasTail(directed, BareAll(es), u, v);
    }
  }

  lemma HasTail(directed: bool, es: seq<CHEdge>, u: nat, v: nat)
    requires es != []
    ensures Has(directed, es, u, v) <==> Leads(directed, es[0], u, v) || Has(directed, es[1..], u, v)
  {
    assert forall e :: e in es <==> e == es[0] || e in es[1..];
    if Has(directed, es[1..], u, v) {
      var e :| e in es[1..] && Leads(directed, e, u, v);
      assert e in es;
    }
  }

  lemma {:induction false} FirstAndLeast(directed: bool, es: seq<CHEdge>, u: nat, v: nat)
    ensures First(directed, es, u, v).Finite? <==> Has(directed, es, u, v)
    ensures Least(directed, es, u, v).Finite? <==> Has(directed, es, u, v)
    ensures Has(directed, es, u, v) ==> CheapestCost(directed, es, u, v, Least(directed, es, u, v).cost)
  {
    if es != [] {
      var rest, l := es[1..], Least(directed, es, u, v);
      FirstAndLeast(directed, rest, u, v);
      HasTail(directed, es, u, v);
      assert forall e :: e in es <==> e == es[0] || e in rest;
      if Has(directed, es, u, v) {
        if l == Least(directed, rest, u, v) && Has(directed, rest, u, v) {
          var e :| e in rest && Leads(directed, e, u, v) && e.cost == l.cost;
          assert e in es;
        }
      }
    }
  }

  lemma {:induction false} LeastIsCheapest(directed: bool, es: seq<CHEdge>, u: nat, v: nat, c: nat)
    requires CheapestCost(directed, es, u, v, c)
    ensures Least(directed, es, u, v) == Finite(c)
  {
    var e :| e in es && Leads(directed, e, u, v) && e.cost == c;
    assert Has(directed, es, u, v);
    FirstAndLeast(directed, es, u, v);
  }

  // ---------- the shortcuts past a vertex, as a function ----------

  lemma BareNeighbours(directed: bool, es: seq<CHEdge>, v: nat)
    ensures Ins(directed, BareAll(es), v) == Ins(directed, es, v) &&
      Outs(directed, BareAll(es), v) == Outs(directed, es, v)
  {
    forall e | e in es ensures Bare(e) in BareAll(es) {
      var i :| 0 <= i < |es| && es[i] == e;
      assert BareAll(es)[i] == Bare(e);
    }
    forall b | b in BareAll(es) ensures exists e :: e in es && Bare(e) == b {
      var i :| 0 <= i < |es| && BareAll(es)[i] == b;
      assert es[i] in es;
    }
  }

  ghost function Lowest(s: set<nat>): (x: nat)
    requires s != {}
    ensures x in s && forall y :: y in s ==> x <= y
  {
    assert exists x :: x in s && forall y :: y in s ==> x <= y by {
      var x := Smallest(s);
    }
    var x :| x in s && forall y :: y in s ==> x <= y;
    x
  }

  /** `compute_pmax` for an edge from `u` to `v` of cost `c`: the dearest way on over `v`, but at least `p`. */
  ghost function PMax(directed: bool, es: seq<CHEdge>, c: nat, p: nat, u: nat, v: nat, outs: set<nat>): nat
    decreases outs
  {
    if outs == {} then p
    else
      var w := Lowest(outs);
      var f := First(directed, es, v, w);
      PMax(directed, es, c, if f.Finite? && u != w && c + f.cost > p then c + f.cost else p, u, v, outs - {w})
  }

  lemma LowestIs(s: set<nat>, x: nat)
    requires x in s && forall y :: y in s ==> x <= y
    ensures Lowest(s) == x
  {
  }

  /** What the way to `w` over `v` costs, if it goes on from an edge of cost `c` by the first edge. */
  ghost predicate WayOn(directed: bool, es: seq<CHEdge>, c: nat, u: nat, v: nat, w: nat, cost: nat) {
    var f := First(directed, es, v, w);
    u != w && f.Finite? && cost == c + f.cost
  }

  /** The least number that is not below `p` or any way on. */
  lemma {:induction false} PMaxIsDearest(directed: bool, es: seq<CHEdge>, c: nat, p: nat, u: nat, v: nat,
                                         outs: set<nat>)
    ensures var r := PMax(directed, es, c, p, u, v, outs);
      && p <= r && (forall w, d: nat :: w in outs && WayOn(directed, es, c, u, v, w, d) ==> d <= r)
      && (r == p || exists w :: w in outs && WayOn(directed, es, c, u, v, w, r))
    decreases outs
  {
    if outs != {} {
      var w := Lowest(outs);
      var f := First(directed, es, v, w);
      PMaxIsDearest(directed, es, c, if f.Finite? && u != w && c + f.cost > p then c + f.cost else p, u, v, outs - {w});
      assert forall x :: x in outs <==> x == w || x in outs - {w};
    }
  }

  /** Whether the search from `u` calls for a shortcut over `v` to `w`, and there can be one. */
  ghost predicate Wanted(directed: bool, es: seq<CHEdge>, tree: Tree, u: nat, v: nat, w: nat) {
    var e, f, g := First(directed, es, u, v), First(directed, es, v, w), First(directed, es, u, w);
    && u != w && e.Finite? && f.Finite?
    && (g.Infinity? || (tree.distance(w).Finite? && tree.distance(w).cost < g.cost))
    && tree.predecessor(w) == v && tree.predecessor(v) == u && tree.distance(w) == Finite(e.cost + f.cost)
    && IsShortcutPossible(directed, es, u, v, w) && g.Infinity?
  }

  /** The shortcut from `u` over `v` to `w`, if it is wanted. */
  ghost function One(directed: bool, es: seq<CHEdge>, tree: Tree, u: nat, v: nat, w: nat): seq<CHEdge> {
    var a, b := Least(directed, es, u, v), Least(directed, es, v, w);
    if Wanted(directed, es, tree, u, v, w) && a.Finite? && b.Finite? then [CHEdge(0, u, w, a.cost + b.cost, {})] else []
  }

  /** The shortcuts from `u` over `v`, made one after the other. */
  ghost function From(directed: bool, es: seq<CHEdge>, tree: Tree, u: nat, v: nat, outs: set<nat>): seq<CHEdge>
    decreases outs
  {
    if outs == {} then []
    else
      var w := Lowest(outs);
      var made := One(directed, es, tree, u, v, w);
      made + From(directed, es + made, tree, u, v, outs - {w})
  }

  /** The shortcuts that `compute_shortcuts` makes for `u`. */
  ghost function For(directed: bool, es: seq<CHEdge>, oracle: Oracle, u: nat, v: nat, outs: set<nat>): seq<CHEdge> {
    var e := First(directed, es, u, v);
    var p := if e.Finite? then PMax(directed, es, e.cost, e.cost, u, v, outs) else 0;
    if p > 0 then From(directed, es, oracle(es, u, p), u, v, outs) else []
  }

  /** All shortcuts past `v`. */
  ghost function Past(directed: bool, es: seq<CHEdge>, oracle: Oracle, ins: set<nat>, v: nat,
                      outs: set<nat>): seq<CHEdge>
    decreases ins
  {
    if ins == {} then []
    else
      var u := Lowest(ins);
      var made := For(directed, es, oracle, u, v, outs);
      made + Past(directed, es + made, oracle, ins - {u}, v, outs)
  }

  ghost function AllPast(directed: bool, es: seq<CHEdge>, oracle: Oracle, v: nat): seq<CHEdge> {
    Past(directed, es, oracle, Ins(directed, es, v), v, Outs(directed, es, v))
  }

  /** How many edges go and come: shortcuts made, less neighbours. */
  ghost function Metric(directed: bool, es: seq<CHEdge>, oracle: Oracle, v: nat): int {
    var ins, outs := Ins(directed, es, v), Outs(directed, es, v);
    |AllPast(directed, es, oracle, v)| - (if directed then |ins| + |outs| else |ins|)
  }

  // ---------- what the metric measures ----------

  ghost predicate NoLoopAt(es: seq<CHEdge>, v: nat) {
    forall e :: e in es && Touches(e, v) ==> e.source != e.target
  }

  /** No edge at `v` is followed by one that leads between the same vertices. */
  ghost predicate NoParallelAt(directed: bool, es: seq<CHEdge>, v: nat) {
    forall i, j :: 0 <= i < j < |es| && Touches(es[i], v) ==> !Leads(directed, es[j], es[i].source, es[i].target)
  }

  lemma NoParallelTail(directed: bool, es: seq<CHEdge>, v: nat)
    requires es != []
    ensures NoParallelAt(directed, es, v) <==>
      NoParallelAt(directed, es[1..], v) &&
      (Touches(es[0], v) ==> !Has(directed, es[1..], es[0].source, es[0].target))
  {
    var rest := es[1..];
    if NoParallelAt(directed, es, v) {
      forall i, j | 0 <= i < j < |rest| && Touches(rest[i], v)
        ensures !Leads(directed, rest[j], rest[i].source, rest[i].target)
      {
        assert rest[i] == es[i + 1] && rest[j] == es[j + 1];
      }
    }
    if NoParallelAt(directed, rest, v) && (Touches(es[0], v) ==> !Has(directed, rest, es[0].source, es[0].target)) {
      forall i, j | 0 <= i < j < |es| && Touches(es[i], v)
        ensures !Leads(directed, es[j], es[i].source, es[i].target)
      {
        assert es[j] == rest[j - 1];
        assert i > 0 ==> es[i] == rest[i - 1];
      }
    }
  }

  /** How many neighbours `v` has, those joined both ways twice if directed. */
  ghost function Degree(directed: bool, es: seq<CHEdge>, v: nat): nat {
    |Ins(directed, es, v)| + if directed then |Outs(directed, es, v)| else 0
  }

  lemma OneMore(s: set<nat>, t: set<nat>, x: nat)
    requires t == s + {x}
    ensures |t| == |s| + if x in s then 0 else 1
  {
    if x in s {
      assert t == s;
    }
  }

  lemma NeighboursTail(directed: bool, es: seq<CHEdge>, v: nat)
    requires es != []
    ensures var e, rest := es[0], es[1..];
      && Ins(directed, es, v) == Ins(directed, rest, v) +
           (if e.target == v then {e.source} else {}) + (if !directed && e.source == v then {e.target} else {})
      && Outs(directed, es, v) == Outs(directed, rest, v) +
           (if e.source == v then {e.target} else {}) + (if !directed && e.target == v then {e.source} else {})
  {
    assert forall e :: e in es <==> e == es[0] || e in es[1..];
  }

  lemma {:induction false} JoinedBefore(directed: bool, es: seq<CHEdge>, v: nat, e: CHEdge)
    ensures e.target == v ==> (Has(directed, es, e.source, v) <==> e.source in Ins(directed, es, v))
    ensures e.source == v ==>
      (Has(directed, es, v, e.target) <==> e.target in if directed then Outs(directed, es, v) else Ins(directed, es, v))
  {
    hide Ins, Outs, Has;
    InsAndOuts(directed, es, v);
  }

  lemma {:induction false} DegreeTail(directed: bool, es: seq<CHEdge>, v: nat)
    requires es != [] && (Touches(es[0], v) ==> es[0].source != es[0].target)
    ensures var e := es[0];
      Degree(directed, es, v) == Degree(directed, es[1..], v) +
        if Touches(e, v) && !Has(directed, es[1..], e.source, e.target) then 1 else 0
  {
    hide Ins, Outs, Has;
    var e, rest := es[0], es[1..];
    JoinedBefore(directed, rest, v, e);
    NeighboursTail(directed, es, v);
    if e.target == v {
      OneMore(Ins(directed, rest, v), Ins(directed, es, v), e.source);
    } else if e.source == v {
      if directed {
        OneMore(Outs(directed, rest, v), Outs(directed, es, v), e.target);
      } else {
        OneMore(Ins(directed, rest, v), Ins(directed, es, v), e.target);
      }
    }
  }

  /** A vertex without loops has at least as many edges as neighbours, and as many exactly without parallel ones. */
  lemma {:induction false} EdgesAt(directed: bool, es: seq<CHEdge>, v: nat)
    requires NoLoopAt(es, v)
    ensures |Cleared(es, v)| + Degree(directed, es, v) <= |es|
    ensures |Cleared(es, v)| + Degree(directed, es, v) == |es| <==> NoParallelAt(directed, es, v)
  {
    if es != [] {
      assert NoLoopAt(es[1..], v);
      EdgesAt(directed, es[1..], v);
      DegreeTail(directed, es, v);
      NoParallelTail(directed, es, v);
    }
  }

  lemma {:induction false} ClearedApart(es: seq<CHEdge>, made: seq<CHEdge>, v: nat)
    requires forall s :: s in made ==> !Touches(s, v)
    ensures Cleared(es + made, v) == Cleared(es, v) + made
  {
    if es != [] {
      assert (es + made)[1..] == es[1..] + made;
      ClearedApart(es[1..], made, v);
    } else {
      assert es + made == made;
      AllApart(made, v);
    }
  }

  lemma {:induction false} AllApart(made: seq<CHEdge>, v: nat)
    requires forall s :: s in made ==> !Touches(s, v)
    ensures Cleared(made, v) == made
  {
    if made != [] {
      AllApart(made[1..], v);
    }
  }

  lemma {:induction false} FromEnds(directed: bool, es: seq<CHEdge>, tree: Tree, u: nat, v: nat, outs: set<nat>)
    ensures forall s :: s in From(directed, es, tree, u, v, outs) ==> s.source == u && s.target in outs
    decreases outs
  {
    if outs != {} {
      var w := Lowest(outs);
      FromEnds(directed, es + One(directed, es, tree, u, v, w), tree, u, v, outs - {w});
    }
  }

  lemma {:induction false} PastEnds(directed: bool, es: seq<CHEdge>, oracle: Oracle, ins: set<nat>, v: nat,
                                    outs: set<nat>)
    ensures forall s :: s in Past(directed, es, oracle, ins, v, outs) ==> s.source in ins && s.target in outs
    decreases ins
  {
    if ins != {} {
      var u := Lowest(ins);
      var made := For(directed, es, oracle, u, v, outs);
      assert forall s :: s in made ==> s.source == u && s.target in outs by {
        forall tree { FromEnds(directed, es, tree, u, v, outs); }
      }
      PastEnds(directed, es + made, oracle, ins - {u}, v, outs);
    }
  }

  /** The metric is how many edges more there are after the contraction, exactly if no edges at the vertex are parallel;
      otherwise there are fewer. */
  lemma {:induction false} MetricIsGrowth(directed: bool, es: seq<CHEdge>, oracle: Oracle, v: nat)
    requires NoLoopAt(es, v)
    ensures var left := Cleared(es + AllPast(directed, es, oracle, v), v);
      && |left| <= |es| + Metric(directed, es, oracle, v)
      && (|left| == |es| + Metric(directed, es, oracle, v) <==> NoParallelAt(directed, es, v))
  {
    var ins, outs := Ins(directed, es, v), Outs(directed, es, v);
    PastEnds(directed, es, oracle, ins, v, outs);
    InsAndOuts(directed, es, v);
    ClearedApart(es, AllPast(directed, es, oracle, v), v);
    EdgesAt(directed, es, v);
  }

  // ---------- shortcuts are real ----------

  /** A walk in `base` leads where the arc leads, for the same cost. */
  ghost predicate Real(base: set<Edge>, a: Edge) {
    exists p :: IsWalk(base, a.source, p, a.target) && Cost(p) == a.cost
  }

  ghost predicate Grounded(base: set<Edge>, arcs: set<Edge>) {
    forall a :: a in arcs ==> Real(base, a)
  }

  lemma OwnGround(base: set<Edge>)
    ensures Grounded(base, base)
  {
    forall a | a in base ensures Real(base, a) {
      WalkSnoc(base, a.source, [], a);
      assert [] + [a] == [a];
    }
  }

  lemma TwoReals(base: set<Edge>, a: Edge, b: Edge, c: Edge)
    requires Real(base, a) && Real(base, b) && a.target == b.source
    requires c.source == a.source && c.target == b.target && c.cost == a.cost + b.cost
    ensures Real(base, c)
  {
    var p :| IsWalk(base, a.source, p, a.target) && Cost(p) == a.cost;
    var q :| IsWalk(base, b.source, q, b.target) && Cost(q) == b.cost;
    WalkAppend(base, a.source, p, a.target, q, b.target);
  }

  lemma FlippedArcs(es: seq<CHEdge>, a: Edge)
    requires a in ArcsOf(false, es)
    ensures Flip(a) in ArcsOf(false, es)
  {
    ArcsFromEdges(false, es, a);
    var e :| e in es && (Plain(e) == a || Flip(Plain(e)) == a);
    ArcsFromEdges(false, es, Flip(a));
    assert Flip(Flip(a)) == a;
  }

  /** A shortcut over a vertex is as real as the edges that it is made of. */
  lemma ShortcutIsReal(directed: bool, base: set<Edge>, es: seq<CHEdge>, v: nat, s: CHEdge)
    requires Grounded(base, ArcsOf(directed, es)) && ShortcutOver(directed, es, v, s)
    ensures Real(base, Plain(s)) && (!directed ==> Real(base, Flip(Plain(s))))
    ensures Grounded(base, ArcsOf(directed, es + [s]))
  {
    var c: nat, d: nat :| CheapestCost(directed, es, s.source, v, c) && CheapestCost(directed, es, v, s.target, d) &&
      s.cost == c + d;
    CheapestArc(directed, es, s.source, v, c);
    CheapestArc(directed, es, v, s.target, d);
    hide CheapestCost, Real;
    var a :| a in ArcsOf(directed, es) && a.source == s.source && a.target == v && a.cost == c;
    var b :| b in ArcsOf(directed, es) && b.source == v && b.target == s.target && b.cost == d;
    TwoReals(base, a, b, Plain(s));
    if !directed {
      FlippedArcs(es, a);
      FlippedArcs(es, b);
      TwoReals(base, Flip(b), Flip(a), Flip(Plain(s)));
    }
    forall x | x in ArcsOf(directed, es + [s]) ensures Real(base, x) {
      MoreArcs(directed, es, s, x);
    }
  }

  lemma MoreArcs(directed: bool, es: seq<CHEdge>, s: CHEdge, x: Edge)
    requires x in ArcsOf(directed, es + [s])
    ensures x in ArcsOf(directed, es) || x == Plain(s) || (!directed && x == Flip(Plain(s)))
  {
    ArcsFromEdges(directed, es + [s], x);
    var e :| e in es + [s] && (Plain(e) == x || (!directed && Flip(Plain(e)) == x));
    if e in es {
      ArcsFromEdges(directed, es, x);
    }
  }

  /** Arcs that stand for walks change no distance. */
  lemma GroundedDistances(base: set<Edge>, arcs: set<Edge>)
    requires base <= arcs && Grounded(base, arcs)
    ensures SameDistances(base, arcs, {})
  {
    forall x, y, p | IsWalk(base, x, p, y) ensures Matched(arcs, x, y, Cost(p)) {
      WalkMono(base, arcs, x, p, y);
    }
    forall x, y, p | IsWalk(arcs, x, p, y) ensures Matched(base, x, y, Cost(p)) {
      var q := Unfold(base, arcs, x, p, y);
    }
  }

  lemma {:induction false} Unfold(base: set<Edge>, arcs: set<Edge>, x: nat, p: seq<Edge>, y: nat) returns (q: seq<Edge>)
    requires Grounded(base, arcs) && IsWalk(arcs, x, p, y)
    ensures IsWalk(base, x, q, y) && Cost(q) == Cost(p)
    decreases p
  {
    if p == [] {
      q := [];
    } else {
      assert Real(base, p[0]);
      var first :| IsWalk(base, p[0].source, first, p[0].target) && Cost(first) == p[0].cost;
      var rest := Unfold(base, arcs, p[0].target, p[1..], y);
      WalkAppend(base, x, first, p[0].target, rest, y);
      q := first + rest;
    }
  }
}
