/** include/contraction/linearContraction.hpp: contracting vertices that lie between two others. */
module LinearContraction {
  import opened Graphs
  import opened Bypass
  import opened ContractionGraph

  ghost predicate Contractible(directed: bool, forbidden: set<nat>, es: seq<CHEdge>, v: nat) {
    Linear(directed, es, v) && v !in forbidden
  }

  // ---------- one contraction, on values ----------

  /** The shortcuts made when `v` between `u` and `w` is contracted. */
  ghost predicate Made(directed: bool, es: seq<CHEdge>, v: nat, u: nat, w: nat, names: set<int>, added: seq<CHEdge>) {
    if directed then
      && (forall s :: s in added ==> (s.source == u && s.target == w) || (s.source == w && s.target == u))
      && (forall s :: s in added ==> Priced(directed, es, v, names, s))
      && (HasUVW(directed, es, u, v, w) <==> exists s :: s in added && s.source == u && s.target == w)
      && (HasUVW(directed, es, w, v, u) <==> exists s :: s in added && s.source == w && s.target == u)
    else
      |added| == 1 && added[0].source == u && added[0].target == w && Priced(directed, es, v, names, added[0])
  }

  lemma NeighboursOnly(directed: bool, es: seq<CHEdge>, v: nat, x: nat)
    ensures Has(directed, es, x, v) || Has(directed, es, v, x) ==> x in Adjacent(es, v)
  {
  }

  lemma TurnedShortcut(es: seq<CHEdge>, v: nat, s: CHEdge)
    requires ShortcutOver(false, es, v, s)
    ensures ShortcutOver(false, es, v, Turned(s))
  {
    var c: nat, d: nat :| CheapestCost(false, es, s.source, v, c) && CheapestCost(false, es, v, s.target, d) &&
      s.cost == c + d;
    assert CheapestCost(false, es, v, s.source, c);
    assert CheapestCost(false, es, s.target, v, d);
  }

  /** The shortcuts made are enough for `v` to go. */
  lemma MadeIsEnough(directed: bool, es: seq<CHEdge>, v: nat, u: nat, w: nat, names: set<int>, added: seq<CHEdge>)
    requires LinearBetween(directed, es, v, u, w) && Made(directed, es, v, u, w, names, added)
    ensures Shortcuts(directed, es, v, added)
  {
    hide Adjacent, ShortcutOver, Has;
    assert u != v && w != v;
    if !directed {
      TurnedShortcut(es, v, added[0]);
    }
    forall x, y | x != y && x != v && y != v && Has(directed, es, x, v) && Has(directed, es, v, y)
      ensures Has(directed, added, x, y)
    {
      NeighboursOnly(directed, es, v, x);
      NeighboursOnly(directed, es, v, y);
      assert x in {u, w} && y in {u, w};
      MadeLeads(directed, es, v, u, w, names, added, x, y);
    }
  }

  lemma MadeLeads(directed: bool, es: seq<CHEdge>, v: nat, u: nat, w: nat, names: set<int>, added: seq<CHEdge>, x: nat,
                  y: nat)
    requires Made(directed, es, v, u, w, names, added) && HasUVW(directed, es, x, v, y)
    requires (x == u && y == w) || (x == w && y == u)
    ensures Has(directed, added, x, y)
  {
    if !directed {
      assert Leads(directed, added[0], x, y) && added[0] in added;
    }
  }

  lemma NeighbourOf(es: seq<CHEdge>, v: nat, e: CHEdge) returns (x: nat)
    requires e in es && Touches(e, v)
    ensures x in Adjacent(es, v)
    ensures if e.source == v then x == e.target else x == e.source && e.target == v
  {
    x := if e.source == v then e.target else e.source;
  }

  /** In an undirected graph the one shortcut takes in exactly what was held at `v`. */
  lemma OneShortcutTakesAll(es: seq<CHEdge>, v: nat, u: nat, w: nat, names: set<int>, added: seq<CHEdge>)
    requires LinearBetween(false, es, v, u, w) && Made(false, es, v, u, w, names, added)
    ensures added[0].contracted == names + NamesAt(es, v)
  {
    forall id ensures id in NamesBetween(false, es, u, v) + NamesBetween(false, es, v, w) <==> id in NamesAt(es, v) {
      if e :| e in es && Touches(e, v) && id in e.contracted {
        var x := NeighbourOf(es, v, e);
        assert Leads(false, e, u, v) || Leads(false, e, v, w);
      }
    }
  }

  lemma TakesInOwnNames(directed: bool, es: seq<CHEdge>, v: nat, u: nat, w: nat, names: set<int>, added: seq<CHEdge>)
    requires LinearBetween(directed, es, v, u, w) && Made(directed, es, v, u, w, names, added)
    ensures names <= EdgeNames(added)
  {
    hide Has, Adjacent, ShortcutOver, NamesBetween;
    assert added != [];
    var s := added[0];
    assert s in added && Priced(directed, es, v, names, s);
    forall id | id in names ensures id in EdgeNames(added) {
      assert id in s.contracted;
    }
  }

  lemma TakesInEdges(es: seq<CHEdge>, v: nat, u: nat, w: nat, names: set<int>, added: seq<CHEdge>, id: int)
    requires LinearBetween(true, es, v, u, w) && Made(true, es, v, u, w, names, added)
    requires id in NamesAt(es, v)
    ensures id in EdgeNames(added)
  {
    hide Adjacent, EdgeNames, Made;
    var e :| e in es && Touches(e, v) && id in e.contracted;
    var x := NeighbourOf(es, v, e);
    if e.source == v {
      TakesIn(es, v, u, w, names, added, e, id, if x == w then u else w, x);
    } else {
      TakesIn(es, v, u, w, names, added, e, id, x, if x == u then w else u);
    }
  }

  /** Between them the shortcuts take in everything that was held at `v`. */
  lemma MadeTakesAll(directed: bool, es: seq<CHEdge>, v: nat, u: nat, w: nat, names: set<int>, added: seq<CHEdge>)
    requires LinearBetween(directed, es, v, u, w) && Made(directed, es, v, u, w, names, added)
    ensures names + NamesAt(es, v) <= EdgeNames(added)
  {
    TakesInOwnNames(directed, es, v, u, w, names, added);
    hide LinearBetween, NamesAt;
    if !directed {
      OneShortcutTakesAll(es, v, u, w, names, added);
      assert added[0] in added;
      forall id | id in NamesAt(es, v) ensures id in EdgeNames(added) {
        assert id in added[0].contracted;
      }
    } else {
      hide Made, EdgeNames;
      forall id | id in NamesAt(es, v) ensures id in EdgeNames(added) {
        TakesInEdges(es, v, u, w, names, added, id);
      }
    }
  }

  /** In a directed graph, an edge on the way from `x` over `v` to `y` is part of the shortcut from `x` to `y`. */
  lemma TakesIn(es: seq<CHEdge>, v: nat, u: nat, w: nat, names: set<int>, added: seq<CHEdge>, e: CHEdge, id: int,
                x: nat, y: nat)
    requires LinearBetween(true, es, v, u, w) && Made(true, es, v, u, w, names, added)
    requires (x == u && y == w) || (x == w && y == u)
    requires e in es && id in e.contracted && (Leads(true, e, x, v) || Leads(true, e, v, y))
    ensures id in EdgeNames(added)
  {
    assert HasUVW(true, es, x, v, y);
    var s :| s in added && s.source == x && s.target == y;
    assert Priced(true, es, v, names, s);
    assert id in s.contracted;
  }

  /** A new edge between other vertices changes nothing about the ways over `v`. */
  lemma SamePrices(directed: bool, es: seq<CHEdge>, more: seq<CHEdge>, v: nat, names: set<int>)
    requires forall e :: e in more ==> !Touches(e, v)
    ensures forall s :: Priced(directed, es + more, v, names, s) <==> Priced(directed, es, v, names, s)
    ensures forall x :: Has(directed, es + more, x, v) <==> Has(directed, es, x, v)
    ensures forall x :: Has(directed, es + more, v, x) <==> Has(directed, es, v, x)
  {
    var all := es + more;
    assert forall e :: e in all <==> e in es || e in more;
    forall c: nat, x: nat ensures CheapestCost(directed, all, x, v, c) <==> CheapestCost(directed, es, x, v, c) {}
    forall c: nat, x: nat ensures CheapestCost(directed, all, v, x, c) <==> CheapestCost(directed, es, v, x, c) {}
    forall x: nat ensures NamesBetween(directed, all, x, v) == NamesBetween(directed, es, x, v) {}
    forall x: nat ensures NamesBetween(directed, all, v, x) == NamesBetween(directed, es, v, x) {}
    hide CheapestCost, NamesBetween;
  }

  // ---------- the effect of one contraction ----------

  lemma {:induction false} OthersStay(directed: bool, es: seq<CHEdge>, added: seq<CHEdge>, v: nat, u: nat, w: nat,
                                      x: nat)
    requires Adjacent(es, v) == {u, w} && x !in {u, v, w}
    requires forall s :: s in added ==> s.source in {u, w} && s.target in {u, w}
    ensures Linear(directed, Cleared(es + added, v), x) <==> Linear(directed, es, x)
  {
    var es' := Cleared(es + added, v);
    ClearedMembers(es + added, v);
    forall e | Touches(e, x) ensures e in es <==> e in es' {
      if e in es && Touches(e, v) {
        var y := NeighbourOf(es, v, e);
        assert false;
      }
    }
    SameAtSameKind(directed, es, es', x);
  }

  lemma {:induction false} ClearedIsNotLinear(directed: bool, es: seq<CHEdge>, v: nat)
    ensures !Linear(directed, Cleared(es, v), v) && v !in Live(Cleared(es, v))
  {
    ClearedMembers(es, v);
    assert Adjacent(Cleared(es, v), v) == {};
  }

  lemma {:induction false} LiveShrinks(es: seq<CHEdge>, added: seq<CHEdge>, v: nat, u: nat, w: nat)
    requires Adjacent(es, v) == {u, w}
    requires forall s :: s in added ==> s.source in {u, w} && s.target in {u, w}
    ensures Live(Cleared(es + added, v)) < Live(es)
  {
    ClearedMembers(es + added, v);
    assert u in Adjacent(es, v) && w in Adjacent(es, v);
    assert u in Live(es) && w in Live(es) && v in Live(es);
    assert v !in Live(Cleared(es + added, v));
  }

  ghost function After(g: State, v: nat, added: seq<CHEdge>): State
    requires v < |g.contracted|
  {
    State(Cleared(g.edges + added, v), g.contracted[v := {}], g.gone + {v})
  }

  /** One linear vertex that is not forbidden is taken out after its shortcuts have been made. */
  ghost predicate Step(directed: bool, ids: seq<int>, forbidden: set<nat>, g: State, g': State) {
    |g.contracted| == |ids| && exists v, u, w, added :: StepAt(directed, ids, forbidden, g, v, u, w, added, g')
  }

  ghost predicate StepAt(directed: bool, ids: seq<int>, forbidden: set<nat>, g: State, v: nat, u: nat, w: nat,
                         added: seq<CHEdge>, g': State)
    requires |g.contracted| == |ids|
  {
    && v < |ids| && Contractible(directed, forbidden, g.edges, v) && LinearBetween(directed, g.edges, v, u, w)
    && Made(directed, g.edges, v, u, w, {ids[v]} + g.contracted[v], added) && g' == After(g, v, added)
  }

  ghost function Steps(directed: bool, ids: seq<int>, forbidden: set<nat>): (State, State) -> bool {
    (g, g') => Step(directed, ids, forbidden, g, g')
  }

  lemma StepTaken(directed: bool, ids: seq<int>, forbidden: set<nat>, g: State, v: nat, u: nat, w: nat,
                  added: seq<CHEdge>)
    requires |g.contracted| == |ids| && v < |ids| && Contractible(directed, forbidden, g.edges, v)
    requires LinearBetween(directed, g.edges, v, u, w)
    requires Made(directed, g.edges, v, u, w, {ids[v]} + g.contracted[v], added)
    ensures Stepwise(Steps(directed, ids, forbidden), g, After(g, v, added))
  {
    hide Contractible, LinearBetween, Made, After;
    assert StepAt(directed, ids, forbidden, g, v, u, w, added, After(g, v, added));
    StepwiseOne(Steps(directed, ids, forbidden), g, After(g, v, added));
  }

  lemma {:induction false} ContractDistances(directed: bool, es: seq<CHEdge>, v: nat, u: nat, w: nat, names: set<int>,
                                             added: seq<CHEdge>)
    requires LinearBetween(directed, es, v, u, w) && Made(directed, es, v, u, w, names, added)
    ensures SameDistances(ArcsOf(directed, es), ArcsOf(directed, Cleared(es + added, v)), {v})
  {
    MadeIsEnough(directed, es, v, u, w, names, added);
    ShortcutsBypass(directed, es, v, added);
    hide Made, Shortcuts, Bypasses, SameDistances, LinearBetween, ArcsOf, Cleared;
    BypassKeepsDistances(ArcsOf(directed, es), ArcsOf(directed, Cleared(es + added, v)), v);
  }

  lemma {:induction false} ClearedInside(n: nat, es: seq<CHEdge>, added: seq<CHEdge>, v: nat, u: nat, w: nat)
    requires Inside(n, es) && Adjacent(es, v) == {u, w}
    requires forall s :: s in added ==> s.source in {u, w} && s.target in {u, w} && s.source != s.target
    ensures Inside(n, Cleared(es + added, v))
    ensures NoLoops(es) ==> NoLoops(Cleared(es + added, v))
  {
    ClearedMembers(es + added, v);
    assert u in Adjacent(es, v) && w in Adjacent(es, v);
  }

  lemma ContractSane(n: nat, g: State, v: nat, u: nat, w: nat, added: seq<CHEdge>)
    requires Sane(n, g) && v < n && Adjacent(g.edges, v) == {u, w}
    requires forall s :: s in added ==> s.source in {u, w} && s.target in {u, w}
    requires forall s :: s in added ==> s.source != s.target
    ensures Sane(n, After(g, v, added)) && Live(After(g, v, added).edges) < Live(g.edges)
    ensures NoLoops(g.edges) ==> NoLoops(After(g, v, added).edges)
  {
    hide Adjacent, Cleared, Live, NoLoops, Inside;
    LiveShrinks(g.edges, added, v, u, w);
    ClearedIsNotLinear(true, g.edges + added, v);
    ClearedInside(n, g.edges, added, v, u, w);
    SaneWithout(n, g, v, After(g, v, added));
  }

  /** Taking out `v` after making its shortcuts is a contraction. */
  lemma ContractVertex(directed: bool, ids: seq<int>, forbidden: set<nat>, g: State, v: nat, u: nat, w: nat,
                       added: seq<CHEdge>)
    requires Sane(|ids|, g) && v < |ids| && LinearBetween(directed, g.edges, v, u, w) && v !in forbidden
    requires Made(directed, g.edges, v, u, w, {ids[v]} + g.contracted[v], added)
    ensures Contracted(directed, |ids|, forbidden, g, After(g, v, added))
    ensures Live(After(g, v, added).edges) < Live(g.edges)
  {
    var arcs, arcs' := ArcsOf(directed, g.edges), ArcsOf(directed, Cleared(g.edges + added, v));
    assert u != w;
    MadeEnds(directed, g.edges, v, u, w, {ids[v]} + g.contracted[v], added);
    ContractSane(|ids|, g, v, u, w, added);
    ContractDistances(directed, g.edges, v, u, w, {ids[v]} + g.contracted[v], added);
    hide Sane, Made, SameDistances, LinearBetween, ArcsOf, Cleared, Live, Adjacent;
    SameDistancesGrow(arcs, arcs', {v}, g.gone + {v});
  }

  /** It loses no id, and in an undirected graph no id is held twice after it either. */
  lemma ContractNames(directed: bool, ids: seq<int>, g: State, v: nat, u: nat, w: nat, added: seq<CHEdge>)
    requires Sane(|ids|, g) && v < |ids| && LinearBetween(directed, g.edges, v, u, w)
    requires Made(directed, g.edges, v, u, w, {ids[v]} + g.contracted[v], added)
    ensures NothingLost(ids, g) ==> NothingLost(ids, After(g, v, added))
    ensures !directed && NothingTwice(ids, g) ==> NothingTwice(ids, After(g, v, added))
  {
    var es, names := g.edges, {ids[v]} + g.contracted[v];
    PairIsInside(directed, es, |ids|, v, u, w);
    MadeEnds(directed, es, v, u, w, names, added);
    hide Complete, Apart, Cleared, NamesAt, EdgeNames;
    if NothingLost(ids, g) {
      MadeTakesAll(directed, es, v, u, w, names, added);
      hide Made, LinearBetween, Sane;
      assert forall s :: s in added ==> !Touches(s, v);
      AbsorbIntoEdges(ids, g.gone, g.contracted, es, v, added);
    }
    if !directed && NothingTwice(ids, g) {
      OneShortcutTakesAll(es, v, u, w, names, added);
      OnlyOneMade(es, v, u, w, names, added);
      NotGoneYet(|ids|, g, v, u, w, directed);
      hide Made, LinearBetween;
      AbsorbIntoOneEdge(ids, g.gone, g.contracted, es, v, added[0]);
    }
  }

  lemma OnlyOneMade(es: seq<CHEdge>, v: nat, u: nat, w: nat, names: set<int>, added: seq<CHEdge>)
    requires Made(false, es, v, u, w, names, added)
    ensures added == [added[0]]
  {
  }

  lemma NotGoneYet(n: nat, g: State, v: nat, u: nat, w: nat, directed: bool)
    requires Sane(n, g) && LinearBetween(directed, g.edges, v, u, w)
    ensures v !in g.gone
  {
    assert u in Adjacent(g.edges, v);
  }

  lemma MadeEnds(directed: bool, es: seq<CHEdge>, v: nat, u: nat, w: nat, names: set<int>, added: seq<CHEdge>)
    requires Made(directed, es, v, u, w, names, added)
    ensures forall s :: s in added ==> s.source in {u, w} && s.target in {u, w} && (u != w ==> s.source != s.target)
  {
  }

  // ---------- the worklist ----------

  /** Outside `skip`, the worklist holds exactly the contractible vertices. */
  ghost predicate ExactBut(directed: bool, forbidden: set<nat>, es: seq<CHEdge>, worklist: set<nat>, skip: set<nat>) {
    forall x: nat :: x !in skip ==> (x in worklist <==> Contractible(directed, forbidden, es, x))
  }

  /** Contracting `v` leaves only its neighbours unsettled. */
  lemma {:induction false} ContractExact(directed: bool, forbidden: set<nat>, es: seq<CHEdge>, added: seq<CHEdge>,
                                         v: nat, u: nat, w: nat, worklist: set<nat>, skip: set<nat>)
    requires Adjacent(es, v) == {u, w} && forall s :: s in added ==> s.source in {u, w} && s.target in {u, w}
    requires ExactBut(directed, forbidden, es, worklist, skip + {v})
    ensures ExactBut(directed, forbidden, Cleared(es + added, v), worklist - {v}, skip + {w} + {u})
  {
    ClearedIsNotLinear(directed, es + added, v);
    hide Linear, Cleared, Live, Adjacent;
    forall x | x !in skip + {w} + {u}
      ensures x in worklist - {v} <==> Contractible(directed, forbidden, Cleared(es + added, v), x)
    {
      if x != v {
        OthersStay(directed, es, added, v, u, w, x);
      }
    }
  }

  class Contractor {
    var linearVertices: set<nat>

    constructor ()
      ensures linearVertices == {}
    {
      linearVertices := {};
    }

    method IsContractible(g: Graph, v: nat) returns (b: bool)
      ensures b <==> Contractible(g.directed, g.forbidden, g.edges, v)
    {
      b := g.IsLinear(v);
      b := b && v !in g.forbidden;
    }

    method CalculateVertices(g: Graph)
      requires Inside(|g.ids|, g.edges)
      modifies this
      ensures ExactBut(g.directed, g.forbidden, g.edges, linearVertices, {})
    {
      hide Linear;
      linearVertices := {};
      for v := 0 to |g.ids|
        invariant forall x :: x in linearVertices <==> 0 <= x < v && Contractible(g.directed, g.forbidden, g.edges, x)
      {
        var b := IsContractible(g, v);
        if b {
          linearVertices := linearVertices + {v};
        }
      }
      forall x: nat | Linear(g.directed, g.edges, x) ensures x < |g.ids| {
        LinearIsInside(g.directed, g.edges, |g.ids|, x);
      }
    }

    /** Adds the shortcut from `a` over `v` to `b` if there are edges to go that way. */
    method ShortcutIfFound(g: Graph, a: nat, v: nat, b: nat) returns (found: bool, ghost added: seq<CHEdge>)
      requires v < |g.contracted| == |g.ids|
      modifies g`edges, g`minEdgeId
      ensures found <==> HasUVW(g.directed, old(g.edges), a, v, b)
      ensures g.edges == old(g.edges) + added
      ensures if found then |added| == 1 && added[0].source == a && added[0].target == b &&
                            Priced(g.directed, old(g.edges), v, {g.ids[v]} + g.contracted[v], added[0])
              else added == []
    {
      hide Priced, Has;
      found := Has(g.directed, g.edges, a, v) && Has(g.directed, g.edges, v, b);
      added := [];
      if found {
        var s := g.ProcessShortcut(a, v, b);
        added := [s];
      }
    }

    /** Adds the shortcuts past `v`. */
    method MakeShortcuts(g: Graph, v: nat, u: nat, w: nat) returns (ghost added: seq<CHEdge>)
      requires v < |g.contracted| == |g.ids| && LinearBetween(g.directed, g.edges, v, u, w)
      modifies g`edges, g`minEdgeId
      ensures g.edges == old(g.edges) + added
      ensures Made(g.directed, old(g.edges), v, u, w, {g.ids[v]} + g.contracted[v], added)
    {
      ghost var es, names := g.edges, {g.ids[v]} + g.contracted[v];
      hide Priced, Has, HasUVW, LinearBetween, Made;
      BothWays(g.directed, es, v, u, w);
      var found, found';
      if g.directed {
        found, added := ShortcutIfFound(g, u, v, w);
        ghost var first, more := added, [];
        found', more := ShortcutIfFound(g, w, v, u);
        MadeDirected(es, v, u, w, names, first, more);
        added := first + more;
        assert es + added == (es + first) + more;
      } else {
        found, added := ShortcutIfFound(g, u, v, w);
        MadeUndirected(es, v, u, w, names, added);
      }
    }

    /** Contracts `v`, then goes on with its neighbours as long as they are contractible.
        `skip` are neighbours of vertices further up whose place in the worklist is still to be settled. */
    method OneCycle(g: Graph, v: nat, ghost skip: set<nat>)
      requires Sane(|g.ids|, g.Now()) && v < |g.ids| && Contractible(g.directed, g.forbidden, g.edges, v)
      requires ExactBut(g.directed, g.forbidden, g.edges, linearVertices, skip + {v})
      modifies this, g`edges, g`contracted, g`minEdgeId, g`gone
      ensures v in g.gone && Contracted(g.directed, |g.ids|, g.forbidden, old(g.Now()), g.Now())
      ensures Stepwise(Steps(g.directed, g.ids, g.forbidden), old(g.Now()), g.Now())
      ensures old(NothingLost(g.ids, g.Now())) ==> NothingLost(g.ids, g.Now())
      ensures !g.directed && old(NothingTwice(g.ids, g.Now())) ==> NothingTwice(g.ids, g.Now())
      ensures ExactBut(g.directed, g.forbidden, g.edges, linearVertices, skip)
      ensures Live(g.edges) < old(Live(g.edges))
      decreases Live(g.edges), 0
    {
      hide Sane, Contracted, NothingLost, NothingTwice, ExactBut, Live, Linear, Made, LinearBetween, Adjacent, Cleared;
      hide Steps, Stepwise;
      ghost var before := g.Now();
      SaneShape(|g.ids|, before);
      TwoNeighbours(g.directed, g.edges, v);
      var adjacent := g.FindAdjacentVertices(v);
      var u := Front(adjacent);
      var rest := adjacent - {u};
      assert |rest| == 1;
      var w := Front(rest);
      PairOf(adjacent, u, w);
      assert LinearBetween(g.directed, g.edges, v, u, w);
      ghost var added := MakeShortcuts(g, v, u, w);
      ContractVertex(g.directed, g.ids, g.forbidden, before, v, u, w, added);
      ContractNames(g.directed, g.ids, before, v, u, w, added);
      StepTaken(g.directed, g.ids, g.forbidden, before, v, u, w, added);
      MadeEnds(g.directed, before.edges, v, u, w, {g.ids[v]} + g.contracted[v], added);
      ContractExact(g.directed, g.forbidden, before.edges, added, v, u, w, linearVertices, skip);
      g.contracted := g.contracted[v := {}];
      g.edges := Cleared(g.edges, v);
      g.gone := g.gone + {v};
      linearVertices := linearVertices - {v};
      ghost var after := g.Now();
      Settle(g, u, skip + {w}, before);
      ghost var later := g.Now();
      Settle(g, w, skip, before);
      StepwiseChain(Steps(g.directed, g.ids, g.forbidden), before, after, later);
      StepwiseChain(Steps(g.directed, g.ids, g.forbidden), before, later, g.Now());
    }

    /** Goes on with a neighbour, or takes it off the worklist. */
    method Settle(g: Graph, x: nat, ghost skip: set<nat>, ghost before: State)
      requires Contracted(g.directed, |g.ids|, g.forbidden, before, g.Now())
      requires ExactBut(g.directed, g.forbidden, g.edges, linearVertices, skip + {x})
      modifies this, g`edges, g`contracted, g`minEdgeId, g`gone
      ensures old(g.gone) <= g.gone && Contracted(g.directed, |g.ids|, g.forbidden, before, g.Now())
      ensures Stepwise(Steps(g.directed, g.ids, g.forbidden), old(g.Now()), g.Now())
      ensures old(NothingLost(g.ids, g.Now())) ==> NothingLost(g.ids, g.Now())
      ensures !g.directed && old(NothingTwice(g.ids, g.Now())) ==> NothingTwice(g.ids, g.Now())
      ensures ExactBut(g.directed, g.forbidden, g.edges, linearVertices, skip)
      ensures Live(g.edges) <= old(Live(g.edges))
      decreases Live(g.edges), 1
    {
      hide Sane, Contracted, NothingLost, NothingTwice, ExactBut, Live, Linear, Steps, Stepwise;
      ghost var now := g.Now();
      StepwiseOne(Steps(g.directed, g.ids, g.forbidden), now, now);
      var b := IsContractible(g, x);
      ContractedIsSane(g.directed, |g.ids|, g.forbidden, before, now);
      if b {
        SaneShape(|g.ids|, now);
        LinearIsInside(g.directed, g.edges, |g.ids|, x);
        OneCycle(g, x, skip);
        ContractedChain(g.directed, |g.ids|, g.forbidden, before, now, g.Now());
        ContractedIsSane(g.directed, |g.ids|, g.forbidden, now, g.Now());
      } else {
        SettledOff(g.directed, g.forbidden, g.edges, linearVertices, skip, x);
        linearVertices := linearVertices - {x};
      }
    }

    /** Contracts as long as there is something to contract. */
    method DoContraction(g: Graph, forbiddenVertices: set<nat>)
      requires Sane(|g.ids|, g.Now())
      modifies this, g
      ensures g.forbidden == forbiddenVertices
      ensures Contracted(g.directed, |g.ids|, forbiddenVertices, old(g.Now()), g.Now())
      ensures Stepwise(Steps(g.directed, g.ids, forbiddenVertices), old(g.Now()), g.Now())
      ensures old(NothingLost(g.ids, g.Now())) ==> NothingLost(g.ids, g.Now())
      ensures !g.directed && old(NothingTwice(g.ids, g.Now())) ==> NothingTwice(g.ids, g.Now())
      ensures forall x :: !Contractible(g.directed, forbiddenVertices, g.edges, x)
      ensures forall x :: x !in forbiddenVertices ==>
        !Stretch(Ins(g.directed, g.edges, x), Outs(g.directed, g.edges, x), x)
    {
      hide Contracted, NothingLost, NothingTwice, Live, Linear, Sane, ArcsOf, Inside, Steps, Stepwise;
      g.forbidden := forbiddenVertices;
      ghost var before := g.Now();
      SaneShape(|g.ids|, before);
      CalculateVertices(g);
      ContractedNothing(g.directed, |g.ids|, forbiddenVertices, before);
      StepwiseOne(Steps(g.directed, g.ids, forbiddenVertices), before, before);
      while linearVertices != {}
        invariant g.forbidden == forbiddenVertices
        invariant Contracted(g.directed, |g.ids|, forbiddenVertices, before, g.Now())
        invariant Stepwise(Steps(g.directed, g.ids, forbiddenVertices), before, g.Now())
        invariant ExactBut(g.directed, forbiddenVertices, g.edges, linearVertices, {})
        invariant old(NothingLost(g.ids, g.Now())) ==> NothingLost(g.ids, g.Now())
        invariant !g.directed && old(NothingTwice(g.ids, g.Now())) ==> NothingTwice(g.ids, g.Now())
        decreases Live(g.edges)
      {
        ghost var now := g.Now();
        ContractedIsSane(g.directed, |g.ids|, forbiddenVertices, before, now);
        SaneShape(|g.ids|, now);
        var v := Front(linearVertices);
        linearVertices := linearVertices - {v};
        LinearIsInside(g.directed, g.edges, |g.ids|, v);
        OneCycle(g, v, {});
        ContractedChain(g.directed, |g.ids|, forbiddenVertices, before, now, g.Now());
        StepwiseChain(Steps(g.directed, g.ids, forbiddenVertices), before, now, g.Now());
      }
      forall x | x !in forbiddenVertices
        ensures !Stretch(Ins(g.directed, g.edges, x), Outs(g.directed, g.edges, x), x)
      {
        LinearIsStretch(g.directed, g.edges, x);
        assert !Contractible(g.directed, forbiddenVertices, g.edges, x);
      }
    }
  }

  lemma SaneShape(n: nat, g: State)
    requires Sane(n, g)
    ensures |g.contracted| == n && Inside(n, g.edges)
  {
  }

  lemma SettledOff(directed: bool, forbidden: set<nat>, es: seq<CHEdge>, worklist: set<nat>, skip: set<nat>, x: nat)
    requires ExactBut(directed, forbidden, es, worklist, skip + {x}) && !Contractible(directed, forbidden, es, x)
    ensures ExactBut(directed, forbidden, es, worklist - {x}, skip)
  {
    hide Contractible;
  }

  lemma BothWays(directed: bool, es: seq<CHEdge>, v: nat, u: nat, w: nat)
    requires LinearBetween(directed, es, v, u, w)
    ensures !directed ==> Has(directed, es, u, v) && Has(directed, es, v, w)
  {
  }

  lemma MadeUndirected(es: seq<CHEdge>, v: nat, u: nat, w: nat, names: set<int>, added: seq<CHEdge>)
    requires |added| == 1 && added[0].source == u && added[0].target == w && Priced(false, es, v, names, added[0])
    ensures Made(false, es, v, u, w, names, added)
  {
  }

  lemma TwoNeighbours(directed: bool, es: seq<CHEdge>, v: nat)
    requires Linear(directed, es, v)
    ensures |Adjacent(es, v)| == 2
    ensures forall u, w :: u < w && Adjacent(es, v) == {u, w} ==> LinearBetween(directed, es, v, u, w)
  {
  }

  /** The second shortcut is made when the first is there already, which makes no difference. */
  lemma MadeDirected(es: seq<CHEdge>, v: nat, u: nat, w: nat, names: set<int>, first: seq<CHEdge>, more: seq<CHEdge>)
    requires LinearBetween(true, es, v, u, w) && |first| <= 1 && |more| <= 1
    requires HasUVW(true, es, u, v, w) <==> first != []
    requires HasUVW(true, es + first, w, v, u) <==> more != []
    requires first != [] ==> first[0].source == u && first[0].target == w && Priced(true, es, v, names, first[0])
    requires more != [] ==> more[0].source == w && more[0].target == u && Priced(true, es + first, v, names, more[0])
    ensures Made(true, es, v, u, w, names, first + more)
  {
    hide Priced, Has, Adjacent, Made, HasUVW;
    DifferentEnds(true, es, v, u, w);
    assert forall e :: e in first ==> !Touches(e, v) by {
      OneMember(first);
    }
    SamePrices(true, es, first, v, names);
    SameWays(es, first, w, v, u);
    OneMember(first);
    OneMember(more);
    MadeBoth(es, v, u, w, names, first, more);
  }

  lemma DifferentEnds(directed: bool, es: seq<CHEdge>, v: nat, u: nat, w: nat)
    requires LinearBetween(directed, es, v, u, w)
    ensures u != v && w != v && u != w
  {
  }

  lemma OneMember(es: seq<CHEdge>)
    requires |es| <= 1
    ensures forall e :: e in es <==> es != [] && e == es[0]
  {
  }

  lemma SameWays(es: seq<CHEdge>, more: seq<CHEdge>, x: nat, v: nat, y: nat)
    requires Has(true, es + more, x, v) <==> Has(true, es, x, v)
    requires Has(true, es + more, v, y) <==> Has(true, es, v, y)
    ensures HasUVW(true, es + more, x, v, y) <==> HasUVW(true, es, x, v, y)
  {
    hide Has;
  }

  lemma MadeBoth(es: seq<CHEdge>, v: nat, u: nat, w: nat, names: set<int>, first: seq<CHEdge>, more: seq<CHEdge>)
    requires u != w
    requires HasUVW(true, es, u, v, w) <==> first != []
    requires HasUVW(true, es, w, v, u) <==> more != []
    requires forall e :: e in first <==> first != [] && e == first[0]
    requires forall e :: e in more <==> more != [] && e == more[0]
    requires first != [] ==> first[0].source == u && first[0].target == w && Priced(true, es, v, names, first[0])
    requires more != [] ==> more[0].source == w && more[0].target == u && Priced(true, es, v, names, more[0])
    ensures Made(true, es, v, u, w, names, first + more)
  {
    hide Priced, HasUVW;
    var all := first + more;
    assert forall e :: e in all <==> e in first || e in more;
    assert first != [] ==> first[0] in all;
    assert more != [] ==> more[0] in all;
  }

  lemma LinearIsInside(directed: bool, es: seq<CHEdge>, n: nat, x: nat)
    requires Inside(n, es) && Linear(directed, es, x)
    ensures x < n
  {
    var u: nat, w: nat :| LinearBetween(directed, es, x, u, w);
    assert u in Adjacent(es, x);
  }

  lemma PairIsInside(directed: bool, es: seq<CHEdge>, n: nat, v: nat, u: nat, w: nat)
    requires Inside(n, es) && LinearBetween(directed, es, v, u, w)
    ensures u < n && w < n && u != v && w != v && u != w
  {
    assert u in Adjacent(es, v) && w in Adjacent(es, v);
  }
}
