/** include/contraction/deadEndContraction.hpp: contracting vertices that lead nowhere. */
module DeadEndContraction {
  import opened Graphs
  import opened Bypass
  import opened ContractionGraph

  ghost predicate Contractible(directed: bool, forbidden: set<nat>, es: seq<CHEdge>, v: nat) {
    DeadEnd(directed, es, v) && v !in forbidden
  }

  ghost predicate ExactBut(directed: bool, forbidden: set<nat>, es: seq<CHEdge>, worklist: set<nat>, skip: set<nat>) {
    forall x: nat :: x !in skip ==> (x in worklist <==> Contractible(directed, forbidden, es, x))
  }

  // ---------- one contraction, on values ----------

  lemma OnlyNeighbour(es: seq<CHEdge>, v: nat, u: nat, x: nat)
    requires |Adjacent(es, v)| == 1 && u in Adjacent(es, v) && x in Adjacent(es, v)
    ensures x == u
  {
    assert |Adjacent(es, v) - {u}| == 0;
    assert x !in Adjacent(es, v) - {u};
  }

  lemma NoWayOver(directed: bool, es: seq<CHEdge>, v: nat, x: nat, y: nat)
    requires DeadEnd(directed, es, v) && x != y
    ensures !(Has(directed, es, x, v) && Has(directed, es, v, y))
  {
    if Has(directed, es, x, v) && Has(directed, es, v, y) {
      var e :| e in es && Leads(directed, e, x, v);
      var f :| f in es && Leads(directed, f, v, y);
      assert x in Adjacent(es, v) && y in Adjacent(es, v);
      OnlyNeighbour(es, v, x, y);
      assert false;
    }
  }

  /** No way leads over a dead end from one vertex to another, so it may go without a shortcut. */
  lemma DeadEndNeedsNoShortcut(directed: bool, es: seq<CHEdge>, v: nat)
    requires DeadEnd(directed, es, v)
    ensures Shortcuts(directed, es, v, [])
  {
    forall x, y | x != y ensures !(Has(directed, es, x, v) && Has(directed, es, v, y)) {
      NoWayOver(directed, es, v, x, y);
    }
    hide DeadEnd, Has;
  }

  lemma {:induction false} OthersStay(directed: bool, es: seq<CHEdge>, v: nat, x: nat)
    requires x != v && x !in Adjacent(es, v)
    ensures DeadEnd(directed, Cleared(es, v), x) <==> DeadEnd(directed, es, x)
  {
    ClearedMembers(es, v);
    SameAtSameKind(directed, es, Cleared(es, v), x);
  }

  lemma {:induction false} ClearedIsNoDeadEnd(directed: bool, es: seq<CHEdge>, v: nat)
    ensures !DeadEnd(directed, Cleared(es, v), v) && v !in Live(Cleared(es, v))
  {
    ClearedMembers(es, v);
    assert Adjacent(Cleared(es, v), v) == {};
  }

  lemma {:induction false} ContractDistances(directed: bool, es: seq<CHEdge>, v: nat)
    requires DeadEnd(directed, es, v)
    ensures SameDistances(ArcsOf(directed, es), ArcsOf(directed, Cleared(es, v)), {v})
  {
    DeadEndNeedsNoShortcut(directed, es, v);
    ShortcutsBypass(directed, es, v, []);
    assert es + [] == es;
    hide Shortcuts, Bypasses, SameDistances, DeadEnd, ArcsOf, Cleared;
    BypassKeepsDistances(ArcsOf(directed, es), ArcsOf(directed, Cleared(es, v)), v);
  }

  lemma DeadEndIsLive(directed: bool, es: seq<CHEdge>, v: nat)
    requires DeadEnd(directed, es, v)
    ensures v in Live(es) && Adjacent(es, v) <= Live(es) && Adjacent(es, v) != {}
  {
    if e :| e in es && e.target == v {
      assert e.source in Adjacent(es, v);
    }
  }

  lemma {:induction false} LiveShrinks(directed: bool, es: seq<CHEdge>, v: nat)
    requires DeadEnd(directed, es, v)
    ensures Live(Cleared(es, v)) < Live(es)
  {
    DeadEndIsLive(directed, es, v);
    ClearedIsNoDeadEnd(directed, es, v);
    ClearedMembers(es, v);
  }

  /** What a neighbour `x` of `v` holds once it has taken `v` in. */
  ghost function TakenIn(directed: bool, ids: seq<int>, g: State, v: nat, x: nat): set<int>
    requires x < |g.contracted| && v < |g.contracted| && v < |ids|
  {
    g.contracted[x] + NamesBetween(directed, g.edges, x, v) + {ids[v]} + g.contracted[v]
  }

  /** The graph once `v` has gone into its neighbours. */
  ghost predicate GoneInto(directed: bool, ids: seq<int>, g: State, v: nat, g': State)
    requires v < |g.contracted| == |ids|
  {
    && g'.edges == Cleared(g.edges, v) && g'.gone == g.gone + {v}
    && |g'.contracted| == |g.contracted| && g'.contracted[v] == {}
    && (forall x :: 0 <= x < |ids| && x != v && x in Adjacent(g.edges, v) ==>
          g'.contracted[x] == TakenIn(directed, ids, g, v, x))
    && (forall x :: 0 <= x < |ids| && x != v && x !in Adjacent(g.edges, v) ==> g'.contracted[x] == g.contracted[x])
  }

  /** One dead end that is not forbidden goes into its neighbours. */
  ghost predicate Step(directed: bool, ids: seq<int>, forbidden: set<nat>, g: State, g': State) {
    |g.contracted| == |ids| && exists v :: StepAt(directed, ids, forbidden, g, v, g')
  }

  ghost predicate StepAt(directed: bool, ids: seq<int>, forbidden: set<nat>, g: State, v: nat, g': State)
    requires |g.contracted| == |ids|
  {
    v < |ids| && Contractible(directed, forbidden, g.edges, v) && GoneInto(directed, ids, g, v, g')
  }

  ghost function Steps(directed: bool, ids: seq<int>, forbidden: set<nat>): (State, State) -> bool {
    (g, g') => Step(directed, ids, forbidden, g, g')
  }

  lemma StepTaken(directed: bool, ids: seq<int>, forbidden: set<nat>, g: State, v: nat, g': State)
    requires |g.contracted| == |ids| && v < |ids| && Contractible(directed, forbidden, g.edges, v)
    requires GoneInto(directed, ids, g, v, g')
    ensures Stepwise(Steps(directed, ids, forbidden), g, g')
  {
    hide Contractible, GoneInto;
    assert StepAt(directed, ids, forbidden, g, v, g');
    StepwiseOne(Steps(directed, ids, forbidden), g, g');
  }

  lemma ContractSane(directed: bool, ids: seq<int>, g: State, v: nat, g': State)
    requires Sane(|ids|, g) && v < |ids| && DeadEnd(directed, g.edges, v) && GoneInto(directed, ids, g, v, g')
    ensures Sane(|ids|, g') && Live(g'.edges) < Live(g.edges)
    ensures NoLoops(g.edges) ==> NoLoops(g'.edges)
  {
    hide DeadEnd, Cleared, TakenIn, Adjacent, Live;
    LiveShrinks(directed, g.edges, v);
    ClearedMembers(g.edges, v);
    ClearedIsNoDeadEnd(directed, g.edges, v);
    DeadEndIsLive(directed, g.edges, v);
    forall x | x in g.gone ensures g'.contracted[x] == {} {
      assert x !in Live(g.edges);
      assert x != v ==> x !in Adjacent(g.edges, v);
    }
    SaneWithout(|ids|, g, v, g');
  }

  lemma ContractVertex(directed: bool, ids: seq<int>, forbidden: set<nat>, g: State, v: nat, g': State)
    requires Sane(|ids|, g) && v < |ids| && DeadEnd(directed, g.edges, v) && v !in forbidden
    requires GoneInto(directed, ids, g, v, g')
    ensures Contracted(directed, |ids|, forbidden, g, g') && Live(g'.edges) < Live(g.edges)
  {
    ContractDistances(directed, g.edges, v);
    ContractSane(directed, ids, g, v, g');
    hide SameDistances, DeadEnd, ArcsOf, Cleared, Sane, Live;
    SameDistancesGrow(ArcsOf(directed, g.edges), ArcsOf(directed, Cleared(g.edges, v)), {v}, g.gone + {v});
  }

  /** In an undirected graph without self-loops the one neighbour takes in all that was held at `v`. */
  lemma OneNeighbourTakesAll(es: seq<CHEdge>, v: nat, u: nat)
    requires DeadEnd(false, es, v) && u in Adjacent(es, v) && NoLoops(es)
    ensures u != v && NamesBetween(false, es, u, v) == NamesAt(es, v) && Adjacent(es, v) == {u}
  {
    forall x | x in Adjacent(es, v) ensures x == u {
      OnlyNeighbour(es, v, u, x);
    }
    forall e | e in es && Touches(e, v) ensures Leads(false, e, u, v) {
      var x := if e.source == v then e.target else e.source;
      assert x in Adjacent(es, v);
    }
  }

  /** No id is lost or held twice when a dead end of an undirected graph goes. */
  lemma ContractNames(ids: seq<int>, g: State, v: nat, g': State)
    requires Sane(|ids|, g) && v < |ids| && DeadEnd(false, g.edges, v) && NoLoops(g.edges)
    requires GoneInto(false, ids, g, v, g')
    ensures NothingLost(ids, g) ==> NothingLost(ids, g')
    ensures NothingTwice(ids, g) ==> NothingTwice(ids, g')
  {
    DeadEndIsLive(false, g.edges, v);
    var u :| u in Adjacent(g.edges, v);
    OneNeighbourTakesAll(g.edges, v, u);
    assert v !in g.gone;
    assert u < |ids|;
    hide DeadEnd, Adjacent, NamesAt, NamesBetween, Cleared, Sane, Complete, Apart;
    var contracted' := Absorbed(ids, g.contracted, g.edges, v, u);
    assert TakenIn(false, ids, g, v, u) == g.contracted[u] + {ids[v]} + g.contracted[v] + NamesAt(g.edges, v);
    forall x | 0 <= x < |ids| ensures g'.contracted[x] == contracted'[x] {
      assert x != u ==> x !in Adjacent(g.edges, v);
    }
    assert g'.contracted == contracted';
    if NothingLost(ids, g) {
      AbsorbIntoVertex(ids, g.gone, g.contracted, g.edges, v, u);
    }
    if NothingTwice(ids, g) {
      AbsorbIntoVertexApart(ids, g.gone, g.contracted, g.edges, v, u);
    }
  }

  /** In a directed graph no id is lost as long as no shortcut has been made. */
  lemma ContractNamesDirected(ids: seq<int>, g: State, v: nat, g': State)
    requires Sane(|ids|, g) && v < |ids| && DeadEnd(true, g.edges, v) && NoLoops(g.edges) && EdgeNames(g.edges) == {}
    requires GoneInto(true, ids, g, v, g')
    ensures EdgeNames(g'.edges) == {}
    ensures NothingLost(ids, g) ==> NothingLost(ids, g')
  {
    ClearedNames(g.edges, v);
    DeadEndIsLive(true, g.edges, v);
    var u :| u in Adjacent(g.edges, v);
    assert u != v && u < |ids|;
    assert ids[v] in g'.contracted[u] && g.contracted[v] <= g'.contracted[u];
    if NothingLost(ids, g) {
      forall x | 0 <= x < |ids| ensures Held(ids, g'.gone, g'.contracted, g'.edges, ids[x]) {
        assert Held(ids, g.gone, g.contracted, g.edges, ids[x]);
        if ids[x] in g'.contracted[u] {
        } else if y :| 0 <= y < |ids| && y !in g.gone && ids[y] == ids[x] {
          assert y != v && y !in g'.gone;
        } else if y :| 0 <= y < |g.contracted| && ids[x] in g.contracted[y] {
          assert y != v && ids[x] in g'.contracted[y];
        }
      }
    }
  }

  /** Edges hold ids of vertices only. */
  ghost predicate OnlyIds(ids: seq<int>, es: seq<CHEdge>) {
    forall id :: id in EdgeNames(es) ==> id in ids
  }

  /** No edge that leaves `v` holds an id. */
  ghost predicate NothingAhead(es: seq<CHEdge>, v: nat) {
    forall e, id :: e in es && e.source == v ==> id !in e.contracted
  }

  lemma {:induction false} TwoEdgesApart(es: seq<CHEdge>, e: CHEdge, f: CHEdge)
    requires EdgesApart(es) && e in es && f in es && e != f
    ensures e.contracted !! f.contracted
  {
    var rest := es[1..];
    assert forall x :: x in es ==> x == es[0] || x in rest;
    if e in rest && f in rest {
      TwoEdgesApart(rest, e, f);
    } else {
      var other := if e in rest then e else f;
      assert other in rest;
      assert forall id :: id in other.contracted ==> id in EdgeNames(rest);
    }
  }

  /** In a directed graph the ids on an edge that leaves the dead end are gone for good: nothing asks for them. */
  lemma AheadIsLost(ids: seq<int>, g: State, v: nat, g': State, e: CHEdge, id: int)
    requires Sane(|ids|, g) && v < |ids| && v !in g.gone && NoLoops(g.edges) && GoneInto(true, ids, g, v, g')
    requires NothingTwice(ids, g) && e in g.edges && e.source == v && id in e.contracted
    ensures !Held(ids, g'.gone, g'.contracted, g'.edges, id)
  {
    assert id in EdgeNames(g.edges) && id in NamesAt(g.edges, v);
    ClearedApart(g.edges, v);
    assert id !in EdgeNames(g'.edges);
    hide Cleared, Adjacent, Live;
    forall x | 0 <= x < |ids| ensures id !in g'.contracted[x] {
      if x != v && id in NamesBetween(true, g.edges, x, v) {
        var f :| f in g.edges && Leads(true, f, x, v) && id in f.contracted;
        TwoEdgesApart(g.edges, e, f);
      }
    }
  }

  /** All else that was held at the dead end is held by a neighbour. */
  lemma RestIsHeld(ids: seq<int>, g: State, v: nat, g': State, x: nat)
    requires Sane(|ids|, g) && v < |ids| && DeadEnd(true, g.edges, v) && NoLoops(g.edges) &&
      GoneInto(true, ids, g, v, g')
    requires NothingAhead(g.edges, v) && x < |ids| && Held(ids, g.gone, g.contracted, g.edges, ids[x])
    ensures Held(ids, g'.gone, g'.contracted, g'.edges, ids[x])
  {
    var id := ids[x];
    DeadEndIsLive(true, g.edges, v);
    ClearedNames(g.edges, v);
    var u :| u in Adjacent(g.edges, v);
    assert u != v && u < |ids|;
    hide DeadEnd, Live, Cleared;
    if y :| 0 <= y < |ids| && y !in g.gone && ids[y] == id {
      if y == v {
        assert id in g'.contracted[u];
      } else {
        assert y !in g'.gone;
      }
    } else if y :| 0 <= y < |g.contracted| && id in g.contracted[y] {
      assert id in g'.contracted[if y == v then u else y];
    } else if id in NamesAt(g.edges, v) {
      var e :| e in g.edges && Touches(e, v) && id in e.contracted;
      assert Leads(true, e, e.source, v) && e.source in Adjacent(g.edges, v) && e.source != v;
      assert id in NamesBetween(true, g.edges, e.source, v);
      assert id in g'.contracted[e.source];
    } else {
      assert id in EdgeNames(g'.edges);
    }
  }

  lemma FewerNamesApart(ids: seq<int>, gone: set<nat>, more: seq<set<int>>, fewer: seq<set<int>>, es: seq<CHEdge>)
    requires Apart(ids, gone, more, es) && |fewer| == |more| && forall x :: 0 <= x < |more| ==> fewer[x] <= more[x]
    ensures Apart(ids, gone, fewer, es)
  {
    hide EdgesApart, EdgeNames;
  }

  /** With one neighbour no id is held twice. */
  lemma OneNeighbourApart(ids: seq<int>, g: State, v: nat, g': State)
    requires Sane(|ids|, g) && v < |ids| && v !in g.gone && NoLoops(g.edges) && GoneInto(true, ids, g, v, g')
    requires NothingTwice(ids, g) && |Adjacent(g.edges, v)| == 1
    ensures NothingTwice(ids, g')
  {
    hide Apart, Cleared, EdgeNames, EdgesApart;
    var u :| u in Adjacent(g.edges, v);
    assert u != v && u < |ids|;
    forall x | x in Adjacent(g.edges, v) ensures x == u {
      OnlyNeighbour(g.edges, v, u, x);
    }
    assert NamesBetween(true, g.edges, u, v) <= NamesAt(g.edges, v);
    AbsorbIntoVertexApart(ids, g.gone, g.contracted, g.edges, v, u);
    hide Adjacent, Sane, NamesAt, NamesBetween;
    FewerNamesApart(ids, g'.gone, Absorbed(ids, g.contracted, g.edges, v, u), g'.contracted, g'.edges);
  }

  /** Two neighbours both take in the id of the dead end. */
  lemma TwoNeighboursShare(ids: seq<int>, g: State, v: nat, g': State)
    requires Sane(|ids|, g) && v < |ids| && NoLoops(g.edges) && GoneInto(true, ids, g, v, g')
    requires NothingTwice(ids, g') && DeadEnd(true, g.edges, v)
    ensures |Adjacent(g.edges, v)| == 1
  {
    DeadEndIsLive(true, g.edges, v);
    hide Cleared, DeadEnd, EdgeNames, EdgesApart;
    var u :| u in Adjacent(g.edges, v);
    forall w | w in Adjacent(g.edges, v) ensures w == u {
      assert ids[v] in g'.contracted[u] && ids[v] in g'.contracted[w];
    }
    assert Adjacent(g.edges, v) == {u};
  }

  lemma NotGoneYet(directed: bool, n: nat, g: State, v: nat)
    requires Sane(n, g) && DeadEnd(directed, g.edges, v)
    ensures v !in g.gone
  {
    DeadEndIsLive(directed, g.edges, v);
  }

  /** One dead end of a directed graph: its going loses no id exactly if no edge that leaves it holds one. */
  lemma DirectedLost(ids: seq<int>, g: State, v: nat, g': State)
    requires Sane(|ids|, g) && v < |ids| && DeadEnd(true, g.edges, v) && NoLoops(g.edges) &&
      GoneInto(true, ids, g, v, g')
    requires NothingLost(ids, g) && NothingTwice(ids, g) && OnlyIds(ids, g.edges)
    ensures NothingLost(ids, g') <==> NothingAhead(g.edges, v)
  {
    hide Sane, DeadEnd, GoneInto, NoLoops, Apart, Held;
    NotGoneYet(true, |ids|, g, v);
    if NothingAhead(g.edges, v) {
      forall x | 0 <= x < |ids| ensures Held(ids, g'.gone, g'.contracted, g'.edges, ids[x]) {
        RestIsHeld(ids, g, v, g', x);
      }
    } else {
      var e, id :| e in g.edges && e.source == v && id in e.contracted;
      assert id in EdgeNames(g.edges);
      AheadIsLost(ids, g, v, g', e, id);
    }
  }

  /** It has no id held twice exactly if it has a single neighbour. */
  lemma DirectedTwice(ids: seq<int>, g: State, v: nat, g': State)
    requires Sane(|ids|, g) && v < |ids| && DeadEnd(true, g.edges, v) && NoLoops(g.edges) &&
      GoneInto(true, ids, g, v, g')
    requires NothingTwice(ids, g)
    ensures NothingTwice(ids, g') <==> |Adjacent(g.edges, v)| == 1
  {
    hide Sane, DeadEnd, GoneInto, NoLoops, NothingTwice;
    NotGoneYet(true, |ids|, g, v);
    if |Adjacent(g.edges, v)| == 1 {
      OneNeighbourApart(ids, g, v, g');
    } else if NothingTwice(ids, g') {
      TwoNeighboursShare(ids, g, v, g');
    }
  }

  /** A dead end with a self-loop has no other neighbour. */
  lemma LoopedAlone(directed: bool, es: seq<CHEdge>, v: nat, x: nat)
    requires DeadEnd(directed, es, v) && v in Adjacent(es, v) && x in Adjacent(es, v)
    ensures x == v
  {
    if |Adjacent(es, v)| == 1 {
      OnlyNeighbour(es, v, v, x);
    }
  }

  /** Half way: the neighbours not in `us` have taken `v` in. */
  ghost predicate GoingInto(directed: bool, ids: seq<int>, g: State, v: nat, us: set<nat>, contracted: seq<set<int>>)
    requires v < |g.contracted| == |ids|
  {
    && |contracted| == |ids| && (v !in Adjacent(g.edges, v) || us == Adjacent(g.edges, v) ==>
      contracted[v] == g.contracted[v])
    && (forall x :: 0 <= x < |ids| && x != v && x in Adjacent(g.edges, v) && x !in us ==>
          contracted[x] == TakenIn(directed, ids, g, v, x))
    && (forall x :: 0 <= x < |ids| && x != v && (x in us || x !in Adjacent(g.edges, v)) ==>
      contracted[x] == g.contracted[x])
  }

  lemma GoIntoOne(directed: bool, ids: seq<int>, g: State, v: nat, us: set<nat>, contracted: seq<set<int>>, u: nat)
    requires v < |g.contracted| == |ids| && DeadEnd(directed, g.edges, v) && u < |ids|
    requires us <= Adjacent(g.edges, v) && u in us && GoingInto(directed, ids, g, v, us, contracted)
    ensures var names := NamesBetween(directed, g.edges, u, v);
      GoingInto(directed, ids, g, v, us - {u}, contracted[u := contracted[u] + names + {ids[v]} + contracted[v]])
  {
    if v in Adjacent(g.edges, v) {
      LoopedAlone(directed, g.edges, v, u);
    }
    hide DeadEnd, Adjacent, NamesBetween;
  }

  lemma {:induction false} ContractExact(directed: bool, forbidden: set<nat>, es: seq<CHEdge>, v: nat,
                                         worklist: set<nat>)
    requires ExactBut(directed, forbidden, es, worklist, {v})
    ensures ExactBut(directed, forbidden, Cleared(es, v), worklist - {v}, Adjacent(es, v))
  {
    ClearedIsNoDeadEnd(directed, es, v);
    hide DeadEnd, Cleared, Live, Adjacent;
    forall x | x !in Adjacent(es, v)
      ensures x in worklist - {v} <==> Contractible(directed, forbidden, Cleared(es, v), x)
    {
      if x != v {
        OthersStay(directed, es, v, x);
      }
    }
  }

  lemma SaneShape(n: nat, g: State)
    requires Sane(n, g)
    ensures |g.contracted| == n && Inside(n, g.edges)
  {
  }

  lemma AdjacentInside(n: nat, es: seq<CHEdge>, v: nat)
    requires Inside(n, es)
    ensures forall u :: u in Adjacent(es, v) ==> u < n
  {
  }

  lemma DeadEndInside(directed: bool, n: nat, es: seq<CHEdge>, v: nat)
    requires Inside(n, es) && DeadEnd(directed, es, v)
    ensures v < n
  {
    DeadEndIsLive(directed, es, v);
  }

  lemma WorklistInside(directed: bool, n: nat, forbidden: set<nat>, g: State, worklist: set<nat>, v: nat)
    requires Sane(n, g) && ExactBut(directed, forbidden, g.edges, worklist, {}) && v in worklist
    ensures v < n == |g.contracted| && DeadEnd(directed, g.edges, v) && v !in forbidden
    ensures forall u :: u in Adjacent(g.edges, v) ==> u < n
    ensures ExactBut(directed, forbidden, g.edges, worklist, {v})
  {
    assert Contractible(directed, forbidden, g.edges, v);
    DeadEndInside(directed, n, g.edges, v);
    AdjacentInside(n, g.edges, v);
  }

  /** What dead-end contraction does to the ids, for any number of vertices. */
  ghost predicate NamesKept(directed: bool, ids: seq<int>, before: State, after: State) {
    && (NoLoops(before.edges) && NothingLost(ids, before) && (!directed || EdgeNames(before.edges) == {}) ==>
          NoLoops(after.edges) && NothingLost(ids, after) && (!directed || EdgeNames(after.edges) == {}))
    && (!directed && NoLoops(before.edges) && NothingTwice(ids, before) ==>
      NoLoops(after.edges) && NothingTwice(ids, after))
  }

  lemma StepKeepsNames(directed: bool, ids: seq<int>, g: State, v: nat, g': State)
    requires Sane(|ids|, g) && v < |ids| && DeadEnd(directed, g.edges, v) && GoneInto(directed, ids, g, v, g')
    ensures NamesKept(directed, ids, g, g')
  {
    ContractSane(directed, ids, g, v, g');
    hide GoneInto, NothingLost, NothingTwice, DeadEnd, Sane, Live, EdgeNames, NoLoops;
    if NoLoops(g.edges) {
      if !directed {
        ContractNames(ids, g, v, g');
      } else if EdgeNames(g.edges) == {} {
        ContractNamesDirected(ids, g, v, g');
      }
    }
  }

  lemma NamesKeptChain(directed: bool, ids: seq<int>, a: State, b: State, c: State)
    requires NamesKept(directed, ids, a, b) && NamesKept(directed, ids, b, c)
    ensures NamesKept(directed, ids, a, c)
  {
    hide NothingLost, NothingTwice, EdgeNames, NoLoops;
  }

  class Contractor {
    var deadendVertices: set<nat>

    constructor ()
      ensures deadendVertices == {}
    {
      deadendVertices := {};
    }

    method CalculateVertices(g: Graph)
      requires Inside(|g.ids|, g.edges)
      requires forall x :: x in deadendVertices ==> Contractible(g.directed, g.forbidden, g.edges, x)
      modifies this
      ensures ExactBut(g.directed, g.forbidden, g.edges, deadendVertices, {})
    {
      hide DeadEnd;
      for v := 0 to |g.ids|
        invariant forall x :: x in deadendVertices ==> Contractible(g.directed, g.forbidden, g.edges, x)
        invariant forall x :: 0 <= x < v && Contractible(g.directed, g.forbidden, g.edges, x) ==> x in deadendVertices
      {
        var b := g.IsDeadEnd(v);
        if b && v !in g.forbidden {
          deadendVertices := deadendVertices + {v};
        }
      }
      forall x: nat | DeadEnd(g.directed, g.edges, x) ensures x < |g.ids| {
        DeadEndInside(g.directed, |g.ids|, g.edges, x);
      }
    }

    /** Every neighbour takes `v` in. */
    method GoIntoNeighbours(g: Graph, v: nat, adjacent: set<nat>)
      requires v < |g.contracted| == |g.ids| && DeadEnd(g.directed, g.edges, v)
      requires adjacent == Adjacent(g.edges, v) && forall u :: u in adjacent ==> u < |g.ids|
      modifies g`contracted
      ensures GoingInto(g.directed, g.ids, old(g.Now()), v, {}, g.contracted)
    {
      var us := adjacent;
      ghost var before := g.Now();
      while us != {}
        invariant us <= adjacent && |g.contracted| == |g.ids|
        invariant GoingInto(g.directed, g.ids, before, v, us, g.contracted)
        decreases us
      {
        hide GoingInto, DeadEnd, Adjacent;
        var u := Front(us);
        assert u in adjacent;
        GoIntoOne(g.directed, g.ids, before, v, us, g.contracted, u);
        var cost, names, found := g.GetMinCostEdge(u, v);
        g.contracted := g.contracted[u := g.contracted[u] + names + {g.ids[v]} + g.contracted[v]];
        us := us - {u};
      }
    }

    /** Re-examines the neighbours of the vertex just contracted. */
    method Reexamine(g: Graph, local: set<nat>)
      requires ExactBut(g.directed, g.forbidden, g.edges, deadendVertices, local)
      modifies this
      ensures ExactBut(g.directed, g.forbidden, g.edges, deadendVertices, {})
    {
      var us := local;
      while us != {}
        invariant ExactBut(g.directed, g.forbidden, g.edges, deadendVertices, us)
        decreases us
      {
        hide DeadEnd;
        var u := Front(us);
        var b := g.IsDeadEnd(u);
        if b && u !in g.forbidden {
          deadendVertices := deadendVertices + {u};
        } else {
          deadendVertices := deadendVertices - {u};
        }
        us := us - {u};
      }
    }

    /** Contracts `v` and puts the worklist right. */
    method ContractDeadEnd(g: Graph, v: nat)
      requires Sane(|g.ids|, g.Now()) && v in deadendVertices
      requires ExactBut(g.directed, g.forbidden, g.edges, deadendVertices, {})
      modifies this, g`edges, g`contracted, g`gone
      ensures Contracted(g.directed, |g.ids|, g.forbidden, old(g.Now()), g.Now())
      ensures Stepwise(Steps(g.directed, g.ids, g.forbidden), old(g.Now()), g.Now())
      ensures NamesKept(g.directed, g.ids, old(g.Now()), g.Now())
      ensures ExactBut(g.directed, g.forbidden, g.edges, deadendVertices, {})
      ensures Live(g.edges) < old(Live(g.edges))
    {
      hide Contracted, NamesKept, Sane, Live, ExactBut, DeadEnd, GoneInto, Steps, Stepwise;
      ghost var now := g.Now();
      WorklistInside(g.directed, |g.ids|, g.forbidden, g.Now(), deadendVertices, v);
      ContractExact(g.directed, g.forbidden, g.edges, v, deadendVertices);
      deadendVertices := deadendVertices - {v};
      var adjacent := g.FindAdjacentVertices(v);
      GoIntoNeighbours(g, v, adjacent);
      GoneIsDone(g.directed, g.ids, g.forbidden, now, v, g.contracted);
      g.contracted := g.contracted[v := {}];
      g.edges := Cleared(g.edges, v);
      g.gone := g.gone + {v};
      Reexamine(g, adjacent);
    }

    /** Contracts dead ends as long as there are any. */
    method DoContraction(g: Graph)
      requires Sane(|g.ids|, g.Now())
      requires forall x :: x in deadendVertices ==> Contractible(g.directed, g.forbidden, g.edges, x)
      modifies this, g`edges, g`contracted, g`gone
      ensures Contracted(g.directed, |g.ids|, g.forbidden, old(g.Now()), g.Now())
      ensures Stepwise(Steps(g.directed, g.ids, g.forbidden), old(g.Now()), g.Now())
      ensures NamesKept(g.directed, g.ids, old(g.Now()), g.Now())
      ensures forall x :: !Contractible(g.directed, g.forbidden, g.edges, x)
    {
      ghost var before := g.Now();
      SaneShape(|g.ids|, before);
      CalculateVertices(g);
      ContractedNothing(g.directed, |g.ids|, g.forbidden, before);
      StepwiseOne(Steps(g.directed, g.ids, g.forbidden), before, before);
      while deadendVertices != {}
        invariant Sane(|g.ids|, g.Now())
        invariant Contracted(g.directed, |g.ids|, g.forbidden, before, g.Now())
        invariant Stepwise(Steps(g.directed, g.ids, g.forbidden), before, g.Now())
        invariant NamesKept(g.directed, g.ids, before, g.Now())
        invariant ExactBut(g.directed, g.forbidden, g.edges, deadendVertices, {})
        decreases Live(g.edges)
      {
        hide Contracted, NamesKept, Sane, Live, ExactBut, Steps, Stepwise;
        ghost var now := g.Now();
        var v := Front(deadendVertices);
        ContractDeadEnd(g, v);
        ContractedChain(g.directed, |g.ids|, g.forbidden, before, now, g.Now());
        ContractedIsSane(g.directed, |g.ids|, g.forbidden, before, g.Now());
        NamesKeptChain(g.directed, g.ids, before, now, g.Now());
        StepwiseChain(Steps(g.directed, g.ids, g.forbidden), before, now, g.Now());
      }
    }
  }

  lemma {:induction false} GoingIntoEnds(directed: bool, ids: seq<int>, g: State, v: nat, contracted: seq<set<int>>)
    requires v < |g.contracted| == |ids| && GoingInto(directed, ids, g, v, {}, contracted)
    ensures GoneInto(directed, ids, g, v, State(Cleared(g.edges, v), contracted[v := {}], g.gone + {v}))
  {
    hide Adjacent, TakenIn;
  }

  lemma {:induction false} GoneIsDone(directed: bool, ids: seq<int>, forbidden: set<nat>, g: State, v: nat,
                                      contracted: seq<set<int>>)
    requires Sane(|ids|, g) && v < |ids| && Contractible(directed, forbidden, g.edges, v)
    requires GoingInto(directed, ids, g, v, {}, contracted)
    ensures var g' := State(Cleared(g.edges, v), contracted[v := {}], g.gone + {v});
      && Contracted(directed, |ids|, forbidden, g, g') && NamesKept(directed, ids, g, g')
      && Stepwise(Steps(directed, ids, forbidden), g, g')
      && Live(g'.edges) < Live(g.edges)
  {
    var g' := State(Cleared(g.edges, v), contracted[v := {}], g.gone + {v});
    GoingIntoEnds(directed, ids, g, v, contracted);
    hide GoneInto, GoingInto, DeadEnd, Sane, Live, Contracted, NamesKept, Steps, Stepwise;
    StepTaken(directed, ids, forbidden, g, v, g');
    ContractVertex(directed, ids, forbidden, g, v, g');
    StepKeepsNames(directed, ids, g, v, g');
  }
}
