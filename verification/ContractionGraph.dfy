/** include/contraction/contractionGraph.hpp: a graph that remembers what was contracted into its parts. */
module ContractionGraph {
  import opened Graphs
  import opened Bypass

  /** An edge of the graph: the ends are vertex descriptors, `contracted` holds ids of contracted vertices. */
  datatype CHEdge = CHEdge(id: int, source: nat, target: nat, cost: nat, contracted: set<int>)

  function Plain(e: CHEdge): Edge {
    Edge(e.id, e.source, e.target, e.cost)
  }

  ghost function ArcsOf(directed: bool, es: seq<CHEdge>): set<Edge> {
    (set e | e in es :: Plain(e)) + (if directed then {} else set e | e in es :: Flip(Plain(e)))
  }

  predicate Touches(e: CHEdge, v: nat) {
    e.source == v || e.target == v
  }

  /** `e` can be taken from `u` to `v`. */
  predicate Leads(directed: bool, e: CHEdge, u: nat, v: nat) {
    (e.source == u && e.target == v) || (!directed && e.source == v && e.target == u)
  }

  predicate Has(directed: bool, es: seq<CHEdge>, u: nat, v: nat) {
    exists e :: e in es && Leads(directed, e, u, v)
  }

  function Adjacent(es: seq<CHEdge>, v: nat): set<nat> {
    (set e | e in es && e.source == v :: e.target) + (set e | e in es && e.target == v :: e.source)
  }

  /** What `boost::clear_vertex` leaves. */
  function Cleared(es: seq<CHEdge>, v: nat): seq<CHEdge> {
    if es == [] then []
    else (if Touches(es[0], v) then [] else [es[0]]) + Cleared(es[1..], v)
  }

  lemma {:induction false} ClearedMembers(es: seq<CHEdge>, v: nat)
    ensures forall e :: e in Cleared(es, v) <==> e in es && !Touches(e, v)
  {
    if es != [] {
      ClearedMembers(es[1..], v);
      assert forall e :: e in es <==> e == es[0] || e in es[1..];
    }
  }

  // ---------- which vertices can go ----------

  predicate HasUVW(directed: bool, es: seq<CHEdge>, u: nat, v: nat, w: nat) {
    Has(directed, es, u, v) && Has(directed, es, v, w)
  }

  predicate IsShortcutPossible(directed: bool, es: seq<CHEdge>, u: nat, v: nat, w: nat) {
    if u == v || v == w || u == w then false
    else if !directed then HasUVW(directed, es, u, v, w)
    else
      || (HasUVW(directed, es, u, v, w) && HasUVW(directed, es, w, v, u))
      || (HasUVW(directed, es, u, v, w) && !(Has(directed, es, v, u) || Has(directed, es, w, v)))
      || (HasUVW(directed, es, w, v, u) && !(Has(directed, es, v, w) || Has(directed, es, u, v)))
  }

  /** Two neighbours, `u` the smaller descriptor, and a shortcut past `v` between them. */
  ghost predicate LinearBetween(directed: bool, es: seq<CHEdge>, v: nat, u: nat, w: nat) {
    u < w && Adjacent(es, v) == {u, w} && IsShortcutPossible(directed, es, u, v, w)
  }

  ghost predicate Linear(directed: bool, es: seq<CHEdge>, v: nat) {
    exists u, w :: LinearBetween(directed, es, v, u, w)
  }

  ghost predicate DeadEnd(directed: bool, es: seq<CHEdge>, v: nat) {
    || |Adjacent(es, v)| == 1
    || (directed && (exists e :: e in es && e.target == v) && forall e :: e in es ==> e.source != v)
  }

  /** The vertices one edge leads to from `v`, and those from which one edge leads to `v`. */
  function Outs(directed: bool, es: seq<CHEdge>, v: nat): set<nat> {
    (set e | e in es && e.source == v :: e.target) +
    (if directed then {} else set e | e in es && e.target == v :: e.source)
  }

  function Ins(directed: bool, es: seq<CHEdge>, v: nat): set<nat> {
    (set e | e in es && e.target == v :: e.source) +
    (if directed then {} else set e | e in es && e.source == v :: e.target)
  }

  lemma InsAndOuts(directed: bool, es: seq<CHEdge>, v: nat)
    ensures forall x :: x in Ins(directed, es, v) <==> Has(directed, es, x, v)
    ensures forall x :: x in Outs(directed, es, v) <==> Has(directed, es, v, x)
    ensures Ins(directed, es, v) + Outs(directed, es, v) == Adjacent(es, v)
    ensures !directed ==> Ins(directed, es, v) == Outs(directed, es, v)
  {
  }

  /** As many vertices lead to `v` as are led to from it, they are two together, and `v` is not one of them: a stretch
      of road with two ends, open in both directions or in one. */
  predicate Stretch(ins: set<nat>, outs: set<nat>, v: nat) {
    v !in ins + outs && |ins + outs| == 2 && |ins| == |outs|
  }

  lemma PairSizes(s: set<nat>, u: nat, w: nat)
    requires u != w && s <= {u, w}
    ensures |s| == (if u in s then 1 else 0) + if w in s then 1 else 0
  {
    var rest := s - {u} - {w};
    assert rest == {};
    assert s == (if u in s then {u} else {}) + if w in s then {w} else {};
  }

  /** Between its two neighbours a shortcut over `v` is possible exactly if `v` is on such a stretch. */
  lemma PairIsStretch(directed: bool, es: seq<CHEdge>, v: nat, u: nat, w: nat)
    requires u != w && Adjacent(es, v) == {u, w}
    ensures IsShortcutPossible(directed, es, u, v, w) <==> Stretch(Ins(directed, es, v), Outs(directed, es, v), v)
  {
    var ins, outs := Ins(directed, es, v), Outs(directed, es, v);
    InsAndOuts(directed, es, v);
    hide Adjacent, Ins, Outs, Has;
    assert ins + outs == {u, w};
    PairSizes(ins, u, w);
    PairSizes(outs, u, w);
    assert v in ins + outs <==> v == u || v == w;
    assert u in ins + outs && w in ins + outs;
  }

  /** What it is to be linear, without looking at pairs of neighbours. */
  lemma LinearIsStretch(directed: bool, es: seq<CHEdge>, v: nat)
    ensures Linear(directed, es, v) <==> Stretch(Ins(directed, es, v), Outs(directed, es, v), v)
  {
    InsAndOuts(directed, es, v);
    hide Adjacent, Ins, Outs, IsShortcutPossible;
    if u: nat, w: nat :| LinearBetween(directed, es, v, u, w) {
      PairIsStretch(directed, es, v, u, w);
    }
    if Stretch(Ins(directed, es, v), Outs(directed, es, v), v) {
      var u := Smallest(Adjacent(es, v));
      assert |Adjacent(es, v) - {u}| == 1;
      var w := Smallest(Adjacent(es, v) - {u});
      PairOf(Adjacent(es, v), u, w);
      PairIsStretch(directed, es, v, u, w);
      assert LinearBetween(directed, es, v, u, w);
    }
  }

  /** A vertex that edges lead to is a dead end exactly if no way leads over it from one vertex to another; one that
      none leads to, exactly if it has a single neighbour. */
  lemma DeadEndIsNoWay(directed: bool, es: seq<CHEdge>, v: nat)
    ensures var ins, outs := Ins(directed, es, v), Outs(directed, es, v);
      DeadEnd(directed, es, v) <==>
      if ins != {} then forall x, y :: x in ins && y in outs ==> x == y else |outs| == 1
  {
    var ins, outs := Ins(directed, es, v), Outs(directed, es, v);
    InsAndOuts(directed, es, v);
    assert ins != {} ==> outs == {} || outs != {};
    if directed {
      assert ins != {} <==> exists e :: e in es && e.target == v by {
        if e :| e in es && e.target == v {
          assert e.source in ins;
        }
        if x :| x in ins {
        }
      }
      assert outs == {} <==> forall e :: e in es ==> e.source != v by {
        if e :| e in es && e.source == v {
          assert e.target in outs;
        }
      }
    }
    SingleNeighbour(ins, outs);
    hide Adjacent, Ins, Outs, Has;
  }

  lemma SingleNeighbour(ins: set<nat>, outs: set<nat>)
    ensures ins != {} && outs != {} ==> (|ins + outs| == 1 <==> forall x, y :: x in ins && y in outs ==> x == y)
    ensures ins == outs && ins != {} ==> (|ins| == 1 <==> forall x, y :: x in ins && y in outs ==> x == y)
  {
    if ins != {} && outs != {} {
      var a :| a in ins;
      var b :| b in outs;
      if forall x, y :: x in ins && y in outs ==> x == y {
        assert ins + outs == {a};
      }
      if |ins + outs| == 1 {
        forall x | x in ins + outs ensures x == a {
          OnlyOne(ins + outs, a, x);
        }
      }
    }
    assert ins == outs ==> ins + outs == ins;
  }

  lemma OnlyOne(s: set<nat>, a: nat, x: nat)
    requires |s| == 1 && a in s && x in s
    ensures x == a
  {
    assert |s - {a}| == 0;
    assert x !in s - {a};
  }

  /** The same edges at `v`. */
  ghost predicate SameAt(es: seq<CHEdge>, es': seq<CHEdge>, v: nat) {
    forall e :: Touches(e, v) ==> (e in es <==> e in es')
  }

  lemma SameAtSameHas(directed: bool, es: seq<CHEdge>, es': seq<CHEdge>, v: nat, x: nat)
    requires SameAt(es, es', v)
    ensures Has(directed, es, v, x) <==> Has(directed, es', v, x)
    ensures Has(directed, es, x, v) <==> Has(directed, es', x, v)
  {
  }

  lemma SameAtSameKind(directed: bool, es: seq<CHEdge>, es': seq<CHEdge>, v: nat)
    requires SameAt(es, es', v)
    ensures Adjacent(es, v) == Adjacent(es', v)
    ensures Linear(directed, es, v) <==> Linear(directed, es', v)
    ensures DeadEnd(directed, es, v) <==> DeadEnd(directed, es', v)
  {
    assert Adjacent(es, v) == Adjacent(es', v);
    hide Adjacent, Has;
    forall u, w ensures LinearBetween(directed, es, v, u, w) <==> LinearBetween(directed, es', v, u, w) {
      SameAtSameHas(directed, es, es', v, u);
      SameAtSameHas(directed, es, es', v, w);
    }
  }

  // ---------- bypassing ----------

  lemma ArcsFromEdges(directed: bool, es: seq<CHEdge>, a: Edge)
    ensures a in ArcsOf(directed, es) <==>
            exists e :: e in es && (Plain(e) == a || (!directed && Flip(Plain(e)) == a))
  {
  }

  lemma ArcAtVertex(directed: bool, es: seq<CHEdge>, v: nat, a: Edge)
    requires a in ArcsOf(directed, es)
    ensures a.source == v ==> a.target in Adjacent(es, v) && Has(directed, es, v, a.target)
    ensures a.target == v ==> a.source in Adjacent(es, v) && Has(directed, es, a.source, v)
  {
    ArcsFromEdges(directed, es, a);
    var e :| e in es && (Plain(e) == a || (!directed && Flip(Plain(e)) == a));
    assert Leads(directed, e, a.source, a.target);
  }

  /** The cheapest way from `u` to `v` by one edge. */
  ghost predicate CheapestCost(directed: bool, es: seq<CHEdge>, u: nat, v: nat, c: nat) {
    && (exists e :: e in es && Leads(directed, e, u, v) && e.cost == c)
    && (forall e :: e in es && Leads(directed, e, u, v) ==> c <= e.cost)
  }

  lemma CheapestArc(directed: bool, es: seq<CHEdge>, u: nat, v: nat, c: nat)
    requires CheapestCost(directed, es, u, v, c)
    ensures exists a :: a in ArcsOf(directed, es) && a.source == u && a.target == v && a.cost == c
    ensures forall a :: a in ArcsOf(directed, es) && a.source == u && a.target == v ==> c <= a.cost
  {
    var e :| e in es && Leads(directed, e, u, v) && e.cost == c;
    ArcsFromEdges(directed, es, Plain(e));
    if e.source == u && e.target == v {
      assert Plain(e) in ArcsOf(directed, es);
    } else {
      assert Flip(Plain(e)) in ArcsOf(directed, es);
    }
    forall a | a in ArcsOf(directed, es) && a.source == u && a.target == v ensures c <= a.cost {
      ArcsFromEdges(directed, es, a);
      var f :| f in es && (Plain(f) == a || (!directed && Flip(Plain(f)) == a));
      assert Leads(directed, f, u, v);
    }
  }

  /** `s` is the shortcut from `u` over `v` to `w`. */
  ghost predicate ShortcutOver(directed: bool, es: seq<CHEdge>, v: nat, s: CHEdge) {
    exists c: nat, d: nat ::
      CheapestCost(directed, es, s.source, v, c) && CheapestCost(directed, es, v, s.target, d) && s.cost == c + d
  }

  /** A shortcut over `v` that takes in `names` and what the edges it is made of hold. */
  ghost predicate Priced(directed: bool, es: seq<CHEdge>, v: nat, names: set<int>, s: CHEdge) {
    && ShortcutOver(directed, es, v, s)
    && s.contracted == names + NamesBetween(directed, es, s.source, v) + NamesBetween(directed, es, v, s.target)
  }

  /** Enough shortcuts have been added for `v` to go: each is a shortcut over `v` between different vertices, and
      wherever one can go from one neighbour of `v` to another over `v`, there is one. */
  ghost predicate Shortcuts(directed: bool, es: seq<CHEdge>, v: nat, added: seq<CHEdge>) {
    && (forall s :: s in added ==> s.source != v && s.target != v && ShortcutOver(directed, es, v, s))
    && (!directed ==> forall s :: s in added ==> ShortcutOver(directed, es, v, Turned(s)))
    && (forall x, y :: x != y && x != v && y != v && Has(directed, es, x, v) && Has(directed, es, v, y) ==>
          Has(directed, added, x, y))
  }

  function Turned(s: CHEdge): CHEdge {
    s.(source := s.target, target := s.source)
  }

  /** A shortcut costs what its two halves cost, and no way over `v` between its ends costs less. */
  lemma ShortcutPrice(directed: bool, es: seq<CHEdge>, v: nat, s: CHEdge)
    requires ShortcutOver(directed, es, v, s)
    ensures ThroughVertex(ArcsOf(directed, es), v, Plain(s))
    ensures forall a, b :: (a in ArcsOf(directed, es) && b in ArcsOf(directed, es) && a.source == s.source &&
                            a.target == v && b.source == v && b.target == s.target) ==> s.cost <= a.cost + b.cost
  {
    var c: nat, d: nat :| CheapestCost(directed, es, s.source, v, c) && CheapestCost(directed, es, v, s.target, d) &&
      s.cost == c + d;
    CheapestArc(directed, es, s.source, v, c);
    CheapestArc(directed, es, v, s.target, d);
  }

  lemma {:induction false} ShortcutsBypass(directed: bool, es: seq<CHEdge>, v: nat, added: seq<CHEdge>)
    requires Shortcuts(directed, es, v, added)
    ensures Bypasses(ArcsOf(directed, es), ArcsOf(directed, Cleared(es + added, v)), v)
  {
    var all := Cleared(es + added, v);
    var before, after := ArcsOf(directed, es), ArcsOf(directed, all);
    ClearedMembers(es + added, v);
    hide ArcsOf, Cleared, ShortcutOver, Has;
    forall a | a in before && a.source != v && a.target != v ensures a in after {
      ArcsFromEdges(directed, es, a);
      var e :| e in es && (Plain(e) == a || (!directed && Flip(Plain(e)) == a));
      assert e in all;
      ArcsFromEdges(directed, all, a);
    }
    forall a | a in after ensures a.source != v && a.target != v && (a in before || ThroughVertex(before, v, a)) {
      ArcsFromEdges(directed, all, a);
      var e :| e in all && (Plain(e) == a || (!directed && Flip(Plain(e)) == a));
      if e in es {
        ArcsFromEdges(directed, es, a);
      } else if Plain(e) == a {
        ShortcutPrice(directed, es, v, e);
      } else {
        ShortcutPrice(directed, es, v, Turned(e));
      }
    }
    forall a, b | a in before && b in before && a.target == v && b.source == v &&
                  a.source != v && b.target != v && a.source != b.target
      ensures Direct(after, a, b)
    {
      ArcAtVertex(directed, es, v, a);
      ArcAtVertex(directed, es, v, b);
      assert Has(directed, added, a.source, b.target);
      ShortcutIsDirect(directed, es, v, added, all, a, b);
    }
  }

  lemma ShortcutIsDirect(directed: bool, es: seq<CHEdge>, v: nat, added: seq<CHEdge>, all: seq<CHEdge>, a: Edge,
                         b: Edge)
    requires Shortcuts(directed, es, v, added) && Has(directed, added, a.source, b.target)
    requires forall e :: e in added && !Touches(e, v) ==> e in all
    requires a in ArcsOf(directed, es) && b in ArcsOf(directed, es) && a.target == v == b.source
    ensures Direct(ArcsOf(directed, all), a, b)
  {
    var s :| s in added && Leads(directed, s, a.source, b.target);
    hide ShortcutOver, Has;
    assert s in all;
    var c := if s.source == a.source && s.target == b.target then Plain(s) else Flip(Plain(s));
    ArcsFromEdges(directed, all, c);
    if s.source == a.source && s.target == b.target {
      ShortcutPrice(directed, es, v, s);
    } else {
      ShortcutPrice(directed, es, v, Turned(s));
    }
    hide ArcsOf;
    assert c in ArcsOf(directed, all);
  }

  lemma {:induction false} ClearedAppend(es: seq<CHEdge>, more: seq<CHEdge>, v: nat)
    ensures Cleared(es + more, v) == Cleared(es, v) + Cleared(more, v)
  {
    if es == [] {
      assert es + more == more;
    } else {
      assert (es + more)[1..] == es[1..] + more;
      ClearedAppend(es[1..], more, v);
    }
  }

  // ---------- who holds which id ----------

  /** All ids contracted into edges of the list; into edges from `u` to `v`; into edges at `v`. */
  ghost function EdgeNames(es: seq<CHEdge>): set<int> {
    set e, id | e in es && id in e.contracted :: id
  }

  ghost function NamesBetween(directed: bool, es: seq<CHEdge>, u: nat, v: nat): set<int> {
    set e, id | e in es && Leads(directed, e, u, v) && id in e.contracted :: id
  }

  ghost function NamesAt(es: seq<CHEdge>, v: nat): set<int> {
    set e, id | e in es && Touches(e, v) && id in e.contracted :: id
  }

  /** The id is that of a vertex not contracted, or contracted into a vertex, or into an edge. */
  ghost predicate Held(ids: seq<int>, gone: set<nat>, contracted: seq<set<int>>, es: seq<CHEdge>, id: int) {
    || (exists v :: 0 <= v < |ids| && v !in gone && ids[v] == id)
    || (exists v :: 0 <= v < |contracted| && id in contracted[v])
    || id in EdgeNames(es)
  }

  /** No id is lost. */
  ghost predicate Complete(ids: seq<int>, gone: set<nat>, contracted: seq<set<int>>, es: seq<CHEdge>) {
    forall v :: 0 <= v < |ids| ==> Held(ids, gone, contracted, es, ids[v])
  }

  /** No id is held twice by edges. */
  ghost predicate EdgesApart(es: seq<CHEdge>) {
    es == [] || (es[0].contracted !! EdgeNames(es[1..]) && EdgesApart(es[1..]))
  }

  /** No id is held twice. */
  ghost predicate Apart(ids: seq<int>, gone: set<nat>, contracted: seq<set<int>>, es: seq<CHEdge>) {
    && (forall u, v :: 0 <= u < v < |ids| ==> ids[u] != ids[v])
    && (forall u, v :: 0 <= u < |ids| && u !in gone && 0 <= v < |contracted| ==> ids[u] !in contracted[v])
    && (forall u :: 0 <= u < |ids| && u !in gone ==> ids[u] !in EdgeNames(es))
    && (forall u, v :: 0 <= u < v < |contracted| ==> contracted[u] !! contracted[v])
    && (forall v :: 0 <= v < |contracted| ==> contracted[v] !! EdgeNames(es))
    && EdgesApart(es)
  }

  lemma {:induction false} ClearedApart(es: seq<CHEdge>, v: nat)
    requires EdgesApart(es)
    ensures EdgesApart(Cleared(es, v)) && EdgeNames(Cleared(es, v)) !! NamesAt(es, v)
    ensures EdgeNames(es) == EdgeNames(Cleared(es, v)) + NamesAt(es, v)
  {
    ClearedNames(es, v);
    if es == [] {
      assert EdgeNames(es) == {};
    } else {
      var rest, kept := es[1..], Cleared(es, v);
      ClearedApart(rest, v);
      NamesCons(es);
      NamesAtCons(es, v);
      hide EdgeNames, NamesAt;
      if !Touches(es[0], v) {
        assert kept[1..] == Cleared(rest, v);
        NamesCons(kept);
      } else {
        assert kept == Cleared(rest, v);
      }
    }
  }

  lemma NamesCons(es: seq<CHEdge>)
    requires es != []
    ensures EdgeNames(es) == es[0].contracted + EdgeNames(es[1..])
  {
    forall id ensures id in EdgeNames(es) <==> id in es[0].contracted + EdgeNames(es[1..]) {
      if id in EdgeNames(es) {
        var e :| e in es && id in e.contracted;
        assert e == es[0] || e in es[1..];
      } else if id in es[0].contracted {
        assert es[0] in es;
      }
    }
  }

  lemma NamesAtCons(es: seq<CHEdge>, v: nat)
    requires es != []
    ensures NamesAt(es, v) == (if Touches(es[0], v) then es[0].contracted else {}) + NamesAt(es[1..], v)
  {
    var all := (if Touches(es[0], v) then es[0].contracted else {}) + NamesAt(es[1..], v);
    forall id ensures id in NamesAt(es, v) <==> id in all {
      if id in NamesAt(es, v) {
        var e :| e in es && Touches(e, v) && id in e.contracted;
        assert e == es[0] || e in es[1..];
      }
    }
  }

  lemma {:induction false} ClearedNames(es: seq<CHEdge>, v: nat)
    ensures EdgeNames(es) == EdgeNames(Cleared(es, v)) + NamesAt(es, v)
  {
    ClearedMembers(es, v);
  }

  lemma {:induction false} ApartSnoc(es: seq<CHEdge>, e: CHEdge)
    requires EdgesApart(es) && e.contracted !! EdgeNames(es)
    ensures EdgesApart(es + [e]) && EdgeNames(es + [e]) == EdgeNames(es) + e.contracted
  {
    if es == [] {
      assert es + [e] == [e] && [e][1..] == [] && EdgeNames([]) == {};
      NamesCons([e]);
    } else {
      var rest := es[1..];
      NamesCons(es);
      ApartSnoc(rest, e);
      assert (es + [e])[1..] == rest + [e];
      NamesCons(es + [e]);
    }
  }

  /** An edge of `added` absorbs everything that was held at `v`, so `v` may go and nothing is lost. */
  lemma {:induction false} AbsorbIntoEdges(ids: seq<int>, gone: set<nat>, contracted: seq<set<int>>, es: seq<CHEdge>,
                                           v: nat, added: seq<CHEdge>)
    requires |ids| == |contracted| && v < |ids| && Complete(ids, gone, contracted, es)
    requires {ids[v]} + contracted[v] + NamesAt(es, v) <= EdgeNames(added)
    requires forall s :: s in added ==> !Touches(s, v)
    ensures Complete(ids, gone + {v}, contracted[v := {}], Cleared(es + added, v))
  {
    var es' := Cleared(es + added, v);
    ClearedMembers(es + added, v);
    ClearedNames(es, v);
    assert EdgeNames(added) <= EdgeNames(es');
    ClearedMembers(es, v);
    assert EdgeNames(Cleared(es, v)) <= EdgeNames(es');
    forall u | 0 <= u < |ids| ensures Held(ids, gone + {v}, contracted[v := {}], es', ids[u]) {
      assert Held(ids, gone, contracted, es, ids[u]);
      if x :| 0 <= x < |ids| && x !in gone && ids[x] == ids[u] {
        if x != v {
          assert x !in gone + {v};
        }
      } else if x :| 0 <= x < |contracted| && ids[u] in contracted[x] {
        if x != v {
          assert ids[u] in contracted[v := {}][x];
        }
      }
    }
  }

  /** If a single edge absorbs it, nothing is held twice either. */
  lemma {:induction false} AbsorbIntoOneEdge(ids: seq<int>, gone: set<nat>, contracted: seq<set<int>>, es: seq<CHEdge>,
                                             v: nat, s: CHEdge)
    requires |ids| == |contracted| && v < |ids| && v !in gone && Apart(ids, gone, contracted, es)
    requires s.contracted == {ids[v]} + contracted[v] + NamesAt(es, v) && !Touches(s, v)
    ensures Apart(ids, gone + {v}, contracted[v := {}], Cleared(es + [s], v))
  {
    var es' := Cleared(es + [s], v);
    ClearedAppend(es, [s], v);
    assert [s][1..] == [] && Cleared([s], v) == [s];
    ClearedApart(es, v);
    var kept := Cleared(es, v);
    assert es' == kept + [s];
    assert s.contracted !! EdgeNames(kept);
    ApartSnoc(kept, s);
  }

  ghost function Absorbed(ids: seq<int>, contracted: seq<set<int>>, es: seq<CHEdge>, v: nat, u: nat): seq<set<int>>
    requires |ids| == |contracted| && v < |ids| && u < |ids|
  {
    contracted[u := contracted[u] + {ids[v]} + contracted[v] + NamesAt(es, v)][v := {}]
  }

  /** A neighbour absorbs it instead, so nothing is lost. */
  lemma {:induction false} AbsorbIntoVertex(ids: seq<int>, gone: set<nat>, contracted: seq<set<int>>, es: seq<CHEdge>,
                                            v: nat, u: nat)
    requires |ids| == |contracted| && v < |ids| && u < |ids| && u != v && Complete(ids, gone, contracted, es)
    ensures Complete(ids, gone + {v}, Absorbed(ids, contracted, es, v, u), Cleared(es, v))
  {
    var contracted' := Absorbed(ids, contracted, es, v, u);
    ClearedNames(es, v);
    hide NamesAt, Cleared, EdgeNames;
    forall x | 0 <= x < |ids| ensures Held(ids, gone + {v}, contracted', Cleared(es, v), ids[x]) {
      assert Held(ids, gone, contracted, es, ids[x]);
      if ids[x] in contracted'[u] {
      } else if y :| 0 <= y < |ids| && y !in gone && ids[y] == ids[x] {
        assert y !in gone + {v};
      } else if y :| 0 <= y < |contracted| && ids[x] in contracted[y] {
        assert ids[x] in contracted'[y];
      }
    }
  }

  /** Nor is anything held twice. */
  lemma {:induction false} AbsorbIntoVertexApart(ids: seq<int>, gone: set<nat>, contracted: seq<set<int>>,
                                                 es: seq<CHEdge>, v: nat, u: nat)
    requires |ids| == |contracted| && v < |ids| && u < |ids| && u != v && v !in gone && Apart(ids, gone, contracted, es)
    ensures Apart(ids, gone + {v}, Absorbed(ids, contracted, es, v, u), Cleared(es, v))
  {
    ClearedApart(es, v);
    hide NamesAt, Cleared, EdgeNames, EdgesApart;
  }

  // ---------- smallest descriptors ----------

  lemma {:induction false} Smallest(s: set<nat>) returns (x: nat)
    requires s != {}
    ensures x in s && forall y :: y in s ==> x <= y
  {
    x :| x in s;
    var rest := s - {x};
    if rest != {} {
      var z := Smallest(rest);
      assert forall y :: y in s ==> y == x || y in rest;
      x := if z < x then z else x;
    } else {
      assert forall y :: y in s ==> y == x || y in rest;
    }
  }

  /** `front()` of an ordered set. */
  method Front(s: set<nat>) returns (x: nat)
    requires s != {}
    ensures x in s && forall y :: y in s ==> x <= y
  {
    ghost var least := Smallest(s);
    x :| x in s && forall y :: y in s ==> x <= y;
  }

  lemma PairOf(s: set<nat>, u: nat, w: nat)
    requires |s| == 2 && u in s && w in s && u != w
    ensures s == {u, w}
  {
    assert |s - {u, w}| == 0;
  }

  // ---------- the graph ----------

  /** Vertices that still have edges. */
  ghost function Live(es: seq<CHEdge>): set<nat> {
    (set e | e in es :: e.source) + (set e | e in es :: e.target)
  }

  ghost predicate Inside(n: nat, es: seq<CHEdge>) {
    forall e :: e in es ==> e.source < n && e.target < n
  }

  /** The edges, what was contracted into the vertices, and which vertices have been contracted. */
  datatype State = State(edges: seq<CHEdge>, contracted: seq<set<int>>, gone: set<nat>)

  /** The vertices contracted so far hold no ids and have no edges. */
  ghost predicate Sane(n: nat, g: State) {
    && |g.contracted| == n && Inside(n, g.edges)
    && forall v :: v in g.gone ==> v < n && g.contracted[v] == {} && v !in Live(g.edges)
  }

  /** A vertex without edges may go. */
  lemma SaneWithout(n: nat, g: State, v: nat, g': State)
    requires Sane(n, g) && v < n && g'.gone == g.gone + {v} && Inside(n, g'.edges)
    requires Live(g'.edges) <= Live(g.edges) - {v} && |g'.contracted| == n && g'.contracted[v] == {}
    requires forall x :: x in g.gone && x < n ==> g.contracted[x] == {} ==> g'.contracted[x] == {}
    ensures Sane(n, g')
  {
    hide Live, Inside;
  }

  ghost predicate NothingLost(ids: seq<int>, g: State) {
    Complete(ids, g.gone, g.contracted, g.edges)
  }

  ghost predicate NothingTwice(ids: seq<int>, g: State) {
    Apart(ids, g.gone, g.contracted, g.edges)
  }

  /** What any number of contractions may do: `after` is sane, only vertices not forbidden have gone,
      and the others are as far apart as they were. */
  ghost predicate Contracted(directed: bool, n: nat, forbidden: set<nat>, before: State, after: State) {
    && Sane(n, after) && before.gone <= after.gone
    && (forall v :: v in after.gone && v !in before.gone ==> v !in forbidden)
    && SameDistances(ArcsOf(directed, before.edges), ArcsOf(directed, after.edges), after.gone)
    && (NoLoops(before.edges) ==> NoLoops(after.edges))
  }

  ghost predicate NoLoops(es: seq<CHEdge>) {
    forall e :: e in es ==> e.source != e.target
  }

  lemma SameDistancesGrow(a: set<Edge>, b: set<Edge>, gone: set<nat>, gone': set<nat>)
    requires SameDistances(a, b, gone) && gone <= gone'
    ensures SameDistances(a, b, gone')
  {
  }

  lemma ContractedChain(directed: bool, n: nat, forbidden: set<nat>, a: State, b: State, c: State)
    requires Contracted(directed, n, forbidden, a, b) && Contracted(directed, n, forbidden, b, c)
    ensures Contracted(directed, n, forbidden, a, c)
  {
    hide ArcsOf, SameDistances;
    SameDistancesChain(ArcsOf(directed, a.edges), ArcsOf(directed, b.edges), ArcsOf(directed, c.edges), b.gone, c.gone);
    assert b.gone + c.gone == c.gone;
  }

  /** `k` steps of some kind lead from `a` to `b`. */
  ghost predicate InSteps(step: (State, State) -> bool, a: State, b: State, k: nat)
    decreases k
  {
    if k == 0 then a == b else exists mid :: InSteps(step, a, mid, k - 1) && step(mid, b)
  }

  ghost predicate Stepwise(step: (State, State) -> bool, a: State, b: State) {
    exists k :: InSteps(step, a, b, k)
  }

  lemma {:induction false} InStepsChain(step: (State, State) -> bool, a: State, b: State, j: nat, c: State, k: nat)
    requires InSteps(step, a, b, j) && InSteps(step, b, c, k)
    ensures InSteps(step, a, c, j + k)
    decreases k
  {
    if k > 0 {
      var mid :| InSteps(step, b, mid, k - 1) && step(mid, c);
      InStepsChain(step, a, b, j, mid, k - 1);
    }
  }

  lemma StepwiseChain(step: (State, State) -> bool, a: State, b: State, c: State)
    requires Stepwise(step, a, b) && Stepwise(step, b, c)
    ensures Stepwise(step, a, c)
  {
    var j :| InSteps(step, a, b, j);
    var k :| InSteps(step, b, c, k);
    InStepsChain(step, a, b, j, c, k);
  }

  lemma StepwiseOne(step: (State, State) -> bool, a: State, b: State)
    ensures Stepwise(step, a, a)
    ensures step(a, b) ==> Stepwise(step, a, b)
  {
    assert InSteps(step, a, a, 0);
    if step(a, b) {
      assert InSteps(step, a, b, 1);
    }
  }

  lemma ContractedNothing(directed: bool, n: nat, forbidden: set<nat>, g: State)
    requires Sane(n, g)
    ensures Contracted(directed, n, forbidden, g, g)
  {
    SameDistancesRefl(ArcsOf(directed, g.edges));
    SameDistancesGrow(ArcsOf(directed, g.edges), ArcsOf(directed, g.edges), {}, g.gone);
  }

  lemma ContractedIsSane(directed: bool, n: nat, forbidden: set<nat>, a: State, b: State)
    requires Contracted(directed, n, forbidden, a, b)
    ensures Sane(n, b) && a.gone <= b.gone
  {
  }

  class Graph {
    const directed: bool
    const ids: seq<int>
    var edges: seq<CHEdge>
    var contracted: seq<set<int>>
    var forbidden: set<nat>
    var minEdgeId: int
    ghost var gone: set<nat>

    ghost function Now(): State
      reads this
    {
      State(edges, contracted, gone)
    }

    constructor (directed: bool, ids: seq<int>, edges: seq<CHEdge>)
      requires Inside(|ids|, edges) && forall e :: e in edges ==> e.contracted == {}
      ensures this.directed == directed && this.ids == ids && this.edges == edges && forbidden == {} && gone == {}
      ensures Sane(|ids|, Now()) && NothingLost(ids, Now())
      ensures (forall u, v :: 0 <= u < v < |ids| ==> ids[u] != ids[v]) ==> NothingTwice(ids, Now())
    {
      this.directed, this.ids, this.edges := directed, ids, edges;
      contracted, forbidden, minEdgeId, gone := seq(|ids|, _ => {}), {}, 0, {};
      new;
      NoNames(edges);
      forall v | 0 <= v < |ids| ensures Held(ids, gone, contracted, edges, ids[v]) {
        assert v !in gone;
      }
    }

    constructor Copy(g: Graph)
      ensures directed == g.directed && ids == g.ids && edges == g.edges && contracted == g.contracted
      ensures forbidden == g.forbidden && minEdgeId == g.minEdgeId && gone == g.gone
    {
      directed, ids, edges, contracted := g.directed, g.ids, g.edges, g.contracted;
      forbidden, minEdgeId, gone := g.forbidden, g.minEdgeId, g.gone;
    }

    method FindAdjacentVertices(v: nat) returns (adjacent: set<nat>)
      ensures adjacent == Adjacent(edges, v)
    {
      adjacent := {};
      for i := 0 to |edges|
        invariant adjacent == Adjacent(edges[..i], v)
      {
        var e := edges[i];
        assert forall x :: x in edges[..i + 1] <==> x in edges[..i] || x == e;
        if e.source == v {
          adjacent := adjacent + {e.target};
        }
        if e.target == v {
          adjacent := adjacent + {e.source};
        }
      }
      assert edges[..|edges|] == edges;
    }

    method IsLinear(v: nat) returns (linear: bool)
      ensures linear <==> Linear(directed, edges, v)
      ensures linear <==> Stretch(Ins(directed, edges, v), Outs(directed, edges, v), v)
    {
      LinearIsStretch(directed, edges, v);
      var adjacent := FindAdjacentVertices(v);
      if |adjacent| == 2 {
        var u := Front(adjacent);
        assert |adjacent - {u}| == 1;
        var w := Front(adjacent - {u});
        PairOf(adjacent, u, w);
        linear := IsShortcutPossible(directed, edges, u, v, w);
        LinearPair(directed, edges, v, u, w);
      } else {
        LinearHasTwo(directed, edges, v);
        linear := false;
      }
    }

    method IsDeadEnd(v: nat) returns (deadEnd: bool)
      ensures deadEnd <==> DeadEnd(directed, edges, v)
      ensures deadEnd <==>
        if Ins(directed, edges, v) != {}
        then forall x, y :: x in Ins(directed, edges, v) && y in Outs(directed, edges, v) ==> x == y
        else |Outs(directed, edges, v)| == 1
    {
      DeadEndIsNoWay(directed, edges, v);
      var adjacent := FindAdjacentVertices(v);
      deadEnd := |adjacent| == 1;
      if directed && !deadEnd {
        deadEnd := (exists e :: e in edges && e.target == v) && !(exists e :: e in edges && e.source == v);
      }
    }

    /** Cost of the cheapest edge from `u` to `v`, and everything contracted into any of those edges. */
    method GetMinCostEdge(u: nat, v: nat) returns (cost: nat, names: set<int>, found: bool)
      ensures found <==> Has(directed, edges, u, v)
      ensures found ==> CheapestCost(directed, edges, u, v, cost)
      ensures names == NamesBetween(directed, edges, u, v)
    {
      cost, names, found := 0, {}, false;
      for i := 0 to |edges|
        invariant found <==> Has(directed, edges[..i], u, v)
        invariant found ==> CheapestCost(directed, edges[..i], u, v, cost)
        invariant names == NamesBetween(directed, edges[..i], u, v)
      {
        var e := edges[i];
        assert edges[..i + 1] == edges[..i] + [e];
        MinCostStep(directed, edges[..i], e, u, v, cost);
        hide Has, CheapestCost, NamesBetween;
        if Leads(directed, e, u, v) {
          names := names + e.contracted;
          if !found || e.cost < cost {
            cost, found := e.cost, true;
          }
        }
      }
      assert edges[..|edges|] == edges;
    }

    /** Adds the edge that stands for going from `u` over `v` to `w`. */
    method ProcessShortcut(u: nat, v: nat, w: nat) returns (s: CHEdge)
      requires v < |contracted| == |ids|
      requires Has(directed, edges, u, v) && Has(directed, edges, v, w)
      modifies this`edges, this`minEdgeId
      ensures edges == old(edges) + [s] && s.id == minEdgeId == old(minEdgeId) - 1
      ensures s.source == u && s.target == w && Priced(directed, old(edges), v, {ids[v]} + contracted[v], s)
    {
      var c, names, found := GetMinCostEdge(u, v);
      var c', names', found' := GetMinCostEdge(v, w);
      minEdgeId := minEdgeId - 1;
      s := CHEdge(minEdgeId, u, w, c + c', {ids[v]} + contracted[v] + names + names');
      edges := edges + [s];
    }
  }

  lemma {:induction false} NoNames(es: seq<CHEdge>)
    requires forall e :: e in es ==> e.contracted == {}
    ensures EdgeNames(es) == {} && EdgesApart(es)
    decreases |es|
  {
    if es != [] {
      NoNames(es[1..]);
      assert es[0] in es;
    }
  }

  lemma LinearPair(directed: bool, es: seq<CHEdge>, v: nat, u: nat, w: nat)
    requires u < w && Adjacent(es, v) == {u, w}
    ensures Linear(directed, es, v) <==> IsShortcutPossible(directed, es, u, v, w)
  {
    if Linear(directed, es, v) {
      var x: nat, y: nat :| LinearBetween(directed, es, v, x, y);
      assert {x, y} == {u, w} && x in {x, y} && y in {x, y} && u in {u, w} && w in {u, w};
    } else {
      assert !LinearBetween(directed, es, v, u, w);
    }
  }

  lemma LinearHasTwo(directed: bool, es: seq<CHEdge>, v: nat)
    ensures Linear(directed, es, v) ==> |Adjacent(es, v)| == 2
  {
  }

  lemma MinCostStep(directed: bool, es: seq<CHEdge>, e: CHEdge, u: nat, v: nat, c: nat)
    ensures Has(directed, es + [e], u, v) <==> Has(directed, es, u, v) || Leads(directed, e, u, v)
    ensures NamesBetween(directed, es + [e], u, v) ==
            NamesBetween(directed, es, u, v) + if Leads(directed, e, u, v) then e.contracted else {}
    ensures CheapestCost(directed, es, u, v, c) && (!Leads(directed, e, u, v) || e.cost >= c) ==>
            CheapestCost(directed, es + [e], u, v, c)
    ensures Leads(directed, e, u, v) && (Has(directed, es, u, v) ==>
      CheapestCost(directed, es, u, v, c) && e.cost < c) ==>
            CheapestCost(directed, es + [e], u, v, e.cost)
  {
    var all := es + [e];
    assert forall x :: x in all <==> x in es || x == e;
    if Has(directed, es, u, v) {
      var x :| x in es && Leads(directed, x, u, v);
      assert x in all;
    }
    if CheapestCost(directed, es, u, v, c) {
      var x :| x in es && Leads(directed, x, u, v) && x.cost == c;
      assert x in all;
    }
    forall id ensures id in NamesBetween(directed, all, u, v) <==>
      id in NamesBetween(directed, es, u, v) + if Leads(directed, e, u, v) then e.contracted else {}
    {
      if x :| x in es && Leads(directed, x, u, v) && id in x.contracted {
        assert x in all;
      }
    }
  }
}
