/** Taking a vertex out of a graph without changing any distance between the others. */
module Bypass {
  import opened Graphs

  /** `after` is `before` without the arcs at `v`; what led through `v` from one neighbour to another leads
      directly, no dearer, and what leads directly and is new cost as much through `v`. */
  ghost predicate Bypasses(before: set<Edge>, after: set<Edge>, v: nat) {
    && (forall a :: a in before && a.source != v && a.target != v ==> a in after)
    && (forall a :: a in after ==> a.source != v && a.target != v && (a in before || ThroughVertex(before, v, a)))
    && (forall a, b :: (a in before && b in before && a.target == v && b.source == v &&
                        a.source != v && b.target != v && a.source != b.target) ==> Direct(after, a, b))
  }

  ghost predicate ThroughVertex(arcs: set<Edge>, v: nat, a: Edge) {
    exists b, c :: b in arcs && c in arcs && b.source == a.source && b.target == v && c.source == v &&
      c.target == a.target && b.cost + c.cost <= a.cost
  }

  ghost predicate Direct(arcs: set<Edge>, a: Edge, b: Edge) {
    exists c :: c in arcs && c.source == a.source && c.target == b.target && c.cost <= a.cost + b.cost
  }

  /** Every walk of `a` between vertices not in `gone` has one in `b` that is no dearer. */
  ghost predicate Dominates(a: set<Edge>, b: set<Edge>, gone: set<nat>) {
    forall x, y, p :: x !in gone && y !in gone && IsWalk(a, x, p, y) ==> Matched(b, x, y, Cost(p))
  }

  ghost predicate Matched(arcs: set<Edge>, x: nat, y: nat, c: nat) {
    exists q :: IsWalk(arcs, x, q, y) && Cost(q) <= c
  }

  ghost predicate SameDistances(a: set<Edge>, b: set<Edge>, gone: set<nat>) {
    Dominates(a, b, gone) && Dominates(b, a, gone)
  }

  /** The meaning of `SameDistances`: any two vertices that are left are as far apart as they were. */
  lemma SameDistancesMeaning(a: set<Edge>, b: set<Edge>, gone: set<nat>, x: nat, y: nat, d: nat)
    requires SameDistances(a, b, gone) && x !in gone && y !in gone
    ensures Reachable(a, x, y) <==> Reachable(b, x, y)
    ensures IsDist(a, x, y, d) <==> IsDist(b, x, y, d)
  {
    Transfer(a, b, gone, x, y, d);
    Transfer(b, a, gone, x, y, d);
  }

  lemma Transfer(a: set<Edge>, b: set<Edge>, gone: set<nat>, x: nat, y: nat, d: nat)
    requires SameDistances(a, b, gone) && x !in gone && y !in gone
    ensures Reachable(a, x, y) ==> Reachable(b, x, y)
    ensures IsDist(a, x, y, d) ==> IsDist(b, x, y, d)
  {
    if Reachable(a, x, y) {
      var p :| IsWalk(a, x, p, y);
      assert Matched(b, x, y, Cost(p));
    }
    if IsDist(a, x, y, d) {
      var p :| IsWalk(a, x, p, y) && Cost(p) == d;
      assert Matched(b, x, y, d);
      forall q | IsWalk(b, x, q, y) ensures d <= Cost(q) {
        assert Matched(a, x, y, Cost(q));
      }
    }
  }

  lemma DominatesChain(a: set<Edge>, b: set<Edge>, c: set<Edge>, gone: set<nat>, gone': set<nat>)
    requires Dominates(a, b, gone) && Dominates(b, c, gone')
    ensures Dominates(a, c, gone + gone')
  {
    forall x, y, p | x !in gone + gone' && y !in gone + gone' && IsWalk(a, x, p, y)
      ensures Matched(c, x, y, Cost(p))
    {
      assert Matched(b, x, y, Cost(p));
      var q :| IsWalk(b, x, q, y) && Cost(q) <= Cost(p);
      assert Matched(c, x, y, Cost(q));
    }
  }

  lemma SameDistancesChain(a: set<Edge>, b: set<Edge>, c: set<Edge>, gone: set<nat>, gone': set<nat>)
    requires SameDistances(a, b, gone) && SameDistances(b, c, gone')
    ensures SameDistances(a, c, gone + gone')
  {
    DominatesChain(a, b, c, gone, gone');
    DominatesChain(c, b, a, gone', gone);
    assert gone' + gone == gone + gone';
  }

  lemma SameDistancesRefl(a: set<Edge>)
    ensures SameDistances(a, a, {})
  {
  }

  lemma {:induction false} WalkAround(before: set<Edge>, after: set<Edge>, v: nat, x: nat, p: seq<Edge>, y: nat)
    returns (q: seq<Edge>)
    requires Bypasses(before, after, v) && x != v && y != v && IsWalk(before, x, p, y)
    ensures IsWalk(after, x, q, y) && Cost(q) <= Cost(p)
    decreases |p|
  {
    if p == [] {
      return [];
    }
    var a := p[0];
    if a.target != v {
      q := WalkAround(before, after, v, a.target, p[1..], y);
      assert ([a] + q)[1..] == q;
      return [a] + q;
    }
    var b, rest := p[1], p[2..];
    assert p[1..][1..] == rest;
    assert Cost(p) == a.cost + b.cost + Cost(rest);
    if b.target == v {
      assert ([a] + rest)[1..] == rest;
      q := WalkAround(before, after, v, x, [a] + rest, y);
    } else if b.target == x {
      q := WalkAround(before, after, v, x, rest, y);
    } else {
      assert Direct(after, a, b);
      var c :| c in after && c.source == a.source && c.target == b.target && c.cost <= a.cost + b.cost;
      q := WalkAround(before, after, v, c.target, rest, y);
      assert ([c] + q)[1..] == q;
      q := [c] + q;
    }
  }

  lemma {:induction false} WalkThrough(before: set<Edge>, after: set<Edge>, v: nat, x: nat, p: seq<Edge>, y: nat)
    returns (q: seq<Edge>)
    requires Bypasses(before, after, v) && IsWalk(after, x, p, y)
    ensures IsWalk(before, x, q, y) && Cost(q) <= Cost(p)
    decreases |p|
  {
    if p == [] {
      return [];
    }
    var a := p[0];
    q := WalkThrough(before, after, v, a.target, p[1..], y);
    if a in before {
      assert ([a] + q)[1..] == q;
      q := [a] + q;
    } else {
      assert ThroughVertex(before, v, a);
      var b, c :| b in before && c in before && b.source == a.source && b.target == v && c.source == v &&
        c.target == a.target && b.cost + c.cost <= a.cost;
      assert ([c] + q)[1..] == q && ([b] + ([c] + q))[1..] == [c] + q;
      assert IsWalk(before, v, [c] + q, y);
      q := [b] + ([c] + q);
    }
  }

  /** Bypassing a vertex changes no distance between the others. */
  lemma BypassKeepsDistances(before: set<Edge>, after: set<Edge>, v: nat)
    requires Bypasses(before, after, v)
    ensures SameDistances(before, after, {v})
  {
    hide Bypasses;
    forall x, y, p | x !in {v} && y !in {v} && IsWalk(before, x, p, y) ensures Matched(after, x, y, Cost(p)) {
      var q := WalkAround(before, after, v, x, p, y);
    }
    forall x, y, p | x !in {v} && y !in {v} && IsWalk(after, x, p, y) ensures Matched(before, x, y, Cost(p)) {
      var q := WalkThrough(before, after, v, x, p, y);
    }
  }
}
