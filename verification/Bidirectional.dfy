/** include/cpp_common/bidirectional.hpp: Dijkstra from both ends at once, and what its answer is worth. */
module Bidirectional {
  import opened Graphs
  import opened Labels
  import opened TwoQueues

  // ---------- walks backwards ----------

  function Flips(edges: seq<Edge>): seq<Edge> {
    seq(|edges|, i requires 0 <= i < |edges| => Flip(edges[i]))
  }

  /** The in-edge list of `v`, oriented from `v` to the vertices it can be reached from. */
  function InEdges(directed: bool, edges: seq<Edge>, v: nat): seq<Edge> {
    OutEdges(directed, Flips(edges), v)
  }

  /** The arcs, taken backwards. */
  ghost function Backwards(arcs: set<Edge>): set<Edge> {
    set e | e in arcs :: Flip(e)
  }

  lemma FlipsAreBackwards(directed: bool, edges: seq<Edge>)
    ensures Arcs(directed, Flips(edges)) == Backwards(Arcs(directed, edges))
  {
    var flips := Flips(edges);
    assert forall e :: e in edges ==> Flip(Flip(e)) == e;
    forall e ensures e in flips <==> exists f :: f in edges && e == Flip(f) {
      if f :| f in edges && e == Flip(f) {
        var i :| 0 <= i < |edges| && edges[i] == f;
        assert flips[i] == e;
      }
    }
    forall e ensures e in Arcs(directed, flips) <==> e in Backwards(Arcs(directed, edges)) {
      if e in Backwards(Arcs(directed, edges)) {
        var f :| f in Arcs(directed, edges) && e == Flip(f);
        if f !in edges {
          var g :| g in edges && f == Flip(g);
          assert e == Flip(Flip(g)) && Flip(g) in flips;
        }
      }
    }
  }

  function Reverse(p: seq<Edge>): (r: seq<Edge>)
    ensures |r| == |p|
  {
    if p == [] then [] else Reverse(p[1..]) + [Flip(p[0])]
  }

  lemma {:induction false} ReverseWalk(arcs: set<Edge>, u: nat, p: seq<Edge>, v: nat)
    requires IsWalk(arcs, u, p, v)
    ensures IsWalk(Backwards(arcs), v, Reverse(p), u) && Cost(Reverse(p)) == Cost(p)
    decreases p
  {
    if p != [] {
      ReverseWalk(arcs, p[0].target, p[1..], v);
      WalkSnoc(Backwards(arcs), v, Reverse(p[1..]), Flip(p[0]));
    }
  }

  lemma {:induction false} ReversePrefix(p: seq<Edge>, k: nat)
    requires k <= |p|
    ensures Reverse(p)[..|p| - k] == Reverse(p[k..])
  {
    if k == 0 {
      assert p[0..] == p && Reverse(p)[..|p|] == Reverse(p);
    } else {
      ReversePrefix(p[1..], k - 1);
      assert p[1..][k - 1..] == p[k..];
    }
  }

  lemma {:induction false} WalkSplit(arcs: set<Edge>, u: nat, p: seq<Edge>, v: nat, k: nat)
    requires IsWalk(arcs, u, p, v) && k <= |p|
    ensures IsWalk(arcs, u, p[..k], At(u, p, k)) && IsWalk(arcs, At(u, p, k), p[k..], v)
    ensures Cost(p[..k]) + Cost(p[k..]) == Cost(p)
    decreases p
  {
    if k == 0 {
      assert p[..0] == [] && p[0..] == p;
    } else {
      WalkSplit(arcs, p[0].target, p[1..], v, k - 1);
      assert p[..k][1..] == p[1..][..k - 1] && p[1..][k - 1..] == p[k..];
      assert p[..k] == [p[0]] + p[1..][..k - 1];
    }
  }

  lemma {:induction false} WalkEnd(arcs: set<Edge>, u: nat, p: seq<Edge>, v: nat)
    requires IsWalk(arcs, u, p, v)
    ensures At(u, p, |p|) == v
    decreases p
  {
    if p != [] {
      WalkEnd(arcs, p[0].target, p[1..], v);
    }
  }

  /** Going back the last edges of a walk costs what they cost and ends where they began. */
  lemma {:induction false} BackTo(arcs: set<Edge>, u: nat, p: seq<Edge>, v: nat, k: nat)
    requires IsWalk(arcs, u, p, v) && k <= |p|
    ensures Cost(Reverse(p)[..|p| - k]) == Cost(p[k..])
    ensures At(v, Reverse(p), |p| - k) == At(u, p, k)
  {
    var r := Reverse(p);
    WalkSplit(arcs, u, p, v, k);
    ReversePrefix(p, k);
    ReverseWalk(arcs, At(u, p, k), p[k..], v);
    WalkEnd(Backwards(arcs), v, Reverse(p[k..]), At(u, p, k));
    assert k < |p| ==> r[..|p| - k][|p| - k - 1] == r[|p| - k - 1];
  }

  // ---------- the two searches together ----------

  /** No vertex finished from both sides gives a cheaper way through than the best one found. */
  ghost predicate Meeting(f: Half, b: Half, best: Label)
    requires |f.cost| == |f.finished| == |b.cost| == |b.finished|
  {
    forall v :: 0 <= v < |f.cost| && f.finished[v] && b.finished[v] && f.cost[v].Finite? && b.cost[v].Finite? ==>
      best.Finite? && best.cost <= f.cost[v].cost + b.cost[v].cost
  }

  /** The best cost is that of the way through `vMin`. */
  ghost predicate Attained(f: Half, b: Half, best: Label, vMin: nat)
    requires |f.cost| == |f.finished| == |b.cost| == |b.finished|
  {
    best.Finite? ==>
      && vMin < |f.cost| && f.finished[vMin] && b.finished[vMin] && f.cost[vMin].Finite? && b.cost[vMin].Finite?
      && best.cost == f.cost[vMin].cost + b.cost[vMin].cost
  }

  /** Ties go to the forward search: it starts first, and alone until it has to go beyond distance 0. */
  ghost predicate ForwardFirst(s: nat, t: nat, f: Half, b: Half)
    requires |f.cost| == |f.finished| == |b.finished| && s < |f.cost| && t < |f.cost|
  {
    && (f.finished[s] || !b.finished[t])
    && (!b.finished[t] ==> forall v :: 0 <= v < |f.cost| && f.finished[v] ==> f.cost[v] == Finite(0))
  }

  /** Some walk from `s` costs something. */
  ghost predicate Costly(arcs: set<Edge>, s: nat) {
    exists p, v :: IsWalk(arcs, s, p, v) && Cost(p) > 0
  }

  /** Some vertex lies at a positive distance from `s`. */
  ghost predicate GoesFar(arcs: set<Edge>, s: nat) {
    exists v, d: nat :: IsDist(arcs, s, v, d) && d > 0
  }

  ghost predicate Searching(arcs: set<Edge>, s: nat, t: nat, f: Half, ft: seq<nat>, b: Half, bt: seq<nat>) {
    && Dijkstra(arcs, s, f, ft, {}) && Dijkstra(Backwards(arcs), t, b, bt, {}) && |f.cost| == |b.cost|
    && ForwardFirst(s, t, f, b) && (b.finished[t] ==> Costly(arcs, s))
  }

  // ---------- what the searches know ----------

  /** A finished vertex carries its distance. */
  lemma FinishedIsDistance(arcs: set<Edge>, s: nat, h: Half, trail: seq<nat>, v: nat)
    requires Dijkstra(arcs, s, h, trail, {}) && v < |h.cost| && h.finished[v]
    ensures h.cost[v].Finite? && IsDist(arcs, s, v, h.cost[v].cost)
  {
    hide Waiting, Begun, Trailed, Climbs, Rooted, InOrder, Relaxed;
    forall p | IsWalk(arcs, s, p, v) ensures h.cost[v].cost <= Cost(p) {
      var i := Frontier(arcs, s, h, trail, s, 0, p, v);
      WalkEnd(arcs, s, p, v);
      if i <= |p| {
        WalkSplit(arcs, s, p, v, i);
      } else {
        assert Covered(h, s, 0, p, |p|);
        assert p[..|p|] == p;
      }
    }
  }

  /** A walk is served by `best` exactly, or up to less than one of its own edges. */
  ghost predicate Served(best: Label, p: seq<Edge>) {
    best.Finite? && (best.cost <= Cost(p) || exists i :: 0 <= i < |p| && best.cost < Cost(p) + p[i].cost)
  }

  /** Both searches have gone past some vertex of the walk. */
  lemma {:induction false} Overlap(arcs: set<Edge>, s: nat, t: nat, f: Half, b: Half, best: Label, p: seq<Edge>, i: nat)
    requires |f.cost| == |f.finished| == |b.cost| == |b.finished|
    requires Meeting(f, b, best) && IsWalk(arcs, s, p, t) && i <= |p|
    requires Covered(f, s, 0, p, i) && Covered(b, t, 0, Reverse(p), |p| - i)
    ensures best.Finite? && best.cost <= Cost(p)
  {
    BackTo(arcs, s, p, t, i);
    WalkSplit(arcs, s, p, t, i);
  }

  /** The searches stop early at a vertex that both have finished, farther through than the best way found. */
  ghost predicate Overshot(f: Half, b: Half, best: Label, x: nat)
    requires |f.cost| == |f.finished| == |b.cost| == |b.finished|
  {
    && x < |f.cost| && f.finished[x] && b.finished[x] && f.cost[x].Finite? && b.cost[x].Finite?
    && best.Finite? && best.cost < f.cost[x].cost + b.cost[x].cost
  }

  lemma WhileBegun(arcs: set<Edge>, s: nat, h: Half, trail: seq<nat>, x: nat)
    requires Dijkstra(arcs, s, h, trail, {}) && x < |h.finished| && h.finished[x]
    ensures h.finished[s]
  {
  }

  /** Stopping early is safe up to one edge of the walk. */
  lemma {:induction false} StoppedIsServed(arcs: set<Edge>, s: nat, t: nat, f: Half, ft: seq<nat>, b: Half,
                                           bt: seq<nat>, best: Label, x: nat, p: seq<Edge>)
    requires Dijkstra(arcs, s, f, ft, {}) && Dijkstra(Backwards(arcs), t, b, bt, {}) && |f.cost| == |b.cost|
    requires Meeting(f, b, best) && Overshot(f, b, best, x) && IsWalk(arcs, s, p, t)
    ensures Served(best, p)
  {
    WhileBegun(arcs, s, f, ft, x);
    WhileBegun(Backwards(arcs), t, b, bt, x);
    ReverseWalk(arcs, s, p, t);
    var i := Frontier(arcs, s, f, ft, s, 0, p, t);
    var j := Frontier(Backwards(arcs), t, b, bt, t, 0, Reverse(p), s);
    if i + j >= |p| + 2 {
      Overlap(arcs, s, t, f, b, best, p, i - 1);
    } else {
      KeysBound(f, b, best, x, p, i, j, arcs, s, t);
    }
  }

  /** The two queues have got to the same edge of the walk, or the best way is cheaper than the walk. */
  lemma {:induction false} KeysBound(f: Half, b: Half, best: Label, x: nat, p: seq<Edge>, i: nat, j: nat,
                                     arcs: set<Edge>, s: nat, t: nat)
    requires |f.cost| == |f.finished| == |b.cost| == |b.finished| && Overshot(f, b, best, x)
    requires Fits(arcs, |f.cost|) && Fits(Backwards(arcs), |b.cost|)
    requires Settled(arcs, f) && Settled(Backwards(arcs), b) && IsWalk(arcs, s, p, t)
    requires 1 <= i && 1 <= j && i + j <= |p| + 1
    requires exists y :: y in f.queue && y.cost <= Cost(p[..i])
    requires exists y :: y in b.queue && y.cost <= Cost(Reverse(p)[..j])
    ensures Served(best, p)
  {
    hide Relaxed, IsWalk, Fits;
    BackTo(arcs, s, p, t, |p| - j);
    if i + j == |p| + 1 {
      Straddle(arcs, s, p, t, i - 1);
      hide Cost;
      assert best.cost < Cost(p) + p[i - 1].cost;
    } else {
      PrefixCost(arcs, s, p, t, i, |p| - j);
      WalkSplit(arcs, s, p, t, |p| - j);
      hide Cost;
    }
  }

  lemma {:induction false} Straddle(arcs: set<Edge>, s: nat, p: seq<Edge>, t: nat, k: nat)
    requires IsWalk(arcs, s, p, t) && k < |p|
    ensures Cost(p[..k + 1]) + Cost(p[k..]) == Cost(p) + p[k].cost
  {
    WalkSplit(arcs, s, p, t, k);
    WalkSplit(arcs, s, p, t, k + 1);
    assert p[k..][1..] == p[k + 1..];
  }

  lemma {:induction false} PrefixCost(arcs: set<Edge>, s: nat, p: seq<Edge>, t: nat, i: nat, k: nat)
    requires IsWalk(arcs, s, p, t) && i <= k <= |p|
    ensures Cost(p[..i]) <= Cost(p[..k])
  {
    WalkSplit(arcs, s, p, t, k);
    WalkSplit(arcs, s, p[..k], At(s, p, k), i);
    assert p[..k][..i] == p[..i];
  }

  /** Once a queue is empty, no walk is cheaper than the best way found, provided the backward search began. */
  lemma {:induction false} DrainedIsExact(arcs: set<Edge>, s: nat, t: nat, f: Half, ft: seq<nat>, b: Half, bt: seq<nat>,
                                          best: Label, p: seq<Edge>)
    requires Dijkstra(arcs, s, f, ft, {}) && Dijkstra(Backwards(arcs), t, b, bt, {}) && |f.cost| == |b.cost|
    requires Meeting(f, b, best) && IsWalk(arcs, s, p, t)
    requires (f.queue == [] || b.queue == []) && f.finished[s] && b.finished[t]
    ensures best.Finite? && best.cost <= Cost(p)
  {
    ReverseWalk(arcs, s, p, t);
    var i := Frontier(arcs, s, f, ft, s, 0, p, t);
    var j := Frontier(Backwards(arcs), t, b, bt, t, 0, Reverse(p), s);
    Overlap(arcs, s, t, f, b, best, p, i - 1);
  }

  // ---------- what one step keeps ----------

  /** `Meeting`, except perhaps for a vertex that has just been finished from one side. */
  ghost predicate MeetingBut(f: Half, b: Half, best: Label, x: nat)
    requires |f.cost| == |f.finished| == |b.cost| == |b.finished|
  {
    forall v ::
      0 <= v < |f.cost| && v != x && f.finished[v] && b.finished[v] && f.cost[v].Finite? && b.cost[v].Finite? ==>
      best.Finite? && best.cost <= f.cost[v].cost + b.cost[v].cost
  }

  lemma ForwardStep(arcs: set<Edge>, s: nat, t: nat, f: Half, ft: seq<nat>, b: Half, bt: seq<nat>, f': Half,
                    ft': seq<nat>)
    requires Searching(arcs, s, t, f, ft, b, bt) && f.queue != [] && b.queue != []
    requires !(b.queue[0].cost < f.queue[0].cost)
    requires Dijkstra(arcs, s, f', ft', {}) && Extends(f, f', f.queue[0].vertex)
    requires f.queue[0].vertex < |f.finished|
    requires f.finished[f.queue[0].vertex] || f.cost[f.queue[0].vertex] == Finite(f.queue[0].cost)
    ensures Searching(arcs, s, t, f', ft', b, bt)
  {
    hide Labelled, Waiting, Settled, Trailed, Climbs, Rooted, Costly;
    var x := f.queue[0];
    if !b.finished[t] {
      assert b.queue == [Entry(0, t)];
      assert x.cost == 0;
    }
    if !f'.finished[s] {
      assert !f.finished[s];
    }
  }

  lemma FinishedFinite(arcs: set<Edge>, s: nat, h: Half, trail: seq<nat>, v: nat)
    requires Dijkstra(arcs, s, h, trail, {}) && v < |h.cost|
    ensures |h.finished| == |h.cost| && (h.finished[v] ==> h.cost[v].Finite?)
  {
  }

  lemma StillMeeting(f: Half, b: Half, f': Half, b': Half, best: Label, vMin: nat, x: nat)
    requires |f.cost| == |f.finished| == |b.cost| == |b.finished|
    requires Meeting(f, b, best) && Attained(f, b, best, vMin)
    requires (b' == b && Extends(f, f', x)) || (f' == f && Extends(b, b', x))
    ensures |f'.cost| == |f'.finished| == |b'.cost| == |b'.finished| == |f.cost|
    ensures MeetingBut(f', b', best, x) && Attained(f', b', best, vMin)
  {
  }

  lemma BackwardStep(arcs: set<Edge>, s: nat, t: nat, f: Half, ft: seq<nat>, b: Half, bt: seq<nat>, b': Half,
                     bt': seq<nat>)
    requires Searching(arcs, s, t, f, ft, b, bt) && f.queue != [] && b.queue != []
    requires b.queue[0].cost < f.queue[0].cost
    requires Dijkstra(Backwards(arcs), t, b', bt', {}) && Extends(b, b', b.queue[0].vertex)
    ensures Searching(arcs, s, t, f, ft, b', bt')
  {
    hide Waiting, Settled, Trailed, Climbs, Rooted, Sound;
    var x := f.queue[0];
    assert f.finished[s];
    assert Walked(arcs, s, x) by {
      assert x in f.queue;
    }
    if b'.finished[t] {
      assert Costly(arcs, s);
    } else {
      assert !b.finished[t];
    }
  }

  /** How many vertices are not finished. */
  function Open(finished: seq<bool>): nat {
    if finished == [] then 0 else (if finished[0] then 0 else 1) + Open(finished[1..])
  }

  lemma {:induction false} FinishingCloses(finished: seq<bool>, v: nat)
    requires v < |finished| && !finished[v]
    ensures Open(finished[v := true]) < Open(finished)
  {
    var closed := finished[v := true];
    if v == 0 {
      assert closed[1..] == finished[1..];
    } else {
      assert closed[1..] == finished[1..][v - 1 := true];
      FinishingCloses(finished[1..], v - 1);
    }
  }

  /** What makes the loop end: one more vertex finished, or one entry fewer in the queue. */
  ghost predicate Closer(h: Half, h': Half) {
    Open(h'.finished) < Open(h.finished) || (h'.finished == h.finished && |h'.queue| < |h.queue|)
  }

  lemma PopExtends(h: Half, h': Half, x: nat)
    requires |h.cost| == |h.finished| && x < |h.cost| && h.queue != [] && h' == h.(queue := h.queue[1..])
    ensures Extends(h, h', x) && Closer(h, h')
  {
  }

  lemma FinishingCloser(h: Half, popped: Half, h': Half, x: nat)
    requires h.queue != [] && popped == h.(queue := h.queue[1..])
    requires Extends(popped, h', x) && !h.finished[x] && h'.finished[x]
    ensures Extends(h, h', x) && Closer(h, h')
  {
    FinishingCloses(h.finished, x);
  }

  // ---------- what the answer is worth ----------

  /** The cost found, for a search from `s` to `t` that `stopped` early or ran a queue dry. */
  ghost predicate Answer(arcs: set<Edge>, s: nat, t: nat, best: Label, stopped: bool) {
    && (best.Finite? ==> Reachable(arcs, s, t) && Costly(arcs, s))
    && (Reachable(arcs, s, t) && GoesFar(arcs, s) ==> best.Finite?)
    && (best.Finite? ==> exists p :: IsWalk(arcs, s, p, t) && Cost(p) == best.cost)
    && (best.Finite? ==> forall p :: IsWalk(arcs, s, p, t) ==> Served(best, p))
    && (best.Finite? && !stopped ==> IsDist(arcs, s, t, best.cost))
  }

  /** The best cost is that of a real walk, there and back again. */
  lemma AttainedIsWalk(arcs: set<Edge>, s: nat, t: nat, f: Half, ft: seq<nat>, b: Half, bt: seq<nat>, best: Label,
                       vMin: nat)
    returns (p: seq<Edge>)
    requires Dijkstra(arcs, s, f, ft, {}) && Dijkstra(Backwards(arcs), t, b, bt, {}) && |f.cost| == |b.cost|
    requires Attained(f, b, best, vMin) && best.Finite?
    ensures IsWalk(arcs, s, p, t) && Cost(p) == best.cost
  {
    hide Waiting, Settled, Begun, Trailed, Climbs, Rooted, Real;
    var q :| IsWalk(arcs, s, q, vMin) && Cost(q) == f.cost[vMin].cost;
    var r :| IsWalk(Backwards(arcs), t, r, vMin) && Cost(r) == b.cost[vMin].cost;
    ReverseWalk(Backwards(arcs), t, r, vMin);
    BackAndForth(arcs);
    WalkAppend(arcs, s, q, vMin, Reverse(r), t);
    p := q + Reverse(r);
  }

  lemma BackAndForth(arcs: set<Edge>)
    ensures Backwards(Backwards(arcs)) == arcs
  {
    forall e ensures e in Backwards(Backwards(arcs)) <==> e in arcs {
      if e in arcs {
        assert Flip(e) in Backwards(arcs) && e == Flip(Flip(e));
      }
    }
  }

  lemma StoppedAnswer(arcs: set<Edge>, s: nat, t: nat, f: Half, ft: seq<nat>, b: Half, bt: seq<nat>, best: Label,
                      vMin: nat, x: nat)
    requires Searching(arcs, s, t, f, ft, b, bt) && Meeting(f, b, best) && Attained(f, b, best, vMin)
    requires Overshot(f, b, best, x)
    ensures Answer(arcs, s, t, best, true)
  {
    hide IsDist, IsWalk, Served, Meeting, Costly, GoesFar;
    forall p | IsWalk(arcs, s, p, t) ensures Served(best, p) {
      StoppedIsServed(arcs, s, t, f, ft, b, bt, best, x, p);
    }
    var p := AttainedIsWalk(arcs, s, t, f, ft, b, bt, best, vMin);
    WhileBegun(Backwards(arcs), t, b, bt, x);
    hide Dijkstra;
  }

  /** If the backward search never began, every vertex within reach lies at distance 0. */
  lemma NeverBack(arcs: set<Edge>, s: nat, t: nat, f: Half, ft: seq<nat>, b: Half, bt: seq<nat>)
    requires Searching(arcs, s, t, f, ft, b, bt) && f.queue == [] && !b.finished[t]
    ensures !GoesFar(arcs, s)
  {
    hide IsWalk, Waiting, Settled, Trailed, Climbs, Rooted, Sound, Real;
    forall v, d: nat | IsDist(arcs, s, v, d) ensures d == 0 {
      var p :| IsWalk(arcs, s, p, v) && Cost(p) == d;
      var i := Frontier(arcs, s, f, ft, s, 0, p, v);
      WalkEnd(arcs, s, p, v);
      assert Covered(f, s, 0, p, |p|);
      FinishedIsDistance(arcs, s, f, ft, v);
      DistUnique(arcs, s, v, d, 0);
    }
  }

  lemma DrainedAnswer(arcs: set<Edge>, s: nat, t: nat, f: Half, ft: seq<nat>, b: Half, bt: seq<nat>, best: Label,
                      vMin: nat)
    requires Searching(arcs, s, t, f, ft, b, bt) && Meeting(f, b, best) && Attained(f, b, best, vMin)
    requires f.queue == [] || b.queue == []
    ensures Answer(arcs, s, t, best, false)
  {
    hide IsWalk, Meeting, Costly, GoesFar, Labelled, Waiting, Settled, Trailed, Climbs, Rooted;
    if best.Finite? {
      WhileBegun(Backwards(arcs), t, b, bt, vMin);
      var p := AttainedIsWalk(arcs, s, t, f, ft, b, bt, best, vMin);
    }
    if b.finished[t] {
      forall p | IsWalk(arcs, s, p, t) ensures best.Finite? && best.cost <= Cost(p) {
        DrainedIsExact(arcs, s, t, f, ft, b, bt, best, p);
      }
    } else {
      NeverBack(arcs, s, t, f, ft, b, bt);
    }
    hide Dijkstra;
  }

  /** With the distance at hand: never below it, never more than twice it, and less than one edge of a
      shortest walk above it. */
  lemma {:induction false} AnswerAgainstDistance(arcs: set<Edge>, s: nat, t: nat, best: Label, stopped: bool, d: nat)
    requires Answer(arcs, s, t, best, stopped) && IsDist(arcs, s, t, d) && best.Finite?
    ensures d <= best.cost <= 2 * d
    ensures best.cost == d ||
            exists p: seq<Edge>, i :: IsWalk(arcs, s, p, t) && Cost(p) == d && 0 <= i < |p| && best.cost < d + p[i].cost
  {
    hide IsWalk;
    var p: seq<Edge> :| IsWalk(arcs, s, p, t) && Cost(p) == d;
    assert Served(best, p);
    if i: nat :| i < |p| && best.cost < Cost(p) + p[i].cost {
      OneOfMany(p, i);
    }
  }

  /** If every arc costs nothing or the same, the answer is exact: the costs that `CostCheck` of the binary
      breadth-first search accepts. */
  lemma ZeroOrIsExact(arcs: set<Edge>, s: nat, t: nat, best: Label, stopped: bool, d: nat, w: nat)
    requires Answer(arcs, s, t, best, stopped) && IsDist(arcs, s, t, d) && best.Finite? && ZeroOr(arcs, w)
    ensures best.cost == d
  {
    hide IsWalk;
    var p: seq<Edge> :| IsWalk(arcs, s, p, t) && Cost(p) == d;
    var q: seq<Edge> :| IsWalk(arcs, s, q, t) && Cost(q) == best.cost;
    assert Served(best, p);
    var j := MultipleCost(arcs, s, p, t, w);
    var k := MultipleCost(arcs, s, q, t, w);
    if i: nat :| i < |p| && best.cost < Cost(p) + p[i].cost {
      WalkStays(arcs, s, p, t);
      assert p[i] in arcs;
      MultiplesApart(w, j, k);
    }
  }

  /** If all arcs cost something, the search between two vertices succeeds exactly when there is a way. */
  lemma PositiveCosts(arcs: set<Edge>, s: nat, t: nat, best: Label, stopped: bool)
    requires Answer(arcs, s, t, best, stopped) && s != t && forall e :: e in arcs ==> e.cost > 0
    ensures best.Finite? <==> Reachable(arcs, s, t)
  {
    if Reachable(arcs, s, t) {
      var p :| IsWalk(arcs, s, p, t);
      var d := Nearest(arcs, s, p, t);
      var q :| IsWalk(arcs, s, q, t) && Cost(q) == d;
      assert q != [] && q[0] in arcs;
      assert GoesFar(arcs, s);
    }
  }

  lemma {:induction false} Nearest(arcs: set<Edge>, s: nat, p: seq<Edge>, t: nat) returns (d: nat)
    requires IsWalk(arcs, s, p, t)
    ensures IsDist(arcs, s, t, d)
    decreases Cost(p)
  {
    hide IsWalk;
    if q :| IsWalk(arcs, s, q, t) && Cost(q) < Cost(p) {
      d := Nearest(arcs, s, q, t);
    } else {
      d := Cost(p);
    }
  }

  /** If no arc costs anything, the search finds no way at all, whatever can be reached. */
  lemma FreeOfCharge(arcs: set<Edge>, s: nat, t: nat, best: Label, stopped: bool)
    requires Answer(arcs, s, t, best, stopped) && forall e :: e in arcs ==> e.cost == 0
    ensures best.Infinity?
  {
    if best.Finite? {
      var p: seq<Edge>, v :| IsWalk(arcs, s, p, v) && Cost(p) > 0;
      FreeWalk(arcs, s, p, v);
    }
  }

  lemma {:induction false} OneOfMany(p: seq<Edge>, i: nat)
    requires i < |p|
    ensures p[i].cost <= Cost(p)
  {
    if i > 0 {
      OneOfMany(p[1..], i - 1);
    }
  }

  lemma {:induction false} MultipleCost(arcs: set<Edge>, u: nat, p: seq<Edge>, v: nat, w: nat) returns (k: nat)
    requires IsWalk(arcs, u, p, v) && ZeroOr(arcs, w)
    ensures Cost(p) == w * k
    decreases p
  {
    if p == [] {
      k := 0;
    } else {
      k := MultipleCost(arcs, p[0].target, p[1..], v, w);
      k := if p[0].cost == 0 then k else k + 1;
    }
  }

  lemma {:induction false} FreeWalk(arcs: set<Edge>, u: nat, p: seq<Edge>, v: nat)
    requires IsWalk(arcs, u, p, v) && forall e :: e in arcs ==> e.cost == 0
    ensures Cost(p) == 0
    decreases p
  {
    if p != [] {
      FreeWalk(arcs, p[0].target, p[1..], v);
    }
  }

  lemma {:induction false} WalkStays(arcs: set<Edge>, u: nat, p: seq<Edge>, v: nat)
    requires IsWalk(arcs, u, p, v)
    ensures forall e :: e in p ==> e in arcs
    decreases p
  {
    if p != [] {
      WalkStays(arcs, p[0].target, p[1..], v);
      assert forall e :: e in p <==> e == p[0] || e in p[1..];
    }
  }

  lemma {:induction false} MultiplesApart(w: nat, a: nat, b: nat)
    ensures a < b ==> w * a + w <= w * b
    ensures b <= a ==> w * b <= w * a
  {
    if b > 0 && a > 0 {
      MultiplesApart(w, a - 1, b - 1);
      assert w * a == w * (a - 1) + w && w * b == w * (b - 1) + w;
    } else if b > 1 {
      MultiplesApart(w, a, b - 1);
      assert w * b == w * (b - 1) + w;
    }
  }

  /** The invariant of the loop. */
  ghost predicate Underway(arcs: set<Edge>, s: nat, t: nat, f: Half, ft: seq<nat>, b: Half, bt: seq<nat>, best: Label,
                           vMin: nat) {
    Searching(arcs, s, t, f, ft, b, bt) && Meeting(f, b, best) && Attained(f, b, best, vMin)
  }

  lemma StartUnderway(arcs: set<Edge>, n: nat, s: nat, t: nat)
    requires Fits(arcs, n) && s < n && t < n
    ensures Underway(arcs, s, t, Start(n, s), [], Start(n, t), [], Infinity, 0)
  {
    assert Fits(Backwards(arcs), n);
    StartIsDijkstra(arcs, n, s);
    StartIsDijkstra(Backwards(arcs), n, t);
    hide Dijkstra;
  }

  lemma TopOfForward(arcs: set<Edge>, s: nat, t: nat, f: Half, ft: seq<nat>, b: Half, bt: seq<nat>, best: Label,
                     vMin: nat)
    requires Underway(arcs, s, t, f, ft, b, bt, best, vMin) && f.queue != []
    ensures var x, f' := f.queue[0], f.(queue := f.queue[1..]);
      && x.vertex < |f.finished| == |f.cost| == |b.finished| && f.cost[x.vertex].Finite?
      && Extends(f, f', x.vertex) && Closer(f, f')
      && (f.finished[x.vertex] ==> Dijkstra(arcs, s, f', ft, {}))
      && (!f.finished[x.vertex] ==>
            f.cost[x.vertex].cost == x.cost && Dijkstra(arcs, s, f', ft, {x.vertex}) && Between(f', x.vertex))
  {
    Popped(arcs, s, f, ft);
    assert Shaped(arcs, s, f) && Shaped(Backwards(arcs), t, b);
    hide Dijkstra;
    PopExtends(f, f.(queue := f.queue[1..]), f.queue[0].vertex);
  }

  lemma TopOfBackward(arcs: set<Edge>, s: nat, t: nat, f: Half, ft: seq<nat>, b: Half, bt: seq<nat>, best: Label,
                      vMin: nat)
    requires Underway(arcs, s, t, f, ft, b, bt, best, vMin) && b.queue != []
    ensures var x, b' := b.queue[0], b.(queue := b.queue[1..]);
      && x.vertex < |b.finished| == |b.cost| == |f.finished| && b.cost[x.vertex].Finite?
      && Extends(b, b', x.vertex) && Closer(b, b')
      && (b.finished[x.vertex] ==> Dijkstra(Backwards(arcs), t, b', bt, {}))
      && (!b.finished[x.vertex] ==>
            b.cost[x.vertex].cost == x.cost && Dijkstra(Backwards(arcs), t, b', bt, {x.vertex}) &&
              Between(b', x.vertex))
  {
    Popped(Backwards(arcs), t, b, bt);
    assert Shaped(arcs, s, f) && Shaped(Backwards(arcs), t, b);
    hide Dijkstra;
    PopExtends(b, b.(queue := b.queue[1..]), b.queue[0].vertex);
  }

  /** After a round on the forward side all that is left is to look at the vertex. */
  lemma ForwardRound(arcs: set<Edge>, s: nat, t: nat, f: Half, ft: seq<nat>, b: Half, bt: seq<nat>, best: Label,
                     vMin: nat, f': Half, ft': seq<nat>)
    requires Underway(arcs, s, t, f, ft, b, bt, best, vMin) && f.queue != [] && b.queue != []
    requires !(b.queue[0].cost < f.queue[0].cost)
    requires f.queue[0].vertex < |f.finished| == |f.cost|
    requires f.finished[f.queue[0].vertex] || f.cost[f.queue[0].vertex] == Finite(f.queue[0].cost)
    requires Dijkstra(arcs, s, f', ft', {}) && Extends(f, f', f.queue[0].vertex)
    ensures Searching(arcs, s, t, f', ft', b, bt) && Lookable(f', b, best, vMin, f.queue[0].vertex)
  {
    var x := f.queue[0].vertex;
    ForwardStep(arcs, s, t, f, ft, b, bt, f', ft');
    FinishedFinite(arcs, s, f', ft', x);
    FinishedFinite(Backwards(arcs), t, b, bt, x);
    hide Dijkstra;
    StillMeeting(f, b, f', b, best, vMin, x);
  }

  lemma BackwardRound(arcs: set<Edge>, s: nat, t: nat, f: Half, ft: seq<nat>, b: Half, bt: seq<nat>, best: Label,
                      vMin: nat, b': Half, bt': seq<nat>)
    requires Underway(arcs, s, t, f, ft, b, bt, best, vMin) && f.queue != [] && b.queue != []
    requires b.queue[0].cost < f.queue[0].cost
    requires b.queue[0].vertex < |b.finished| == |b.cost|
    requires Dijkstra(Backwards(arcs), t, b', bt', {}) && Extends(b, b', b.queue[0].vertex)
    ensures Searching(arcs, s, t, f, ft, b', bt') && Lookable(f, b', best, vMin, b.queue[0].vertex)
  {
    var x := b.queue[0].vertex;
    BackwardStep(arcs, s, t, f, ft, b, bt, b', bt');
    assert |b.cost| == |f.cost|;
    FinishedFinite(arcs, s, f, ft, x);
    FinishedFinite(Backwards(arcs), t, b', bt', x);
    hide Dijkstra;
    StillMeeting(f, b, f, b', best, vMin, x);
  }

  /** Only the vertex `x` remains to be looked at. */
  ghost predicate Lookable(f: Half, b: Half, best: Label, vMin: nat, x: nat) {
    && |f.cost| == |f.finished| == |b.cost| == |b.finished| && x < |f.cost|
    && (f.finished[x] ==> f.cost[x].Finite?) && (b.finished[x] ==> b.cost[x].Finite?)
    && MeetingBut(f, b, best, x) && Attained(f, b, best, vMin)
  }

  lemma StillUnderway(arcs: set<Edge>, s: nat, t: nat, f: Half, ft: seq<nat>, b: Half, bt: seq<nat>, best: Label,
                      vMin: nat, x: nat)
    requires Searching(arcs, s, t, f, ft, b, bt) && Meeting(f, b, best) && Attained(f, b, best, vMin)
    ensures Underway(arcs, s, t, f, ft, b, bt, best, vMin)
    ensures |f.cost| == |f.finished| == |b.cost| == |b.finished| && (Overshot(f, b, best, x) ==> Overtaken(f, b, best))
  {
  }

  /** Some vertex finished by both sides lies on a dearer way than the best one. */
  ghost predicate Overtaken(f: Half, b: Half, best: Label) {
    |f.cost| == |f.finished| == |b.cost| == |b.finished| && exists x :: Overshot(f, b, best, x)
  }

  /** The loop's exits. */
  lemma AtTheEnd(arcs: set<Edge>, s: nat, t: nat, f: Half, ft: seq<nat>, b: Half, bt: seq<nat>, best: Label, vMin: nat,
                 stopped: bool)
    requires Underway(arcs, s, t, f, ft, b, bt, best, vMin)
    requires if stopped then Overtaken(f, b, best) else f.queue == [] || b.queue == []
    ensures Answer(arcs, s, t, best, stopped)
  {
    hide Dijkstra, ForwardFirst, Overshot, Meeting, Attained, Answer;
    if stopped {
      var x :| Overshot(f, b, best, x);
      StoppedAnswer(arcs, s, t, f, ft, b, bt, best, vMin, x);
    } else {
      DrainedAnswer(arcs, s, t, f, ft, b, bt, best, vMin);
    }
  }

  // ---------- the loop as a function ----------

  /** Everything the loop changes. */
  datatype Both = Both(forward: Half, backward: Half, best: Label, vMin: nat)

  /** Takes the top off the queue and explores it if it is not finished. */
  function Advanced(h: Half, out: seq<Edge>): Half
    requires h.queue != []
  {
    var x, popped := h.queue[0], h.(queue := h.queue[1..]);
    if x.vertex < |h.finished| && !h.finished[x.vertex] then Explored(popped, out, x) else popped
  }

  /** What looking at `v` does, and whether it ends the search. */
  function Looked(both: Both, v: nat): (Both, bool) {
    var f, b := both.forward, both.backward;
    if v < |f.finished| == |f.cost| == |b.finished| == |b.cost| && f.finished[v] && b.finished[v] &&
       f.cost[v].Finite? && b.cost[v].Finite?
    then
      var through := f.cost[v].cost + b.cost[v].cost;
      if both.best.Infinity? || both.best.cost >= through then (both.(best := Finite(through), vMin := v), false)
      else (both, true)
    else (both, false)
  }

  /** One round of the loop. */
  function Round(directed: bool, edges: seq<Edge>, both: Both): (Both, bool)
    requires both.forward.queue != [] && both.backward.queue != []
  {
    var x, y := both.forward.queue[0], both.backward.queue[0];
    if y.cost < x.cost then
      Looked(both.(backward := Advanced(both.backward, InEdges(directed, edges, y.vertex))), y.vertex)
    else
      Looked(both.(forward := Advanced(both.forward, OutEdges(directed, edges, x.vertex))), x.vertex)
  }

  /** At most `rounds` rounds. */
  function Play(directed: bool, edges: seq<Edge>, both: Both, rounds: nat): (Both, bool)
    decreases rounds
  {
    if rounds == 0 || both.forward.queue == [] || both.backward.queue == [] then (both, false)
    else
      var r := Round(directed, edges, both);
      if r.1 then r else Play(directed, edges, r.0, rounds - 1)
  }

  /** After `rounds` rounds the search is over, and playing on changes nothing. */
  ghost predicate PlaysOut(directed: bool, edges: seq<Edge>, start: Both, end: (Both, bool)) {
    exists rounds: nat :: PlaysTo(directed, edges, start, rounds, end)
  }

  ghost predicate PlaysTo(directed: bool, edges: seq<Edge>, start: Both, rounds: nat, end: (Both, bool)) {
    forall m: nat :: m >= rounds ==> Play(directed, edges, start, m) == end
  }

  /** After `rounds` rounds the search has got to `now`. */
  ghost predicate Played(directed: bool, edges: seq<Edge>, start: Both, now: Both, rounds: nat) {
    forall more: nat :: Play(directed, edges, start, rounds + more) == Play(directed, edges, now, more)
  }

  lemma PlayOn(directed: bool, edges: seq<Edge>, start: Both, now: Both, rounds: nat, next: (Both, bool))
    requires Played(directed, edges, start, now, rounds)
    requires now.forward.queue != [] && now.backward.queue != [] && next == Round(directed, edges, now)
    ensures if next.1 then PlaysOut(directed, edges, start, next)
            else Played(directed, edges, start, next.0, rounds + 1)
  {
    hide Round;
    if next.1 {
      forall m: nat | m >= rounds + 1 ensures Play(directed, edges, start, m) == next {
        assert Play(directed, edges, start, rounds + (m - rounds)) == Play(directed, edges, now, m - rounds);
      }
      assert PlaysTo(directed, edges, start, rounds + 1, next);
    } else {
      forall more: nat ensures Play(directed, edges, start, rounds + 1 + more) == Play(directed, edges, next.0, more) {
        assert rounds + 1 + more == rounds + (1 + more);
        assert Play(directed, edges, start, rounds + (1 + more)) == Play(directed, edges, now, 1 + more);
      }
    }
  }

  lemma StartPlay(directed: bool, edges: seq<Edge>, start: Both)
    ensures Played(directed, edges, start, start, 0)
  {
  }

  lemma PlayedOut(directed: bool, edges: seq<Edge>, start: Both, now: Both, rounds: nat)
    requires Played(directed, edges, start, now, rounds)
    requires now.forward.queue == [] || now.backward.queue == []
    ensures PlaysOut(directed, edges, start, (now, false))
  {
    forall m: nat | m >= rounds ensures Play(directed, edges, start, m) == (now, false) {
      assert m == rounds + (m - rounds);
      assert Play(directed, edges, now, m - rounds) == (now, false);
    }
    assert PlaysTo(directed, edges, start, rounds, (now, false));
  }

  lemma {:induction false} AdvancedIs(h: Half, out: seq<Edge>)
    requires h.queue != [] && h.queue[0].vertex < |h.finished|
    ensures Advanced(h, out) ==
      if h.finished[h.queue[0].vertex] then h.(queue := h.queue[1..])
      else Explored(h.(queue := h.queue[1..]), out, h.queue[0])
  {
    hide Explored;
  }

  lemma RoundOf(directed: bool, edges: seq<Edge>, both: Both, both': Both, stop: bool, forwards: bool)
    requires both.forward.queue != [] && both.backward.queue != []
    requires forwards <==> !(both.backward.queue[0].cost < both.forward.queue[0].cost)
    requires forwards ==>
      && both'.backward == both.backward
      && both'.forward == Advanced(both.forward, OutEdges(directed, edges, both.forward.queue[0].vertex))
      && (both', stop) == Looked(both'.(best := both.best, vMin := both.vMin), both.forward.queue[0].vertex)
    requires !forwards ==>
      && both'.forward == both.forward
      && both'.backward == Advanced(both.backward, InEdges(directed, edges, both.backward.queue[0].vertex))
      && (both', stop) == Looked(both'.(best := both.best, vMin := both.vMin), both.backward.queue[0].vertex)
    ensures Round(directed, edges, both) == (both', stop)
  {
    hide Advanced, Looked;
  }

  // ---------- the program ----------

  class Search {
    const directed: bool
    const edges: seq<Edge>
    const n: nat
    var source: nat
    var target: nat
    var vMinNode: nat
    var bestCost: Label
    var forward: Half
    var backward: Half
    ghost var forwardTrail: seq<nat>
    ghost var backwardTrail: seq<nat>

    constructor (directed: bool, edges: seq<Edge>, n: nat)
      requires n > 0
      ensures this.directed == directed && this.edges == edges && this.n == n
    {
      this.directed, this.edges, this.n := directed, edges, n;
      source, target, vMinNode, bestCost := 0, 0, 0, Finite(0);
      forward, backward := Start(n, 0), Start(n, 0);
      forwardTrail, backwardTrail := [], [];
    }

    ghost function Ways(): set<Edge> {
      Arcs(directed, edges)
    }

    method Initialize()
      requires Fits(Ways(), n) && source < n && target < n
      modifies this`forward, this`backward, this`forwardTrail, this`backwardTrail, this`bestCost, this`vMinNode
      ensures Underway(Ways(), source, target, forward, forwardTrail, backward, backwardTrail, bestCost, vMinNode)
      ensures Both(forward, backward, bestCost, vMinNode) == Both(Start(n, source), Start(n, target), Infinity, 0)
    {
      hide *;
      StartUnderway(Ways(), n, source, target);
      forward, backward := Start(n, source), Start(n, target);
      forwardTrail, backwardTrail := [], [];
      vMinNode, bestCost := 0, Infinity;
    }

    /** Updates the common node. Says whether a way through `node` exists and is dearer than the best one. */
    method Found(node: nat) returns (stop: bool)
      requires Lookable(forward, backward, bestCost, vMinNode, node)
      modifies this`bestCost, this`vMinNode
      ensures Meeting(forward, backward, bestCost) && Attained(forward, backward, bestCost, vMinNode)
      ensures stop <==> Overshot(forward, backward, bestCost, node)
      ensures (Both(forward, backward, bestCost, vMinNode), stop) ==
        Looked(old(Both(forward, backward, bestCost, vMinNode)), node)
    {
      stop := false;
      if forward.finished[node] && backward.finished[node] {
        var through := forward.cost[node].cost + backward.cost[node].cost;
        if bestCost.Infinity? || bestCost.cost >= through {
          vMinNode, bestCost := node, Finite(through);
        } else {
          stop := true;
        }
      }
    }

    method ExploreForward(node: Entry)
      requires Dijkstra(Ways(), source, forward, forwardTrail, {node.vertex}) && Between(forward, node.vertex)
      requires forward.cost[node.vertex].cost == node.cost
      modifies this`forward, this`forwardTrail
      ensures Dijkstra(Ways(), source, forward, forwardTrail, {})
      ensures Extends(old(forward), forward, node.vertex) && forward.finished[node.vertex]
      ensures forward == Explored(old(forward), OutEdges(directed, edges, node.vertex), node)
    {
      OutEdgesAreArcs(directed, edges, node.vertex);
      hide Dijkstra;
      forward := Explore(Ways(), source, forward, forwardTrail, OutEdges(directed, edges, node.vertex), node);
      forwardTrail := forwardTrail + [node.vertex];
    }

    method ExploreBackward(node: Entry)
      requires Dijkstra(Backwards(Ways()), target, backward, backwardTrail, {node.vertex}) &&
        Between(backward, node.vertex)
      requires backward.cost[node.vertex].cost == node.cost
      modifies this`backward, this`backwardTrail
      ensures Dijkstra(Backwards(Ways()), target, backward, backwardTrail, {})
      ensures Extends(old(backward), backward, node.vertex) && backward.finished[node.vertex]
      ensures backward == Explored(old(backward), InEdges(directed, edges, node.vertex), node)
    {
      FlipsAreBackwards(directed, edges);
      OutEdgesAreArcs(directed, Flips(edges), node.vertex);
      hide Dijkstra;
      backward := Explore(Backwards(Ways()), target, backward, backwardTrail, InEdges(directed, edges, node.vertex),
        node);
      backwardTrail := backwardTrail + [node.vertex];
    }

    /** One round of the loop on the forward side. */
    method StepForward() returns (stop: bool)
      requires Underway(Ways(), source, target, forward, forwardTrail, backward, backwardTrail, bestCost, vMinNode)
      requires forward.queue != [] && backward.queue != []
      requires !(backward.queue[0].cost < forward.queue[0].cost)
      modifies this`forward, this`forwardTrail, this`bestCost, this`vMinNode
      ensures Underway(Ways(), source, target, forward, forwardTrail, backward, backwardTrail, bestCost, vMinNode)
      ensures Closer(old(forward), forward)
      ensures stop ==> Overtaken(forward, backward, bestCost)
      ensures (Both(forward, backward, bestCost, vMinNode), stop) ==
        Round(directed, edges, old(Both(forward, backward, bestCost, vMinNode)))
    {
      hide *;
      ghost var f, ft := forward, forwardTrail;
      ghost var before := Both(forward, backward, bestCost, vMinNode);
      var node := forward.queue[0];
      TopOfForward(Ways(), source, target, f, ft, backward, backwardTrail, bestCost, vMinNode);
      forward := forward.(queue := forward.queue[1..]);
      if !forward.finished[node.vertex] {
        ExploreForward(node);
        FinishingCloser(f, f.(queue := f.queue[1..]), forward, node.vertex);
      }
      AdvancedIs(f, OutEdges(directed, edges, node.vertex));
      ForwardRound(Ways(), source, target, f, ft, backward, backwardTrail, bestCost, vMinNode, forward, forwardTrail);
      stop := Found(node.vertex);
      StillUnderway(Ways(), source, target, forward, forwardTrail, backward, backwardTrail, bestCost, vMinNode,
        node.vertex);
      RoundOf(directed, edges, before, Both(forward, backward, bestCost, vMinNode), stop, true);
    }

    /** One round of the loop on the backward side. */
    method StepBackward() returns (stop: bool)
      requires Underway(Ways(), source, target, forward, forwardTrail, backward, backwardTrail, bestCost, vMinNode)
      requires forward.queue != [] && backward.queue != []
      requires backward.queue[0].cost < forward.queue[0].cost
      modifies this`backward, this`backwardTrail, this`bestCost, this`vMinNode
      ensures Underway(Ways(), source, target, forward, forwardTrail, backward, backwardTrail, bestCost, vMinNode)
      ensures Closer(old(backward), backward)
      ensures stop ==> Overtaken(forward, backward, bestCost)
      ensures (Both(forward, backward, bestCost, vMinNode), stop) ==
        Round(directed, edges, old(Both(forward, backward, bestCost, vMinNode)))
    {
      hide *;
      ghost var b, bt := backward, backwardTrail;
      ghost var before := Both(forward, backward, bestCost, vMinNode);
      var node := backward.queue[0];
      TopOfBackward(Ways(), source, target, forward, forwardTrail, b, bt, bestCost, vMinNode);
      backward := backward.(queue := backward.queue[1..]);
      if !backward.finished[node.vertex] {
        ExploreBackward(node);
        FinishingCloser(b, b.(queue := b.queue[1..]), backward, node.vertex);
      }
      AdvancedIs(b, InEdges(directed, edges, node.vertex));
      BackwardRound(Ways(), source, target, forward, forwardTrail, b, bt, bestCost, vMinNode, backward, backwardTrail);
      stop := Found(node.vertex);
      StillUnderway(Ways(), source, target, forward, forwardTrail, backward, backwardTrail, bestCost, vMinNode,
        node.vertex);
      RoundOf(directed, edges, before, Both(forward, backward, bestCost, vMinNode), stop, false);
    }

    /** The search of `bidirectional` and `pgr_bdDijkstra`. `stopped` tells the two ways out of the loop apart. */
    method Run(source: nat, target: nat) returns (ghost stopped: bool)
      requires Fits(Ways(), n) && source < n && target < n
      modifies this
      ensures this.source == source && this.target == target
      ensures Answer(Ways(), source, target, bestCost, stopped)
      ensures PlaysOut(directed, edges, Both(Start(n, source), Start(n, target), Infinity, 0),
        (Both(forward, backward, bestCost, vMinNode), stopped))
      ensures Underway(Ways(), source, target, forward, forwardTrail, backward, backwardTrail, bestCost, vMinNode)
    {
      hide *;
      this.source, this.target := source, target;
      Initialize();
      stopped := false;
      ghost var start, rounds := Both(forward, backward, bestCost, vMinNode), 0;
      StartPlay(directed, edges, start);
      while forward.queue != [] && backward.queue != []
        invariant this.source == source && this.target == target && !stopped
        invariant Underway(Ways(), source, target, forward, forwardTrail, backward, backwardTrail, bestCost, vMinNode)
        invariant Played(directed, edges, start, Both(forward, backward, bestCost, vMinNode), rounds)
        decreases Open(forward.finished) + Open(backward.finished), |forward.queue| + |backward.queue|
      {
        ghost var before := Both(forward, backward, bestCost, vMinNode);
        var stop;
        if backward.queue[0].cost < forward.queue[0].cost {
          stop := StepBackward();
          CloserCounts(before.backward, backward);
        } else {
          stop := StepForward();
          CloserCounts(before.forward, forward);
        }
        PlayOn(directed, edges, start, before, rounds, (Both(forward, backward, bestCost, vMinNode), stop));
        rounds := rounds + 1;
        if stop {
          stopped := true;
          break;
        }
      }
      if !stopped {
        PlayedOut(directed, edges, start, Both(forward, backward, bestCost, vMinNode), rounds);
      }
      AtTheEnd(Ways(), source, target, forward, forwardTrail, backward, backwardTrail, bestCost, vMinNode, stopped);
    }
  }

  lemma CloserCounts(h: Half, h': Half)
    requires Closer(h, h')
    ensures Open(h'.finished) < Open(h.finished) || (Open(h'.finished) == Open(h.finished) && |h'.queue| < |h.queue|)
  {
  }
}
