/** One of the two searches of include/cpp_common/bidirectional.hpp, and what exploring a vertex keeps. */
module TwoQueues {
  import opened Graphs
  import opened Labels
  import EdwardMoore

  /** A key and the vertex it was pushed for. */
  datatype Entry = Entry(cost: nat, vertex: nat)

  predicate Le(a: Entry, b: Entry) {
    a.cost < b.cost || (a.cost == b.cost && a.vertex <= b.vertex)
  }

  /** A priority queue is kept as its contents in order; the top comes first. */
  ghost predicate InOrder(queue: seq<Entry>) {
    forall i, j :: 0 <= i < j < |queue| ==> Le(queue[i], queue[j])
  }

  function Push(queue: seq<Entry>, x: Entry): (r: seq<Entry>)
    ensures |r| == |queue| + 1
    ensures forall y :: y in r <==> y == x || y in queue
    ensures InOrder(queue) ==> InOrder(r)
  {
    if queue == [] || Le(x, queue[0]) then [x] + queue
    else
      var rest := Push(queue[1..], x);
      assert forall y :: y in queue <==> y == queue[0] || y in queue[1..];
      assert InOrder(queue) ==> forall y :: y in queue[1..] ==> Le(queue[0], y);
      assert forall k :: 0 <= k < |rest| ==> rest[k] in rest;
      [queue[0]] + rest
  }

  /** The vectors and the queue of one direction. */
  datatype Half = Half(cost: seq<Label>, predecessor: seq<nat>, edge: seq<int>, finished: seq<bool>, queue: seq<Entry>)

  ghost predicate Shaped(arcs: set<Edge>, s: nat, h: Half) {
    && |h.cost| == |h.predecessor| == |h.edge| == |h.finished|
    && s < |h.cost| && Fits(arcs, |h.cost|)
  }

  ghost predicate Labelled(arcs: set<Edge>, s: nat, h: Half)
    requires Shaped(arcs, s, h)
  {
    Sound(arcs, s, h.cost) && h.cost[s] == Finite(0) && Real(arcs, s, h.queue)
  }

  /** Every key in the queue is the cost of a real walk, even where the label has dropped since. */
  ghost predicate Real(arcs: set<Edge>, s: nat, queue: seq<Entry>) {
    forall x :: x in queue ==> Walked(arcs, s, x)
  }

  ghost predicate Walked(arcs: set<Edge>, s: nat, x: Entry) {
    exists p :: IsWalk(arcs, s, p, x.vertex) && Cost(p) == x.cost
  }

  /** Every unfinished vertex with a label waits in the queue under that label; keys never undercut labels. */
  ghost predicate Waiting(h: Half, busy: set<nat>)
    requires |h.cost| == |h.finished|
  {
    && InOrder(h.queue)
    && (forall x :: x in h.queue ==> x.vertex < |h.cost| && h.cost[x.vertex].Finite? && h.cost[x.vertex].cost <= x.cost)
    && (forall v :: 0 <= v < |h.cost| && v !in busy && !h.finished[v] && h.cost[v].Finite? ==>
          Entry(h.cost[v].cost, v) in h.queue)
  }

  /** Finished vertices are relaxed and no farther than anything still in the queue. */
  ghost predicate Settled(arcs: set<Edge>, h: Half)
    requires Fits(arcs, |h.cost|) && |h.cost| == |h.finished|
  {
    && (forall v :: 0 <= v < |h.cost| && h.finished[v] ==> h.cost[v].Finite? && Relaxed(arcs, h.cost, v))
    && (forall v, x :: 0 <= v < |h.cost| && h.finished[v] && x in h.queue ==> h.cost[v].cost <= x.cost)
  }

  /** The search has begun, or only its start waits in the queue. */
  ghost predicate Begun(s: nat, h: Half, busy: set<nat>)
    requires s < |h.finished|
  {
    h.finished[s] || ((forall v :: 0 <= v < |h.finished| ==> !h.finished[v]) &&
                      (if busy == {} then h.queue == [Entry(0, s)] else s in busy))
  }

  /** `trail` lists the finished vertices in the order in which they were finished. */
  ghost predicate Trailed(finished: seq<bool>, trail: seq<nat>) {
    && (forall v :: v in trail ==> v < |finished| && finished[v])
    && (forall v :: 0 <= v < |finished| && finished[v] ==> v in trail)
  }

  /** The predecessor of a finished vertex was finished before it. */
  ghost predicate Climbs(s: nat, predecessor: seq<nat>, trail: seq<nat>) {
    forall k :: 0 <= k < |trail| ==> ClimbsAt(s, predecessor, trail, k)
  }

  ghost predicate ClimbsAt(s: nat, predecessor: seq<nat>, trail: seq<nat>, k: nat)
    requires k < |trail|
  {
    trail[k] != s ==> trail[k] < |predecessor| && predecessor[trail[k]] in trail[..k]
  }

  /** An arc from the predecessor of `v` accounts for the label of `v`. */
  ghost predicate Derived(arcs: set<Edge>, cost: seq<Label>, predecessor: seq<nat>, edge: seq<int>, v: nat)
    requires v < |cost| == |predecessor| == |edge|
  {
    var u := predecessor[v];
    && u < |cost| && u != v && cost[u].Finite? && cost[v].Finite? && cost[u].cost <= cost[v].cost
    && Edge(edge[v], u, v, cost[v].cost - cost[u].cost) in arcs
  }

  /** Vertices with a label were reached from a vertex that is finished or being explored;
      the start and vertices without a label are their own predecessors. */
  ghost predicate Rooted(arcs: set<Edge>, s: nat, cost: seq<Label>, predecessor: seq<nat>, edge: seq<int>,
                         trail: seq<nat>, busy: set<nat>)
    requires |cost| == |predecessor| == |edge|
  {
    forall v :: 0 <= v < |cost| ==> RootedAt(arcs, s, cost, predecessor, edge, trail, busy, v)
  }

  ghost predicate RootedAt(arcs: set<Edge>, s: nat, cost: seq<Label>, predecessor: seq<nat>, edge: seq<int>,
                           trail: seq<nat>, busy: set<nat>, v: nat)
    requires v < |cost| == |predecessor| == |edge|
  {
    if v == s || cost[v].Infinity? then predecessor[v] == v
    else Derived(arcs, cost, predecessor, edge, v) && (predecessor[v] in trail || predecessor[v] in busy)
  }

  /** The invariant of one direction; `busy` is the vertex being explored, if any. */
  ghost predicate Dijkstra(arcs: set<Edge>, s: nat, h: Half, trail: seq<nat>, busy: set<nat>) {
    && Shaped(arcs, s, h)
    && Labelled(arcs, s, h)
    && Waiting(h, busy)
    && Settled(arcs, h)
    && Begun(s, h, busy)
    && Trailed(h.finished, trail) && Climbs(s, h.predecessor, trail)
    && Rooted(arcs, s, h.cost, h.predecessor, h.edge, trail, busy)
  }

  /** The key of the vertex being explored separates the finished vertices from the queue. */
  ghost predicate Between(h: Half, head: nat)
    requires |h.cost| == |h.finished|
  {
    && head < |h.cost| && h.cost[head].Finite? && !h.finished[head]
    && (forall v :: 0 <= v < |h.cost| && h.finished[v] ==> h.cost[v].Finite? && h.cost[v].cost <= h.cost[head].cost)
    && (forall x :: x in h.queue ==> h.cost[head].cost <= x.cost)
  }

  function Start(n: nat, s: nat): Half
    requires s < n
  {
    Half(seq(n, _ => Infinity)[s := Finite(0)], seq(n, i => i), seq(n, _ => -1), seq(n, _ => false), [Entry(0, s)])
  }

  lemma StartIsDijkstra(arcs: set<Edge>, n: nat, s: nat)
    requires Fits(arcs, n) && s < n
    ensures Dijkstra(arcs, s, Start(n, s), [], {})
  {
    assert IsWalk(arcs, s, [], s) && Cost([]) == 0;
  }

  function Lowered(h: Half, e: Edge): Half
    requires |h.cost| == |h.predecessor| == |h.edge|
    requires e.source < |h.cost| && e.target < |h.cost| && h.cost[e.source].Finite?
  {
    var d := h.cost[e.source].cost + e.cost;
    Half(h.cost[e.target := Finite(d)], h.predecessor[e.target := e.source], h.edge[e.target := e.id], h.finished,
         Push(h.queue, Entry(d, e.target)))
  }

  // ---------- popping ----------

  /** A popped entry of a finished vertex is stale; of an unfinished one, its key is the vertex's label. */
  lemma Popped(arcs: set<Edge>, s: nat, h: Half, trail: seq<nat>)
    requires Dijkstra(arcs, s, h, trail, {}) && h.queue != []
    ensures var x, h' := h.queue[0], h.(queue := h.queue[1..]);
      && x.vertex < |h.finished| && h.cost[x.vertex].Finite?
      && (h.finished[x.vertex] ==> Dijkstra(arcs, s, h', trail, {}))
      && (!h.finished[x.vertex] ==>
            h.cost[x.vertex].cost == x.cost && Dijkstra(arcs, s, h', trail, {x.vertex}) && Between(h', x.vertex))
  {
    hide Sound, Rooted, Trailed, Climbs, Relaxed, Fits, Walked;
    var x, h' := h.queue[0], h.(queue := h.queue[1..]);
    assert forall y :: y in h.queue <==> y == x || y in h.queue[1..];
    if !h.finished[x.vertex] {
      assert Entry(h.cost[x.vertex].cost, x.vertex) in h.queue;
      StillRooted(arcs, s, h.cost, h.predecessor, h.edge, trail, x.vertex);
    }
  }

  lemma StillRooted(arcs: set<Edge>, s: nat, cost: seq<Label>, predecessor: seq<nat>, edge: seq<int>, trail: seq<nat>,
                    head: nat)
    requires |cost| == |predecessor| == |edge| && Rooted(arcs, s, cost, predecessor, edge, trail, {})
    ensures Rooted(arcs, s, cost, predecessor, edge, trail, {head})
  {
    forall v | 0 <= v < |cost| ensures RootedAt(arcs, s, cost, predecessor, edge, trail, {head}, v) {
      assert RootedAt(arcs, s, cost, predecessor, edge, trail, {}, v);
      hide Derived;
    }
  }

  // ---------- exploring ----------

  lemma LoweredRooted(arcs: set<Edge>, s: nat, h: Half, trail: seq<nat>, head: nat, e: Edge)
    requires Shaped(arcs, s, h) && InOrder(h.queue) && h.cost[s] == Finite(0)
    requires Trailed(h.finished, trail) && Rooted(arcs, s, h.cost, h.predecessor, h.edge, trail, {head})
    requires e in arcs && e.source == head && Improves(h.cost, e) && !h.finished[e.target] && e.target != head
    ensures Rooted(arcs, s, Lowered(h, e).cost, Lowered(h, e).predecessor, Lowered(h, e).edge, trail, {head})
  {
    hide InOrder;
    var h' := Lowered(h, e);
    forall v | 0 <= v < |h'.cost| ensures RootedAt(arcs, s, h'.cost, h'.predecessor, h'.edge, trail, {head}, v) {
      assert RootedAt(arcs, s, h.cost, h.predecessor, h.edge, trail, {head}, v);
      if v == e.target {
        assert Edge(h'.edge[v], head, v, h'.cost[v].cost - h'.cost[head].cost) == e;
      }
    }
  }

  lemma LoweredClimbs(s: nat, h: Half, trail: seq<nat>, e: Edge)
    requires |h.cost| == |h.predecessor| == |h.edge| == |h.finished| && InOrder(h.queue)
    requires e.source < |h.cost| && e.target < |h.cost| && h.cost[e.source].Finite?
    requires Trailed(h.finished, trail) && !h.finished[e.target] && Climbs(s, h.predecessor, trail)
    ensures Climbs(s, Lowered(h, e).predecessor, trail)
  {
    hide InOrder;
    forall k | 0 <= k < |trail| ensures ClimbsAt(s, Lowered(h, e).predecessor, trail, k) {
      assert ClimbsAt(s, h.predecessor, trail, k) && trail[k] in trail;
    }
  }

  lemma LoweredSettled(arcs: set<Edge>, h: Half, head: nat, e: Edge)
    requires Fits(arcs, |h.cost|) && |h.cost| == |h.finished| == |h.predecessor| == |h.edge| && InOrder(h.queue)
    requires Settled(arcs, h) && Between(h, head)
    requires e in arcs && e.source == head && Improves(h.cost, e)
    ensures !h.finished[e.target] && e.target != head
    ensures Settled(arcs, Lowered(h, e)) && Between(Lowered(h, e), head)
  {
    hide InOrder;
    var h' := Lowered(h, e);
    forall v | 0 <= v < |h'.cost| && h'.finished[v] ensures Relaxed(arcs, h'.cost, v) {
      assert Relaxed(arcs, h.cost, v);
      assert forall f :: f in arcs && f.source == v ==> !Improves(h.cost, f);
    }
    hide Relaxed;
  }

  lemma LoweredWaiting(h: Half, busy: set<nat>, e: Edge)
    requires |h.cost| == |h.predecessor| == |h.edge| == |h.finished| && Waiting(h, busy)
    requires e.source < |h.cost| && e.target < |h.cost| && Improves(h.cost, e)
    ensures Waiting(Lowered(h, e), busy)
  {
    hide InOrder;
  }

  lemma LoweredReal(arcs: set<Edge>, s: nat, h: Half, e: Edge)
    requires |h.cost| == |h.predecessor| == |h.edge| && InOrder(h.queue) && Sound(arcs, s, h.cost)
    requires e in arcs && e.source < |h.cost| && e.target < |h.cost| && Improves(h.cost, e) && Real(arcs, s, h.queue)
    ensures Real(arcs, s, Lowered(h, e).queue)
  {
    hide InOrder;
    var p :| IsWalk(arcs, s, p, e.source) && Cost(p) == h.cost[e.source].cost;
    WalkSnoc(arcs, s, p, e);
    assert Walked(arcs, s, Entry(h.cost[e.source].cost + e.cost, e.target));
    hide Walked;
  }

  /** Lowering the label of a neighbour keeps the invariant; the neighbour cannot be finished. */
  lemma LoweredDijkstra(arcs: set<Edge>, s: nat, h: Half, trail: seq<nat>, head: nat, e: Edge)
    requires Dijkstra(arcs, s, h, trail, {head}) && Between(h, head)
    requires e in arcs && e.source == head && Improves(h.cost, e)
    ensures !h.finished[e.target] && e.target != head
    ensures Dijkstra(arcs, s, Lowered(h, e), trail, {head}) && Between(Lowered(h, e), head)
  {
    RelaxKeepsSound(arcs, s, h.cost, e);
    LoweredReal(arcs, s, h, e);
    LoweredSettled(arcs, h, head, e);
    LoweredRooted(arcs, s, h, trail, head, e);
    LoweredClimbs(s, h, trail, e);
    LoweredWaiting(h, {head}, e);
    hide Sound, Real, Rooted, Settled, Trailed, Climbs, Waiting, InOrder, Between;
  }

  lemma FinishedTrail(arcs: set<Edge>, s: nat, h: Half, trail: seq<nat>, head: nat)
    requires Shaped(arcs, s, h) && head < |h.cost| && h.cost[head].Finite?
    requires Trailed(h.finished, trail) && Climbs(s, h.predecessor, trail)
    requires Rooted(arcs, s, h.cost, h.predecessor, h.edge, trail, {head})
    ensures Trailed(h.finished[head := true], trail + [head]) && Climbs(s, h.predecessor, trail + [head])
    ensures Rooted(arcs, s, h.cost, h.predecessor, h.edge, trail + [head], {})
  {
    forall v | 0 <= v < |h.cost| ensures RootedAt(arcs, s, h.cost, h.predecessor, h.edge, trail + [head], {}, v) {
      assert RootedAt(arcs, s, h.cost, h.predecessor, h.edge, trail, {head}, v);
      hide Derived;
    }
    forall k | 0 <= k <= |trail| ensures ClimbsAt(s, h.predecessor, trail + [head], k) {
      assert (trail + [head])[..k] == trail[..k];
      if k < |trail| {
        assert ClimbsAt(s, h.predecessor, trail, k);
      } else {
        assert RootedAt(arcs, s, h.cost, h.predecessor, h.edge, trail, {head}, head);
      }
    }
    hide Climbs, Rooted;
  }

  /** An explored vertex is finished, after everything its label rests on. */
  lemma FinishedDijkstra(arcs: set<Edge>, s: nat, h: Half, trail: seq<nat>, head: nat)
    requires Dijkstra(arcs, s, h, trail, {head}) && Between(h, head) && Relaxed(arcs, h.cost, head)
    ensures Dijkstra(arcs, s, h.(finished := h.finished[head := true]), trail + [head], {})
  {
    FinishedTrail(arcs, s, h, trail, head);
    hide Relaxed, Sound, Real, Rooted, Trailed, Climbs, InOrder;
  }

  /** Between two halves, the same vertices and perhaps `x` are finished, with the labels they had. */
  ghost predicate Extends(h: Half, h': Half, x: nat) {
    && |h.cost| == |h.finished| == |h'.cost| == |h'.finished| && x < |h.cost|
    && (h'.finished == h.finished || h'.finished == h.finished[x := true])
    && (forall v :: 0 <= v < |h.cost| && h'.finished[v] ==> h'.cost[v] == h.cost[v])
  }

  /** What the exploring loop does with one edge. */
  function Tried(h: Half, e: Edge, node: Entry): Half {
    var next, d := e.target, e.cost + node.cost;
    if next < |h.cost| == |h.predecessor| == |h.edge| == |h.finished| && !h.finished[next] &&
       (h.cost[next].Infinity? || d < h.cost[next].cost)
    then Half(h.cost[next := Finite(d)], h.predecessor[next := node.vertex], h.edge[next := e.id], h.finished,
              Push(h.queue, Entry(d, next)))
    else h
  }

  /** What exploring `node` does. */
  function Explored(h: Half, out: seq<Edge>, node: Entry): Half
    decreases out
  {
    if out != [] then Explored(Tried(h, out[0], node), out[1..], node)
    else if node.vertex < |h.finished| then h.(finished := h.finished[node.vertex := true])
    else h
  }

  /** In the middle of the exploring loop: the invariant holds, and the first `i` edges have nothing left to improve. */
  ghost predicate Exploring(arcs: set<Edge>, s: nat, h: Half, trail: seq<nat>, r: Half, out: seq<Edge>, i: nat,
                            node: Entry) {
    && Dijkstra(arcs, s, r, trail, {node.vertex}) && Between(r, node.vertex)
    && |r.cost| == |h.cost| == |h.finished| && r.finished == h.finished && node.vertex < |h.cost|
    && !h.finished[node.vertex] && r.cost[node.vertex] == h.cost[node.vertex] == Finite(node.cost)
    && (forall v :: 0 <= v < |r.cost| && h.finished[v] ==> r.cost[v] == h.cost[v])
    && i <= |out| && (forall e :: e in out ==> e in arcs && e.source == node.vertex && e.target < |r.cost|)
    && EdwardMoore.Done(r.cost, out, i)
    && Explored(r, out[i..], node) == Explored(h, out, node)
  }

  lemma StartExploring(arcs: set<Edge>, s: nat, h: Half, trail: seq<nat>, out: seq<Edge>, node: Entry)
    requires Dijkstra(arcs, s, h, trail, {node.vertex}) && Between(h, node.vertex)
    requires h.cost[node.vertex].cost == node.cost
    requires forall e :: e in out ==> e in arcs && e.source == node.vertex
    ensures Exploring(arcs, s, h, trail, h, out, 0, node)
  {
    assert Shaped(arcs, s, h);
    hide Dijkstra, Between, Explored;
    assert out[0..] == out;
  }

  lemma {:induction false} ExploredStep(r: Half, out: seq<Edge>, i: nat, node: Entry)
    requires i <= |out|
    ensures if i < |out| then Explored(r, out[i..], node) == Explored(Tried(r, out[i], node), out[i + 1..], node)
            else node.vertex < |r.finished| ==>
              Explored(r, out[i..], node) == r.(finished := r.finished[node.vertex := true])
  {
    hide Tried;
    if i < |out| {
      assert out[i..][1..] == out[i + 1..];
    }
  }

  lemma TriedIsLowered(r: Half, e: Edge, node: Entry)
    requires |r.cost| == |r.predecessor| == |r.edge| == |r.finished|
    requires e.source == node.vertex < |r.cost| && e.target < |r.cost| && r.cost[node.vertex] == Finite(node.cost)
    ensures Tried(r, e, node) == if !r.finished[e.target] && Improves(r.cost, e) then Lowered(r, e) else r
  {
    hide Push;
  }

  lemma FinishedNotImproved(r: Half, e: Edge, head: nat)
    requires |r.cost| == |r.finished| && Between(r, head) && e.source == head && e.target < |r.cost|
    ensures r.finished[e.target] ==> !Improves(r.cost, e)
  {
  }

  lemma KeepExploring(arcs: set<Edge>, s: nat, h: Half, trail: seq<nat>, r: Half, out: seq<Edge>, i: nat, node: Entry)
    requires Exploring(arcs, s, h, trail, r, out, i, node) && i < |out|
    ensures Exploring(arcs, s, h, trail, Tried(r, out[i], node), out, i + 1, node)
  {
    hide Labelled, Waiting, Settled, Begun, Trailed, Climbs, Rooted, InOrder, Explored, Tried, Fits, Between, Push;
    var e := out[i];
    assert e in out;
    ExploredStep(r, out, i, node);
    TriedIsLowered(r, e, node);
    FinishedNotImproved(r, e, node.vertex);
    if Improves(r.cost, e) {
      LoweredDijkstra(arcs, s, r, trail, node.vertex, e);
      EdwardMoore.RelaxKeepsDone(r.cost, out, i);
    } else {
      EdwardMoore.StaysDone(r.cost, out, i);
    }
  }

  lemma {:induction false} AllExplored(arcs: set<Edge>, s: nat, h: Half, trail: seq<nat>, r: Half, out: seq<Edge>,
                                       node: Entry)
    requires Exploring(arcs, s, h, trail, r, out, |out|, node)
    requires forall e :: e in arcs && e.source == node.vertex ==> e in out
    ensures var r' := r.(finished := r.finished[node.vertex := true]);
      Dijkstra(arcs, s, r', trail + [node.vertex], {}) && Extends(h, r', node.vertex) && r' == Explored(h, out, node)
  {
    hide Labelled, Waiting, Settled, Begun, Trailed, Climbs, Rooted, InOrder, Explored, Between;
    ExploredStep(r, out, |out|, node);
    assert Relaxed(arcs, r.cost, node.vertex);
    FinishedDijkstra(arcs, s, r, trail, node.vertex);
  }

  lemma WhileExploring(arcs: set<Edge>, s: nat, h: Half, trail: seq<nat>, r: Half, out: seq<Edge>, i: nat, node: Entry)
    requires Exploring(arcs, s, h, trail, r, out, i, node)
    ensures |r.cost| == |r.predecessor| == |r.edge| == |r.finished| && node.vertex < |r.cost|
    ensures i < |out| ==> out[i].target < |r.cost|
  {
    assert Shaped(arcs, s, r);
    assert i < |out| ==> out[i] in out;
  }

  /** The exploring loop: lowers the labels of the unfinished vertices that `out` leads to, then finishes `node`. */
  method Explore(ghost arcs: set<Edge>, ghost s: nat, h: Half, ghost trail: seq<nat>, out: seq<Edge>, node: Entry)
    returns (r: Half)
    requires Dijkstra(arcs, s, h, trail, {node.vertex}) && Between(h, node.vertex)
    requires h.cost[node.vertex].cost == node.cost
    requires forall e :: e in out <==> e in arcs && e.source == node.vertex
    ensures Dijkstra(arcs, s, r, trail + [node.vertex], {})
    ensures Extends(h, r, node.vertex) && r.finished[node.vertex]
    ensures r == Explored(h, out, node)
  {
    hide Dijkstra, Exploring, Explored, Between, Extends, Push;
    r := h;
    StartExploring(arcs, s, h, trail, out, node);
    for i := 0 to |out|
      invariant Exploring(arcs, s, h, trail, r, out, i, node)
    {
      var next, d := out[i].target, out[i].cost + node.cost;
      WhileExploring(arcs, s, h, trail, r, out, i, node);
      KeepExploring(arcs, s, h, trail, r, out, i, node);
      if r.finished[next] { continue; }
      if r.cost[next].Infinity? || d < r.cost[next].cost {
        r := Half(r.cost[next := Finite(d)], r.predecessor[next := node.vertex], r.edge[next := out[i].id], r.finished,
                  Push(r.queue, Entry(d, next)));
      }
    }
    WhileExploring(arcs, s, h, trail, r, out, |out|, node);
    AllExplored(arcs, s, h, trail, r, out, node);
    r := r.(finished := r.finished[node.vertex := true]);
  }

  // ---------- how far a search has come along a walk ----------

  /** The vertex after the first `k` edges of a walk from `u`. */
  function At(u: nat, p: seq<Edge>, k: nat): nat
    requires k <= |p|
  {
    if k == 0 then u else p[k - 1].target
  }

  /** Everything up to the end of the walk's first `k` edges is finished, at no more than the walk's own cost. */
  ghost predicate Covered(h: Half, u: nat, a: nat, p: seq<Edge>, k: nat)
    requires k <= |p| && |h.cost| == |h.finished|
  {
    var v := At(u, p, k);
    v < |h.cost| && h.finished[v] && h.cost[v].Finite? && h.cost[v].cost <= a + Cost(p[..k])
  }

  /** Along any walk a search has finished a first part, and the next vertex waits in the queue. */
  lemma {:induction false} Frontier(arcs: set<Edge>, s: nat, h: Half, trail: seq<nat>, u: nat, a: nat, p: seq<Edge>,
                                    v: nat)
    returns (i: nat)
    requires Dijkstra(arcs, s, h, trail, {}) && IsWalk(arcs, u, p, v)
    requires u < |h.cost| && h.cost[u].Finite? && h.cost[u].cost <= a
    ensures i <= |p| + 1 && (i == 0 <==> !h.finished[u])
    ensures forall k :: 0 <= k < i ==> Covered(h, u, a, p, k)
    ensures i <= |p| ==> exists x :: x in h.queue && x.cost <= a + Cost(p[..i])
    decreases p
  {
    hide Labelled, Begun, Trailed, Climbs, Rooted, InOrder;
    if !h.finished[u] {
      i := 0;
      assert Entry(h.cost[u].cost, u) in h.queue;
    } else if p == [] {
      i := 1;
    } else {
      var e, rest := p[0], p[1..];
      assert Relaxed(arcs, h.cost, u) && !Improves(h.cost, e);
      var j := Frontier(arcs, s, h, trail, e.target, a + e.cost, rest, v);
      i := j + 1;
      forall k | 0 <= k < i ensures Covered(h, u, a, p, k) {
        if k > 0 {
          assert Covered(h, e.target, a + e.cost, rest, k - 1);
          assert p[..k] == [e] + rest[..k - 1];
        }
      }
      if i <= |p| {
        assert p[..i] == [e] + rest[..j];
      }
    }
  }
}
