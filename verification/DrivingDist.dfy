/** include/dijkstra/drivingDist.hpp: taking points out of a tree of predecessors, and counting hops. */
module DrivingDist {

  // ---------- the tree ----------

  /** Every predecessor but that of a root stands lower in some ranking, and no farther from the root. */
  ghost predicate Forest(pred: seq<nat>, rank: seq<nat>, distances: seq<nat>) {
    && |rank| == |distances| == |pred|
    && forall v :: 0 <= v < |pred| ==> Descends(pred, rank, distances, v)
  }

  ghost predicate Descends(pred: seq<nat>, rank: seq<nat>, distances: seq<nat>, v: nat)
    requires v < |pred| == |rank| == |distances|
  {
    pred[v] < |pred| && (pred[v] != v ==> rank[pred[v]] < rank[v] && distances[pred[v]] <= distances[v])
  }

  /** A vertex rather than a point, or the root of its tree. */
  predicate Stays(pred: seq<nat>, ids: seq<int>, u: nat)
    requires u < |pred| == |ids|
  {
    ids[u] >= 0 || pred[u] == u
  }

  ghost function Up(pred: seq<nat>, v: nat, k: nat): nat
    decreases k
  {
    if k == 0 || v >= |pred| then v else Up(pred, pred[v], k - 1)
  }

  /** `u` is the nearest proper ancestor of `v` that stays. */
  ghost predicate Nearest(pred: seq<nat>, ids: seq<int>, v: nat, u: nat)
    requires v < |pred| == |ids|
  {
    exists k :: NearestAt(pred, ids, v, u, k)
  }

  ghost predicate NearestAt(pred: seq<nat>, ids: seq<int>, v: nat, u: nat, k: nat)
    requires v < |pred| == |ids|
  {
    && k > 0 && Up(pred, v, k) == u < |pred| && Stays(pred, ids, u)
    && forall j :: 0 < j < k ==> Up(pred, v, j) < |pred| && !Stays(pred, ids, Up(pred, v, j))
  }

  lemma NearestUnique(pred: seq<nat>, ids: seq<int>, v: nat, u: nat, u': nat)
    requires v < |pred| == |ids| && Nearest(pred, ids, v, u) && Nearest(pred, ids, v, u')
    ensures u == u'
  {
    var k: nat :| NearestAt(pred, ids, v, u, k);
    var k': nat :| NearestAt(pred, ids, v, u', k');
    assert k == k';
  }

  /** If the predecessor does not stay, the nearest ancestor is that of the predecessor. */
  lemma NearestBelow(pred: seq<nat>, ids: seq<int>, v: nat, u: nat)
    requires v < |pred| == |ids| && pred[v] < |pred|
    ensures Stays(pred, ids, pred[v]) ==> Nearest(pred, ids, v, pred[v])
    ensures !Stays(pred, ids, pred[v]) && Nearest(pred, ids, pred[v], u) ==> Nearest(pred, ids, v, u)
  {
    if Stays(pred, ids, pred[v]) {
      assert NearestAt(pred, ids, v, pred[v], 1);
    } else if Nearest(pred, ids, pred[v], u) {
      var k: nat :| NearestAt(pred, ids, pred[v], u, k);
      forall j | 0 < j < k + 1 ensures Up(pred, v, j) < |pred| && !Stays(pred, ids, Up(pred, v, j)) {
        assert Up(pred, v, j) == Up(pred, pred[v], j - 1);
      }
      assert NearestAt(pred, ids, v, u, k + 1);
    }
  }

  // ---------- taking the points out ----------

  /** Nodes in `todo` still have their predecessors; the others have their nearest ancestors that stay. */
  ghost predicate Shortened(pred0: seq<nat>, ids: seq<int>, pred: seq<nat>, todo: set<nat>) {
    && |pred| == |pred0| == |ids|
    && forall v :: 0 <= v < |pred| ==> ShortenedAt(pred0, ids, pred, todo, v)
  }

  ghost predicate ShortenedAt(pred0: seq<nat>, ids: seq<int>, pred: seq<nat>, todo: set<nat>, v: nat)
    requires v < |pred| == |pred0| == |ids|
  {
    if v in todo || pred0[v] == v then pred[v] == pred0[v] else pred[v] < |pred| && Nearest(pred0, ids, v, pred[v])
  }

  /** One step of the walk up, whatever part of the nodes has been shortened already. */
  lemma StepUp(pred0: seq<nat>, rank: seq<nat>, distances: seq<nat>, ids: seq<int>, pred: seq<nat>, todo: set<nat>,
               u: nat)
    requires Forest(pred0, rank, distances) && Shortened(pred0, ids, pred, todo) && u < |pred| && pred0[u] != u
    ensures pred[u] < |pred| && pred[u] != u && rank[pred[u]] < rank[u]
    ensures (pred[pred[u]] == pred[u]) == (pred0[pred[u]] == pred[u])
    ensures Stays(pred0, ids, pred[u]) ==> Nearest(pred0, ids, u, pred[u])
    ensures forall x :: !Stays(pred0, ids, pred[u]) && Nearest(pred0, ids, pred[u], x) ==> Nearest(pred0, ids, u, x)
  {
    assert ShortenedAt(pred0, ids, pred, todo, u) && Descends(pred0, rank, distances, u);
    var p := pred[u];
    if u in todo {
      forall x {
        NearestBelow(pred0, ids, u, x);
      }
    } else {
      RankBelow(pred0, rank, distances, ids, u, p);
    }
    SelfStays(pred0, rank, distances, ids, pred, todo, p);
  }

  lemma {:induction false} UpRank(pred: seq<nat>, rank: seq<nat>, distances: seq<nat>, v: nat, k: nat)
    requires Forest(pred, rank, distances) && v < |pred|
    ensures Up(pred, v, k) < |pred| && rank[Up(pred, v, k)] <= rank[v] && distances[Up(pred, v, k)] <= distances[v]
    decreases k
  {
    if k > 0 {
      assert Descends(pred, rank, distances, v);
      UpRank(pred, rank, distances, pred[v], k - 1);
    }
  }

  lemma RankBelow(pred: seq<nat>, rank: seq<nat>, distances: seq<nat>, ids: seq<int>, v: nat, u: nat)
    requires Forest(pred, rank, distances) && v < |pred| == |ids| && pred[v] != v && Nearest(pred, ids, v, u)
    ensures u < |pred| && rank[u] < rank[v] && distances[u] <= distances[v] && Stays(pred, ids, u)
  {
    var k: nat :| NearestAt(pred, ids, v, u, k);
    assert Descends(pred, rank, distances, v);
    UpRank(pred, rank, distances, pred[v], k - 1);
  }

  /** Being a root does not change. */
  lemma SelfStays(pred0: seq<nat>, rank: seq<nat>, distances: seq<nat>, ids: seq<int>, pred: seq<nat>, todo: set<nat>,
                  p: nat)
    requires Forest(pred0, rank, distances) && Shortened(pred0, ids, pred, todo) && p < |pred|
    ensures (pred[p] == p) == (pred0[p] == p)
  {
    assert ShortenedAt(pred0, ids, pred, todo, p);
    if p !in todo && pred0[p] != p {
      RankBelow(pred0, rank, distances, ids, p, pred[p]);
    }
  }

  /** Replaces the predecessor of every node that has a point for it, in any order of the nodes. */
  method RemoveDetails(ids: seq<int>, ghost distances: seq<nat>, predecessors: array<nat>, ghost rank: seq<nat>)
    requires predecessors.Length == |ids| && Forest(predecessors[..], rank, distances)
    modifies predecessors
    ensures Shortened(old(predecessors[..]), ids, predecessors[..], {})
  {
    hide Nearest, Shortened;
    ghost var pred0 := predecessors[..];
    forall v | 0 <= v < |pred0| ensures pred0[v] < |pred0| {
      assert Descends(pred0, rank, distances, v);
    }
    var nodes: set<nat> := {};
    for v := 0 to predecessors.Length
      invariant predecessors[..] == pred0
      invariant forall x: nat :: x in nodes <==> x < v && pred0[x] != x && ids[pred0[x]] < 0
    {
      if predecessors[v] == v { continue; }
      if ids[predecessors[v]] >= 0 { continue; }
      nodes := nodes + {v};
    }
    NotYet(pred0, rank, distances, ids, nodes);
    ghost var all := nodes;
    while nodes != {}
      invariant nodes <= all && predecessors.Length == |pred0|
      invariant Shortened(pred0, ids, predecessors[..], nodes)
      decreases nodes
    {
      var node :| node in nodes;
      var u := ToStay(ids, pred0, rank, distances, predecessors, nodes, node);
      ghost var before := predecessors[..];
      predecessors[node] := u;
      NodeDone(pred0, ids, before, nodes, node, u);
      nodes := nodes - {node};
      assert predecessors[..] == before[node := u];
    }
  }

  lemma NodeDone(pred0: seq<nat>, ids: seq<int>, pred: seq<nat>, todo: set<nat>, node: nat, u: nat)
    requires Shortened(pred0, ids, pred, todo) && node < |pred| && pred0[node] != node && u < |pred| &&
      Nearest(pred0, ids, node, u)
    ensures Shortened(pred0, ids, pred[node := u], todo - {node})
  {
    hide Nearest;
    var pred', todo' := pred[node := u], todo - {node};
    forall v | 0 <= v < |pred| ensures ShortenedAt(pred0, ids, pred', todo', v) {
      assert ShortenedAt(pred0, ids, pred, todo, v);
    }
  }

  lemma NotYet(pred0: seq<nat>, rank: seq<nat>, distances: seq<nat>, ids: seq<int>, nodes: set<nat>)
    requires Forest(pred0, rank, distances) && |ids| == |pred0|
    requires forall v :: 0 <= v < |pred0| && v !in nodes && pred0[v] != v ==> pred0[v] < |ids| && ids[pred0[v]] >= 0
    ensures Shortened(pred0, ids, pred0, nodes)
  {
    forall v | 0 <= v < |pred0| ensures ShortenedAt(pred0, ids, pred0, nodes, v) {
      assert Descends(pred0, rank, distances, v);
      NearestBelow(pred0, ids, v, v);
    }
  }

  /** The walk up from `node` over the points, some of which may have been shortened already. */
  method ToStay(ids: seq<int>, ghost pred0: seq<nat>, ghost rank: seq<nat>, ghost distances: seq<nat>,
                predecessors: array<nat>, ghost todo: set<nat>, node: nat)
    returns (u: nat)
    requires Forest(pred0, rank, distances) && Shortened(pred0, ids, predecessors[..], todo)
    requires node < predecessors.Length && pred0[node] != node
    ensures u < predecessors.Length && Nearest(pred0, ids, node, u)
  {
    ghost var pred := predecessors[..];
    StepUp(pred0, rank, distances, ids, pred, todo, node);
    u := predecessors[node];
    while ids[u] < 0 && predecessors[u] != u
      invariant u < predecessors.Length && (pred[u] == u <==> pred0[u] == u)
      invariant Stays(pred0, ids, u) ==> Nearest(pred0, ids, node, u)
      invariant forall x :: !Stays(pred0, ids, u) && Nearest(pred0, ids, u, x) ==> Nearest(pred0, ids, node, x)
      decreases rank[u]
    {
      hide Nearest, Shortened, Forest;
      StepUp(pred0, rank, distances, ids, pred, todo, u);
      u := predecessors[u];
    }
  }

  // ---------- counting hops ----------

  /** `v` hangs `k` hops below the root, and it and all the vertices between are within the distance. */
  ghost predicate Hops(pred: seq<nat>, distances: seq<nat>, limit: nat, root: nat, v: nat, k: nat): (b: bool)
    requires |distances| == |pred|
    ensures b ==> v < |pred|
    decreases k
  {
    v < |pred| &&
    if k == 0 then v == root
    else pred[v] != v && distances[v] <= limit && Hops(pred, distances, limit, root, pred[v], k - 1)
  }

  /** One hop count at most, and smaller than the number of vertices. */
  lemma {:induction false} HopsUnique(pred: seq<nat>, distances: seq<nat>, limit: nat, root: nat, v: nat, k: nat,
                                      k': nat)
    requires |distances| == |pred| && root < |pred| && pred[root] == root
    requires Hops(pred, distances, limit, root, v, k) && Hops(pred, distances, limit, root, v, k')
    ensures k == k'
    decreases k
  {
    if k > 0 && k' > 0 {
      HopsUnique(pred, distances, limit, root, pred[v], k - 1, k' - 1);
    }
  }

  lemma {:induction false} HopsChain(pred: seq<nat>, rank: seq<nat>, distances: seq<nat>, limit: nat, root: nat, v: nat,
                                     k: nat)
    returns (chain: set<nat>)
    requires Forest(pred, rank, distances) && Hops(pred, distances, limit, root, v, k)
    ensures |chain| == k + 1 && forall x :: x in chain ==> x < |pred| && rank[x] <= rank[v]
    decreases k
  {
    chain := {v};
    if k > 0 {
      assert Descends(pred, rank, distances, v);
      var above := HopsChain(pred, rank, distances, limit, root, pred[v], k - 1);
      chain := above + {v};
    }
  }

  lemma {:induction false} HopsBound(pred: seq<nat>, rank: seq<nat>, distances: seq<nat>, limit: nat, root: nat, v: nat,
                                     k: nat)
    requires Forest(pred, rank, distances) && Hops(pred, distances, limit, root, v, k)
    ensures k < |pred|
  {
    var chain := HopsChain(pred, rank, distances, limit, root, v, k);
    BoundedSize(chain, |pred|);
  }

  lemma {:induction false} BoundedSize(a: set<nat>, n: nat)
    requires forall x :: x in a ==> x < n
    ensures |a| <= n
  {
    if n == 0 {
      assert a == {};
    } else {
      BoundedSize(a - {n - 1}, n - 1);
    }
  }

  /** The vertices that stay, of those above `v` up to the root. */
  ghost function Stops(pred: seq<nat>, ids: seq<int>, v: nat, k: nat): nat
    requires |ids| == |pred|
    decreases k
  {
    if k == 0 || v >= |pred| || pred[v] >= |pred| then 0
    else (if Stays(pred, ids, pred[v]) then 1 else 0) + Stops(pred, ids, pred[v], k - 1)
  }

  lemma {:induction false} NextStop(pred: seq<nat>, ids: seq<int>, distances: seq<nat>, limit: nat, root: nat, v: nat,
                                    k: nat)
    returns (u: nat, m: nat)
    requires |ids| == |pred| == |distances| && root < |pred| && pred[root] == root
    requires k > 0 && Hops(pred, distances, limit, root, v, k)
    ensures Nearest(pred, ids, v, u) && m < k && Hops(pred, distances, limit, root, u, m)
    ensures Stops(pred, ids, v, k) == 1 + Stops(pred, ids, u, m)
    decreases k
  {
    u, m := pred[v], k - 1;
    if !Stays(pred, ids, pred[v]) {
      u, m := NextStop(pred, ids, distances, limit, root, pred[v], k - 1);
    }
    NearestBelow(pred, ids, v, u);
  }

  /** In the shortened tree a vertex hangs as many hops below the root as it had ancestors that stay. */
  lemma {:induction false} HopsAreStops(pred0: seq<nat>, ids: seq<int>, pred: seq<nat>, distances: seq<nat>, limit: nat,
                                        root: nat, v: nat, k: nat)
    requires |distances| == |pred0| && root < |pred0| && pred0[root] == root
    requires Shortened(pred0, ids, pred, {}) && Hops(pred0, distances, limit, root, v, k)
    requires forall u: nat :: u < |pred0| && pred0[u] != u ==> pred[u] != u
    ensures Hops(pred, distances, limit, root, v, Stops(pred0, ids, v, k))
    decreases k
  {
    if k > 0 {
      var u, m := NextStop(pred0, ids, distances, limit, root, v, k);
      assert ShortenedAt(pred0, ids, pred, {}, v);
      NearestUnique(pred0, ids, v, u, pred[v]);
      HopsAreStops(pred0, ids, pred, distances, limit, root, u, m);
    }
  }

  lemma {:induction false} Ascend(pred: seq<nat>, rank: seq<nat>, ids: seq<int>, distances: seq<nat>, limit: nat,
                                  root: nat, v: nat, u: nat, j: nat, m: nat)
    requires Forest(pred, rank, distances) && |ids| == |pred| && v < |pred| && pred[v] != v && distances[v] <= limit
    requires NearestAt(pred, ids, v, u, j) && Hops(pred, distances, limit, root, u, m)
    ensures Hops(pred, distances, limit, root, v, m + j)
    decreases j
  {
    var w := pred[v];
    assert Descends(pred, rank, distances, v);
    if j > 1 {
      assert Up(pred, v, 1) == w && !Stays(pred, ids, w);
      forall i | 0 < i < j - 1 ensures Up(pred, w, i) < |pred| && !Stays(pred, ids, Up(pred, w, i)) {
        assert Up(pred, v, i + 1) == Up(pred, w, i);
      }
      assert NearestAt(pred, ids, w, u, j - 1);
      Ascend(pred, rank, ids, distances, limit, root, w, u, j - 1, m);
    } else {
      assert Up(pred, w, 0) == w;
    }
  }

  /** Nothing hangs below the root in the shortened tree that did not before. */
  lemma {:induction false} HopsBefore(pred0: seq<nat>, rank: seq<nat>, ids: seq<int>, pred: seq<nat>,
                                      distances: seq<nat>, limit: nat, root: nat, v: nat, k: nat)
    returns (m: nat)
    requires Forest(pred0, rank, distances) && Shortened(pred0, ids, pred, {})
    requires Hops(pred, distances, limit, root, v, k)
    ensures Hops(pred0, distances, limit, root, v, m)
    decreases k
  {
    m := 0;
    if k > 0 {
      assert ShortenedAt(pred0, ids, pred, {}, v);
      var above := HopsBefore(pred0, rank, ids, pred, distances, limit, root, pred[v], k - 1);
      var j: nat :| NearestAt(pred0, ids, v, pred[v], j);
      Ascend(pred0, rank, ids, distances, limit, root, v, pred[v], j, above);
      m := above + j;
    }
  }

  lemma ShortenedForest(pred0: seq<nat>, rank: seq<nat>, ids: seq<int>, pred: seq<nat>, distances: seq<nat>)
    requires Forest(pred0, rank, distances) && Shortened(pred0, ids, pred, {})
    ensures Forest(pred, rank, distances)
    ensures forall u: nat :: u < |pred| ==> (pred[u] == u <==> pred0[u] == u)
  {
    forall v: nat | v < |pred|
      ensures Descends(pred, rank, distances, v) && (pred[v] == v <==> pred0[v] == v)
    {
      assert ShortenedAt(pred0, ids, pred, {}, v) && Descends(pred0, rank, distances, v);
      if pred0[v] != v {
        RankBelow(pred0, rank, distances, ids, v, pred[v]);
      }
    }
  }

  // ---------- labelling level by level ----------

  /** The labels are the hop counts below `d`, by id. */
  ghost predicate Labelled(ids: seq<int>, pred: seq<nat>, distances: seq<nat>, limit: nat, root: nat,
                           depth: map<int, nat>, d: nat)
    requires |ids| == |pred| == |distances|
  {
    && (forall v: nat, k: nat :: Hops(pred, distances, limit, root, v, k) && k < d ==>
      ids[v] in depth && depth[ids[v]] == k)
    && (forall i :: i in depth ==>
          exists v: nat, k: nat :: k < d && Hops(pred, distances, limit, root, v, k) && ids[v] == i)
  }

  ghost predicate Level(pred: seq<nat>, distances: seq<nat>, limit: nat, root: nat, vertices: set<nat>, d: nat)
    requires |pred| == |distances|
  {
    forall v: nat :: v in vertices <==> Hops(pred, distances, limit, root, v, d)
  }

  /** A vertex that can be labelled hangs somewhere and is within the distance. */
  ghost predicate Hangs(pred: seq<nat>, distances: seq<nat>, limit: nat, v: nat)
    requires |pred| == |distances|
  {
    v < |pred| && pred[v] != v && distances[v] <= limit
  }

  /** `depth` is `depth0` with the label `d` for the vertices of `next`. */
  ghost predicate Overlaid(ids: seq<int>, depth0: map<int, nat>, depth: map<int, nat>, next: set<nat>, d: nat) {
    && (forall v :: v in next ==> v < |ids| && ids[v] in depth && depth[ids[v]] == d)
    && (forall i :: i in depth ==>
          (i in depth0 && depth[i] == depth0[i]) || exists v :: v in next && v < |ids| && ids[v] == i)
    && depth0.Keys <= depth.Keys
    && (forall i :: i in depth0 ==> depth[i] == depth0[i] || exists v :: v in next && v < |ids| && ids[v] == i)
  }

  lemma {:induction false} LabelledOnce(ids: seq<int>, pred: seq<nat>, distances: seq<nat>, limit: nat, root: nat,
                                        depth0: map<int, nat>, depth: map<int, nat>, next: set<nat>, d: nat, v: nat,
                                        k: nat)
    requires |ids| == |pred| == |distances| && root < |pred| && pred[root] == root && Injective(ids)
    requires Labelled(ids, pred, distances, limit, root, depth0, d) && Level(pred, distances, limit, root, next, d)
    requires Overlaid(ids, depth0, depth, next, d)
    requires Hops(pred, distances, limit, root, v, k) && k <= d
    ensures ids[v] in depth && depth[ids[v]] == k
  {
    hide Hops;
    if k == d {
      assert v in next;
    } else {
      assert ids[v] in depth0 && depth0[ids[v]] == k;
      if depth[ids[v]] != depth0[ids[v]] {
        var i := ids[v];
        assert i in depth0;
        var u :| u in next && u < |ids| && ids[u] == i;
        assert u == v && Hops(pred, distances, limit, root, u, d);
        HopsUnique(pred, distances, limit, root, v, k, d);
      }
    }
  }

  lemma NextLevel(ids: seq<int>, pred: seq<nat>, distances: seq<nat>, limit: nat, root: nat, depth0: map<int, nat>,
                  depth: map<int, nat>, next: set<nat>, d: nat)
    requires |ids| == |pred| == |distances| && root < |pred| && pred[root] == root
    requires Injective(ids)
    requires Labelled(ids, pred, distances, limit, root, depth0, d) && Level(pred, distances, limit, root, next, d)
    requires Overlaid(ids, depth0, depth, next, d)
    ensures Labelled(ids, pred, distances, limit, root, depth, d + 1)
  {
    forall v: nat, k: nat | Hops(pred, distances, limit, root, v, k) && k < d + 1
      ensures ids[v] in depth && depth[ids[v]] == k
    {
      LabelledOnce(ids, pred, distances, limit, root, depth0, depth, next, d, v, k);
    }
    hide Hops;
    forall i | i in depth
      ensures exists v: nat, k: nat :: Hops(pred, distances, limit, root, v, k) && k < d + 1 && ids[v] == i
    {
      if !(i in depth0 && depth[i] == depth0[i]) {
        var v :| v in next && v < |ids| && ids[v] == i;
        assert Hops(pred, distances, limit, root, v, d);
      } else {
        var v: nat, k: nat :| Hops(pred, distances, limit, root, v, k) && k < d && ids[v] == i;
      }
    }
  }

  ghost predicate Injective(ids: seq<int>) {
    forall i, j :: 0 <= i < j < |ids| ==> ids[i] != ids[j]
  }

  /** One level: labels and collects every vertex that has its predecessor among `vertices`. */
  method OneLevel(ids: seq<int>, distances: seq<nat>, pred: seq<nat>, distance: nat, vertices: set<nat>,
                  depth0: map<int, nat>, d: nat)
    returns (next: set<nat>, depth: map<int, nat>)
    requires |ids| == |pred| == |distances|
    ensures forall x: nat :: x in next <==> Hangs(pred, distances, distance, x) && pred[x] in vertices
    ensures Overlaid(ids, depth0, depth, next, d)
  {
    next, depth := {}, depth0;
    var todo := vertices;
    while todo != {}
      invariant todo <= vertices
      invariant forall x: nat :: x in next <==> Hangs(pred, distances, distance, x) && pred[x] in vertices - todo
      invariant Overlaid(ids, depth0, depth, next, d)
    {
      var v :| v in todo;
      ghost var before := next;
      for p := 0 to |ids|
        invariant forall x: nat ::
          x in next <==> x in before || (x < p && Hangs(pred, distances, distance, x) && pred[x] == v)
        invariant Overlaid(ids, depth0, depth, next, d)
      {
        if pred[p] == p { continue; }
        if !(distances[p] <= distance) { continue; }
        if pred[p] != v { continue; }
        OverlayOne(ids, depth0, depth, next, d, p);
        depth := depth[ids[p] := d];
        next := next + {p};
      }
      todo := todo - {v};
    }
  }

  lemma OverlayOne(ids: seq<int>, depth0: map<int, nat>, depth: map<int, nat>, next: set<nat>, d: nat, p: nat)
    requires Overlaid(ids, depth0, depth, next, d) && p < |ids|
    ensures Overlaid(ids, depth0, depth[ids[p] := d], next + {p}, d)
  {
    var depth', next' := depth[ids[p] := d], next + {p};
    forall i | i in depth'
      ensures (i in depth0 && depth'[i] == depth0[i]) || exists v :: v in next' && v < |ids| && ids[v] == i
    {
      if i == ids[p] {
        assert p in next';
      } else if !(i in depth0 && depth[i] == depth0[i]) {
        var v :| v in next && v < |ids| && ids[v] == i;
        assert v in next';
      }
    }
    forall i | i in depth0
      ensures i in depth' && (depth'[i] == depth0[i] || exists v :: v in next' && v < |ids| && ids[v] == i)
    {
      if i == ids[p] {
        assert p in next';
      } else if depth[i] != depth0[i] {
        var v :| v in next && v < |ids| && ids[v] == i;
        assert v in next';
      }
    }
  }

  lemma FirstLevel(ids: seq<int>, pred: seq<nat>, distances: seq<nat>, limit: nat, root: nat)
    requires |ids| == |pred| == |distances| && root < |pred|
    ensures Level(pred, distances, limit, root, {root}, 0)
    ensures Labelled(ids, pred, distances, limit, root, map[ids[root] := 0], 1)
  {
    assert Hops(pred, distances, limit, root, root, 0);
  }

  lemma LevelBelow(pred: seq<nat>, distances: seq<nat>, limit: nat, root: nat, vertices: set<nat>, next: set<nat>,
                   d: nat)
    requires |pred| == |distances| && d > 0 && Level(pred, distances, limit, root, vertices, d - 1)
    requires forall x: nat :: x in next <==> Hangs(pred, distances, limit, x) && pred[x] in vertices
    ensures Level(pred, distances, limit, root, next, d)
  {
  }

  lemma {:induction false} EmptyAbove(pred: seq<nat>, distances: seq<nat>, limit: nat, root: nat, vertices: set<nat>,
                                      d: nat, v: nat, k: nat)
    requires |pred| == |distances| && Level(pred, distances, limit, root, vertices, d) && k >= d
    requires Hops(pred, distances, limit, root, v, k)
    ensures vertices != {}
    decreases k
  {
    if k > d {
      EmptyAbove(pred, distances, limit, root, vertices, d, pred[v], k - 1);
    } else {
      assert v in vertices;
    }
  }

  /** The label of a vertex that hung `k` hops below the root before the points were taken out. */
  ghost function Label(pred0: seq<nat>, ids: seq<int>, details: bool, v: nat, k: nat): nat
    requires |ids| == |pred0|
  {
    if details then k else Stops(pred0, ids, v, k)
  }

  /** Exactly the vertices that hang below the root within the distance are labelled, with details by their hops and
      without by those of their ancestors that stay. */
  ghost predicate Depths(ids: seq<int>, pred0: seq<nat>, distances: seq<nat>, limit: nat, root: nat, details: bool,
                         depth: map<int, nat>)
    requires |ids| == |pred0| == |distances|
  {
    && (forall v: nat, k: nat :: Hops(pred0, distances, limit, root, v, k) ==>
          ids[v] in depth && depth[ids[v]] == Label(pred0, ids, details, v, k))
    && (forall i :: i in depth ==> exists v: nat, k: nat :: Hops(pred0, distances, limit, root, v, k) && ids[v] == i)
  }

  /** Once a level is empty, or there are as many levels as vertices, all labels are there. */
  lemma AllLevels(ids: seq<int>, rank: seq<nat>, pred: seq<nat>, distances: seq<nat>, limit: nat, root: nat,
                  depth: map<int, nat>, vertices: set<nat>, d: nat)
    requires |ids| == |pred| == |distances| && Forest(pred, rank, distances) && d > 0
    requires Labelled(ids, pred, distances, limit, root, depth, d) &&
      Level(pred, distances, limit, root, vertices, d - 1)
    requires vertices == {} || d >= |pred|
    ensures Depths(ids, pred, distances, limit, root, true, depth)
  {
    forall v: nat, k: nat | Hops(pred, distances, limit, root, v, k) ensures k < d {
      hide Level, Labelled;
      if d >= |pred| {
        HopsBound(pred, rank, distances, limit, root, v, k);
      } else if k >= d {
        EmptyAbove(pred, distances, limit, root, vertices, d - 1, v, k);
      }
    }
  }

  lemma DepthsWithoutDetails(ids: seq<int>, rank: seq<nat>, pred0: seq<nat>, pred: seq<nat>, distances: seq<nat>,
                             limit: nat, root: nat, depth: map<int, nat>)
    requires |ids| == |pred0| == |pred| == |distances| && root < |pred0| && pred0[root] == root
    requires Forest(pred0, rank, distances) && Shortened(pred0, ids, pred, {})
    requires Depths(ids, pred, distances, limit, root, true, depth)
    ensures Depths(ids, pred0, distances, limit, root, false, depth)
  {
    hide Hops, Shortened;
    ShortenedForest(pred0, rank, ids, pred, distances);
    forall v: nat, k: nat | Hops(pred0, distances, limit, root, v, k)
      ensures ids[v] in depth && depth[ids[v]] == Label(pred0, ids, false, v, k)
    {
      HopsAreStops(pred0, ids, pred, distances, limit, root, v, k);
    }
    forall i | i in depth ensures exists v: nat, k: nat :: Hops(pred0, distances, limit, root, v, k) && ids[v] == i {
      var v: nat, k: nat :| Hops(pred, distances, limit, root, v, k) && ids[v] == i;
      var m := HopsBefore(pred0, rank, ids, pred, distances, limit, root, v, k);
    }
  }

  method GetDepth(ids: seq<int>, root: nat, distances: seq<nat>, predecessors: array<nat>, distance: nat, details: bool,
                  ghost rank: seq<nat>)
    returns (depth: map<int, nat>)
    requires predecessors.Length == |ids| && Injective(ids)
    requires |distances| == |ids| > 0 ==>
      root < |ids| && Forest(predecessors[..], rank, distances) && predecessors[root] == root
    modifies predecessors
    ensures |ids| == 0 || |distances| != |ids| ==> depth == map[] && predecessors[..] == old(predecessors[..])
    ensures |distances| == |ids| > 0 ==> Depths(ids, old(predecessors[..]), distances, distance, root, details, depth)
    ensures |distances| == |ids| > 0 ==>
      if details then predecessors[..] == old(predecessors[..])
      else Shortened(old(predecessors[..]), ids, predecessors[..], {})
  {
    depth := map[];
    if predecessors.Length == 0 { return; }
    if predecessors.Length != |distances| { return; }
    hide Forest, Injective, Shortened, Hops, Labelled, Level, Depths, Overlaid;
    ghost var pred0 := predecessors[..];
    depth := depth[ids[root] := 0];
    var vertices := {root};
    if !details {
      RemoveDetails(ids, distances, predecessors, rank);
      ShortenedForest(pred0, rank, ids, predecessors[..], distances);
    }
    var pred := predecessors[..];
    FirstLevel(ids, pred, distances, distance, root);
    var d := 1;
    while d < |ids|
      invariant d > 0 && predecessors[..] == pred
      invariant Labelled(ids, pred, distances, distance, root, depth, d) &&
        Level(pred, distances, distance, root, vertices, d - 1)
    {
      if vertices == {} { break; }
      ghost var depth0 := depth;
      var next;
      next, depth := OneLevel(ids, distances, pred, distance, vertices, depth, d);
      LevelBelow(pred, distances, distance, root, vertices, next, d);
      NextLevel(ids, pred, distances, distance, root, depth0, depth, next, d);
      vertices := next;
      d := d + 1;
    }
    AllLevels(ids, rank, pred, distances, distance, root, depth, vertices, d);
    if !details {
      DepthsWithoutDetails(ids, rank, pred0, pred, distances, distance, root, depth);
    }
  }
}
