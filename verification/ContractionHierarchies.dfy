/** include/contraction/contractionHierarchies.hpp: all vertices, contracted one after the other and ranked. */
module ContractionHierarchies {
  import opened Graphs
  import opened Bypass
  import opened ContractionGraph
  import opened ContractionShortcuts
  import opened ShortcutChoice
  import opened ShortcutRules

  // ---------- the queue ----------

  datatype Ranked = Ranked(key: int, vertex: nat)

  predicate Le(a: Ranked, b: Ranked) {
    a.key < b.key || (a.key == b.key && a.vertex <= b.vertex)
  }

  /** `y` may stand at the front of `q`. */
  ghost predicate Heads(y: Ranked, q: seq<Ranked>) {
    forall z :: z in q ==> Le(y, z) && y.vertex != z.vertex
  }

  /** A priority queue is kept as its contents in order, each vertex once. */
  ghost predicate IsQueue(q: seq<Ranked>) {
    q == [] || (Heads(q[0], q[1..]) && IsQueue(q[1..]))
  }

  lemma {:induction false} QueueOrder(q: seq<Ranked>, i: nat, j: nat)
    requires IsQueue(q) && i < j < |q|
    ensures Le(q[i], q[j]) && q[i].vertex != q[j].vertex
  {
    if i == 0 {
      assert q[j] == q[1..][j - 1];
    } else {
      QueueOrder(q[1..], i - 1, j - 1);
    }
  }

  ghost function Vertices(q: seq<Ranked>): set<nat> {
    set x | x in q :: x.vertex
  }

  function Enqueue(q: seq<Ranked>, x: Ranked): (r: seq<Ranked>)
    ensures |r| == |q| + 1 && forall y :: y in r <==> y == x || y in q
  {
    if q == [] || Le(x, q[0]) then [x] + q
    else
      assert forall y :: y in q <==> y == q[0] || y in q[1..];
      [q[0]] + Enqueue(q[1..], x)
  }

  lemma {:induction false} EnqueueKeeps(q: seq<Ranked>, x: Ranked)
    requires IsQueue(q) && x.vertex !in Vertices(q)
    ensures IsQueue(Enqueue(q, x)) && Vertices(Enqueue(q, x)) == Vertices(q) + {x.vertex}
  {
    assert forall y :: y in q ==> y.vertex in Vertices(q);
    if q != [] {
      assert forall y :: y in q <==> y == q[0] || y in q[1..];
      if Le(x, q[0]) {
        assert ([x] + q)[1..] == q;
      } else {
        EnqueueKeeps(q[1..], x);
        assert Enqueue(q, x)[1..] == Enqueue(q[1..], x);
      }
    } else {
      assert [x][1..] == [];
    }
  }

  lemma {:induction false} TopOff(q: seq<Ranked>)
    requires IsQueue(q) && q != []
    ensures IsQueue(q[1..]) && Vertices(q) == Vertices(q[1..]) + {q[0].vertex} && q[0].vertex !in Vertices(q[1..])
    ensures forall y :: y in q[1..] ==> q[0].key <= y.key
  {
    assert forall y :: y in q <==> y == q[0] || y in q[1..];
  }

  /** How many keys are not the metric that the vertex has now. */
  ghost function Stale(q: seq<Ranked>, metric: nat -> int): nat {
    if q == [] then 0 else (if q[0].key == metric(q[0].vertex) then 0 else 1) + Stale(q[1..], metric)
  }

  lemma {:induction false} StaleEnqueue(q: seq<Ranked>, x: Ranked, metric: nat -> int)
    ensures Stale(Enqueue(q, x), metric) == Stale(q, metric) + if x.key == metric(x.vertex) then 0 else 1
  {
    if q == [] || Le(x, q[0]) {
      assert ([x] + q)[1..] == q;
    } else {
      StaleEnqueue(q[1..], x, metric);
      assert Enqueue(q, x)[1..] == Enqueue(q[1..], x);
    }
  }

  /** The metric of every vertex, as things stand. */
  ghost function Metrics(directed: bool, es: seq<CHEdge>, oracle: Oracle): nat -> int {
    (v: nat) => Metric(directed, BareAll(es), oracle, v)
  }

  ghost function Free(n: nat, forbidden: set<nat>): set<nat> {
    set v | 0 <= v < n && v !in forbidden
  }

  /** Every vertex that may be contracted is in one of the queues; those contracted have no edges left. */
  ghost predicate Queues(n: nat, forbidden: set<nat>, minPQ: seq<Ranked>, ranked: seq<Ranked>, live: set<nat>) {
    && IsQueue(minPQ) && IsQueue(ranked)
    && Vertices(minPQ) !! Vertices(ranked) && Vertices(minPQ) + Vertices(ranked) == Free(n, forbidden)
    && Vertices(ranked) !! live
  }

  lemma {:induction false} Reinserted(n: nat, forbidden: set<nat>, minPQ: seq<Ranked>, ranked: seq<Ranked>,
                                      live: set<nat>, m: int, metric: nat -> int)
    requires Queues(n, forbidden, minPQ, ranked, live) && minPQ != [] && m == metric(minPQ[0].vertex)
    ensures minPQ[0].vertex < n
    ensures |minPQ| > 1 && minPQ[1].key < m ==>
      var q := Enqueue(minPQ[1..], Ranked(m, minPQ[0].vertex));
      Queues(n, forbidden, q, ranked, live) && |q| == |minPQ| && Stale(q, metric) < Stale(minPQ, metric)
  {
    hide IsQueue, Vertices;
    TopOff(minPQ);
    EnqueueKeeps(minPQ[1..], Ranked(m, minPQ[0].vertex));
    StaleEnqueue(minPQ[1..], Ranked(m, minPQ[0].vertex), metric);
    assert minPQ[0].vertex in Free(n, forbidden);
    assert |minPQ| > 1 ==> minPQ[1] in minPQ[1..];
  }

  lemma {:induction false} RankedNow(n: nat, forbidden: set<nat>, minPQ: seq<Ranked>, ranked: seq<Ranked>,
                                     live: set<nat>, m: int, live': set<nat>)
    requires Queues(n, forbidden, minPQ, ranked, live) && minPQ != [] && live' <= live - {minPQ[0].vertex}
    ensures Queues(n, forbidden, minPQ[1..], Enqueue(ranked, Ranked(m, minPQ[0].vertex)), live')
  {
    hide IsQueue, Vertices;
    TopOff(minPQ);
    EnqueueKeeps(ranked, Ranked(m, minPQ[0].vertex));
  }

  // ---------- the lazy loop, as a function ----------

  /** One contraction: the edges before it, the shortcuts it made, the vertex with its metric, and the queue left. */
  datatype Contraction = Contraction(before: seq<CHEdge>, made: seq<CHEdge>, rank: Ranked, waiting: seq<Ranked>)

  /** Edges without ids, the queue, and the contractions done. */
  datatype Lazy = Lazy(edges: seq<CHEdge>, minPQ: seq<Ranked>, history: seq<Contraction>)

  /** One pass through the loop: the front vertex goes back under its present metric or is contracted.
      An empty queue has no key that is less. */
  ghost function Pass(directed: bool, oracle: Oracle, st: Lazy): Lazy {
    if st.minPQ == [] then st
    else
      var v, rest := st.minPQ[0].vertex, st.minPQ[1..];
      var m := Metric(directed, st.edges, oracle, v);
      if rest != [] && rest[0].key < m then st.(minPQ := Enqueue(rest, Ranked(m, v)))
      else
        var made := AllPast(directed, st.edges, oracle, v);
        Lazy(Cleared(st.edges + made, v), rest, st.history + [Contraction(st.edges, made, Ranked(m, v), rest)])
  }

  ghost function Passes(directed: bool, oracle: Oracle, st: Lazy, k: nat): Lazy {
    if k == 0 then st else Pass(directed, oracle, Passes(directed, oracle, st, k - 1))
  }

  /** The vertices below `n` that may be contracted, queued by their ids. */
  function Waiting(ids: seq<int>, forbidden: set<nat>, n: nat): seq<Ranked>
    requires n <= |ids|
  {
    if n == 0 then []
    else if n - 1 in forbidden then Waiting(ids, forbidden, n - 1)
    else Enqueue(Waiting(ids, forbidden, n - 1), Ranked(ids[n - 1], n - 1))
  }

  function Unranked(ids: seq<int>, forbidden: set<nat>, es: seq<CHEdge>): Lazy {
    Lazy(es, Waiting(ids, forbidden, |ids|), [])
  }

  /** The queue of ranked vertices, and all shortcuts, that these contractions give. */
  function RankedBy(history: seq<Contraction>): seq<Ranked> {
    if history == [] then [] else Enqueue(RankedBy(history[..|history| - 1]), history[|history| - 1].rank)
  }

  function MadeBy(history: seq<Contraction>): seq<CHEdge> {
    if history == [] then [] else MadeBy(history[..|history| - 1]) + history[|history| - 1].made
  }

  /** The graph that the first `i` contractions leave of `es`. */
  function Left(es: seq<CHEdge>, history: seq<Contraction>, i: nat): seq<CHEdge>
    requires i <= |history|
  {
    if i == 0 then es else Cleared(Left(es, history, i - 1) + history[i - 1].made, history[i - 1].rank.vertex)
  }

  /** Contraction `i` works on what the earlier ones have left, makes the shortcuts that the search calls for there,
      ranks the vertex by its metric there, and no key still waiting is less. */
  ghost predicate Justified(directed: bool, oracle: Oracle, es: seq<CHEdge>, history: seq<Contraction>, i: nat)
    requires i < |history|
  {
    var c := history[i];
    && c.before == Left(es, history, i)
    && c.made == AllPast(directed, c.before, oracle, c.rank.vertex)
    && c.rank.key == Metric(directed, c.before, oracle, c.rank.vertex)
    && forall x :: x in c.waiting ==> c.rank.key <= x.key
  }

  /** The vertex and the queue of contraction `i` are those that the first `i` have left over. */
  ghost predicate InTurn(ids: seq<int>, forbidden: set<nat>, history: seq<Contraction>, i: nat)
    requires i < |history|
  {
    && history[i].rank.vertex in Free(|ids|, forbidden) - Ranks(history, i)
    && Vertices(history[i].waiting) == Free(|ids|, forbidden) - Ranks(history, i) - {history[i].rank.vertex}
  }

  /** The vertices of the first `i` contractions. */
  ghost function Ranks(history: seq<Contraction>, i: nat): set<nat>
    requires i <= |history|
  {
    set j | 0 <= j < i :: history[j].rank.vertex
  }

  /** What every pass keeps. */
  ghost predicate Ordered(directed: bool, oracle: Oracle, ids: seq<int>, forbidden: set<nat>, es: seq<CHEdge>,
                          st: Lazy) {
    && st.edges == Left(es, st.history, |st.history|)
    && (forall i :: 0 <= i < |st.history| ==>
          Justified(directed, oracle, es, st.history, i) && InTurn(ids, forbidden, st.history, i))
    && IsQueue(st.minPQ) && Vertices(st.minPQ) == Free(|ids|, forbidden) - Ranks(st.history, |st.history|)
    && Ranks(st.history, |st.history|) <= Free(|ids|, forbidden)
  }

  lemma {:induction false} LeftSnoc(es: seq<CHEdge>, history: seq<Contraction>, c: Contraction, i: nat)
    requires i <= |history|
    ensures Left(es, history + [c], i) == Left(es, history, i)
  {
    if i > 0 {
      LeftSnoc(es, history, c, i - 1);
    }
  }

  lemma RanksSnoc(history: seq<Contraction>, c: Contraction, i: nat)
    requires i <= |history|
    ensures Ranks(history + [c], i) == Ranks(history, i)
    ensures Ranks(history + [c], |history| + 1) == Ranks(history, |history|) + {c.rank.vertex}
  {
    forall v | v in Ranks(history, |history|) + {c.rank.vertex} ensures v in Ranks(history + [c], |history| + 1) {
      if v in Ranks(history, |history|) {
        var j :| 0 <= j < |history| && history[j].rank.vertex == v;
        assert (history + [c])[j].rank.vertex == v;
      } else {
        assert (history + [c])[|history|].rank.vertex == v;
      }
    }
    forall v | v in Ranks(history, i) ensures v in Ranks(history + [c], i) {
      var j :| 0 <= j < i && history[j].rank.vertex == v;
      assert (history + [c])[j].rank.vertex == v;
    }
  }

  lemma JustifiedSnoc(directed: bool, oracle: Oracle, ids: seq<int>, forbidden: set<nat>, es: seq<CHEdge>,
                      history: seq<Contraction>, c: Contraction, i: nat)
    requires i < |history|
    requires Justified(directed, oracle, es, history, i) && InTurn(ids, forbidden, history, i)
    ensures Justified(directed, oracle, es, history + [c], i) && InTurn(ids, forbidden, history + [c], i)
  {
    LeftSnoc(es, history, c, i);
    RanksSnoc(history, c, i);
    hide Left, Metric, AllPast, Ranks, Free;
  }

  /** One more contraction, justified and in turn. */
  lemma HistorySnoc(directed: bool, oracle: Oracle, ids: seq<int>, forbidden: set<nat>, es: seq<CHEdge>,
                    history: seq<Contraction>, c: Contraction)
    requires forall i :: 0 <= i < |history| ==>
      Justified(directed, oracle, es, history, i) && InTurn(ids, forbidden, history, i)
    requires Justified(directed, oracle, es, history + [c], |history|) &&
      InTurn(ids, forbidden, history + [c], |history|)
    ensures forall i :: 0 <= i < |history + [c]| ==>
      Justified(directed, oracle, es, history + [c], i) && InTurn(ids, forbidden, history + [c], i)
  {
    hide Justified, InTurn;
    forall i | 0 <= i < |history + [c]|
      ensures Justified(directed, oracle, es, history + [c], i) && InTurn(ids, forbidden, history + [c], i)
    {
      if i < |history| {
        JustifiedSnoc(directed, oracle, ids, forbidden, es, history, c, i);
      }
    }
  }

  /** The contraction of the front vertex is justified and in turn. */
  lemma FrontInTurn(directed: bool, oracle: Oracle, ids: seq<int>, forbidden: set<nat>, es: seq<CHEdge>, st: Lazy,
                    m: int)
    requires Ordered(directed, oracle, ids, forbidden, es, st) && st.minPQ != []
    requires m == Metric(directed, st.edges, oracle, st.minPQ[0].vertex) && (|st.minPQ| > 1 ==> m <= st.minPQ[1].key)
    ensures var c := Contraction(st.edges, AllPast(directed, st.edges, oracle, st.minPQ[0].vertex),
                                 Ranked(m, st.minPQ[0].vertex), st.minPQ[1..]);
      && Justified(directed, oracle, es, st.history + [c], |st.history|)
      && InTurn(ids, forbidden, st.history + [c], |st.history|)
  {
    var v, rest, n := st.minPQ[0].vertex, st.minPQ[1..], |st.history|;
    var c := Contraction(st.edges, AllPast(directed, st.edges, oracle, v), Ranked(m, v), rest);
    TopOff(st.minPQ);
    LeastLeft(rest, m);
    LeftSnoc(es, st.history, c, n);
    RanksSnoc(st.history, c, n);
    hide Metric, AllPast, IsQueue, Vertices, Free, Ranks, Left, Ordered;
    assert (st.history + [c])[n] == c;
    assert Vertices(st.minPQ) == Free(|ids|, forbidden) - Ranks(st.history, n) &&
      st.edges == Left(es, st.history, n) by {
      OrderedMeans(directed, oracle, ids, forbidden, es, st);
    }
  }

  lemma {:induction false} OrderedMeans(directed: bool, oracle: Oracle, ids: seq<int>, forbidden: set<nat>,
                                        es: seq<CHEdge>, st: Lazy)
    requires Ordered(directed, oracle, ids, forbidden, es, st)
    ensures st.edges == Left(es, st.history, |st.history|)
    ensures IsQueue(st.minPQ) && Vertices(st.minPQ) == Free(|ids|, forbidden) - Ranks(st.history, |st.history|)
    ensures Ranks(st.history, |st.history|) <= Free(|ids|, forbidden)
    ensures forall i :: 0 <= i < |st.history| ==>
      Justified(directed, oracle, es, st.history, i) && InTurn(ids, forbidden, st.history, i)
  {
  }

  /** The pass that contracts. */
  lemma ContractingPass(directed: bool, oracle: Oracle, ids: seq<int>, forbidden: set<nat>, es: seq<CHEdge>, st: Lazy)
    requires Ordered(directed, oracle, ids, forbidden, es, st) && st.minPQ != []
    requires |st.minPQ| > 1 ==> Metric(directed, st.edges, oracle, st.minPQ[0].vertex) <= st.minPQ[1].key
    ensures Ordered(directed, oracle, ids, forbidden, es, Pass(directed, oracle, st))
  {
    hide Metric, AllPast, IsQueue, Vertices, Free, Ranks, Left, Justified, InTurn, Cleared;
    var v, rest, n := st.minPQ[0].vertex, st.minPQ[1..], |st.history|;
    var m, made := Metric(directed, st.edges, oracle, v), AllPast(directed, st.edges, oracle, v);
    var c := Contraction(st.edges, made, Ranked(m, v), rest);
    var longer := st.history + [c];
    FrontInTurn(directed, oracle, ids, forbidden, es, st, m);
    HistorySnoc(directed, oracle, ids, forbidden, es, st.history, c);
    TopOff(st.minPQ);
    RanksSnoc(st.history, c, n);
    LeftOne(es, st.history, c);
    assert Pass(directed, oracle, st) == Lazy(Cleared(st.edges + made, v), rest, longer);
  }

  lemma {:induction false} LeftOne(es: seq<CHEdge>, history: seq<Contraction>, c: Contraction)
    ensures Left(es, history + [c], |history| + 1) == Cleared(Left(es, history, |history|) + c.made, c.rank.vertex)
  {
    LeftSnoc(es, history, c, |history|);
  }

  lemma {:induction false} LeastLeft(q: seq<Ranked>, m: int)
    requires IsQueue(q) && (q != [] ==> m <= q[0].key)
    ensures forall x :: x in q ==> m <= x.key
  {
    if q != [] {
      TopOff(q);
      assert forall y :: y in q <==> y == q[0] || y in q[1..];
    }
  }

  lemma PassKeeps(directed: bool, oracle: Oracle, ids: seq<int>, forbidden: set<nat>, es: seq<CHEdge>, st: Lazy)
    requires Ordered(directed, oracle, ids, forbidden, es, st)
    ensures Ordered(directed, oracle, ids, forbidden, es, Pass(directed, oracle, st))
  {
    hide Metric, AllPast, Justified, InTurn, Left;
    if st.minPQ != [] {
      var v, rest := st.minPQ[0].vertex, st.minPQ[1..];
      var m := Metric(directed, st.edges, oracle, v);
      if rest != [] && rest[0].key < m {
        TopOff(st.minPQ);
        EnqueueKeeps(rest, Ranked(m, v));
      } else {
        ContractingPass(directed, oracle, ids, forbidden, es, st);
      }
    }
  }

  /** At the start every vertex that may be contracted waits under its own id, so the smallest id comes first. */
  lemma {:induction false} WaitingByIds(ids: seq<int>, forbidden: set<nat>, n: nat)
    requires n <= |ids|
    ensures forall x :: x in Waiting(ids, forbidden, n) <==>
      x.vertex < n && x.vertex !in forbidden && x.key == ids[x.vertex]
    ensures forall x :: x in Waiting(ids, forbidden, n) ==> Waiting(ids, forbidden, n)[0].key <= x.key
  {
    if n > 0 {
      WaitingByIds(ids, forbidden, n - 1);
    }
    WaitingIsQueue(ids, forbidden, n);
    LeastFirst(Waiting(ids, forbidden, n));
  }

  lemma {:induction false} LeastFirst(q: seq<Ranked>)
    requires IsQueue(q)
    ensures forall x :: x in q ==> q[0].key <= x.key
  {
    if q != [] {
      LeastLeft(q, q[0].key);
    }
  }

  lemma {:induction false} WaitingIsQueue(ids: seq<int>, forbidden: set<nat>, n: nat)
    requires n <= |ids|
    ensures IsQueue(Waiting(ids, forbidden, n)) && Vertices(Waiting(ids, forbidden, n)) == Free(n, forbidden)
  {
    hide IsQueue, Vertices, Enqueue;
    if n == 0 {
      NoVertices(forbidden);
    } else {
      WaitingIsQueue(ids, forbidden, n - 1);
      if n - 1 !in forbidden {
        EnqueueKeeps(Waiting(ids, forbidden, n - 1), Ranked(ids[n - 1], n - 1));
      }
    }
  }

  /** However many passes the loop has made: every contraction so far was justified and in turn, and the queue holds
      the vertices that are left. */
  lemma {:induction false} PassesKeep(directed: bool, oracle: Oracle, ids: seq<int>, forbidden: set<nat>,
                                      es: seq<CHEdge>, k: nat)
    ensures Ordered(directed, oracle, ids, forbidden, es, Passes(directed, oracle, Unranked(ids, forbidden, es), k))
  {
    if k == 0 {
      WaitingIsQueue(ids, forbidden, |ids|);
      assert Ranks([], 0) == {};
    } else {
      hide Ordered, Pass;
      PassesKeep(directed, oracle, ids, forbidden, es, k - 1);
      PassKeeps(directed, oracle, ids, forbidden, es, Passes(directed, oracle, Unranked(ids, forbidden, es), k - 1));
    }
  }

  // ---------- the whole run ----------

  /** Shortcuts join vertices of the graph and stand for walks in it. */
  ghost predicate RealShortcuts(directed: bool, live: set<nat>, base: set<Edge>, shortcuts: seq<CHEdge>) {
    forall s :: s in shortcuts ==>
      && s.source in live && s.target in live
      && Real(base, Plain(s)) && (!directed ==> Real(base, Flip(Plain(s))))
  }

  lemma MoreShortcuts(directed: bool, oracle: Oracle, all: set<nat>, live: set<nat>, base: set<Edge>, es: seq<CHEdge>,
                      v: nat, es': seq<CHEdge>, shortcuts: seq<CHEdge>, shortcuts': seq<CHEdge>)
    requires RealShortcuts(directed, all, base, shortcuts) && live <= all
    requires ContractedOne(directed, oracle, live, base, es, v, es', shortcuts, shortcuts')
    ensures RealShortcuts(directed, all, base, shortcuts')
  {
    hide Real, AllPast, BareAll, Cleared, Grounded;
    assert shortcuts' == shortcuts + shortcuts'[|shortcuts|..];
  }

  /** Vertices that may be contracted have the metrics they are ranked by, and are numbered from 1 on in the order of
      these, ties broken by the vertices; the others have neither. */
  ghost predicate Ranking(n: nat, forbidden: set<nat>, ranked: seq<Ranked>, metrics: seq<int>, order: seq<int>) {
    && |metrics| == |order| == n
    && (forall v :: 0 <= v < n && v in forbidden ==> metrics[v] == -1 && order[v] == -1)
    && (forall x :: x in ranked ==> x.vertex < n && metrics[x.vertex] == x.key)
    && (forall v :: 0 <= v < n && v !in forbidden ==> 1 <= order[v] <= |Free(n, forbidden)|)
    && (forall u, v :: 0 <= u < n && 0 <= v < n && u != v && u !in forbidden && v !in forbidden ==>
          (order[u] < order[v] <==> metrics[u] < metrics[v] || (metrics[u] == metrics[v] && u < v)))
  }

  lemma {:induction false} VerticesCount(q: seq<Ranked>)
    requires IsQueue(q)
    ensures |Vertices(q)| == |q|
  {
    if q != [] {
      TopOff(q);
      VerticesCount(q[1..]);
    }
  }

  lemma {:induction false} RankedVertices(n: nat, forbidden: set<nat>, ranked: seq<Ranked>)
    requires IsQueue(ranked) && Vertices(ranked) == Free(n, forbidden)
    ensures forall k :: 0 <= k < |ranked| ==> ranked[k].vertex < n && ranked[k].vertex !in forbidden
    ensures forall i, j :: 0 <= i < j < |ranked| ==> ranked[i].vertex != ranked[j].vertex
    ensures |ranked| == |Free(n, forbidden)|
    ensures forall v :: 0 <= v < n && v !in forbidden ==> exists k :: 0 <= k < |ranked| && ranked[k].vertex == v
  {
    VerticesCount(ranked);
    forall i, j | 0 <= i < j < |ranked| ensures ranked[i].vertex != ranked[j].vertex {
      QueueOrder(ranked, i, j);
    }
    hide IsQueue;
    forall k | 0 <= k < |ranked| ensures ranked[k].vertex in Free(n, forbidden) {
      assert ranked[k] in ranked;
    }
    forall v | 0 <= v < n && v !in forbidden ensures exists k :: 0 <= k < |ranked| && ranked[k].vertex == v {
      assert v in Free(n, forbidden);
      var x :| x in ranked && x.vertex == v;
    }
  }

  /** The first `i` of the vertices have their numbers and metrics, the others have none. */
  ghost predicate NumberedUpTo(ranked: seq<Ranked>, i: nat, metrics: seq<int>, order: seq<int>) {
    && |metrics| == |order| && i <= |ranked|
    && (forall k :: 0 <= k < |ranked| ==> ranked[k].vertex < |order|)
    && (forall k :: 0 <= k < i ==> metrics[ranked[k].vertex] == ranked[k].key && order[ranked[k].vertex] == k + 1)
    && (forall v :: 0 <= v < |order| ==>
          (metrics[v] == -1 && order[v] == -1) || exists k :: 0 <= k < i && ranked[k].vertex == v)
  }

  /** `set_vertices_metric_and_hierarchy`: pops the queue and numbers the vertices. */
  method SetVerticesMetricAndHierarchy(n: nat, ranked: seq<Ranked>, ghost forbidden: set<nat>)
    returns (metrics: seq<int>, order: seq<int>)
    requires IsQueue(ranked) && Vertices(ranked) == Free(n, forbidden)
    ensures Ranking(n, forbidden, ranked, metrics, order)
  {
    hide IsQueue, Vertices, Ranking;
    metrics, order := seq(n, _ => -1), seq(n, _ => -1);
    RankedVertices(n, forbidden, ranked);
    var queue, i := ranked, 0;
    while queue != []
      invariant i <= |ranked| && queue == ranked[i..] && |order| == n && NumberedUpTo(ranked, i, metrics, order)
      decreases |queue|
    {
      hide NumberedUpTo;
      var ordered := queue[0];
      NumberNext(ranked, i, metrics, order);
      i := i + 1;
      queue := queue[1..];
      metrics := metrics[ordered.vertex := ordered.key];
      order := order[ordered.vertex := i];
    }
    Numbered(n, forbidden, ranked, metrics, order);
  }

  lemma NumberNext(ranked: seq<Ranked>, i: nat, metrics: seq<int>, order: seq<int>)
    requires NumberedUpTo(ranked, i, metrics, order) && i < |ranked|
    requires forall j, k :: 0 <= j < k < |ranked| ==> ranked[j].vertex != ranked[k].vertex
    ensures var x := ranked[i];
      x.vertex < |metrics| == |order| && NumberedUpTo(ranked, i + 1, metrics[x.vertex := x.key],
        order[x.vertex := i + 1])
  {
  }

  lemma {:induction false} Numbered(n: nat, forbidden: set<nat>, ranked: seq<Ranked>, metrics: seq<int>,
                                    order: seq<int>)
    requires IsQueue(ranked) && Vertices(ranked) == Free(n, forbidden) && |metrics| == n
    requires NumberedUpTo(ranked, |ranked|, metrics, order)
    ensures Ranking(n, forbidden, ranked, metrics, order)
  {
    hide IsQueue, Vertices, Free;
    RankedVertices(n, forbidden, ranked);
    forall u, v | 0 <= u < n && 0 <= v < n && u != v && u !in forbidden && v !in forbidden
      ensures order[u] < order[v] <==> Le(Ranked(metrics[u], u), Ranked(metrics[v], v))
    {
      var i: nat :| i < |ranked| && ranked[i].vertex == u;
      var j: nat :| j < |ranked| && ranked[j].vertex == v;
      hide NumberedUpTo, Le;
      NumberOf(ranked, i, metrics, order);
      NumberOf(ranked, j, metrics, order);
      InOrder(ranked, i, j);
    }
    NumberedVertices(n, forbidden, ranked, metrics, order);
  }

  lemma NumberOf(ranked: seq<Ranked>, i: nat, metrics: seq<int>, order: seq<int>)
    requires NumberedUpTo(ranked, |ranked|, metrics, order) && i < |ranked|
    ensures var x := ranked[i]; x.vertex < |order| == |metrics| && order[x.vertex] == i + 1
    ensures Ranked(metrics[ranked[i].vertex], ranked[i].vertex) == ranked[i]
  {
  }

  lemma {:induction false} InOrder(ranked: seq<Ranked>, i: nat, j: nat)
    requires IsQueue(ranked) && i < |ranked| && j < |ranked| && i != j
    ensures i < j <==> Le(ranked[i], ranked[j])
  {
    if i < j {
      QueueOrder(ranked, i, j);
    } else {
      QueueOrder(ranked, j, i);
    }
    hide IsQueue;
  }

  lemma NumberedVertices(n: nat, forbidden: set<nat>, ranked: seq<Ranked>, metrics: seq<int>, order: seq<int>)
    requires NumberedUpTo(ranked, |ranked|, metrics, order) && |metrics| == n && |ranked| == |Free(n, forbidden)|
    requires forall k :: 0 <= k < |ranked| ==> ranked[k].vertex < n && ranked[k].vertex !in forbidden
    requires forall v :: 0 <= v < n && v !in forbidden ==> exists k :: 0 <= k < |ranked| && ranked[k].vertex == v
    ensures forall v :: 0 <= v < n && v in forbidden ==> metrics[v] == -1 && order[v] == -1
    ensures forall x :: x in ranked ==> x.vertex < n && metrics[x.vertex] == x.key
    ensures forall v :: 0 <= v < n && v !in forbidden ==> 1 <= order[v] <= |Free(n, forbidden)|
  {
    hide Free;
  }

  lemma {:induction false} StartQueues(n: nat, forbidden: set<nat>, minPQ: seq<Ranked>, live: set<nat>)
    requires IsQueue(minPQ) && Vertices(minPQ) == Free(n, forbidden)
    ensures Queues(n, forbidden, minPQ, [], live)
  {
  }

  /** The vertices that may be contracted, queued by their ids. */
  method FillQueue(g: Graph) returns (minPQ: seq<Ranked>)
    ensures minPQ == Waiting(g.ids, g.forbidden, |g.ids|)
    ensures forall x :: x in minPQ <==>
      x.vertex < |g.ids| && x.vertex !in g.forbidden && x.key == g.ids[x.vertex]
    ensures forall x :: x in minPQ ==> minPQ[0].key <= x.key
  {
    WaitingByIds(g.ids, g.forbidden, |g.ids|);
    minPQ := [];
    for v := 0 to |g.ids|
      invariant minPQ == Waiting(g.ids, g.forbidden, v)
    {
      if v !in g.forbidden {
        minPQ := Enqueue(minPQ, Ranked(g.ids[v], v));
      }
    }
  }

  lemma NoVertices(forbidden: set<nat>)
    ensures IsQueue([]) && Vertices([]) == {} == Free(0, forbidden)
  {
  }

  /** The invariant of the lazy loop. */
  ghost predicate HalfRanked(directed: bool, n: nat, forbidden: set<nat>, live: set<nat>, base: set<Edge>,
                             es: seq<CHEdge>, shortcuts: seq<CHEdge>, minPQ: seq<Ranked>, ranked: seq<Ranked>) {
    && Queues(n, forbidden, minPQ, ranked, Live(es)) && Live(es) <= live
    && Grounded(base, ArcsOf(directed, es)) && RealShortcuts(directed, live, base, shortcuts)
  }

  /** The loop stands where the function is: the same queues, and the same edges and shortcuts but for their ids. */
  ghost predicate InStep(st: Lazy, es: seq<CHEdge>, shortcuts: seq<CHEdge>, minPQ: seq<Ranked>, ranked: seq<Ranked>) {
    && st.edges == BareAll(es) && st.minPQ == minPQ
    && RankedBy(st.history) == ranked && MadeBy(st.history) == BareAll(shortcuts)
  }

  lemma {:induction false} SameStart(ids: seq<int>, forbidden: set<nat>, es: seq<CHEdge>)
    ensures InStep(Unranked(ids, forbidden, BareAll(es)), es, [], Waiting(ids, forbidden, |ids|), [])
  {
    BareNone();
  }

  lemma PutBackInStep(directed: bool, oracle: Oracle, st: Lazy, es: seq<CHEdge>, shortcuts: seq<CHEdge>,
                      minPQ: seq<Ranked>, ranked: seq<Ranked>, m: int)
    requires InStep(st, es, shortcuts, minPQ, ranked) && |minPQ| > 1
    requires m == Metric(directed, BareAll(es), oracle, minPQ[0].vertex) && minPQ[1].key < m
    ensures InStep(Pass(directed, oracle, st), es, shortcuts, Enqueue(minPQ[1..], Ranked(m, minPQ[0].vertex)), ranked)
  {
    hide Metric, AllPast, Enqueue, RankedBy, MadeBy, BareAll;
  }

  lemma {:induction false} TakeOutInStep(directed: bool, oracle: Oracle, live: set<nat>, base: set<Edge>, st: Lazy,
                                         es: seq<CHEdge>, shortcuts: seq<CHEdge>, minPQ: seq<Ranked>,
                                         ranked: seq<Ranked>, m: int, es': seq<CHEdge>, shortcuts': seq<CHEdge>)
    requires InStep(st, es, shortcuts, minPQ, ranked) && minPQ != []
    requires m == Metric(directed, BareAll(es), oracle, minPQ[0].vertex) && (|minPQ| > 1 ==> m <= minPQ[1].key)
    requires ContractedOne(directed, oracle, live, base, es, minPQ[0].vertex, es', shortcuts, shortcuts')
    ensures InStep(Pass(directed, oracle, st), es', shortcuts', minPQ[1..], Enqueue(ranked, Ranked(m, minPQ[0].vertex)))
  {
    hide Metric, AllPast, Enqueue, BareAll, Fitting, Grounded, Live, Cleared, RankedBy, MadeBy;
    var v, made := minPQ[0].vertex, shortcuts'[|shortcuts|..];
    BareCleared(es + made, v);
    BareAppend(es, made);
    assert shortcuts' == shortcuts + made;
    BareAppend(shortcuts, made);
    var c := Contraction(st.edges, BareAll(made), Ranked(m, v), minPQ[1..]);
    OneMore(st.history, c);
    assert Pass(directed, oracle, st) == Lazy(Cleared(st.edges + BareAll(made), v), minPQ[1..], st.history + [c]);
  }

  lemma {:induction false} OneMore(history: seq<Contraction>, c: Contraction)
    ensures RankedBy(history + [c]) == Enqueue(RankedBy(history), c.rank)
    ensures MadeBy(history + [c]) == MadeBy(history) + c.made
  {
    hide Enqueue;
    assert (history + [c])[..|history|] == history;
  }

  /** The lazy loop: a vertex whose metric is no longer the least goes back into the queue; another one is contracted.
      It makes `passes` passes, as the function does. */
  method RankVertices(g: Graph, oracle: Oracle, ghost live: set<nat>, ghost base: set<Edge>)
    returns (shortcuts: seq<CHEdge>, ranked: seq<Ranked>, ghost passes: nat)
    requires |g.contracted| == |g.ids| && Live(g.edges) == live && base == ArcsOf(g.directed, g.edges)
    modifies g`edges, g`minEdgeId, g`contracted
    ensures var st := Passes(g.directed, oracle, Unranked(g.ids, g.forbidden, BareAll(old(g.edges))), passes);
      InStep(st, g.edges, shortcuts, [], ranked)
    ensures IsQueue(ranked) && Vertices(ranked) == Free(|g.ids|, g.forbidden)
    ensures Vertices(ranked) !! Live(g.edges)
    ensures RealShortcuts(g.directed, live, base, shortcuts)
  {
    hide *;
    shortcuts, ranked, passes := [], [], 0;
    var minPQ := FillQueue(g);
    WaitingIsQueue(g.ids, g.forbidden, |g.ids|);
    StartRanking(g.directed, |g.ids|, g.forbidden, live, base, g.edges, minPQ);
    SameStart(g.ids, g.forbidden, g.edges);
    ghost var start := Unranked(g.ids, g.forbidden, BareAll(g.edges));
    NoPasses(g.directed, oracle, start);
    while minPQ != []
      invariant |g.contracted| == |g.ids|
      invariant HalfRanked(g.directed, |g.ids|, g.forbidden, live, base, g.edges, shortcuts, minPQ, ranked)
      invariant InStep(Passes(g.directed, oracle, start, passes), g.edges, shortcuts, minPQ, ranked)
      decreases |minPQ|, Stale(minPQ, Metrics(g.directed, g.edges, oracle))
    {
      ghost var es, queue, shortcuts0 := g.edges, minPQ, shortcuts;
      ghost var st := Passes(g.directed, oracle, start, passes);
      NextPass(g.directed, oracle, start, passes);
      RankingShape(g.directed, |g.ids|, g.forbidden, live, base, es, shortcuts, minPQ, ranked);
      var ordered := minPQ[0];
      minPQ := minPQ[1..];
      var corrected;
      corrected, shortcuts := VertexContraction(g, oracle, ordered.vertex, true, shortcuts, base, Live(es));
      if minPQ != [] && minPQ[0].key < corrected {
        PutBack(g.directed, |g.ids|, g.forbidden, live, base, es, shortcuts, queue, ranked, oracle, corrected);
        PutBackInStep(g.directed, oracle, st, es, shortcuts, queue, ranked, corrected);
        minPQ := Enqueue(minPQ, Ranked(corrected, ordered.vertex));
      } else {
        var metric;
        metric, shortcuts := VertexContraction(g, oracle, ordered.vertex, false, shortcuts, base, Live(es));
        TakeOut(g.directed, |g.ids|, g.forbidden, live, base, es, g.edges, shortcuts0, shortcuts, queue, ranked,
          oracle, metric);
        TakeOutInStep(g.directed, oracle, Live(es), base, st, es, shortcuts0, queue, ranked, metric, g.edges,
          shortcuts);
        ranked := Enqueue(ranked, Ranked(metric, ordered.vertex));
      }
      passes := passes + 1;
    }
    AllRanked(g.directed, |g.ids|, g.forbidden, live, base, g.edges, shortcuts, ranked);
  }

  lemma {:induction false} NoPasses(directed: bool, oracle: Oracle, st: Lazy)
    ensures Passes(directed, oracle, st, 0) == st
  {
  }

  lemma NextPass(directed: bool, oracle: Oracle, st: Lazy, k: nat)
    ensures Passes(directed, oracle, st, k + 1) == Pass(directed, oracle, Passes(directed, oracle, st, k))
  {
  }

  lemma {:induction false} StartRanking(directed: bool, n: nat, forbidden: set<nat>, live: set<nat>, base: set<Edge>,
                                        es: seq<CHEdge>, minPQ: seq<Ranked>)
    requires IsQueue(minPQ) && Vertices(minPQ) == Free(n, forbidden) && Live(es) == live && base == ArcsOf(directed, es)
    ensures HalfRanked(directed, n, forbidden, live, base, es, [], minPQ, [])
  {
    OwnGround(base);
    StartQueues(n, forbidden, minPQ, Live(es));
  }

  lemma RankingShape(directed: bool, n: nat, forbidden: set<nat>, live: set<nat>, base: set<Edge>, es: seq<CHEdge>,
                     shortcuts: seq<CHEdge>, minPQ: seq<Ranked>, ranked: seq<Ranked>)
    requires HalfRanked(directed, n, forbidden, live, base, es, shortcuts, minPQ, ranked) && minPQ != []
    ensures minPQ[0].vertex < n && Grounded(base, ArcsOf(directed, es))
  {
    assert minPQ[0] in minPQ;
    assert minPQ[0].vertex in Vertices(minPQ) + Vertices(ranked);
  }

  lemma {:induction false} PutBack(directed: bool, n: nat, forbidden: set<nat>, live: set<nat>, base: set<Edge>,
                                   es: seq<CHEdge>, shortcuts: seq<CHEdge>, minPQ: seq<Ranked>, ranked: seq<Ranked>,
                                   oracle: Oracle, m: int)
    requires HalfRanked(directed, n, forbidden, live, base, es, shortcuts, minPQ, ranked) && |minPQ| > 1
    requires m == Metric(directed, BareAll(es), oracle, minPQ[0].vertex) && minPQ[1].key < m
    ensures var q := Enqueue(minPQ[1..], Ranked(m, minPQ[0].vertex));
      && HalfRanked(directed, n, forbidden, live, base, es, shortcuts, q, ranked) && |q| == |minPQ|
      && Stale(q, Metrics(directed, es, oracle)) < Stale(minPQ, Metrics(directed, es, oracle))
  {
    hide Metric, Queues, Live, Grounded, RealShortcuts, Enqueue, Stale;
    Reinserted(n, forbidden, minPQ, ranked, Live(es), m, Metrics(directed, es, oracle));
  }

  lemma {:induction false} TakeOut(directed: bool, n: nat, forbidden: set<nat>, live: set<nat>, base: set<Edge>,
                                   es: seq<CHEdge>, es': seq<CHEdge>, shortcuts: seq<CHEdge>, shortcuts': seq<CHEdge>,
                                   minPQ: seq<Ranked>, ranked: seq<Ranked>, oracle: Oracle, m: int)
    requires HalfRanked(directed, n, forbidden, live, base, es, shortcuts, minPQ, ranked) && minPQ != []
    requires ContractedOne(directed, oracle, Live(es), base, es, minPQ[0].vertex, es', shortcuts, shortcuts')
    ensures HalfRanked(directed, n, forbidden, live, base, es', shortcuts', minPQ[1..],
      Enqueue(ranked, Ranked(m, minPQ[0].vertex)))
  {
    hide Queues, Live, Grounded, RealShortcuts, Enqueue, Fitting, AllPast, BareAll, Cleared;
    RankedNow(n, forbidden, minPQ, ranked, Live(es), m, Live(es'));
    MoreShortcuts(directed, oracle, live, Live(es), base, es, minPQ[0].vertex, es', shortcuts, shortcuts');
  }

  lemma {:induction false} AllRanked(directed: bool, n: nat, forbidden: set<nat>, live: set<nat>, base: set<Edge>,
                                     es: seq<CHEdge>, shortcuts: seq<CHEdge>, ranked: seq<Ranked>)
    requires HalfRanked(directed, n, forbidden, live, base, es, shortcuts, [], ranked)
    ensures IsQueue(ranked) && Vertices(ranked) == Free(n, forbidden) && Vertices(ranked) !! Live(es)
    ensures RealShortcuts(directed, live, base, shortcuts)
  {
    assert Vertices([]) == {};
  }

  /** The vertex of a contraction has the metric by which it was contracted, and the run is the one that these
      contractions make up. */
  ghost predicate Hierarchy(directed: bool, oracle: Oracle, ids: seq<int>, forbidden: set<nat>, es: seq<CHEdge>,
                            history: seq<Contraction>, shortcuts: seq<CHEdge>, metrics: seq<int>, order: seq<int>) {
    && (forall i :: 0 <= i < |history| ==>
          Justified(directed, oracle, es, history, i) && InTurn(ids, forbidden, history, i))
    && Ranks(history, |history|) == Free(|ids|, forbidden)
    && BareAll(shortcuts) == MadeBy(history)
    && Ranking(|ids|, forbidden, RankedBy(history), metrics, order)
    && (RightOracle(directed, oracle) ==> forall i :: 0 <= i < |history| ==>
          RightlyMade(directed, history[i].before, history[i].rank.vertex, history[i].made))
    && forall i :: 0 <= i < |history| ==>
         var x := history[i].rank; x.vertex < |metrics| && metrics[x.vertex] == x.key
  }

  lemma {:induction false} RankedByMembers(history: seq<Contraction>, i: nat)
    requires i < |history|
    ensures history[i].rank in RankedBy(history)
  {
    if i < |history| - 1 {
      RankedByMembers(history[..|history| - 1], i);
    }
  }

  lemma HistoryIsRight(directed: bool, oracle: Oracle, es: seq<CHEdge>, history: seq<Contraction>)
    requires RightOracle(directed, oracle)
    requires forall i :: 0 <= i < |history| ==> Justified(directed, oracle, es, history, i)
    ensures forall i :: 0 <= i < |history| ==>
      RightlyMade(directed, history[i].before, history[i].rank.vertex, history[i].made)
  {
    hide RightOracle, RightlyMade, AllPast, Metric, Left;
    forall i | 0 <= i < |history|
      ensures RightlyMade(directed, history[i].before, history[i].rank.vertex, history[i].made)
    {
      assert Justified(directed, oracle, es, history, i);
      AllPastIsRight(directed, history[i].before, oracle, history[i].rank.vertex);
    }
  }

  lemma NoneLeft(all: set<nat>, taken: set<nat>)
    requires taken <= all
    ensures all - taken == {} ==> taken == all
  {
    if v :| v in all && v !in taken {
      assert v in all - taken;
    }
  }

  lemma {:induction false} HierarchyStands(directed: bool, oracle: Oracle, ids: seq<int>, forbidden: set<nat>,
                                           es: seq<CHEdge>, passes: nat, rest: seq<CHEdge>, shortcuts: seq<CHEdge>,
                                           ranked: seq<Ranked>, metrics: seq<int>, order: seq<int>)
    requires InStep(Passes(directed, oracle, Unranked(ids, forbidden, es), passes), rest, shortcuts, [], ranked)
    requires Ranking(|ids|, forbidden, ranked, metrics, order)
    ensures var st := Passes(directed, oracle, Unranked(ids, forbidden, es), passes);
      st.minPQ == [] && Hierarchy(directed, oracle, ids, forbidden, es, st.history, shortcuts, metrics, order)
  {
    hide Passes, Justified, InTurn, Left, BareAll, MadeBy, RightOracle, RightlyMade;
    PassesKeep(directed, oracle, ids, forbidden, es, passes);
    var st := Passes(directed, oracle, Unranked(ids, forbidden, es), passes);
    var history := st.history;
    assert Vertices(st.minPQ) == {};
    NoneLeft(Free(|ids|, forbidden), Ranks(history, |history|));
    assert BareAll(shortcuts) == MadeBy(history);
    assert RankedBy(history) == ranked;
    assert forall i :: 0 <= i < |history| ==>
          Justified(directed, oracle, es, history, i) && InTurn(ids, forbidden, history, i);
    forall i | 0 <= i < |history|
      ensures var x := history[i].rank; x.vertex < |metrics| && metrics[x.vertex] == x.key
    {
      RankedByMembers(history, i);
    }
    if RightOracle(directed, oracle) {
      HistoryIsRight(directed, oracle, es, history);
    }
  }

  /** `contractionHierarchies`: works on a copy, then adds the shortcuts to the graph and numbers the vertices. */
  method ContractionHierarchies(g: Graph, oracle: Oracle)
    returns (metrics: seq<int>, order: seq<int>, shortcuts: seq<CHEdge>, ghost passes: nat)
    requires |g.contracted| == |g.ids|
    modifies g`edges
    ensures g.edges == old(g.edges) + shortcuts
    ensures RealShortcuts(g.directed, old(Live(g.edges)), old(ArcsOf(g.directed, g.edges)), shortcuts)
    ensures SameDistances(old(ArcsOf(g.directed, g.edges)), ArcsOf(g.directed, g.edges), {})
    ensures var st := Passes(g.directed, oracle, Unranked(g.ids, g.forbidden, BareAll(old(g.edges))), passes);
      && st.minPQ == []
      && Hierarchy(g.directed, oracle, g.ids, g.forbidden, BareAll(old(g.edges)), st.history, shortcuts, metrics, order)
  {
    hide *;
    ghost var es := g.edges;
    var copy := new Graph.Copy(g);
    var ranked;
    shortcuts, ranked, passes := RankVertices(copy, oracle, Live(es), ArcsOf(g.directed, es));
    ghost var rest := copy.edges;
    for i := 0 to |shortcuts|
      invariant g.edges == es + shortcuts[..i]
    {
      assert es + shortcuts[..i] + [shortcuts[i]] == es + shortcuts[..i + 1];
      g.edges := g.edges + [shortcuts[i]];
    }
    assert shortcuts[..|shortcuts|] == shortcuts;
    AddedDistances(g.directed, Live(es), es, shortcuts);
    metrics, order := SetVerticesMetricAndHierarchy(|g.ids|, ranked, g.forbidden);
    HierarchyStands(g.directed, oracle, g.ids, g.forbidden, BareAll(es), passes, rest, shortcuts, ranked, metrics,
      order);
  }

  lemma AddedDistances(directed: bool, live: set<nat>, es: seq<CHEdge>, shortcuts: seq<CHEdge>)
    requires RealShortcuts(directed, live, ArcsOf(directed, es), shortcuts)
    ensures SameDistances(ArcsOf(directed, es), ArcsOf(directed, es + shortcuts), {})
  {
    var base, arcs := ArcsOf(directed, es), ArcsOf(directed, es + shortcuts);
    OwnGround(base);
    hide Real;
    forall a | a in base ensures a in arcs {
      ArcsFromEdges(directed, es, a);
      ArcsFromEdges(directed, es + shortcuts, a);
    }
    forall a | a in arcs ensures Real(base, a) {
      ArcsFromEdges(directed, es + shortcuts, a);
      if a !in base {
        ArcsFromEdges(directed, es, a);
      }
    }
    GroundedDistances(base, arcs);
  }
}
