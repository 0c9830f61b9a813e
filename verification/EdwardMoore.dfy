/** include/bellman_ford/edwardMoore.hpp: label correcting with a FIFO queue. */
module EdwardMoore {
  import opened Graphs
  import opened Paths
  import opened Labels

  /** The queue holds exactly the flagged vertices, each once, and all of them are labelled. */
  ghost predicate Queued(cost: seq<Label>, inQ: seq<bool>, dq: seq<nat>) {
    && |inQ| == |cost|
    && (forall i :: 0 <= i < |dq| ==> dq[i] < |cost| && cost[dq[i]].Finite?)
    && (forall i, j :: 0 <= i < j < |dq| ==> dq[i] != dq[j])
    && (forall v :: 0 <= v < |inQ| ==> (inQ[v] <==> v in dq))
  }

  /** Every vertex outside the queue, other than `busy`, has all its out-edges relaxed. */
  ghost predicate RelaxedOutside(arcs: set<Edge>, cost: seq<Label>, dq: seq<nat>, busy: set<nat>)
    requires Fits(arcs, |cost|)
  {
    forall v :: 0 <= v < |cost| && v !in dq && v !in busy ==> Relaxed(arcs, cost, v)
  }

  lemma RelaxKeepsRelaxed(arcs: set<Edge>, cost: seq<Label>, dq: seq<nat>, busy: set<nat>, e: Edge, dq': seq<nat>)
    requires Fits(arcs, |cost|) && RelaxedOutside(arcs, cost, dq, busy)
    requires e in arcs && Improves(cost, e)
    requires e.target in dq' && forall v :: v in dq ==> v in dq'
    ensures RelaxedOutside(arcs, cost[e.target := Finite(cost[e.source].cost + e.cost)], dq', busy)
  {
    var cost' := cost[e.target := Finite(cost[e.source].cost + e.cost)];
    forall v | 0 <= v < |cost'| && v !in dq' && v !in busy
      ensures Relaxed(arcs, cost', v)
    {
      assert Relaxed(arcs, cost, v);
      forall f | f in arcs && f.source == v
        ensures !Improves(cost', f)
      {
        assert !Improves(cost, f);
      }
    }
  }

  /** The invariant of the search; `busy` is the vertex whose out-edges are being relaxed, if any. */
  ghost predicate Searching(arcs: set<Edge>, s: nat, cost: seq<Label>, from: seq<Option<Edge>>, stamp: seq<nat>,
                            clock: nat, inQ: seq<bool>, dq: seq<nat>, busy: set<nat>)
  {
    && Fits(arcs, |cost|)
    && |stamp| == |cost|
    && Tree(arcs, s, cost, from, stamp, clock)
    && Sound(arcs, s, cost)
    && Queued(cost, inQ, dq)
    && RelaxedOutside(arcs, cost, dq, busy)
  }

  function Enqueue(inQ: seq<bool>, dq: seq<nat>, v: nat): seq<nat>
    requires v < |inQ|
  {
    if inQ[v] then dq else dq + [v]
  }

  lemma RelaxKeepsSearching(arcs: set<Edge>, s: nat, cost: seq<Label>, from: seq<Option<Edge>>, stamp: seq<nat>,
                            clock: nat, inQ: seq<bool>, dq: seq<nat>, busy: set<nat>, e: Edge)
    requires Fits(arcs, |cost|) && |inQ| == |from| == |stamp| == |cost|
    requires Searching(arcs, s, cost, from, stamp, clock, inQ, dq, busy)
    requires e in arcs && Improves(cost, e)
    ensures e.target != e.source
    ensures var cost' := cost[e.target := Finite(cost[e.source].cost + e.cost)];
      && Searching(arcs, s, cost', from[e.target := Some(e)], stamp[e.target := clock + 1], clock + 1,
                   inQ[e.target := true], Enqueue(inQ, dq, e.target), busy)
      && Smaller(cost', cost)
  {
    hide Tree, Sound, RelaxedOutside;
    RelaxKeepsTree(arcs, s, cost, from, stamp, clock, e);
    LoweringIsSmaller(cost, e.target, cost[e.source].cost + e.cost);
    RelaxKeepsRelaxed(arcs, cost, dq, busy, e, Enqueue(inQ, dq, e.target));
  }

  /** The first `i` out-edges of the head have nothing left to improve. */
  ghost predicate Done(cost: seq<Label>, out: seq<Edge>, i: nat)
    requires i <= |out| && forall e :: e in out ==> e.source < |cost| && e.target < |cost|
  {
    forall j :: 0 <= j < i ==> !Improves(cost, out[j])
  }

  lemma RelaxKeepsDone(cost: seq<Label>, out: seq<Edge>, i: nat)
    requires i < |out| && forall e :: e in out ==> e.source < |cost| && e.target < |cost|
    requires forall j :: 0 <= j < |out| ==> out[j].source == out[i].source
    requires Done(cost, out, i) && Improves(cost, out[i]) && out[i].target != out[i].source
    ensures Done(cost[out[i].target := Finite(cost[out[i].source].cost + out[i].cost)], out, i + 1)
  {
    var cost' := cost[out[i].target := Finite(cost[out[i].source].cost + out[i].cost)];
    forall j | 0 <= j <= i ensures !Improves(cost', out[j]) {
      assert out[j] in out;
      assert j < i ==> !Improves(cost, out[j]);
    }
  }

  lemma NothingDone(cost: seq<Label>, out: seq<Edge>)
    requires forall e :: e in out ==> e.source < |cost| && e.target < |cost|
    ensures Done(cost, out, 0)
  {
  }

  lemma StaysDone(cost: seq<Label>, out: seq<Edge>, i: nat)
    requires i < |out| && forall e :: e in out ==> e.source < |cost| && e.target < |cost|
    requires Done(cost, out, i) && !Improves(cost, out[i])
    ensures Done(cost, out, i + 1)
  {
  }

  lemma SmallerChain(a: seq<Label>, b: seq<Label>, c: seq<Label>)
    ensures Smaller(a, b) && (b == c || Smaller(b, c)) ==> Smaller(a, c)
  {
  }

  lemma HeadIsRelaxed(arcs: set<Edge>, s: nat, cost: seq<Label>, from: seq<Option<Edge>>, stamp: seq<nat>, clock: nat,
                      inQ: seq<bool>, dq: seq<nat>, head: nat, out: seq<Edge>)
    requires Searching(arcs, s, cost, from, stamp, clock, inQ, dq, {head})
    requires forall e :: e in arcs && e.source == head ==> e in out
    requires Fits(arcs, |cost|) && forall e :: e in out ==> e in arcs
    requires Done(cost, out, |out|)
    ensures Searching(arcs, s, cost, from, stamp, clock, inQ, dq, {})
  {
    hide Tree, Sound, Queued;
    forall v | 0 <= v < |cost| && v !in dq ensures Relaxed(arcs, cost, v) {
      assert v != head ==> v !in {head};
    }
  }

  /** Relaxes the out-edges of `head`, queueing each vertex whose label drops. */
  method UpdateVertexCosts(directed: bool, edges: seq<Edge>, ghost s: nat, cost: array<Label>, isInQ: array<bool>,
                           from: array<Option<Edge>>, dq0: seq<nat>, head: nat, ghost stamp0: seq<nat>,
                           ghost clock0: nat)
    returns (dq: seq<nat>, ghost stamp: seq<nat>, ghost clock: nat)
    requires cost.Length == from.Length == isInQ.Length == |stamp0|
    requires head < cost.Length && cost[head].Finite? && Fits(Arcs(directed, edges), cost.Length)
    requires Searching(Arcs(directed, edges), s, cost[..], from[..], stamp0, clock0, isInQ[..], dq0, {head})
    modifies cost, isInQ, from
    ensures |stamp| == cost.Length
    ensures Searching(Arcs(directed, edges), s, cost[..], from[..], stamp, clock, isInQ[..], dq, {})
    ensures (cost[..] == old(cost[..]) && dq == dq0) || Smaller(cost[..], old(cost[..]))
  {
    hide Searching, Arcs, Done, Smaller, OutEdges;
    ghost var arcs := Arcs(directed, edges);
    var out := OutEdges(directed, edges, head);
    OutEdgesAreArcs(directed, edges, head);
    dq, stamp, clock := dq0, stamp0, clock0;
    NothingDone(cost[..], out);
    for i := 0 to |out|
      invariant |stamp| == cost.Length
      invariant Searching(arcs, s, cost[..], from[..], stamp, clock, isInQ[..], dq, {head})
      invariant cost[head].Finite?
      invariant Done(cost[..], out, i)
      invariant (cost[..] == old(cost[..]) && dq == dq0) || Smaller(cost[..], old(cost[..]))
    {
      var e := out[i];
      var t := e.target;
      ghost var cost', from', inQ', dq' := cost[..], from[..], isInQ[..], dq;
      assert e in out;
      if cost[t].Infinity? || cost[e.source].cost + e.cost < cost[t].cost {
        RelaxKeepsSearching(arcs, s, cost', from', stamp, clock, inQ', dq, {head}, e);
        RelaxKeepsDone(cost', out, i);
        cost[t] := Finite(cost[e.source].cost + e.cost);
        from[t] := Some(e);
        stamp, clock := stamp[t := clock + 1], clock + 1;
        if !isInQ[t] {
          dq := dq + [t];
          isInQ[t] := true;
        }
        SmallerChain(cost[..], cost', old(cost[..]));
        assert cost[..] == cost'[t := Finite(cost'[e.source].cost + e.cost)];
        assert from[..] == from'[t := Some(e)];
        assert isInQ[..] == inQ'[t := true];
        assert dq == Enqueue(inQ', dq', t);
      } else {
        StaysDone(cost', out, i);
      }
    }
    HeadIsRelaxed(arcs, s, cost[..], from[..], stamp, clock, isInQ[..], dq, head, out);
  }

  // ---------- the whole search ----------

  /** The loopless path the search reports for `t`: no walk from `s` to `t` is cheaper. */
  ghost predicate IsShortest(arcs: set<Edge>, s: nat, t: nat, p: Path) {
    IsRoute(arcs, s, t, p) && IsDist(arcs, s, t, p.totCost)
  }

  /** `t` is a vertex to which the search finds a way of at least one edge. */
  ghost predicate InReach(arcs: set<Edge>, n: nat, s: nat, t: nat) {
    t < n && t != s && Reachable(arcs, s, t)
  }

  /** One path for each target in reach, for the last of them first; `places` are where these targets stand. */
  ghost predicate AnswersAt(arcs: set<Edge>, n: nat, s: nat, targets: seq<nat>, paths: seq<Path>, places: seq<nat>) {
    && |places| == |paths| && Falling(places)
    && (forall i :: 0 <= i < |paths| ==> places[i] < |targets| && paths[i].endId == targets[places[i]])
    && (forall k :: 0 <= k < |targets| ==> (k in places <==> InReach(arcs, n, s, targets[k])))
  }

  ghost predicate Answers(arcs: set<Edge>, n: nat, s: nat, targets: seq<nat>, paths: seq<Path>) {
    exists places :: AnswersAt(arcs, n, s, targets, paths, places)
  }

  predicate Falling(s: seq<nat>) {
    forall i, j :: 0 <= i < j < |s| ==> s[i] > s[j]
  }

  lemma LongerFalls(s: seq<nat>, x: nat)
    requires Falling(s) && forall k :: k in s ==> k < x
    ensures Falling([x] + s)
  {
    var longer := [x] + s;
    forall i, j | 0 <= i < j < |longer| ensures longer[i] > longer[j] {
      assert longer[j] == s[j - 1] && s[j - 1] in s;
      assert i > 0 ==> longer[i] == s[i - 1];
    }
  }

  lemma FallingTail(s: seq<nat>)
    requires Falling(s) && s != []
    ensures Falling(s[1..]) && s[0] !in s[1..]
  {
    var rest := s[1..];
    forall j | 0 <= j < |rest| ensures rest[j] != s[0] {
      assert rest[j] == s[j + 1];
    }
    forall i, j | 0 <= i < j < |rest| ensures rest[i] > rest[j] {
      assert rest[i] == s[i + 1] && rest[j] == s[j + 1];
    }
  }

  lemma PlacesNext(arcs: set<Edge>, n: nat, s: nat, targets: seq<nat>, t: nat, paths: seq<Path>, p: Path,
                   places: seq<nat>)
    requires AnswersAt(arcs, n, s, targets, paths, places)
    ensures InReach(arcs, n, s, t) && p.endId == t ==>
      AnswersAt(arcs, n, s, targets + [t], [p] + paths, [|targets|] + places)
    ensures !InReach(arcs, n, s, t) ==> AnswersAt(arcs, n, s, targets + [t], paths, places)
  {
    hide InReach, Falling;
    var more, longer := targets + [t], [|targets|] + places;
    assert forall k :: k in places ==> k < |targets|;
    LongerFalls(places, |targets|);
    forall k | 0 <= k < |more|
      ensures InReach(arcs, n, s, t) ==> (k in longer <==> InReach(arcs, n, s, more[k]))
      ensures !InReach(arcs, n, s, t) ==> (k in places <==> InReach(arcs, n, s, more[k]))
    {
      assert k in longer <==> k == |targets| || k in places;
      assert k < |targets| ==> more[k] == targets[k];
    }
    forall i | 0 <= i < |longer| && p.endId == t
      ensures longer[i] < |more| && ([p] + paths)[i].endId == more[longer[i]]
    {
      if i > 0 {
        assert longer[i] == places[i - 1] && ([p] + paths)[i] == paths[i - 1];
      }
    }
  }

  lemma AnswersNext(arcs: set<Edge>, n: nat, s: nat, targets: seq<nat>, t: nat, paths: seq<Path>, p: Path)
    requires Answers(arcs, n, s, targets, paths)
    ensures if InReach(arcs, n, s, t) then p.endId == t ==> Answers(arcs, n, s, targets + [t], [p] + paths)
            else Answers(arcs, n, s, targets + [t], paths)
  {
    hide InReach, AnswersAt;
    var places :| AnswersAt(arcs, n, s, targets, paths, places);
    PlacesNext(arcs, n, s, targets, t, paths, p, places);
  }

  function Ends(paths: seq<Path>): seq<nat> {
    seq(|paths|, i requires 0 <= i < |paths| => paths[i].endId)
  }

  lemma EndsInReach(arcs: set<Edge>, n: nat, s: nat, targets: seq<nat>, paths: seq<Path>, places: seq<nat>, t: nat)
    requires AnswersAt(arcs, n, s, targets, paths, places)
    ensures t in Ends(paths) <==> t in targets && InReach(arcs, n, s, t)
  {
    hide InReach;
    if t in targets && InReach(arcs, n, s, t) {
      var k :| 0 <= k < |targets| && targets[k] == t;
      assert k in places;
      var i :| 0 <= i < |places| && places[i] == k;
      assert Ends(paths)[i] == t;
    }
    if t in Ends(paths) {
      var i :| 0 <= i < |paths| && Ends(paths)[i] == t;
      assert places[i] in places && targets[places[i]] == t;
    }
  }

  ghost function TargetsInReach(arcs: set<Edge>, n: nat, s: nat, targets: seq<nat>): set<nat> {
    set t | t in targets && InReach(arcs, n, s, t)
  }

  ghost predicate Rising(targets: seq<nat>) {
    forall i, j :: 0 <= i < j < |targets| ==> targets[i] < targets[j]
  }

  lemma EndsFall(arcs: set<Edge>, n: nat, s: nat, targets: seq<nat>, paths: seq<Path>, places: seq<nat>)
    requires AnswersAt(arcs, n, s, targets, paths, places) && Rising(targets)
    ensures Falling(Ends(paths))
  {
    forall i, j | 0 <= i < j < |paths| ensures Ends(paths)[i] > Ends(paths)[j] {
      assert places[i] > places[j];
    }
  }

  lemma EndsAre(arcs: set<Edge>, n: nat, s: nat, targets: seq<nat>, paths: seq<Path>, places: seq<nat>)
    requires AnswersAt(arcs, n, s, targets, paths, places)
    ensures Elements(Ends(paths)) == TargetsInReach(arcs, n, s, targets)
  {
    hide AnswersAt, InReach, Ends;
    forall t ensures t in Ends(paths) <==> t in targets && InReach(arcs, n, s, t) {
      EndsInReach(arcs, n, s, targets, paths, places, t);
    }
  }

  lemma PlacesOf(arcs: set<Edge>, n: nat, s: nat, targets: seq<nat>, paths: seq<Path>) returns (places: seq<nat>)
    requires Answers(arcs, n, s, targets, paths)
    ensures AnswersAt(arcs, n, s, targets, paths, places)
  {
    places :| AnswersAt(arcs, n, s, targets, paths, places);
  }

  /** For targets in ascending order, as a set gives them: paths to different ends in descending order, and as many as
      there are targets in reach. */
  lemma AnswersForSet(arcs: set<Edge>, n: nat, s: nat, targets: seq<nat>, paths: seq<Path>)
    requires Answers(arcs, n, s, targets, paths) && Rising(targets)
    ensures Falling(Ends(paths)) && |paths| == |TargetsInReach(arcs, n, s, targets)|
  {
    hide *;
    var places := PlacesOf(arcs, n, s, targets, paths);
    EndsFall(arcs, n, s, targets, paths, places);
    EndsAre(arcs, n, s, targets, paths, places);
    FallingCount(Ends(paths));
    EndsLength(paths);
  }

  lemma EndsLength(paths: seq<Path>)
    ensures |Ends(paths)| == |paths|
  {
  }

  function Elements(s: seq<nat>): set<nat> {
    set x | x in s
  }

  lemma ElementsCons(s: seq<nat>)
    ensures s == [] ==> Elements(s) == {}
    ensures s != [] ==>
      Elements(s) == Elements(s[1..]) + {s[0]} && (s[0] in Elements(s[1..]) <==> s[0] in s[1..])
  {
    if s != [] {
      assert forall x :: x in s <==> x == s[0] || x in s[1..];
    }
  }

  lemma {:induction false} FallingCount(s: seq<nat>)
    requires Falling(s)
    ensures |Elements(s)| == |s|
  {
    hide *;
    ElementsCons(s);
    if s != [] {
      FallingTail(s);
      FallingCount(s[1..]);
    }
  }

  lemma StartSearching(arcs: set<Edge>, n: nat, s: nat)
    requires Fits(arcs, n) && s < n
    ensures Searching(arcs, s, seq(n, _ => Infinity)[s := Finite(0)], seq(n, _ => None), seq(n, _ => 0), 0,
                      seq(n, _ => false)[s := true], [s], {})
  {
    assert IsWalk(arcs, s, [], s) && Cost([]) == 0;
  }

  lemma PopKeepsSearching(arcs: set<Edge>, s: nat, cost: seq<Label>, from: seq<Option<Edge>>, stamp: seq<nat>,
                          clock: nat, inQ: seq<bool>, dq: seq<nat>)
    requires Searching(arcs, s, cost, from, stamp, clock, inQ, dq, {}) && dq != []
    ensures dq[0] < |cost| && |inQ| == |cost| && cost[dq[0]].Finite?
    ensures Searching(arcs, s, cost, from, stamp, clock, inQ[dq[0] := false], dq[1..], {dq[0]})
  {
    hide Tree, Sound;
    forall v | 0 <= v < |cost| && v !in dq[1..] && v !in {dq[0]} ensures Relaxed(arcs, cost, v) {
      assert dq == [dq[0]] + dq[1..];
    }
  }

  lemma AllRelaxedMeansExact(arcs: set<Edge>, s: nat, cost: seq<Label>, from: seq<Option<Edge>>, stamp: seq<nat>,
                             clock: nat)
    requires Fits(arcs, |cost|) && AllRelaxed(arcs, cost)
    requires Tree(arcs, s, cost, from, stamp, clock) && Sound(arcs, s, cost)
    ensures |from| == |cost| && Tight(cost, from)
    ensures forall v :: 0 <= v < |cost| ==> Exact(arcs, s, cost, v)
    ensures forall v :: 0 <= v < |from| ==> (from[v].Some? <==> v != s && Reachable(arcs, s, v))
  {
    RelaxedTreeIsTight(arcs, s, cost, from, stamp, clock);
    forall v | 0 <= v < |cost| ensures Exact(arcs, s, cost, v) {
      RelaxedLabelsAreExact(arcs, s, cost, v);
    }
    forall v | 0 <= v < |from| ensures from[v].Some? <==> v != s && Reachable(arcs, s, v) {
      assert Exact(arcs, s, cost, v);
    }
  }

  lemma EmptyQueueMeansExact(arcs: set<Edge>, s: nat, cost: seq<Label>, from: seq<Option<Edge>>, stamp: seq<nat>,
                             clock: nat, inQ: seq<bool>)
    requires |from| == |cost| && Fits(arcs, |cost|)
    requires Searching(arcs, s, cost, from, stamp, clock, inQ, [], {})
    ensures Tree(arcs, s, cost, from, stamp, clock) && Tight(cost, from)
    ensures forall v :: 0 <= v < |cost| ==> Exact(arcs, s, cost, v)
    ensures forall v :: 0 <= v < |from| ==> (from[v].Some? <==> v != s && Reachable(arcs, s, v))
  {
    AllRelaxedMeansExact(arcs, s, cost, from, stamp, clock);
  }

  lemma TreeLabelsFinite(arcs: set<Edge>, s: nat, cost: seq<Label>, from: seq<Option<Edge>>, stamp: seq<nat>,
                         clock: nat, t: nat)
    requires Tree(arcs, s, cost, from, stamp, clock) && t < |from| && from[t].Some?
    ensures t < |cost| && cost[t].Finite?
  {
  }

  /** The loop: from the labels at the start until the queue is empty. */
  method Search(directed: bool, edges: seq<Edge>, n: nat, start: nat, cost: array<Label>, isInQ: array<bool>,
                from: array<Option<Edge>>)
    returns (ghost stamp: seq<nat>, ghost clock: nat)
    requires Fits(Arcs(directed, edges), n) && start < n && cost.Length == isInQ.Length == from.Length == n
    requires cost[..] == seq(n, _ => Infinity)[start := Finite(0)] && from[..] == seq(n, _ => None)
    requires isInQ[..] == seq(n, _ => false)[start := true]
    modifies cost, isInQ, from
    ensures Searching(Arcs(directed, edges), start, cost[..], from[..], stamp, clock, isInQ[..], [], {})
  {
    hide *;
    ghost var arcs := Arcs(directed, edges);
    stamp, clock := seq(n, _ => 0), 0;
    var dq := [start];
    StartSearching(arcs, n, start);
    while dq != []
      invariant Searching(arcs, start, cost[..], from[..], stamp, clock, isInQ[..], dq, {})
      invariant |stamp| == n
      decreases Infinite(cost[..]), FiniteSum(cost[..]), |dq|
    {
      PopKeepsSearching(arcs, start, cost[..], from[..], stamp, clock, isInQ[..], dq);
      var head := dq[0];
      dq := dq[1..];
      ghost var inQ', before := isInQ[..], cost[..];
      isInQ[head] := false;
      assert isInQ[..] == inQ'[head := false];
      dq, stamp, clock := UpdateVertexCosts(directed, edges, start, cost, isInQ, from, dq, head, stamp, clock);
      if Smaller(cost[..], before) {
        LessToDo(cost[..], before);
      }
    }
  }

  /** One search from `start`; paths come out in reverse order of the targets. */
  method OneToMany(directed: bool, edges: seq<Edge>, n: nat, start: nat, targets: seq<nat>)
    returns (paths: seq<Path>)
    requires Fits(Arcs(directed, edges), n)
    ensures forall p :: p in paths ==> p.endId in targets && IsShortest(Arcs(directed, edges), start, p.endId, p)
    ensures start < n ==> forall t :: t in targets && t < n ==>
      ((exists p :: p in paths && p.endId == t) <==> t != start && Reachable(Arcs(directed, edges), start, t))
    ensures start >= n ==> paths == []
    ensures start < n ==> Answers(Arcs(directed, edges), n, start, targets, paths)
  {
    paths := [];
    if start >= n {
      return;
    }
    hide *;
    var cost := new Label[n](_ => Infinity);
    var isInQ := new bool[n](_ => false);
    var from := new Option<Edge>[n](_ => None);
    cost[start] := Finite(0);
    isInQ[start] := true;
    assert cost[..] == seq(n, _ => Infinity)[start := Finite(0)];
    assert isInQ[..] == seq(n, _ => false)[start := true];
    assert from[..] == seq(n, _ => None);
    ghost var stamp, clock := Search(directed, edges, n, start, cost, isInQ, from);
    EmptyQueueMeansExact(Arcs(directed, edges), start, cost[..], from[..], stamp, clock, isInQ[..]);
    paths := Report(Arcs(directed, edges), n, start, targets, from[..], cost[..], stamp, clock);
  }

  lemma {:induction false} LessToDo(cost: seq<Label>, before: seq<Label>)
    requires Smaller(cost, before)
    ensures Infinite(cost) < Infinite(before) || (Infinite(cost) == Infinite(before) &&
      FiniteSum(cost) < FiniteSum(before))
  {
  }

  /** The reporting loop of the search: a path for every target that got a label through an edge. */
  method Report(ghost arcs: set<Edge>, n: nat, start: nat, targets: seq<nat>, from: seq<Option<Edge>>, cost: seq<Label>,
                ghost stamp: seq<nat>, ghost clock: nat)
    returns (paths: seq<Path>)
    requires |from| == |cost| == n && Fits(arcs, n)
    requires Tree(arcs, start, cost, from, stamp, clock) && Tight(cost, from)
    requires forall v :: 0 <= v < n ==> Exact(arcs, start, cost, v)
    requires forall v :: 0 <= v < n ==> (from[v].Some? <==> v != start && Reachable(arcs, start, v))
    ensures forall p :: p in paths ==>
      p.endId in targets && IsShortest(arcs, start, p.endId, p) && Follows(from, p.rows)
    ensures forall t :: t in targets && t < n ==>
      ((exists p :: p in paths && p.endId == t) <==> t != start && Reachable(arcs, start, t))
    ensures Answers(arcs, n, start, targets, paths)
  {
    hide Tree, Tight, IsDist, Reachable, Follows, Answers;
    paths := [];
    NoAnswers(arcs, n, start);
    for i := 0 to |targets|
      invariant Answers(arcs, n, start, targets[..i], paths)
      invariant forall p :: p in paths ==>
        p.endId in targets[..i] && IsShortest(arcs, start, p.endId, p) && Follows(from, p.rows)
      invariant forall p :: p in paths ==> p.endId < n && from[p.endId].Some?
      invariant forall t :: t in targets[..i] && t < n && from[t].Some? ==>
        exists p :: p in paths && p.endId == t
    {
      var t := targets[i];
      assert targets[..i + 1] == targets[..i] + [t];
      if t < n && from[t].Some? {
        TreeLabelsFinite(arcs, start, cost, from, stamp, clock, t);
        var p := GetPath(arcs, start, t, from, cost, stamp, clock);
        assert Exact(arcs, start, cost, t);
        AnswersNext(arcs, n, start, targets[..i], t, paths, p);
        ghost var earlier := paths;
        paths := [p] + paths;
        assert p in paths;
        assert forall q :: q in earlier ==> q in paths;
      } else {
        AnswersNext(arcs, n, start, targets[..i], t, paths, Path(0, 0, [], 0));
      }
    }
    assert targets[..|targets|] == targets;
  }

  lemma NoAnswers(arcs: set<Edge>, n: nat, s: nat)
    ensures Answers(arcs, n, s, [], [])
  {
    assert AnswersAt(arcs, n, s, [], [], []);
  }
}
