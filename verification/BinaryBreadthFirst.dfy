/** include/breadthFirstSearch/binaryBreadthFirstSearch.hpp: label correcting with a deque, meant for the costs 0 and
    `w`. */
module BinaryBreadthFirst {
  import opened Graphs
  import opened Paths
  import opened Labels
  import EdwardMoore

  /** What the search does not keep: for every entry of the deque the label it was pushed with, the label of
      the entry popped last, and everything pushed and popped so far. */
  datatype Trace = Trace(keys: seq<nat>, level: nat, pushed: seq<nat>, popped: seq<nat>)

  /** Entries carry labels that can only have dropped since. */
  ghost predicate Entries(cost: seq<Label>, dq: seq<nat>, keys: seq<nat>) {
    && |keys| == |dq|
    && forall i :: 0 <= i < |dq| ==> dq[i] < |cost| && cost[dq[i]].Finite? && cost[dq[i]].cost <= keys[i]
  }

  /** The label of `v` is still the one that some entry was pushed with. */
  ghost predicate Fresh(cost: seq<Label>, dq: seq<nat>, keys: seq<nat>, v: nat)
    requires |keys| == |dq| && v < |cost|
  {
    exists i :: 0 <= i < |dq| && dq[i] == v && cost[v] == Finite(keys[i])
  }

  /** Every vertex but `busy` is relaxed or has a fresh entry. */
  ghost predicate Covered(arcs: set<Edge>, cost: seq<Label>, dq: seq<nat>, keys: seq<nat>, busy: set<nat>)
    requires Fits(arcs, |cost|) && |keys| == |dq|
  {
    forall v :: 0 <= v < |cost| && v !in busy ==> Fresh(cost, dq, keys, v) || Relaxed(arcs, cost, v)
  }

  ghost predicate Searching(arcs: set<Edge>, s: nat, cost: seq<Label>, from: seq<Option<Edge>>, stamp: seq<nat>,
                            clock: nat, dq: seq<nat>, keys: seq<nat>, busy: set<nat>)
  {
    && Fits(arcs, |cost|)
    && Tree(arcs, s, cost, from, stamp, clock) && Sound(arcs, s, cost)
    && Entries(cost, dq, keys) && Covered(arcs, cost, dq, keys, busy)
  }

  /** Zero edges push at the front, others at the back. */
  function Pushed<T>(list: seq<T>, x: T, edgeCost: nat): seq<T> {
    if edgeCost != 0 then list + [x] else [x] + list
  }

  lemma LoweredCovered(arcs: set<Edge>, cost: seq<Label>, dq: seq<nat>, keys: seq<nat>, busy: set<nat>, e: Edge, d: nat)
    requires Fits(arcs, |cost|) && Entries(cost, dq, keys) && Covered(arcs, cost, dq, keys, busy)
    requires e in arcs && Improves(cost, e) && d == cost[e.source].cost + e.cost
    ensures var cost', dq', keys' := cost[e.target := Finite(d)], Pushed(dq, e.target, e.cost), Pushed(keys, d, e.cost);
      Entries(cost', dq', keys') && Covered(arcs, cost', dq', keys', busy)
  {
    var cost', dq', keys' := cost[e.target := Finite(d)], Pushed(dq, e.target, e.cost), Pushed(keys, d, e.cost);
    forall v | 0 <= v < |cost| && v !in busy ensures Fresh(cost', dq', keys', v) || Relaxed(arcs, cost', v) {
      if v == e.target {
        var i := if e.cost != 0 then |dq| else 0;
        assert dq'[i] == v && keys'[i] == d;
      } else if Fresh(cost, dq, keys, v) {
        var i :| 0 <= i < |dq| && dq[i] == v && cost[v] == Finite(keys[i]);
        var i' := if e.cost != 0 then i else i + 1;
        assert dq'[i'] == v && keys'[i'] == keys[i];
      } else {
        assert Relaxed(arcs, cost, v);
        assert forall f :: f in arcs && f.source == v ==> !Improves(cost, f);
      }
    }
  }

  lemma LoweredSearching(arcs: set<Edge>, s: nat, cost: seq<Label>, from: seq<Option<Edge>>, stamp: seq<nat>,
                         clock: nat, dq: seq<nat>, keys: seq<nat>, busy: set<nat>, e: Edge, d: nat)
    requires |cost| == |from| == |stamp| && Searching(arcs, s, cost, from, stamp, clock, dq, keys, busy)
    requires e in arcs && e.source < |cost| && e.target < |cost| && Improves(cost, e) &&
      d == cost[e.source].cost + e.cost
    ensures e.target != e.source
    ensures Searching(arcs, s, cost[e.target := Finite(d)], from[e.target := Some(e)], stamp[e.target := clock + 1],
                      clock + 1, Pushed(dq, e.target, e.cost), Pushed(keys, d, e.cost), busy)
    ensures Smaller(cost[e.target := Finite(d)], cost)
  {
    hide Tree, Sound, Covered, Entries, Smaller, Pushed;
    RelaxKeepsTree(arcs, s, cost, from, stamp, clock, e);
    LoweringIsSmaller(cost, e.target, d);
    LoweredCovered(arcs, cost, dq, keys, busy, e, d);
  }

  lemma PoppedSearching(arcs: set<Edge>, s: nat, cost: seq<Label>, from: seq<Option<Edge>>, stamp: seq<nat>, clock: nat,
                        dq: seq<nat>, keys: seq<nat>)
    requires Searching(arcs, s, cost, from, stamp, clock, dq, keys, {}) && dq != []
    ensures dq[0] < |cost| && cost[dq[0]].Finite? && |keys| == |dq|
    ensures Searching(arcs, s, cost, from, stamp, clock, dq[1..], keys[1..], {dq[0]})
  {
    hide Tree, Sound, Relaxed;
    var head := dq[0];
    forall v | 0 <= v < |cost| && v !in {head} ensures Fresh(cost, dq[1..], keys[1..], v) || Relaxed(arcs, cost, v) {
      if Fresh(cost, dq, keys, v) {
        var i :| 0 <= i < |dq| && dq[i] == v && cost[v] == Finite(keys[i]);
        assert dq[1..][i - 1] == v && keys[1..][i - 1] == keys[i];
      }
    }
  }

  lemma FinishedSearching(arcs: set<Edge>, s: nat, cost: seq<Label>, from: seq<Option<Edge>>, stamp: seq<nat>,
                          clock: nat, dq: seq<nat>, keys: seq<nat>, head: nat)
    requires Searching(arcs, s, cost, from, stamp, clock, dq, keys, {head}) && head < |cost| && Fits(arcs, |cost|)
    requires Relaxed(arcs, cost, head)
    ensures Searching(arcs, s, cost, from, stamp, clock, dq, keys, {})
  {
    hide Tree, Sound, Relaxed, Fresh, Entries;
  }

  // ---------- costs 0 and w ----------

  predicate Ascending(keys: seq<nat>) {
    forall i, j :: 0 <= i < j < |keys| ==> keys[i] <= keys[j]
  }

  predicate TwoLevels(keys: seq<nat>, level: nat, w: nat) {
    forall k :: k in keys ==> k == level || k == level + w
  }

  /** Keys lie in order on two levels `w` apart, no label lies above them, and a vertex is pushed a second time
      only when its label drops from the upper level to the lower. */
  ghost predicate Narrow(w: nat, cost: seq<Label>, t: Trace) {
    && Ascending(t.keys) && TwoLevels(t.keys, t.level, w)
    && (forall v :: 0 <= v < |cost| && cost[v].Finite? ==> cost[v].cost <= t.level || cost[v].cost == t.level + w)
    && (forall v :: 0 <= v < |cost| ==> multiset(t.pushed)[v] <= Allowed(cost[v], t.level))
    && (forall v :: v in t.pushed ==> v < |cost|)
    && Ascending(t.popped) && (forall k :: k in t.popped ==> k <= t.level)
    && |t.popped| + |t.keys| == |t.pushed|
  }

  function Allowed(l: Label, level: nat): nat {
    if l.Infinity? then 0 else if l.cost > level then 1 else 2
  }

  lemma AscendingPush(keys: seq<nat>, level: nat, w: nat, edgeCost: nat)
    requires Ascending(keys) && TwoLevels(keys, level, w) && (edgeCost == 0 || edgeCost == w)
    ensures Ascending(Pushed(keys, level + edgeCost, edgeCost))
    ensures TwoLevels(Pushed(keys, level + edgeCost, edgeCost), level, w)
  {
    assert forall i :: 0 <= i < |keys| ==> keys[i] in keys;
  }

  lemma LoweredNarrow(w: nat, cost: seq<Label>, t: Trace, e: Edge, d: nat)
    requires w > 0 && Narrow(w, cost, t) && e.source < |cost| && e.target < |cost| && Improves(cost, e)
    requires cost[e.source] == Finite(t.level) && (e.cost == 0 || e.cost == w) && d == t.level + e.cost
    ensures Narrow(w, cost[e.target := Finite(d)], t.(keys := Pushed(t.keys, d, e.cost),
      pushed := t.pushed + [e.target]))
  {
    AscendingPush(t.keys, t.level, w, e.cost);
    assert cost[e.target].Finite? ==> cost[e.target].cost == t.level + w;
    assert multiset(t.pushed + [e.target]) == multiset(t.pushed) + multiset{e.target};
    hide Ascending;
  }

  lemma PoppedNarrow(w: nat, cost: seq<Label>, t: Trace)
    requires Narrow(w, cost, t) && t.keys != []
    ensures t.level <= t.keys[0]
    ensures Narrow(w, cost, t.(keys := t.keys[1..], level := t.keys[0], popped := t.popped + [t.keys[0]]))
  {
    var k := t.keys[0];
    assert k in t.keys;
    assert forall i :: 0 <= i < |t.popped| ==> t.popped[i] in t.popped;
    assert forall j :: j in t.keys[1..] ==> j in t.keys && k <= j;
  }

  /** A head whose entry is no longer fresh has been relaxed already. */
  lemma StaleIsRelaxed(arcs: set<Edge>, cost: seq<Label>, dq: seq<nat>, keys: seq<nat>)
    requires Fits(arcs, |cost|) && Entries(cost, dq, keys) && Covered(arcs, cost, dq, keys, {}) && Ascending(keys) &&
      dq != []
    ensures cost[dq[0]] == Finite(keys[0]) || Relaxed(arcs, cost, dq[0])
  {
    hide Relaxed;
    if Fresh(cost, dq, keys, dq[0]) {
      var i :| 0 <= i < |dq| && dq[i] == dq[0] && cost[dq[0]] == Finite(keys[i]);
      assert keys[0] <= keys[i];
    }
  }

  // ---------- the search ----------

  /** What the search knows on costs 0 and `w` while it relaxes the out-edges of `head`. */
  ghost predicate Linear(arcs: set<Edge>, w: nat, cost: seq<Label>, t: Trace, head: nat) {
    ZeroOr(arcs, w) ==>
      && Narrow(w, cost, t) && head < |cost| && Fits(arcs, |cost|)
      && (cost[head] == Finite(t.level) || Relaxed(arcs, cost, head))
  }

  lemma LoweredLinear(arcs: set<Edge>, w: nat, cost: seq<Label>, t: Trace, e: Edge, d: nat)
    requires e in arcs && e.source < |cost| && e.target < |cost| && e.target != e.source && Improves(cost, e)
    requires Linear(arcs, w, cost, t, e.source) && d == cost[e.source].cost + e.cost
    ensures Linear(arcs, w, cost[e.target := Finite(d)],
      t.(keys := Pushed(t.keys, d, e.cost), pushed := t.pushed + [e.target]), e.source)
  {
    if ZeroOr(arcs, w) {
      assert cost[e.source] == Finite(t.level);
      LoweredNarrow(w, cost, t, e, d);
    }
    hide Narrow, Relaxed;
  }

  /** The trace after taking the front entry off. */
  function Taken(t: Trace): Trace
    requires t.keys != []
  {
    t.(keys := t.keys[1..], level := t.keys[0], popped := t.popped + [t.keys[0]])
  }

  lemma PoppedLinear(arcs: set<Edge>, w: nat, cost: seq<Label>, dq: seq<nat>, t: Trace)
    requires Fits(arcs, |cost|) && dq != [] && Entries(cost, dq, t.keys) && Covered(arcs, cost, dq, t.keys, {})
    requires ZeroOr(arcs, w) ==> Narrow(w, cost, t)
    ensures Linear(arcs, w, cost, Taken(t), dq[0])
  {
    if ZeroOr(arcs, w) {
      PoppedNarrow(w, cost, t);
      StaleIsRelaxed(arcs, cost, dq, t.keys);
    }
    hide Narrow, Relaxed;
  }

  /** The values the relaxing loop works on. */
  datatype State = State(cost: seq<Label>, from: seq<Option<Edge>>, stamp: seq<nat>, clock: nat, dq: seq<nat>,
                         trace: Trace)

  ghost predicate Holds(arcs: set<Edge>, s: nat, st: State, busy: set<nat>) {
    && |st.cost| == |st.from| == |st.stamp|
    && Searching(arcs, s, st.cost, st.from, st.stamp, st.clock, st.dq, st.trace.keys, busy)
  }

  function Lower(st: State, e: Edge, d: nat): State
    requires e.target < |st.cost| == |st.from| == |st.stamp|
  {
    State(st.cost[e.target := Finite(d)], st.from[e.target := Some(e)], st.stamp[e.target := st.clock + 1],
      st.clock + 1,
          Pushed(st.dq, e.target, e.cost),
          st.trace.(keys := Pushed(st.trace.keys, d, e.cost), pushed := st.trace.pushed + [e.target]))
  }

  /** Nothing has changed, or a label has dropped. */
  ghost predicate Progress(st0: State, st: State) {
    (st.cost == st0.cost && st.dq == st0.dq) || Smaller(st.cost, st0.cost)
  }

  /** The invariant of the relaxing loop. */
  ghost predicate Relaxing(arcs: set<Edge>, s: nat, w: nat, st0: State, st: State, out: seq<Edge>, i: nat, head: nat) {
    && Holds(arcs, s, st, {head}) && Linear(arcs, w, st.cost, st.trace, head) && Progress(st0, st)
    && head < |st.cost| && st.cost[head].Finite? && i <= |out| && Lists(arcs, |st.cost|, out, head)
    && EdwardMoore.Done(st.cost, out, i)
  }

  ghost predicate Lists(arcs: set<Edge>, n: nat, out: seq<Edge>, head: nat) {
    && (forall j :: 0 <= j < |out| ==> out[j] in arcs && out[j].source == head)
    && (forall e :: e in arcs && e.source == head ==> e in out)
    && (forall e :: e in out ==> e.source < n && e.target < n)
  }

  lemma WhileRelaxing(arcs: set<Edge>, s: nat, w: nat, st0: State, st: State, out: seq<Edge>, i: nat, head: nat)
    requires Relaxing(arcs, s, w, st0, st, out, i, head)
    ensures |st.cost| == |st.from| == |st.stamp| && head < |st.cost| && st.cost[head].Finite?
    ensures i < |out| ==> out[i].source == head && out[i].target < |st.cost|
  {
    assert i < |out| ==> out[i] in out;
  }

  lemma LowerRelaxing(arcs: set<Edge>, s: nat, w: nat, st0: State, st: State, out: seq<Edge>, i: nat, head: nat, d: nat)
    requires Relaxing(arcs, s, w, st0, st, out, i, head) && i < |out|
    requires head < |st.cost| && out[i].source == head && out[i].target < |st.cost| && Improves(st.cost, out[i])
    requires d == st.cost[head].cost + out[i].cost && |st.from| == |st.stamp| == |st.cost|
    ensures Relaxing(arcs, s, w, st0, Lower(st, out[i], d), out, i + 1, head)
  {
    hide Searching, Linear, Smaller, EdwardMoore.Done, Improves, Pushed, Fits;
    var e := out[i];
    assert e in arcs;
    LoweredSearching(arcs, s, st.cost, st.from, st.stamp, st.clock, st.dq, st.trace.keys, {head}, e, d);
    LoweredLinear(arcs, w, st.cost, st.trace, e, d);
    EdwardMoore.RelaxKeepsDone(st.cost, out, i);
    EdwardMoore.SmallerChain(st.cost[e.target := Finite(d)], st.cost, st0.cost);
  }

  lemma KeepRelaxing(arcs: set<Edge>, s: nat, w: nat, st0: State, st: State, out: seq<Edge>, i: nat, head: nat, d: nat)
    requires Relaxing(arcs, s, w, st0, st, out, i, head) && i < |out|
    requires head < |st.cost| && out[i].target < |st.cost| && st.cost[head].Finite? &&
      d == st.cost[head].cost + out[i].cost
    requires |st.from| == |st.stamp| == |st.cost|
    ensures Relaxing(arcs, s, w, st0,
                     if st.cost[out[i].target].Infinity? || d < st.cost[out[i].target].cost then Lower(st, out[i], d)
                     else st,
                     out, i + 1, head)
  {
    hide Searching, Linear, Smaller, EdwardMoore.Done, Holds, Progress;
    WhileRelaxing(arcs, s, w, st0, st, out, i, head);
    if Improves(st.cost, out[i]) {
      LowerRelaxing(arcs, s, w, st0, st, out, i, head, d);
    } else {
      EdwardMoore.StaysDone(st.cost, out, i);
    }
  }

  lemma DoneRelaxing(arcs: set<Edge>, s: nat, w: nat, st0: State, st: State, out: seq<Edge>, head: nat)
    requires Relaxing(arcs, s, w, st0, st, out, |out|, head)
    ensures Holds(arcs, s, st, {}) && Linear(arcs, w, st.cost, st.trace, head) && Progress(st0, st)
  {
    assert Fits(arcs, |st.cost|);
    HeadIsRelaxed(arcs, st.cost, out, head);
    hide Linear, Progress, EdwardMoore.Done, Relaxed;
    FinishedSearching(arcs, s, st.cost, st.from, st.stamp, st.clock, st.dq, st.trace.keys, head);
  }

  lemma StartRelaxing(arcs: set<Edge>, s: nat, w: nat, st: State, out: seq<Edge>, head: nat)
    requires Holds(arcs, s, st, {head}) && Linear(arcs, w, st.cost, st.trace, head)
    requires head < |st.cost| && st.cost[head].Finite? && (forall e :: e in out <==> e in arcs && e.source == head)
    ensures Relaxing(arcs, s, w, st, st, out, 0, head)
  {
    assert forall j :: 0 <= j < |out| ==> out[j] in out;
    hide Linear;
  }

  lemma HeadIsRelaxed(arcs: set<Edge>, cost: seq<Label>, out: seq<Edge>, head: nat)
    requires Fits(arcs, |cost|) && head < |cost| && Lists(arcs, |cost|, out, head)
    requires EdwardMoore.Done(cost, out, |out|)
    ensures Relaxed(arcs, cost, head)
  {
  }

  // ---------- the search, as a function ----------

  /** One out-edge: if it offers less, the label of its end drops and its end is pushed. */
  ghost function Relax(st: State, e: Edge): State {
    if |st.from| == |st.stamp| == |st.cost| && e.source < |st.cost| && e.target < |st.cost| && Improves(st.cost, e)
    then Lower(st, e, st.cost[e.source].cost + e.cost) else st
  }

  /** The out-edges `out`, one after the other. */
  ghost function RelaxAll(st: State, out: seq<Edge>): State {
    if out == [] then st else Relax(RelaxAll(st, out[..|out| - 1]), out[|out| - 1])
  }

  /** The front entry taken off. */
  function Popped(st: State): State
    requires st.dq != [] && st.trace.keys != []
  {
    st.(dq := st.dq[1..], trace := Taken(st.trace))
  }

  /** One pass through the loop of the search; none is left once the deque is empty. */
  ghost function Round(directed: bool, edges: seq<Edge>, st: State): State {
    if st.dq == [] || st.trace.keys == [] then st else RelaxAll(Popped(st), OutEdges(directed, edges, st.dq[0]))
  }

  /** The search from `st` on, after `k` passes. */
  ghost function Rounds(directed: bool, edges: seq<Edge>, st: State, k: nat): State {
    if k == 0 then st else Round(directed, edges, Rounds(directed, edges, st, k - 1))
  }

  /** `st` is where `k` passes lead, all of them with something in the deque. */
  ghost predicate Reached(directed: bool, edges: seq<Edge>, opening: State, k: nat, st: State) {
    st == Rounds(directed, edges, opening, k) && forall j :: 0 <= j < k ==> Rounds(directed, edges, opening, j).dq != []
  }

  /** The search from `opening` takes `k` passes. */
  ghost predicate Took(directed: bool, edges: seq<Edge>, opening: State, k: nat) {
    exists st :: Reached(directed, edges, opening, k, st) && st.dq == []
  }

  function Opening(n: nat, s: nat): State
    requires s < n
  {
    State(seq(n, _ => Infinity)[s := Finite(0)], seq(n, _ => None), seq(n, _ => 0), 0, [s], Trace([0], 0, [s], []))
  }

  lemma OpeningHolds(arcs: set<Edge>, n: nat, s: nat, w: nat)
    requires Fits(arcs, n) && s < n
    ensures Holds(arcs, s, Opening(n, s), {}) && Narrow(w, Opening(n, s).cost, Opening(n, s).trace)
  {
    var st := Opening(n, s);
    assert IsWalk(arcs, s, [], s) && Cost([]) == 0;
    assert st.dq[0] == s && st.cost[s] == Finite(st.trace.keys[0]);
    assert Fresh(st.cost, st.dq, st.trace.keys, s);
  }

  lemma {:induction false} RelaxAllRelaxing(arcs: set<Edge>, s: nat, w: nat, st: State, out: seq<Edge>, i: nat,
                                            head: nat)
    requires Relaxing(arcs, s, w, st, st, out, 0, head) && i <= |out|
    ensures Relaxing(arcs, s, w, st, RelaxAll(st, out[..i]), out, i, head)
  {
    hide Relaxing, Improves;
    if i > 0 {
      RelaxAllRelaxing(arcs, s, w, st, out, i - 1, head);
      var before, e := RelaxAll(st, out[..i - 1]), out[i - 1];
      assert out[..i][..i - 1] == out[..i - 1] && out[..i][i - 1] == e;
      WhileRelaxing(arcs, s, w, st, before, out, i - 1, head);
      ImprovesMeans(before.cost, e);
      KeepRelaxing(arcs, s, w, st, before, out, i - 1, head, before.cost[head].cost + e.cost);
    }
  }

  lemma ImprovesMeans(cost: seq<Label>, e: Edge)
    requires e.source < |cost| && e.target < |cost| && cost[e.source].Finite?
    ensures Improves(cost, e) <==> cost[e.target].Infinity? || cost[e.source].cost + e.cost < cost[e.target].cost
  {
  }

  /** What the search knows between two passes. */
  ghost predicate Sought(arcs: set<Edge>, s: nat, w: nat, st: State) {
    Holds(arcs, s, st, {}) && (ZeroOr(arcs, w) ==> Narrow(w, st.cost, st.trace))
  }

  lemma Pop(arcs: set<Edge>, s: nat, w: nat, st: State)
    requires Sought(arcs, s, w, st) && st.dq != []
    ensures st.trace.keys != [] && st.dq[0] < |st.cost| && st.cost[st.dq[0]].Finite?
    ensures st.dq[0] < |Popped(st).cost| && Popped(st).cost[st.dq[0]].Finite?
    ensures Holds(arcs, s, Popped(st), {st.dq[0]}) && Linear(arcs, w, Popped(st).cost, Popped(st).trace, st.dq[0])
  {
    PoppedSearching(arcs, s, st.cost, st.from, st.stamp, st.clock, st.dq, st.trace.keys);
    PoppedLinear(arcs, w, st.cost, st.dq, st.trace);
    hide Searching, Linear;
  }

  /** A pass keeps the invariant; it takes the front entry off, and unless a label drops it does nothing else. */
  lemma RoundKeeps(directed: bool, edges: seq<Edge>, s: nat, w: nat, st: State)
    requires Sought(Arcs(directed, edges), s, w, st) && st.dq != []
    ensures st.trace.keys != [] && Sought(Arcs(directed, edges), s, w, Round(directed, edges, st))
    ensures Progress(Popped(st), Round(directed, edges, st))
  {
    hide *;
    var arcs, head, out := Arcs(directed, edges), st.dq[0], OutEdges(directed, edges, st.dq[0]);
    Pop(arcs, s, w, st);
    OutEdgesAreArcs(directed, edges, head);
    StartRelaxing(arcs, s, w, Popped(st), out, head);
    RelaxAllRelaxing(arcs, s, w, Popped(st), out, |out|, head);
    assert out[..|out|] == out;
    DoneRelaxing(arcs, s, w, Popped(st), RelaxAll(Popped(st), out), out, head);
    RoundIs(directed, edges, st);
    StillSought(arcs, s, w, RelaxAll(Popped(st), out), head);
  }

  lemma RoundIs(directed: bool, edges: seq<Edge>, st: State)
    requires st.dq != [] && st.trace.keys != []
    ensures Popped(st).cost == st.cost
    ensures Round(directed, edges, st) == RelaxAll(Popped(st), OutEdges(directed, edges, st.dq[0]))
  {
  }

  lemma StillSought(arcs: set<Edge>, s: nat, w: nat, st: State, head: nat)
    requires Holds(arcs, s, st, {}) && Linear(arcs, w, st.cost, st.trace, head)
    ensures Sought(arcs, s, w, st)
  {
  }

  lemma {:induction false} RoundsKeep(directed: bool, edges: seq<Edge>, n: nat, s: nat, w: nat, k: nat)
    requires Fits(Arcs(directed, edges), n) && s < n
    ensures Sought(Arcs(directed, edges), s, w, Rounds(directed, edges, Opening(n, s), k))
  {
    hide Sought, Arcs, RelaxAll, Fits;
    if k == 0 {
      OpeningSought(Arcs(directed, edges), n, s, w);
    } else {
      RoundsKeep(directed, edges, n, s, w, k - 1);
      var st := Rounds(directed, edges, Opening(n, s), k - 1);
      if st.dq != [] {
        RoundKeeps(directed, edges, s, w, st);
      }
    }
  }

  lemma OpeningSought(arcs: set<Edge>, n: nat, s: nat, w: nat)
    requires Fits(arcs, n) && s < n
    ensures Sought(arcs, s, w, Opening(n, s))
  {
    hide Holds, Narrow;
    OpeningHolds(arcs, n, s, w);
  }

  // ---------- linear work ----------

  /** Keys were popped in order, and no vertex was pushed more than twice. */
  ghost predicate LinearWork(t: Trace, n: nat) {
    && Ascending(t.popped) && |t.popped| + |t.keys| == |t.pushed| && |t.pushed| <= 2 * n
    && forall v :: multiset(t.pushed)[v] <= 2
  }

  lemma {:induction false} AtMostTwice(m: multiset<nat>, n: nat)
    requires forall v :: v in m ==> v < n && m[v] <= 2
    ensures |m| <= 2 * n
  {
    if n == 0 {
      assert m == multiset{};
    } else {
      var rest := m[n - 1 := 0];
      assert m == rest + multiset{}[n - 1 := m[n - 1]];
      AtMostTwice(rest, n - 1);
    }
  }

  lemma NarrowIsLinear(w: nat, cost: seq<Label>, t: Trace)
    requires Narrow(w, cost, t)
    ensures LinearWork(t, |cost|)
  {
    forall v ensures multiset(t.pushed)[v] <= 2 {
      if v in multiset(t.pushed) {
        assert v in t.pushed;
      }
    }
    forall v | v in multiset(t.pushed) ensures v < |cost| {
      assert v in t.pushed;
    }
    AtMostTwice(multiset(t.pushed), |cost|);
  }

  lemma {:induction false} RelaxAllPops(st: State, out: seq<Edge>)
    ensures RelaxAll(st, out).trace.popped == st.trace.popped && |RelaxAll(st, out).cost| == |st.cost|
  {
    hide Improves, Pushed;
    if out != [] {
      RelaxAllPops(st, out[..|out| - 1]);
    }
  }

  /** Every pass pops one entry, until there is none. */
  lemma {:induction false} RoundsPop(directed: bool, edges: seq<Edge>, n: nat, s: nat, k: nat)
    requires Fits(Arcs(directed, edges), n) && s < n
    ensures var st := Rounds(directed, edges, Opening(n, s), k);
      |st.cost| == n && |st.trace.popped| <= k && (st.dq != [] ==> |st.trace.popped| == k)
  {
    hide Arcs, RelaxAll, Fits;
    if k > 0 {
      var st := Rounds(directed, edges, Opening(n, s), k - 1);
      RoundsPop(directed, edges, n, s, k - 1);
      RoundsKeep(directed, edges, n, s, 1, k - 1);
      if st.dq != [] {
        SoughtKeys(Arcs(directed, edges), s, 1, st);
        RelaxAllPops(Popped(st), OutEdges(directed, edges, st.dq[0]));
      }
    }
  }

  lemma SoughtKeys(arcs: set<Edge>, s: nat, w: nat, st: State)
    requires Sought(arcs, s, w, st)
    ensures |st.trace.keys| == |st.dq|
    ensures ZeroOr(arcs, w) ==> Narrow(w, st.cost, st.trace)
  {
    hide Narrow, Tree, Sound, Covered;
  }

  /** On costs 0 and `w`, at every moment: keys were popped in order and no vertex was pushed more than twice;
      and `2 * n` passes empty the deque. */
  lemma {:induction false} LinearTime(directed: bool, edges: seq<Edge>, n: nat, s: nat, w: nat, k: nat)
    requires Fits(Arcs(directed, edges), n) && s < n && ZeroOr(Arcs(directed, edges), w)
    ensures LinearWork(Rounds(directed, edges, Opening(n, s), k).trace, n)
    ensures k >= 2 * n ==> Rounds(directed, edges, Opening(n, s), k).dq == []
  {
    hide ZeroOr, Fits, Arcs, Rounds, Sought, Narrow;
    var st := Rounds(directed, edges, Opening(n, s), k);
    RoundsKeep(directed, edges, n, s, w, k);
    RoundsPop(directed, edges, n, s, k);
    SoughtKeys(Arcs(directed, edges), s, w, st);
    NarrowIsLinear(w, st.cost, st.trace);
  }

  /** Whatever the edges cost: with the deque empty every label is the distance. */
  lemma Emptied(arcs: set<Edge>, s: nat, st: State)
    requires Holds(arcs, s, st, {}) && st.dq == []
    ensures |st.from| == |st.cost| == |st.stamp| && Fits(arcs, |st.cost|)
    ensures Tree(arcs, s, st.cost, st.from, st.stamp, st.clock) && Tight(st.cost, st.from)
    ensures forall v :: 0 <= v < |st.cost| ==> Exact(arcs, s, st.cost, v)
    ensures forall v :: 0 <= v < |st.from| ==> (st.from[v].Some? <==> v != s && Reachable(arcs, s, v))
  {
    assert AllRelaxed(arcs, st.cost) by {
      forall v | 0 <= v < |st.cost| ensures Relaxed(arcs, st.cost, v) {
        assert !Fresh(st.cost, st.dq, st.trace.keys, v);
      }
    }
    EdwardMoore.AllRelaxedMeansExact(arcs, s, st.cost, st.from, st.stamp, st.clock);
  }

  // ---------- the search, step by step ----------

  /** Relaxes the out-edges of `head`, pushing each vertex whose label drops. */
  method UpdateVertexCosts(directed: bool, edges: seq<Edge>, cost: array<Label>, from: array<Option<Edge>>,
                           dq0: seq<nat>, head: nat, ghost st0: State)
    returns (dq: seq<nat>)
    requires cost[..] == st0.cost && from[..] == st0.from && dq0 == st0.dq && cost.Length == from.Length == |st0.stamp|
    requires Fits(Arcs(directed, edges), cost.Length) && head < cost.Length && cost[head].Finite?
    modifies cost, from
    ensures var st := RelaxAll(st0, OutEdges(directed, edges, head));
      cost[..] == st.cost && from[..] == st.from && dq == st.dq
  {
    hide Arcs, OutEdges, Improves, RelaxAll;
    var out := OutEdges(directed, edges, head);
    OutEdgesAreArcs(directed, edges, head);
    dq := dq0;
    ghost var st := st0;
    RelaxNone(st0);
    for i := 0 to |out|
      invariant st == RelaxAll(st0, out[..i]) && |st.stamp| == |st.cost|
      invariant cost[..] == st.cost && from[..] == st.from && dq == st.dq && cost[head].Finite?
    {
      var e := out[i];
      assert e in out;
      var t, d := e.target, cost[head].cost + e.cost;
      RelaxNext(st0, out, i);
      ImprovesMeans(cost[..], e);
      ghost var before := st;
      if cost[t].Infinity? || d < cost[t].cost {
        cost[t] := Finite(d);
        from[t] := Some(e);
        dq := if e.cost != 0 then dq + [t] else [t] + dq;
      }
      st := Relax(before, e);
      assert cost[..] == st.cost && from[..] == st.from;
    }
    assert out[..|out|] == out;
  }

  lemma {:induction false} RelaxNone(st: State)
    ensures RelaxAll(st, []) == st
  {
  }

  lemma {:induction false} RelaxNext(st: State, out: seq<Edge>, i: nat)
    requires i < |out|
    ensures RelaxAll(st, out[..i + 1]) == Relax(RelaxAll(st, out[..i]), out[i])
  {
    assert out[..i + 1][..i] == out[..i];
  }

  /** The loop: from the labels at the start, `rounds` passes until the deque is empty. */
  method Search(directed: bool, edges: seq<Edge>, n: nat, start: nat, cost: array<Label>, from: array<Option<Edge>>)
    returns (ghost rounds: nat)
    requires Fits(Arcs(directed, edges), n) && start < n
    requires cost[..] == Opening(n, start).cost && from[..] == Opening(n, start).from
    modifies cost, from
    ensures Took(directed, edges, Opening(n, start), rounds)
    ensures var st := Rounds(directed, edges, Opening(n, start), rounds); cost[..] == st.cost && from[..] == st.from
  {
    hide *;
    rounds := 0;
    OpensWith(n, start);
    OpeningSought(Arcs(directed, edges), n, start, 1);
    NoRounds(directed, edges, Opening(n, start));
    var dq := [start];
    ghost var st := Opening(n, start);
    while dq != []
      invariant Sought(Arcs(directed, edges), start, 1, st) && Reached(directed, edges, Opening(n, start), rounds, st)
      invariant cost[..] == st.cost && from[..] == st.from && dq == st.dq
      decreases Infinite(cost[..]), FiniteSum(cost[..]), |dq|
    {
      OnePass(directed, edges, start, Opening(n, start), rounds, st);
      var head := dq[0];
      dq := dq[1..];
      dq := UpdateVertexCosts(directed, edges, cost, from, dq, head, Popped(st));
      rounds, st := rounds + 1, RelaxAll(Popped(st), OutEdges(directed, edges, head));
    }
    LastPass(directed, edges, Opening(n, start), rounds, st);
  }

  /** One search from `start`: `rounds` passes, and paths along the edges that these leave in `from_edge`.
      The paths are right whatever the edges cost; with the costs 0 and `w` there are at most `2 * n` passes,
      keys are popped in order and no vertex is pushed more than twice. */
  method OneToMany(directed: bool, edges: seq<Edge>, n: nat, start: nat, targets: seq<nat>)
    returns (paths: seq<Path>, ghost rounds: nat)
    requires Fits(Arcs(directed, edges), n)
    ensures forall p :: p in paths ==>
      p.endId in targets && EdwardMoore.IsShortest(Arcs(directed, edges), start, p.endId, p)
    ensures start < n ==> forall t :: t in targets && t < n ==>
      ((exists p :: p in paths && p.endId == t) <==> t != start && Reachable(Arcs(directed, edges), start, t))
    ensures start >= n ==> paths == []
    ensures start < n ==> EdwardMoore.Answers(Arcs(directed, edges), n, start, targets, paths)
    ensures start < n ==> Took(directed, edges, Opening(n, start), rounds)
    ensures start < n ==> forall p :: p in paths ==>
      Follows(Rounds(directed, edges, Opening(n, start), rounds).from, p.rows)
    ensures start < n ==> forall w :: ZeroOr(Arcs(directed, edges), w) ==>
      rounds <= 2 * n && LinearWork(Rounds(directed, edges, Opening(n, start), rounds).trace, n)
  {
    paths, rounds := [], 0;
    if start >= n {
      return;
    }
    hide *;
    var cost := new Label[n](_ => Infinity);
    var from := new Option<Edge>[n](_ => None);
    cost[start] := Finite(0);
    OpensWith(n, start);
    assert cost[..] == Opening(n, start).cost && from[..] == Opening(n, start).from;
    rounds := Search(directed, edges, n, start, cost, from);
    ghost var st := Rounds(directed, edges, Opening(n, start), rounds);
    AllRounds(directed, edges, n, start, rounds);
    Emptied(Arcs(directed, edges), start, st);
    paths := EdwardMoore.Report(Arcs(directed, edges), n, start, targets, from[..], cost[..], st.stamp, st.clock);
  }

  lemma OpensWith(n: nat, s: nat)
    requires s < n
    ensures var st := Opening(n, s);
      && st.cost == seq(n, _ => Infinity)[s := Finite(0)] && st.from == seq(n, _ => None) && st.dq == [s] &&
        |st.cost| == n
  {
  }

  lemma NoRounds(directed: bool, edges: seq<Edge>, opening: State)
    ensures Reached(directed, edges, opening, 0, opening)
  {
  }

  lemma OneRound(directed: bool, edges: seq<Edge>, opening: State, k: nat, st: State)
    requires Reached(directed, edges, opening, k, st) && st.dq != []
    ensures Reached(directed, edges, opening, k + 1, Round(directed, edges, st))
  {
  }

  lemma SoughtShape(arcs: set<Edge>, s: nat, w: nat, st: State)
    requires Sought(arcs, s, w, st)
    ensures |st.from| == |st.cost| == |st.stamp| && Fits(arcs, |st.cost|) && Holds(arcs, s, st, {})
    ensures st.dq != [] ==> st.dq[0] < |st.cost| && st.cost[st.dq[0]].Finite?
  {
    hide Narrow, Covered, Tree, Sound, Fits;
  }

  lemma PoppedIs(st: State)
    requires st.dq != [] && st.trace.keys != []
    ensures Popped(st).dq == st.dq[1..] && Popped(st).cost == st.cost && Popped(st).from == st.from
    ensures Popped(st).stamp == st.stamp
  {
  }

  /** One pass: what the steps of the loop need, what they reach, and that less is left to do. */
  lemma OnePass(directed: bool, edges: seq<Edge>, s: nat, opening: State, k: nat, st: State)
    requires Sought(Arcs(directed, edges), s, 1, st) && Reached(directed, edges, opening, k, st) && st.dq != []
    ensures st.trace.keys != [] && Popped(st).dq == st.dq[1..] && Popped(st).cost == st.cost &&
      Popped(st).from == st.from
    ensures |st.from| == |Popped(st).stamp| == |st.cost| && Fits(Arcs(directed, edges), |st.cost|)
    ensures st.dq[0] < |st.cost| && st.cost[st.dq[0]].Finite?
    ensures var st' := RelaxAll(Popped(st), OutEdges(directed, edges, st.dq[0]));
      && Sought(Arcs(directed, edges), s, 1, st') && Reached(directed, edges, opening, k + 1, st') &&
        |st'.cost| == |st.cost|
      && (Infinite(st'.cost) < Infinite(st.cost) || (Infinite(st'.cost) == Infinite(st.cost) &&
         (FiniteSum(st'.cost) < FiniteSum(st.cost) ||
          (FiniteSum(st'.cost) == FiniteSum(st.cost) && |st'.dq| < |st.dq|))))
  {
    hide *;
    SoughtShape(Arcs(directed, edges), s, 1, st);
    RoundKeeps(directed, edges, s, 1, st);
    RoundIs(directed, edges, st);
    PoppedIs(st);
    OneRound(directed, edges, opening, k, st);
    LessToDo(Popped(st), Round(directed, edges, st));
    RelaxAllPops(Popped(st), OutEdges(directed, edges, st.dq[0]));
  }

  lemma LessToDo(st0: State, st: State)
    requires Progress(st0, st)
    ensures Infinite(st.cost) < Infinite(st0.cost) || (Infinite(st.cost) == Infinite(st0.cost) &&
            (FiniteSum(st.cost) < FiniteSum(st0.cost) ||
              (FiniteSum(st.cost) == FiniteSum(st0.cost) && st.dq == st0.dq)))
  {
  }

  lemma {:induction false} LastPass(directed: bool, edges: seq<Edge>, opening: State, k: nat, st: State)
    requires Reached(directed, edges, opening, k, st) && st.dq == []
    ensures Took(directed, edges, opening, k) && st == Rounds(directed, edges, opening, k)
  {
  }

  lemma {:induction false} AllRounds(directed: bool, edges: seq<Edge>, n: nat, s: nat, rounds: nat)
    requires Fits(Arcs(directed, edges), n) && s < n && Took(directed, edges, Opening(n, s), rounds)
    ensures var st := Rounds(directed, edges, Opening(n, s), rounds);
      && Holds(Arcs(directed, edges), s, st, {}) && st.dq == []
      && forall w :: ZeroOr(Arcs(directed, edges), w) ==> rounds <= 2 * n && LinearWork(st.trace, n)
  {
    hide ZeroOr, LinearWork, Rounds, Arcs, Holds;
    RoundsKeep(directed, edges, n, s, 1, rounds);
    forall w | ZeroOr(Arcs(directed, edges), w)
      ensures rounds <= 2 * n && LinearWork(Rounds(directed, edges, Opening(n, s), rounds).trace, n)
    {
      LinearTime(directed, edges, n, s, w, rounds);
      LinearTime(directed, edges, n, s, w, 2 * n);
    }
  }

  // ---------- the check before the search ----------

  function Costs(edges: seq<Edge>): set<nat> {
    set e | e in edges :: e.cost
  }

  lemma ZeroOrCosts(directed: bool, edges: seq<Edge>, w: nat)
    ensures ZeroOr(Arcs(directed, edges), w) <==> w > 0 && Costs(edges) <= {0, w}
  {
    forall e | e in Arcs(directed, edges) ensures e.cost in Costs(edges) {
      if e !in edges {
        var f :| f in edges && e == Flip(f);
      }
    }
    if ZeroOr(Arcs(directed, edges), w) {
      forall e | e in edges ensures e.cost in {0, w} {
        assert e in Arcs(directed, edges);
      }
    }
  }

  lemma SmallerSet(a: set<nat>, b: set<nat>)
    requires a <= b
    ensures |a| <= |b|
  {
    assert b == a + (b - a);
  }

  lemma OtherCost(costs: set<nat>) returns (w: nat)
    requires |costs| <= 2 && (|costs| == 2 ==> 0 in costs)
    ensures w > 0 && costs <= {0, w}
  {
    w := 1;
    if c :| c in costs && c != 0 {
      w := c;
      forall x | x in costs ensures x in {0, c} {
        if x != 0 && x != c {
          SmallerSet({x, c}, costs);
          SmallerSet({0, x, c}, costs);
        }
      }
    }
  }

  /** Two costs of which one is 0, or one cost, or none. */
  lemma CostsDecide(costs: set<nat>)
    ensures (|costs| <= 2 && (|costs| == 2 ==> 0 in costs)) <==> exists w: nat :: w > 0 && costs <= {0, w}
  {
    if |costs| <= 2 && (|costs| == 2 ==> 0 in costs) {
      var w := OtherCost(costs);
    } else {
      forall w: nat | w > 0 ensures !(costs <= {0, w}) {
        if costs <= {0, w} {
          SmallerSet(costs, {0, w});
          SmallerSet(costs - {0}, {w});
        }
      }
    }
  }

  /** Whether the costs are such that the search takes linear time. */
  method CostCheck(directed: bool, edges: seq<Edge>) returns (ok: bool)
    ensures ok <==> exists w :: ZeroOr(Arcs(directed, edges), w)
  {
    forall w: nat {
      ZeroOrCosts(directed, edges, w);
    }
    CostsDecide(Costs(edges));
    var costSet: set<nat> := {};
    for i := 0 to |edges|
      invariant costSet == Costs(edges[..i]) && |costSet| <= 2
    {
      ghost var before := costSet;
      costSet := costSet + {edges[i].cost};
      assert edges[..i + 1] == edges[..i] + [edges[i]];
      if |costSet| > 2 {
        SmallerSet(costSet, Costs(edges));
        return false;
      }
    }
    assert edges[..|edges|] == edges;
    return |costSet| != 2 || 0 in costSet;
  }
}
