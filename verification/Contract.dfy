/** include/contraction/contract.hpp: running the kinds of contraction one after the other. */
module Contract {
  import opened ContractionGraph
  import Linear = LinearContraction
  import DeadEnds = DeadEndContraction

  /** An undirected graph without self-loops in which every id is held exactly once. */
  ghost predicate Partitioned(ids: seq<int>, g: State) {
    NoLoops(g.edges) && NothingLost(ids, g) && NothingTwice(ids, g)
  }

  /** What one kind of contraction, and so any run of them, leaves true. */
  ghost predicate Kept(directed: bool, ids: seq<int>, forbidden: set<nat>, before: State, after: State) {
    && Contracted(directed, |ids|, forbidden, before, after)
    && (!directed && Partitioned(ids, before) ==> Partitioned(ids, after))
  }

  /** Nothing is left that the kind could contract. */
  ghost predicate NoneLeft(kind: int, directed: bool, forbidden: set<nat>, g: State) {
    && (kind == 1 ==> forall v :: !DeadEnds.Contractible(directed, forbidden, g.edges, v))
    && (kind == 2 ==> forall v :: !Linear.Contractible(directed, forbidden, g.edges, v))
  }

  /** One kind of contraction, performed to the end: vertices that it could contract went one after the other,
      and none is left. */
  ghost predicate Performed(kind: int, directed: bool, ids: seq<int>, forbidden: set<nat>, before: State,
                            after: State) {
    && Kept(directed, ids, forbidden, before, after)
    && Stepwise(if kind == 1 then DeadEnds.Steps(directed, ids, forbidden) else Linear.Steps(directed, ids, forbidden),
                before, after)
    && NoneLeft(kind, directed, forbidden, after)
  }

  /** The states between the kinds in `order`, each performed in its turn. */
  ghost predicate InTurn(order: seq<int>, directed: bool, ids: seq<int>, forbidden: set<nat>, states: seq<State>) {
    && |states| == |order| + 1
    && forall i :: 0 <= i < |order| ==> Performed(order[i], directed, ids, forbidden, states[i], states[i + 1])
  }

  lemma InTurnNext(order: seq<int>, directed: bool, ids: seq<int>, forbidden: set<nat>, states: seq<State>, kind: int,
                   g: State)
    requires InTurn(order, directed, ids, forbidden, states)
    requires Performed(kind, directed, ids, forbidden, states[|order|], g)
    ensures InTurn(order + [kind], directed, ids, forbidden, states + [g])
  {
    hide Performed;
  }

  lemma KeptChain(directed: bool, ids: seq<int>, forbidden: set<nat>, a: State, b: State, c: State)
    requires Kept(directed, ids, forbidden, a, b) && Kept(directed, ids, forbidden, b, c)
    ensures Kept(directed, ids, forbidden, a, c) && Sane(|ids|, c)
  {
    hide Contracted, Partitioned;
    ContractedChain(directed, |ids|, forbidden, a, b, c);
    ContractedIsSane(directed, |ids|, forbidden, b, c);
  }

  lemma KeptNothing(directed: bool, ids: seq<int>, forbidden: set<nat>, g: State)
    requires Sane(|ids|, g)
    ensures Kept(directed, ids, forbidden, g, g)
  {
    ContractedNothing(directed, |ids|, forbidden, g);
  }

  lemma LinearKeeps(directed: bool, ids: seq<int>, forbidden: set<nat>, a: State, b: State)
    requires Contracted(directed, |ids|, forbidden, a, b)
    requires NothingLost(ids, a) ==> NothingLost(ids, b)
    requires !directed && NothingTwice(ids, a) ==> NothingTwice(ids, b)
    ensures Kept(directed, ids, forbidden, a, b)
  {
    hide NothingLost, NothingTwice, NoLoops;
  }

  lemma DeadEndKeeps(directed: bool, ids: seq<int>, forbidden: set<nat>, a: State, b: State)
    requires Contracted(directed, |ids|, forbidden, a, b) && DeadEnds.NamesKept(directed, ids, a, b)
    ensures Kept(directed, ids, forbidden, a, b)
  {
    hide NothingLost, NothingTwice, NoLoops, Contracted;
  }

  /** Kind 1 contracts dead ends, kind 2 linear vertices. */
  method OneCycle(g: Graph, kind: int, forbiddenVertices: set<nat>)
    requires Sane(|g.ids|, g.Now()) && (kind == 1 || kind == 2)
    modifies g
    ensures Performed(kind, g.directed, g.ids, forbiddenVertices, old(g.Now()), g.Now()) && Sane(|g.ids|, g.Now())
  {
    ghost var before := g.Now();
    hide Contracted, NothingLost, NothingTwice, Sane, DeadEnds.NamesKept, Kept, DeadEnd, ContractionGraph.Linear,
         DeadEnds.Steps, Linear.Steps, Stepwise;
    if kind == 1 {
      var deadends := new DeadEnds.Contractor();
      g.forbidden := forbiddenVertices;
      SaneInside(|g.ids|, g.Now());
      deadends.CalculateVertices(g);
      deadends.DoContraction(g);
      DeadEndKeeps(g.directed, g.ids, forbiddenVertices, before, g.Now());
    } else {
      var linear := new Linear.Contractor();
      linear.DoContraction(g, forbiddenVertices);
      LinearKeeps(g.directed, g.ids, forbiddenVertices, before, g.Now());
    }
    ContractedIsSane(g.directed, |g.ids|, forbiddenVertices, before, g.Now());
  }

  lemma SaneInside(n: nat, g: State)
    requires Sane(n, g)
    ensures Inside(n, g.edges)
  {
  }

  ghost function Sentinels(n: nat): seq<int> {
    seq(n, _ => -1)
  }

  /** Goes through `order` once, however many cycles are asked for: what goes back into the queue after each
      contraction is the sentinel, so from the second cycle on the queue holds nothing else. `states` are the states
      of the graph between the kinds. */
  method Contract(g: Graph, forbiddenVertices: set<nat>, order: seq<int>, maxCycles: nat)
    returns (ghost states: seq<State>)
    requires Sane(|g.ids|, g.Now()) && forall i :: 0 <= i < |order| ==> order[i] == 1 || order[i] == 2
    modifies g
    ensures Kept(g.directed, g.ids, forbiddenVertices, old(g.Now()), g.Now())
    ensures InTurn(if maxCycles == 0 then [] else order, g.directed, g.ids, forbiddenVertices, states)
    ensures states[0] == old(g.Now()) && states[|states| - 1] == g.Now()
    ensures maxCycles > 0 && order != [] ==> NoneLeft(order[|order| - 1], g.directed, forbiddenVertices, g.Now())
  {
    hide Kept, Sane, Performed, NoneLeft;
    var contractOrder := [-1] + order;
    ghost var before := g.Now();
    states := [before];
    KeptNothing(g.directed, g.ids, forbiddenVertices, before);
    for i := 0 to maxCycles
      invariant Sane(|g.ids|, g.Now()) && Kept(g.directed, g.ids, forbiddenVertices, before, g.Now())
      invariant InTurn(if i == 0 then [] else order, g.directed, g.ids, forbiddenVertices, states)
      invariant states[0] == before && states[|states| - 1] == g.Now()
      invariant contractOrder == if i == 0 then [-1] + order else Sentinels(|order| + 1)
    {
      var front := contractOrder[0];
      contractOrder := contractOrder[1..] + [front];
      ghost var j := if i == 0 then 0 else |order|;
      assert order[..|order|] == order;
      var kind := contractOrder[0];
      while kind != -1
        invariant Sane(|g.ids|, g.Now()) && Kept(g.directed, g.ids, forbiddenVertices, before, g.Now())
        invariant 0 <= j <= |order| && InTurn(order[..j], g.directed, g.ids, forbiddenVertices, states) && front == -1
        invariant states[0] == before && states[|states| - 1] == g.Now()
        invariant contractOrder == order[j..] + Sentinels(j + 1)
        invariant kind == contractOrder[0] == if j < |order| then order[j] else -1
        decreases |order| - j
      {
        ghost var now := g.Now();
        OneCycle(g, kind, forbiddenVertices);
        PerformedKeeps(kind, g.directed, g.ids, forbiddenVertices, before, now, g.Now());
        InTurnNext(order[..j], g.directed, g.ids, forbiddenVertices, states, kind, g.Now());
        contractOrder := contractOrder[1..] + [front];
        states := states + [g.Now()];
        assert order[..j + 1] == order[..j] + [kind];
        j := j + 1;
        assert Sentinels(j + 1) == Sentinels(j) + [-1];
        kind := contractOrder[0];
      }
      assert order[..|order|] == order;
    }
    if maxCycles > 0 && order != [] {
      LastLeavesNone(order, g.directed, g.ids, forbiddenVertices, states);
    }
  }

  lemma PerformedKeeps(kind: int, directed: bool, ids: seq<int>, forbidden: set<nat>, a: State, b: State, c: State)
    requires Kept(directed, ids, forbidden, a, b) && Performed(kind, directed, ids, forbidden, b, c)
    ensures Kept(directed, ids, forbidden, a, c)
  {
    hide Kept, Stepwise, NoneLeft;
    KeptChain(directed, ids, forbidden, a, b, c);
  }

  lemma LastLeavesNone(order: seq<int>, directed: bool, ids: seq<int>, forbidden: set<nat>, states: seq<State>)
    requires InTurn(order, directed, ids, forbidden, states) && order != []
    ensures NoneLeft(order[|order| - 1], directed, forbidden, states[|states| - 1])
  {
    hide Kept, Stepwise, NoneLeft;
    var i := |order| - 1;
    assert Performed(order[i], directed, ids, forbidden, states[i], states[i + 1]);
  }
}
