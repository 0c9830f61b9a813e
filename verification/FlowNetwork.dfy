/** include/chinese/chinesePostman.hpp: the flow network it builds, and what the test `maxFlow == totalDeg` means. */
module FlowNetwork {
  import opened Graphs
  import opened Hierholzer
  import opened ChinesePostman

  // ---------- sums over vertices ----------

  function SumTo(f: nat -> int, n: nat): int {
    if n == 0 then 0 else SumTo(f, n - 1) + f(n - 1)
  }

  lemma {:induction false} SumAdd(f: nat -> int, g: nat -> int, h: nat -> int, n: nat)
    requires forall x: nat :: x < n ==> h(x) == f(x) + g(x)
    ensures SumTo(h, n) == SumTo(f, n) + SumTo(g, n)
  {
    if n > 0 {
      SumAdd(f, g, h, n - 1);
    }
  }

  lemma {:induction false} SumZero(f: nat -> int, n: nat)
    requires forall x: nat :: x < n ==> f(x) == 0
    ensures SumTo(f, n) == 0
  {
    if n > 0 {
      SumZero(f, n - 1);
    }
  }

  /** Only two vertices count. */
  lemma {:induction false} SumTwo(f: nat -> int, n: nat, a: nat, b: nat)
    requires a != b && forall x: nat :: x < n && x != a && x != b ==> f(x) == 0
    ensures SumTo(f, n) == (if a < n then f(a) else 0) + if b < n then f(b) else 0
  {
    if n > 0 {
      SumTwo(f, n - 1, a, b);
    }
  }

  lemma {:induction false} SumAtMost(f: nat -> int, g: nat -> int, n: nat)
    requires forall x: nat :: x < n ==> f(x) <= g(x)
    ensures SumTo(f, n) <= SumTo(g, n)
    ensures SumTo(f, n) == SumTo(g, n) ==> forall x: nat :: x < n ==> f(x) == g(x)
  {
    if n > 0 {
      SumAtMost(f, g, n - 1);
    }
  }

  // ---------- what leaves the super source ----------

  /** Total flow out of `s`, and into `t`. */
  function Value(flows: seq<Flow>, s: nat): nat {
    if flows == [] then 0
    else Value(flows[..|flows| - 1], s) + if flows[|flows| - 1].source == s then flows[|flows| - 1].flow else 0
  }

  function Drain(flows: seq<Flow>, t: nat): nat {
    if flows == [] then 0
    else Drain(flows[..|flows| - 1], t) + if flows[|flows| - 1].target == t then flows[|flows| - 1].flow else 0
  }

  ghost function OutAt(flows: seq<Flow>, s: nat): nat -> int {
    (x: nat) => Through(flows, s, x)
  }

  ghost function InAt(flows: seq<Flow>, t: nat): nat -> int {
    (x: nat) => Through(flows, x, t)
  }

  ghost function NetAt(flows: seq<Flow>): nat -> int {
    (x: nat) => NetFlow(flows, x)
  }

  lemma {:induction false} ValueIsSum(flows: seq<Flow>, s: nat, n: nat)
    requires forall f :: f in flows && f.source == s ==> f.target < n
    ensures SumTo(OutAt(flows, s), n) == Value(flows, s)
  {
    if flows == [] {
      SumZero(OutAt(flows, s), n);
    } else {
      var front, f := flows[..|flows| - 1], flows[|flows| - 1];
      assert f in flows && forall g :: g in front ==> g in flows;
      var own := (x: nat) => if f.source == s && f.target == x then f.flow else 0;
      ValueIsSum(front, s, n);
      SumAdd(OutAt(front, s), own, OutAt(flows, s), n);
      SumTwo(own, n, f.target, f.target + 1);
    }
  }

  lemma {:induction false} DrainIsSum(flows: seq<Flow>, t: nat, n: nat)
    requires forall f :: f in flows && f.target == t ==> f.source < n
    ensures SumTo(InAt(flows, t), n) == Drain(flows, t)
  {
    if flows == [] {
      SumZero(InAt(flows, t), n);
    } else {
      var front, f := flows[..|flows| - 1], flows[|flows| - 1];
      assert f in flows && forall g :: g in front ==> g in flows;
      var own := (x: nat) => if f.source == x && f.target == t then f.flow else 0;
      DrainIsSum(front, t, n);
      SumAdd(InAt(front, t), own, InAt(flows, t), n);
      SumTwo(own, n, f.source, f.source + 1);
    }
  }

  lemma OneFlowCancels(f: Flow, n: nat)
    requires f.source < n && f.target < n
    ensures SumTo((x: nat) => FlowTurn(f, x), n) == 0
  {
    var turn := (x: nat) => FlowTurn(f, x);
    if f.source == f.target {
      SumZero(turn, n);
    } else {
      SumTwo(turn, n, f.source, f.target);
    }
  }

  /** Whatever the flow, over all vertices it cancels out. */
  lemma {:induction false} NetCancels(flows: seq<Flow>, n: nat)
    requires forall f :: f in flows ==> f.source < n && f.target < n
    ensures SumTo(NetAt(flows), n) == 0
  {
    if flows == [] {
      SumZero(NetAt(flows), n);
    } else {
      var front, f := flows[..|flows| - 1], flows[|flows| - 1];
      assert f in flows && forall g :: g in front ==> g in flows;
      NetCancels(front, n);
      SumAdd(NetAt(front), (x: nat) => FlowTurn(f, x), NetAt(flows), n);
      OneFlowCancels(f, n);
    }
  }

  lemma {:induction false} NetAtEnds(flows: seq<Flow>, s: nat, t: nat)
    requires s != t && forall f :: f in flows ==> f.target != s && f.source != t
    ensures NetFlow(flows, s) == Value(flows, s) && NetFlow(flows, t) == 0 - Drain(flows, t)
  {
    if flows != [] {
      var front, f := flows[..|flows| - 1], flows[|flows| - 1];
      assert f in flows && forall g :: g in front ==> g in flows;
      NetAtEnds(front, s, t);
    }
  }

  // ---------- degrees ----------

  ghost function DegreeAt(es: seq<Edge>): nat -> int {
    (x: nat) => Degree(es, x)
  }

  ghost function Surplus(es: seq<Edge>): nat -> int {
    (x: nat) => PositivePart(Degree(es, x))
  }

  ghost function Lack(es: seq<Edge>): nat -> int {
    (x: nat) => PositivePart(-Degree(es, x))
  }

  /** Over all vertices the degrees cancel out. */
  lemma {:induction false} BalanceCancels(es: seq<Edge>, k: nat, n: nat)
    requires k <= |es| && forall e :: e in es ==> e.source < n && e.target < n
    ensures SumTo((x: nat) => Balance(es, {}, x, k), n) == 0
  {
    var balance := (x: nat) => Balance(es, {}, x, k);
    if k == 0 {
      SumZero(balance, n);
    } else {
      var e := es[k - 1];
      assert e in es;
      var before, turn := (x: nat) => Balance(es, {}, x, k - 1), (x: nat) => Turn(e, x);
      BalanceCancels(es, k - 1, n);
      SumAdd(before, turn, balance, n);
      if e.source == e.target {
        SumZero(turn, n);
      } else {
        SumTwo(turn, n, e.source, e.target);
      }
    }
  }

  /** As many ways in are lacking as there are too many. */
  lemma {:induction false} SurplusIsLack(es: seq<Edge>, n: nat)
    requires forall e :: e in es ==> e.source < n && e.target < n
    ensures SumTo(Surplus(es), n) == SumTo(Lack(es), n)
  {
    BalanceCancels(es, |es|, n);
    SumSame((x: nat) => Balance(es, {}, x, |es|), DegreeAt(es), n);
    SumAdd(DegreeAt(es), Lack(es), Surplus(es), n);
  }

  lemma {:induction false} SumSame(f: nat -> int, g: nat -> int, n: nat)
    requires forall x: nat :: x < n ==> f(x) == g(x)
    ensures SumTo(f, n) == SumTo(g, n)
  {
    if n > 0 {
      SumSame(f, g, n - 1);
    }
  }

  // ---------- the network ----------

  /** An edge between a super vertex and another one. */
  datatype Pipe = Pipe(source: nat, target: nat, capacity: nat)

  function Capacity(pipes: seq<Pipe>, a: nat, b: nat): nat {
    if pipes == [] then 0
    else
      var p := pipes[|pipes| - 1];
      Capacity(pipes[..|pipes| - 1], a, b) + if p.source == a && p.target == b then p.capacity else 0
  }

  /** The highest vertex. */
  function Highest(es: seq<Edge>): nat {
    if es == [] then 0
    else
      var rest, e := Highest(es[1..]), es[0];
      var own := if e.source < e.target then e.target else e.source;
      if rest < own then own else rest
  }

  lemma {:induction false} HighestIs(es: seq<Edge>)
    ensures forall e :: e in es ==> e.source <= Highest(es) && e.target <= Highest(es)
    ensures es != [] ==> Endpoint(es, Highest(es))
  {
    if es != [] {
      HighestIs(es[1..]);
      if Highest(es) == Highest(es[1..]) && es[1..] != [] {
        var k :| 0 <= k < |es[1..]| && (es[1..][k].source == Highest(es) || es[1..][k].target == Highest(es));
        assert es[k + 1] == es[1..][k];
      } else {
        assert es[0].source == Highest(es) || es[0].target == Highest(es);
      }
    }
  }

  /** Two new vertices; from the one a pipe leads to every vertex with too few ways in left over, and to the other one
      from every vertex with too few ways out, each as wide as the lack or the surplus. */
  ghost predicate PipesFor(es: seq<Edge>, superSource: nat, superTarget: nat, pipes: seq<Pipe>) {
    && superSource == Highest(es) + 1 && superTarget == Highest(es) + 2
    && (forall p :: p in pipes ==> Joins(superSource, superTarget, p.source, p.target))
    && (forall x: nat :: Capacity(pipes, superSource, x) == if x < superSource then PositivePart(-Degree(es, x)) else 0)
    && (forall x: nat :: Capacity(pipes, x, superTarget) == if x < superSource then PositivePart(Degree(es, x)) else 0)
  }

  predicate Joins(superSource: nat, superTarget: nat, a: nat, b: nat) {
    (a == superSource && b < superSource) || (a < superSource && b == superTarget)
  }

  ghost function TotalDegree(es: seq<Edge>): int {
    SumTo(Surplus(es), Highest(es) + 1)
  }

  /** Flow along edges, of any size, and along pipes, as much as they hold; none is lost on the way. */
  ghost predicate Feasible(es: seq<Edge>, superSource: nat, superTarget: nat, pipes: seq<Pipe>, flows: seq<Flow>) {
    && (forall f :: f in flows ==> f.flow > 0 && (OnSomeEdge(es, f) || OnSomePipe(pipes, f)))
    && (forall x :: x != superSource && x != superTarget ==> NetFlow(flows, x) == 0)
    && (forall x: nat :: Through(flows, superSource, x) <= Capacity(pipes, superSource, x))
    && (forall x: nat :: Through(flows, x, superTarget) <= Capacity(pipes, x, superTarget))
  }

  ghost predicate OnSomePipe(pipes: seq<Pipe>, f: Flow) {
    exists p :: p in pipes && p.source == f.source && p.target == f.target
  }

  lemma FlowEnds(es: seq<Edge>, s: nat, t: nat, pipes: seq<Pipe>, flows: seq<Flow>)
    requires PipesFor(es, s, t, pipes) && Feasible(es, s, t, pipes, flows)
    ensures s != t && !Endpoint(es, s) && !Endpoint(es, t)
    ensures forall f :: f in flows ==> (f.source < s && f.target < s) || Joins(s, t, f.source, f.target)
  {
    HighestIs(es);
    forall f | f in flows ensures (f.source < s && f.target < s) || Joins(s, t, f.source, f.target) {
      if OnSomeEdge(es, f) {
        var k :| 0 <= k < |es| && es[k].source == f.source && es[k].target == f.target;
        assert es[k] in es;
      }
    }
    forall k | 0 <= k < |es| ensures es[k].source < s && es[k].target < s {
      assert es[k] in es;
    }
  }

  /** What leaves the super source arrives at the super target. */
  lemma {:induction false} ValueIsDrain(es: seq<Edge>, s: nat, t: nat, pipes: seq<Pipe>, flows: seq<Flow>)
    requires PipesFor(es, s, t, pipes) && Feasible(es, s, t, pipes, flows)
    ensures Value(flows, s) == Drain(flows, t)
  {
    FlowEnds(es, s, t, pipes, flows);
    NetCancels(flows, t + 1);
    SumTwo(NetAt(flows), t + 1, s, t);
    NetAtEnds(flows, s, t);
  }

  /** What leaves the super source and enters the super target is within what the pipes hold, vertex by vertex. */
  lemma WithinPipes(es: seq<Edge>, s: nat, t: nat, pipes: seq<Pipe>, flows: seq<Flow>)
    requires PipesFor(es, s, t, pipes) && Feasible(es, s, t, pipes, flows)
    ensures forall x: nat :: x < s ==>
      OutAt(flows, s)(x) <= Lack(es)(x) && InAt(flows, t)(x) <= Surplus(es)(x)
  {
    hide Through, Degree, Capacity, NetFlow, Highest;
  }

  lemma NothingAtSuper(es: seq<Edge>, s: nat, t: nat, pipes: seq<Pipe>, flows: seq<Flow>)
    requires PipesFor(es, s, t, pipes) && Feasible(es, s, t, pipes, flows)
    ensures forall i :: 0 <= i < |flows| ==>
      flows[i].target != s && flows[i].source != t && !(flows[i].source == s && flows[i].target == t)
  {
    FlowEnds(es, s, t, pipes, flows);
    hide PipesFor, Feasible;
    forall i | 0 <= i < |flows|
      ensures flows[i].target != s && flows[i].source != t && !(flows[i].source == s && flows[i].target == t)
    {
      assert flows[i] in flows;
    }
  }

  /** Beyond the vertices there is neither flow nor degree. */
  lemma {:induction false} NothingBeyond(es: seq<Edge>, s: nat, t: nat, pipes: seq<Pipe>, flows: seq<Flow>, x: nat)
    requires PipesFor(es, s, t, pipes) && Feasible(es, s, t, pipes, flows) && x >= s
    ensures Through(flows, x, t) == 0 && Through(flows, s, x) == 0 && Degree(es, x) == 0
  {
    hide Through, Capacity, NetFlow, Highest;
    HighestIs(es);
    forall k | 0 <= k < |es| ensures es[k].source != x && es[k].target != x {
      assert es[k] in es;
    }
    NotAnEndpoint(es, x, |es|);
  }

  lemma SaturatesAll(es: seq<Edge>, s: nat, t: nat, pipes: seq<Pipe>, flows: seq<Flow>)
    requires PipesFor(es, s, t, pipes) && Feasible(es, s, t, pipes, flows)
    requires forall x: nat :: x < s ==> OutAt(flows, s)(x) == Lack(es)(x) && InAt(flows, t)(x) == Surplus(es)(x)
    ensures Saturating(es, s, t, flows)
  {
    hide Through, Degree, PipesFor, Feasible;
    FlowEnds(es, s, t, pipes, flows);
    NothingAtSuper(es, s, t, pipes, flows);
    forall x: nat | x != s && x != t
      ensures Through(flows, x, t) == PositivePart(Degree(es, x)) &&
        Through(flows, s, x) == PositivePart(-Degree(es, x))
    {
      if x < s {
        assert OutAt(flows, s)(x) == Lack(es)(x) && InAt(flows, t)(x) == Surplus(es)(x);
      } else {
        NothingBeyond(es, s, t, pipes, flows, x);
      }
    }
    Conserved(es, s, t, pipes, flows);
  }

  lemma SaturatingFills(es: seq<Edge>, s: nat, t: nat, flows: seq<Flow>)
    requires Saturating(es, s, t, flows) && s <= t
    ensures forall x: nat :: x < s ==> OutAt(flows, s)(x) == Lack(es)(x)
  {
    hide Through, Degree, NetFlow;
  }

  lemma {:induction false} PipeEnds(es: seq<Edge>, s: nat, t: nat, pipes: seq<Pipe>)
    requires PipesFor(es, s, t, pipes)
    ensures s == Highest(es) + 1 && t == s + 1 && TotalDegree(es) == SumTo(Surplus(es), s)
    ensures forall e :: e in es ==> e.source < s && e.target < s
  {
    hide SumTo, Surplus;
    HighestIs(es);
  }

  lemma {:induction false} Conserved(es: seq<Edge>, s: nat, t: nat, pipes: seq<Pipe>, flows: seq<Flow>)
    requires Feasible(es, s, t, pipes, flows)
    ensures forall x: nat :: x != s && x != t ==> NetFlow(flows, x) == 0
  {
  }

  lemma {:induction false} OutAndIn(es: seq<Edge>, s: nat, t: nat, pipes: seq<Pipe>, flows: seq<Flow>)
    requires PipesFor(es, s, t, pipes) && Feasible(es, s, t, pipes, flows)
    ensures SumTo(OutAt(flows, s), s) == Value(flows, s) && SumTo(InAt(flows, t), s) == Drain(flows, t)
  {
    hide SumTo, OutAt, InAt, PipesFor, Feasible;
    FlowEnds(es, s, t, pipes, flows);
    NothingAtSuper(es, s, t, pipes, flows);
    forall f | f in flows ensures f.source == s ==> f.target < s {
      var i :| 0 <= i < |flows| && flows[i] == f;
    }
    forall f | f in flows ensures f.target == t ==> f.source < s {
      var i :| 0 <= i < |flows| && flows[i] == f;
    }
    ValueIsSum(flows, s, s);
    DrainIsSum(flows, t, s);
  }

  /** A flow is never worth more than the total degree, and worth as much exactly if it fills every pipe. */
  lemma {:induction false} FullFlowSaturates(es: seq<Edge>, s: nat, t: nat, pipes: seq<Pipe>, flows: seq<Flow>)
    requires PipesFor(es, s, t, pipes) && Feasible(es, s, t, pipes, flows)
    ensures Value(flows, s) <= TotalDegree(es)
    ensures Value(flows, s) == TotalDegree(es) <==> Saturating(es, s, t, flows)
  {
    hide *;
    FlowEnds(es, s, t, pipes, flows);
    ValueIsDrain(es, s, t, pipes, flows);
    OutAndIn(es, s, t, pipes, flows);
    PipeEnds(es, s, t, pipes);
    SurplusIsLack(es, s);
    WithinPipes(es, s, t, pipes, flows);
    SumAtMost(OutAt(flows, s), Lack(es), s);
    SumAtMost(InAt(flows, t), Surplus(es), s);
    if Value(flows, s) == TotalDegree(es) {
      SaturatesAll(es, s, t, pipes, flows);
    } else if Saturating(es, s, t, flows) {
      SaturatingFills(es, s, t, flows);
      SumSame(OutAt(flows, s), Lack(es), s);
    }
  }

  // ---------- building it ----------

  lemma {:induction false} CapacitySnoc(pipes: seq<Pipe>, p: Pipe, a: nat, b: nat)
    ensures Capacity(pipes + [p], a, b) ==
            Capacity(pipes, a, b) + if p.source == a && p.target == b then p.capacity else 0
  {
    assert (pipes + [p])[..|pipes|] == pipes;
  }

  /** The pipes of the vertices below `n`. */
  ghost predicate PipesUpTo(es: seq<Edge>, superSource: nat, superTarget: nat, pipes: seq<Pipe>, n: nat) {
    && (forall p :: p in pipes ==> Joins(superSource, superTarget, p.source, p.target))
    && (forall x: nat :: Capacity(pipes, superSource, x) == if x < n then PositivePart(-Degree(es, x)) else 0)
    && (forall x: nat :: Capacity(pipes, x, superTarget) == if x < n then PositivePart(Degree(es, x)) else 0)
  }

  lemma NextPipe(es: seq<Edge>, s: nat, t: nat, pipes: seq<Pipe>, n: nat, pipes': seq<Pipe>)
    requires s < t && n < s && PipesUpTo(es, s, t, pipes, n)
    requires var d := Degree(es, n);
      pipes' == if d == 0 then pipes else if d > 0 then pipes + [Pipe(n, t, d)] else pipes + [Pipe(s, n, -d)]
    ensures PipesUpTo(es, s, t, pipes', n + 1)
  {
    hide Degree;
    var d := Degree(es, n);
    if d != 0 {
      var p := pipes'[|pipes|];
      forall x: nat ensures Capacity(pipes', s, x) == (if x < n + 1 then PositivePart(-Degree(es, x)) else 0) {
        CapacitySnoc(pipes, p, s, x);
      }
      forall x: nat ensures Capacity(pipes', x, t) == (if x < n + 1 then PositivePart(Degree(es, x)) else 0) {
        CapacitySnoc(pipes, p, x, t);
      }
    }
  }

  /** The two super vertices, the pipes, and the sum of the surpluses. */
  method BuildPipes(es: seq<Edge>, deg: map<nat, int>)
    returns (pipes: seq<Pipe>, superSource: nat, superTarget: nat, totalDeg: nat)
    requires DegreesOf(es, deg)
    ensures PipesFor(es, superSource, superTarget, pipes) && totalDeg == TotalDegree(es)
  {
    hide *;
    superSource, superTarget := Highest(es) + 1, Highest(es) + 2;
    pipes, totalDeg := [], 0;
    NoPipes(es, superSource, superTarget);
    for p := 0 to superSource
      invariant PipesUpTo(es, superSource, superTarget, pipes, p) && totalDeg == SumTo(Surplus(es), p)
    {
      DegreeKnown(es, deg, p);
      ghost var before := pipes;
      if p in deg {
        var d := deg[p];
        if d > 0 {
          totalDeg := totalDeg + d;
          pipes := pipes + [Pipe(p, superTarget, d)];
        } else if d < 0 {
          pipes := pipes + [Pipe(superSource, p, -d)];
        }
      }
      NextPipe(es, superSource, superTarget, before, p, pipes);
      NextSurplus(es, p);
    }
    AllPipes(es, superSource, superTarget, pipes);
  }

  lemma NoPipes(es: seq<Edge>, s: nat, t: nat)
    ensures PipesUpTo(es, s, t, [], 0) && SumTo(Surplus(es), 0) == 0
  {
  }

  lemma NextSurplus(es: seq<Edge>, p: nat)
    ensures SumTo(Surplus(es), p + 1) == SumTo(Surplus(es), p) + if Degree(es, p) > 0 then Degree(es, p) else 0
  {
  }

  lemma {:induction false} AllPipes(es: seq<Edge>, s: nat, t: nat, pipes: seq<Pipe>)
    requires s == Highest(es) + 1 && t == Highest(es) + 2 && PipesUpTo(es, s, t, pipes, s)
    ensures PipesFor(es, s, t, pipes) && SumTo(Surplus(es), s) == TotalDegree(es)
  {
  }

  lemma DegreeKnown(es: seq<Edge>, deg: map<nat, int>, v: nat)
    requires DegreesOf(es, deg)
    ensures Degree(es, v) == if v in deg then deg[v] else 0
  {
  }
}
