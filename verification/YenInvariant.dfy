/** The invariant behind Yen's algorithm and why it makes the enumeration optimal. */
module YenInvariant {
  import opened Graphs
  import opened BaseGraph
  import opened Weights
  import opened Paths
  import opened CompPaths
  import opened LooplessPaths
  import opened EdwardMoore

  /** `p` goes through `prefix` and then on to a node to which no accepted path goes on from there. */
  ghost predicate Candidate(c: Query, accepted: seq<Path>, prefix: seq<nat>, p: seq<nat>) {
    && NodeRoute(c, p)
    && prefix < p
    && forall q :: q in accepted ==> !(p[..|prefix| + 1] <= Nodes(q.rows))
  }

  /** `h` leaves the accepted paths where `p` does, at no more than the price of `p`. */
  ghost predicate Matches(c: Query, accepted: seq<Path>, prefix: seq<nat>, h: Path, p: seq<nat>) {
    Candidate(c, accepted, prefix, Nodes(h.rows)) && h.totCost <= NodeCost(c.directed, c.edges, p)
  }

  /** Of the candidates that leave the accepted paths after `prefix`, the heap holds one no dearer than the price
      of any. */
  ghost predicate Covered(c: Query, accepted: seq<Path>, heap: seq<Path>, prefix: seq<nat>) {
    forall p :: Candidate(c, accepted, prefix, p) ==> exists h :: h in heap && Matches(c, accepted, prefix, h, p)
  }

  /** Every prefix of an accepted path is covered, except perhaps those of `pending`. */
  ghost predicate CoveredBut(c: Query, accepted: seq<Path>, heap: seq<Path>, pending: seq<nat>) {
    forall q, k :: q in accepted && 1 <= k <= |q.rows| ==>
      Nodes(q.rows)[..k] <= pending || Covered(c, accepted, heap, Nodes(q.rows)[..k])
  }

  /** Both sets are ordered, hold loopless paths only, and share none. With parallel edges the same nodes may turn up
      again at another cost. */
  ghost predicate Kept(c: Query, accepted: seq<Path>, heap: seq<Path>) {
    && Sorted(accepted) && Sorted(heap)
    && (forall q :: q in accepted || q in heap ==> FairRoute(c, q))
    && (forall q, h :: q in accepted && h in heap ==> !Equivalent(q, h))
  }

  ghost predicate Accepted(accepted: seq<Path>, p: seq<nat>) {
    exists q :: q in accepted && Nodes(q.rows) == p
  }

  /** No loopless path left out has a lower price than what one let in costs. */
  ghost predicate Cheapest(c: Query, accepted: seq<Path>) {
    forall q, p :: q in accepted && NodeRoute(c, p) && !Accepted(accepted, p) ==>
      q.totCost <= NodeCost(c.directed, c.edges, p)
  }

  lemma CoveredGrows(c: Query, accepted: seq<Path>, heap: seq<Path>, heap': seq<Path>, prefix: seq<nat>)
    requires Covered(c, accepted, heap, prefix)
    requires forall h :: h in heap ==> h in heap'
    ensures Covered(c, accepted, heap', prefix)
  {
    hide Candidate, Matches;
    forall p | Candidate(c, accepted, prefix, p)
      ensures exists h :: h in heap' && Matches(c, accepted, prefix, h, p)
    {
      var h :| h in heap && Matches(c, accepted, prefix, h, p);
      assert h in heap';
    }
  }

  /** Accepting the best path from the heap uncovers nothing but prefixes of that path. */
  lemma AcceptKeepsCovered(c: Query, accepted: seq<Path>, heap: seq<Path>, accepted': seq<Path>, heap': seq<Path>,
                           best: Path, prefix: seq<nat>)
    requires Covered(c, accepted, heap, prefix) && !(prefix <= Nodes(best.rows))
    requires forall q :: q in accepted' <==> q in accepted || q == best
    requires forall h :: h in heap && h != best ==> h in heap'
    ensures Covered(c, accepted', heap', prefix)
  {
    hide Candidate, Matches;
    forall p | Candidate(c, accepted', prefix, p)
      ensures exists h :: h in heap' && Matches(c, accepted', prefix, h, p)
    {
      CandidateBefore(c, accepted, accepted', prefix, p);
      var h :| h in heap && Matches(c, accepted, prefix, h, p);
      MatchSurvives(c, accepted, accepted', best, prefix, h, p);
    }
  }

  lemma CandidateBefore(c: Query, accepted: seq<Path>, accepted': seq<Path>, prefix: seq<nat>, p: seq<nat>)
    requires Candidate(c, accepted', prefix, p)
    requires forall q :: q in accepted ==> q in accepted'
    ensures Candidate(c, accepted, prefix, p)
  {
  }

  lemma MatchSurvives(c: Query, accepted: seq<Path>, accepted': seq<Path>, best: Path, prefix: seq<nat>, h: Path,
                      p: seq<nat>)
    requires Matches(c, accepted, prefix, h, p) && !(prefix <= Nodes(best.rows))
    requires forall q :: q in accepted' <==> q in accepted || q == best
    ensures Matches(c, accepted', prefix, h, p) && h != best
  {
    var nodes := Nodes(h.rows);
    assert prefix == nodes[..|prefix| + 1][..|prefix|];
    hide NodeRoute, Nodes;
    forall q | q in accepted' ensures !(nodes[..|prefix| + 1] <= Nodes(q.rows)) {
      assert q == best || q in accepted;
    }
  }

  lemma WholeRoutesAreNotPrefixes(c: Query, p: seq<nat>, k: nat, q: seq<nat>)
    requires NodeRoute(c, p) && NodeRoute(c, q) && k == |p| && p[..k] <= q
    ensures p == q
  {
    assert q[|p| - 1] == c.t;
  }

  /** A path not accepted leaves the accepted ones somewhere, and is a candidate there. */
  lemma {:induction false} Deviates(c: Query, accepted: seq<Path>, p: seq<nat>, k: nat) returns (q: Path, j: nat)
    requires forall r :: r in accepted ==> NodeRoute(c, Nodes(r.rows))
    requires NodeRoute(c, p) && !Accepted(accepted, p)
    requires 1 <= k <= |p| && exists r :: r in accepted && p[..k] <= Nodes(r.rows)
    ensures q in accepted && 1 <= j <= |q.rows| && j < |p| && Nodes(q.rows)[..j] == p[..j]
    ensures Candidate(c, accepted, p[..j], p)
    decreases |p| - k
  {
    q :| q in accepted && p[..k] <= Nodes(q.rows);
    j := k;
    if k == |p| {
      WholeRoutesAreNotPrefixes(c, p, k, Nodes(q.rows));
      assert false;
    } else if r :| r in accepted && p[..k + 1] <= Nodes(r.rows) {
      q, j := Deviates(c, accepted, p, k + 1);
    }
  }

  lemma HeadIsCheapest(heap: seq<Path>, h: Path)
    requires Sorted(heap) && h in heap
    ensures heap != [] && heap[0].totCost <= h.totCost
  {
    var i :| 0 <= i < |heap| && heap[i] == h;
    assert i > 0 ==> Less(heap[0], heap[i]);
  }

  /** With every prefix covered, the heap holds a path as cheap as any path not yet accepted. */
  lemma {:induction false} HeapBeatsTheRest(c: Query, accepted: seq<Path>, heap: seq<Path>, p: seq<nat>)
    requires Kept(c, accepted, heap) && accepted != [] && CoveredBut(c, accepted, heap, [])
    requires NodeRoute(c, p) && !Accepted(accepted, p)
    ensures heap != [] && heap[0].totCost <= NodeCost(c.directed, c.edges, p)
  {
    hide NodeRoute, Candidate, FairRoute, Sorted;
    forall r | r in accepted ensures NodeRoute(c, Nodes(r.rows)) {
      FairRouteNodes(c, r);
    }
    var q, j := DeviatesSomewhere(c, accepted, p);
    CoveredAt(c, accepted, heap, q, j);
    var h :| h in heap && Matches(c, accepted, p[..j], h, p);
    HeadIsCheapest(heap, h);
  }

  lemma CoveredAt(c: Query, accepted: seq<Path>, heap: seq<Path>, q: Path, j: nat)
    requires CoveredBut(c, accepted, heap, []) && q in accepted && 1 <= j <= |q.rows|
    ensures Covered(c, accepted, heap, Nodes(q.rows)[..j])
  {
    hide Covered;
    assert !(Nodes(q.rows)[..j] <= []);
  }

  lemma DeviatesSomewhere(c: Query, accepted: seq<Path>, p: seq<nat>) returns (q: Path, j: nat)
    requires accepted != [] && forall r :: r in accepted ==> NodeRoute(c, Nodes(r.rows))
    requires NodeRoute(c, p) && !Accepted(accepted, p)
    ensures q in accepted && 1 <= j <= |q.rows| && j < |p| && Nodes(q.rows)[..j] == p[..j]
    ensures Candidate(c, accepted, p[..j], p)
  {
    assert accepted[0] in accepted;
    assert p[..1] == [c.s] && Nodes(accepted[0].rows)[..1] == [c.s];
    assert p[..1] <= Nodes(accepted[0].rows);
    q, j := Deviates(c, accepted, p, 1);
  }

  /** Nothing left in the heap means nothing left at all. */
  lemma EmptyHeapMeansAll(c: Query, accepted: seq<Path>, p: seq<nat>)
    requires Kept(c, accepted, []) && accepted != [] && CoveredBut(c, accepted, [], [])
    requires NodeRoute(c, p)
    ensures Accepted(accepted, p)
  {
    if !Accepted(accepted, p) {
      HeapBeatsTheRest(c, accepted, [], p);
    }
  }
}
