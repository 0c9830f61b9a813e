/** src/cpp_common/compPaths.cpp: the order on paths, and the ordered sets of paths it gives. */
module CompPaths {
  import opened Paths

  predicate NodesLess(a: seq<nat>, b: seq<nat>)
    requires |a| == |b|
  {
    a != [] && (a[0] < b[0] || (a[0] == b[0] && NodesLess(a[1..], b[1..])))
  }

  /** Cheaper first, then fewer rows, then the smaller node where the paths part. */
  predicate Less(p: Path, q: Path) {
    || p.totCost < q.totCost
    || (p.totCost == q.totCost &&
        (|p.rows| < |q.rows| || (|p.rows| == |q.rows| && NodesLess(Nodes(p.rows), Nodes(q.rows)))))
  }

  /** The comparison cannot tell these apart. */
  predicate Equivalent(p: Path, q: Path) {
    p.totCost == q.totCost && Nodes(p.rows) == Nodes(q.rows)
  }

  lemma {:induction false} NodesTrichotomy(a: seq<nat>, b: seq<nat>)
    requires |a| == |b|
    ensures !(NodesLess(a, b) && NodesLess(b, a))
    ensures NodesLess(a, b) || NodesLess(b, a) <==> a != b
  {
    if a != [] {
      NodesTrichotomy(a[1..], b[1..]);
      assert a == [a[0]] + a[1..] && b == [b[0]] + b[1..];
    }
  }

  lemma {:induction false} NodesTransitive(a: seq<nat>, b: seq<nat>, c: seq<nat>)
    requires |a| == |b| == |c| && NodesLess(a, b) && NodesLess(b, c)
    ensures NodesLess(a, c)
  {
    if a[0] == b[0] == c[0] {
      NodesTransitive(a[1..], b[1..], c[1..]);
    }
  }

  /** A strict order in which exactly the equivalent paths are incomparable, as `std::set` needs it. */
  lemma LessIsStrictOrder(p: Path, q: Path, r: Path)
    ensures !(Less(p, q) && Less(q, p))
    ensures Less(p, q) || Less(q, p) <==> !Equivalent(p, q)
    ensures Less(p, q) && Less(q, r) ==> Less(p, r)
    ensures Less(p, q) && Equivalent(q, r) ==> Less(p, r)
  {
    if |p.rows| == |q.rows| {
      NodesTrichotomy(Nodes(p.rows), Nodes(q.rows));
      if |q.rows| == |r.rows| && NodesLess(Nodes(p.rows), Nodes(q.rows)) && NodesLess(Nodes(q.rows), Nodes(r.rows)) {
        NodesTransitive(Nodes(p.rows), Nodes(q.rows), Nodes(r.rows));
      }
    }
    assert Nodes(p.rows) == Nodes(q.rows) ==> |p.rows| == |Nodes(p.rows)| == |q.rows|;
    assert Nodes(q.rows) == Nodes(r.rows) ==> |q.rows| == |Nodes(q.rows)| == |r.rows|;
  }

  /** The first place where two sequences of nodes differ decides. */
  lemma {:induction false} NodesLessAt(a: seq<nat>, b: seq<nat>)
    requires |a| == |b|
    ensures NodesLess(a, b) <==> exists k :: 0 <= k < |a| && a[k] < b[k] && forall i :: 0 <= i < k ==> a[i] == b[i]
  {
    if a != [] {
      var a', b' := a[1..], b[1..];
      NodesLessAt(a', b');
      if NodesLess(a, b) {
        if a[0] == b[0] {
          var k :| 0 <= k < |a'| && a'[k] < b'[k] && forall i :: 0 <= i < k ==> a'[i] == b'[i];
          assert forall i :: 0 <= i < k + 1 ==> a[i] == if i == 0 then a[0] else a'[i - 1];
          assert a[k + 1] < b[k + 1] && forall i :: 0 <= i < k + 1 ==> a[i] == b[i];
        }
      }
      if k :| 0 <= k < |a| && a[k] < b[k] && forall i :: 0 <= i < k ==> a[i] == b[i] {
        if k > 0 {
          assert a'[k - 1] < b'[k - 1];
        }
      }
    }
  }

  method CompPathsLess(p1: Path, p2: Path) returns (less: bool)
    ensures less == Less(p1, p2)
    ensures p1.totCost != p2.totCost ==> less == (p1.totCost < p2.totCost)
    ensures p1.totCost == p2.totCost && |p1.rows| != |p2.rows| ==> less == (|p1.rows| < |p2.rows|)
    ensures p1.totCost == p2.totCost && |p1.rows| == |p2.rows| ==>
      (less <==> exists k :: 0 <= k < |p1.rows| && p1.rows[k].node < p2.rows[k].node &&
                             forall i :: 0 <= i < k ==> p1.rows[i].node == p2.rows[i].node)
  {
    if p1.totCost != p2.totCost {
      if p1.totCost > p2.totCost { return false; }
      if p1.totCost < p2.totCost { return true; }
    }
    if |p1.rows| > |p2.rows| { return false; }
    if |p1.rows| < |p2.rows| { return true; }
    ghost var a, b := Nodes(p1.rows), Nodes(p2.rows);
    NodesLessAt(a, b);
    for i := 0 to |p1.rows|
      invariant NodesLess(a, b) == NodesLess(a[i..], b[i..])
      invariant forall j :: 0 <= j < i ==> p1.rows[j].node == p2.rows[j].node
    {
      if p1.rows[i].node > p2.rows[i].node { return false; }
      if p1.rows[i].node < p2.rows[i].node { return true; }
      assert a[i..][1..] == a[i + 1..] && b[i..][1..] == b[i + 1..];
    }
    return false;
  }

  // ---------- std::set<Path, compPathsLess> ----------

  ghost predicate Sorted(paths: seq<Path>) {
    forall i, j :: 0 <= i < j < |paths| ==> Less(paths[i], paths[j])
  }

  ghost predicate Contains(paths: seq<Path>, p: Path) {
    exists q :: q in paths && Equivalent(q, p)
  }

  lemma PlacedInOrder(paths: seq<Path>, i: nat, p: Path)
    requires Sorted(paths) && i <= |paths|
    requires forall j :: 0 <= j < i ==> Less(paths[j], p)
    requires i < |paths| ==> Less(p, paths[i])
    ensures var paths' := paths[..i] + [p] + paths[i..];
      Sorted(paths') && Contains(paths', p) && multiset(paths') == multiset(paths) + multiset{p}
    ensures !Contains(paths, p)
  {
    var paths' := paths[..i] + [p] + paths[i..];
    forall j | i <= j < |paths| ensures Less(p, paths[j]) {
      if j > i {
        LessIsStrictOrder(p, paths[i], paths[j]);
      }
    }
    forall j | 0 <= j < |paths| ensures !Equivalent(paths[j], p) {
      LessIsStrictOrder(paths[j], p, p);
      LessIsStrictOrder(p, paths[j], p);
    }
    hide Less, Equivalent;
    assert paths'[i] == p && p in paths';
    assert Equivalent(p, p) by { LessIsStrictOrder(p, p, p); }
    assert paths == paths[..i] + paths[i..];
  }

  /** Puts `p` in its place, unless an equivalent path is there already. */
  method Insert(paths: seq<Path>, p: Path) returns (paths': seq<Path>)
    requires Sorted(paths)
    ensures Sorted(paths') && Contains(paths', p)
    ensures if Contains(paths, p) then paths' == paths else multiset(paths') == multiset(paths) + multiset{p}
  {
    var i := 0;
    var before := true;
    while i < |paths| && before
      invariant 0 <= i <= |paths|
      invariant forall j :: 0 <= j < i ==> Less(paths[j], p)
      invariant !before ==> i < |paths| && !Less(paths[i], p)
      decreases |paths| - i, before
    {
      before := CompPathsLess(paths[i], p);
      if before {
        i := i + 1;
      }
    }
    if i < |paths| {
      LessIsStrictOrder(paths[i], p, p);
      var after := CompPathsLess(p, paths[i]);
      if !after {
        assert Equivalent(paths[i], p) && paths[i] in paths;
        return paths;
      }
    }
    PlacedInOrder(paths, i, p);
    paths' := paths[..i] + [p] + paths[i..];
  }
}
