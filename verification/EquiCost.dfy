/** src/common/path.cpp, `equi_cost`: every node stays only in the paths that reach it at least cost. */
module EquiCost {
  import opened Graphs
  import opened Paths

  // ---------- sorting ----------

  ghost predicate Total<T(!new)>(le: (T, T) -> bool) {
    && (forall a, b :: le(a, b) || le(b, a))
    && (forall a, b, c :: le(a, b) && le(b, c) ==> le(a, c))
  }

  ghost predicate Ordered<T>(s: seq<T>, le: (T, T) -> bool) {
    forall i, j :: 0 <= i < j < |s| ==> le(s[i], s[j])
  }

  function Insert<T>(s: seq<T>, x: T, le: (T, T) -> bool): seq<T> {
    if s == [] || le(x, s[0]) then [x] + s else [s[0]] + Insert(s[1..], x, le)
  }

  /** Stands for `std::sort`; where it leaves open the order of equivalent elements, nothing below depends on it. */
  function SortBy<T>(s: seq<T>, le: (T, T) -> bool): seq<T> {
    if s == [] then [] else Insert(SortBy(s[1..], le), s[0], le)
  }

  ghost predicate Apart<T>(s: seq<T>, ne: (T, T) -> bool) {
    forall i, j :: 0 <= i < j < |s| ==> ne(s[i], s[j])
  }

  lemma {:induction false} InsertSorts<T(!new)>(s: seq<T>, x: T, le: (T, T) -> bool)
    requires Total(le) && Ordered(s, le)
    ensures Ordered(Insert(s, x, le), le) && multiset(Insert(s, x, le)) == multiset(s) + multiset{x}
  {
    if s == [] {
    } else if le(x, s[0]) {
      forall j | 0 <= j < |s| ensures le(x, s[j]) {
        assert j == 0 || le(s[0], s[j]);
      }
    } else {
      InsertSorts(s[1..], x, le);
      var rest := Insert(s[1..], x, le);
      assert s == [s[0]] + s[1..];
      forall j | 0 <= j < |rest| ensures le(s[0], rest[j]) {
        assert rest[j] in multiset(rest);
        assert rest[j] == x || rest[j] in s[1..];
      }
    }
  }

  lemma {:induction false} InsertApart<T(!new)>(s: seq<T>, x: T, le: (T, T) -> bool, ne: (T, T) -> bool)
    requires Apart(s, ne) && (forall a, b :: ne(a, b) ==> ne(b, a)) && forall y :: y in s ==> ne(x, y)
    ensures Apart(Insert(s, x, le), ne)
    ensures forall y :: y in Insert(s, x, le) <==> y == x || y in s
  {
    if s != [] && !le(x, s[0]) {
      var rest := Insert(s[1..], x, le);
      InsertApart(s[1..], x, le, ne);
      forall j | 0 <= j < |rest| ensures ne(s[0], rest[j]) {
        assert rest[j] in rest;
        assert rest[j] == x || rest[j] in s[1..];
      }
    }
  }

  lemma {:induction false} SortSorts<T(!new)>(s: seq<T>, le: (T, T) -> bool, ne: (T, T) -> bool)
    requires Total(le) && Apart(s, ne) && forall a, b :: ne(a, b) ==> ne(b, a)
    ensures Ordered(SortBy(s, le), le) && |SortBy(s, le)| == |s| && Apart(SortBy(s, le), ne)
    ensures forall y :: y in SortBy(s, le) <==> y in s
  {
    if s != [] {
      var rest := SortBy(s[1..], le);
      SortSorts(s[1..], le, ne);
      InsertSorts(rest, s[0], le);
      InsertApart(rest, s[0], le, ne);
      assert |multiset(Insert(rest, s[0], le))| == |rest| + 1;
    }
  }

  lemma {:induction false} SortPermutes<T(!new)>(s: seq<T>, le: (T, T) -> bool)
    requires Total(le)
    ensures Ordered(SortBy(s, le), le) && multiset(SortBy(s, le)) == multiset(s)
  {
    if s != [] {
      var rest := SortBy(s[1..], le);
      SortPermutes(s[1..], le);
      InsertSorts(rest, s[0], le);
      assert s == [s[0]] + s[1..];
    }
  }

  predicate BySize(a: Path, b: Path) { |a.rows| >= |b.rows| }

  predicate ByStart(a: Path, b: Path) { a.startId <= b.startId }

  predicate ByNode(a: Row, b: Row) { a.node <= b.node }

  predicate ByCost(a: Row, b: Row) { a.aggCost < b.aggCost || (a.aggCost == b.aggCost && a.node <= b.node) }

  // ---------- what is to stay ----------

  predicate OtherStart(a: Path, b: Path) { a.startId != b.startId }

  predicate OtherNode(a: Row, b: Row) { a.node != b.node }

  ghost predicate AllDistinct(paths: seq<Path>) {
    forall p :: p in paths ==> Apart(p.rows, OtherNode)
  }

  ghost predicate Beats(s: Row, r: Row) {
    s.node == r.node && s.aggCost < r.aggCost
  }

  /** No path reaches the node of `r` at less cost. */
  ghost predicate Cheapest(paths: seq<Path>, r: Row) {
    forall p, s :: p in paths && s in p.rows ==> !Beats(s, r)
  }

  /** No path with another start than `s` reaches the node of `r` at less cost. */
  ghost predicate Unrivalled(paths: seq<Path>, s: nat, r: Row) {
    forall p, x :: p in paths && p.startId != s && x in p.rows ==> !Beats(x, r)
  }

  /** No path with another start than `s` reaches the node of `r` at less cost, and at least cost over all paths. */
  ghost predicate Bearable(paths: seq<Path>, s: nat, r: Row) {
    forall p, x :: p in paths && p.startId != s && x in p.rows && Cheapest(paths, x) ==> !Beats(x, r)
  }

  /** `q` is `p` with rows that are bearable, all the unrivalled ones among them, in order of cost and then node. */
  ghost predicate Filtered(paths: seq<Path>, p: Path, q: Path) {
    && q == p.(rows := q.rows)
    && (forall r :: r in q.rows ==> r in p.rows && Bearable(paths, p.startId, r))
    && (forall r :: r in p.rows && Unrivalled(paths, p.startId, r) ==> r in q.rows)
    && Apart(q.rows, OtherNode) && Ordered(q.rows, ByCost)
  }

  // ---------- erasing ----------

  /** The first row whose node is not below `node`. */
  method LowerBound(rows: seq<Row>, node: nat) returns (pos: nat)
    requires Ordered(rows, ByNode)
    ensures pos <= |rows|
    ensures forall i :: 0 <= i < pos ==> rows[i].node < node
    ensures forall i :: pos <= i < |rows| ==> node <= rows[i].node
  {
    pos := 0;
    var end := |rows|;
    while pos < end
      invariant pos <= end <= |rows|
      invariant forall i :: 0 <= i < pos ==> rows[i].node < node
      invariant forall i :: end <= i < |rows| ==> node <= rows[i].node
    {
      var mid := (pos + end) / 2;
      assert forall i :: 0 <= i < mid ==> ByNode(rows[i], rows[mid]);
      assert forall i :: mid < i < |rows| ==> ByNode(rows[mid], rows[i]);
      if rows[mid].node < node {
        pos := mid + 1;
      } else {
        end := mid;
      }
    }
  }

  ghost predicate Tidy(p: Path) {
    Ordered(p.rows, ByNode) && Apart(p.rows, OtherNode)
  }

  /** Nothing beats `r` among the first `j` paths, nor among the first `m` rows of path `j`, as far as they have another
      start than path `i`. */
  ghost predicate Unbeaten(paths: seq<Path>, i: nat, j: nat, m: nat, r: Row)
    requires i < |paths|
  {
    && (forall k, s ::
          0 <= k < j && k < |paths| && OtherStart(paths[k], paths[i]) && s in paths[k].rows ==> !Beats(s, r))
    && (j < |paths| && OtherStart(paths[j], paths[i]) && m <= |paths[j].rows| ==>
          forall s :: s in paths[j].rows[..m] ==> !Beats(s, r))
  }

  ghost predicate Left(paths: seq<Path>, i: nat, j: nat, m: nat, p: Path)
    requires i < |paths|
  {
    && p == paths[i].(rows := p.rows) && Tidy(p)
    && forall r :: r in p.rows <==> r in paths[i].rows && Unbeaten(paths, i, j, m, r)
  }

  lemma SameNodeSameRow(rows: seq<Row>, i: nat, j: nat)
    requires Apart(rows, OtherNode) && i < |rows| && j < |rows| && rows[i].node == rows[j].node
    ensures i == j
  {
    assert i < j ==> OtherNode(rows[i], rows[j]);
    assert j < i ==> OtherNode(rows[j], rows[i]);
  }

  function Without(rows: seq<Row>, pos: nat): seq<Row>
    requires pos < |rows|
  {
    rows[..pos] + rows[pos + 1..]
  }

  lemma WithoutMembers(rows: seq<Row>, pos: nat, r: Row)
    requires pos < |rows| && Apart(rows, OtherNode)
    ensures r in Without(rows, pos) <==> r in rows && r != rows[pos]
    ensures r in rows && r.node == rows[pos].node ==> r == rows[pos]
  {
    if r in rows {
      var k :| 0 <= k < |rows| && rows[k] == r;
      if r.node == rows[pos].node {
        SameNodeSameRow(rows, k, pos);
      } else {
        assert r == if k < pos then Without(rows, pos)[k] else Without(rows, pos)[k - 1];
      }
    }
    if r in Without(rows, pos) {
      var k :| 0 <= k < |Without(rows, pos)| && Without(rows, pos)[k] == r;
      var k' := if k < pos then k else k + 1;
      assert r == rows[k'];
      assert k' < pos ==> OtherNode(rows[k'], rows[pos]);
      assert k' > pos ==> OtherNode(rows[pos], rows[k']);
    }
  }

  lemma EraseRow(paths: seq<Path>, i: nat, j: nat, m: nat, p: Path, pos: nat)
    requires i < |paths| && j < |paths| && OtherStart(paths[j], paths[i]) && m < |paths[j].rows|
    requires Left(paths, i, j, m, p)
    requires pos < |p.rows| && Beats(paths[j].rows[m], p.rows[pos])
    ensures Left(paths, i, j, m + 1, p.(rows := Without(p.rows, pos)))
  {
    var q := p.(rows := Without(p.rows, pos));
    assert Tidy(q);
    hide Unbeaten, Ordered;
    forall r ensures r in q.rows <==> r in paths[i].rows && Unbeaten(paths, i, j, m + 1, r) {
      UnbeatenNext(paths, i, j, m, r);
      WithoutMembers(p.rows, pos, r);
    }
  }

  lemma UnbeatenNext(paths: seq<Path>, i: nat, j: nat, m: nat, r: Row)
    requires i < |paths| && j < |paths| && OtherStart(paths[j], paths[i]) && m < |paths[j].rows|
    ensures Unbeaten(paths, i, j, m + 1, r) <==> Unbeaten(paths, i, j, m, r) && !Beats(paths[j].rows[m], r)
  {
    var stop := paths[j].rows[m];
    assert paths[j].rows[..m + 1] == paths[j].rows[..m] + [stop];
    assert stop in paths[j].rows[..m + 1];
  }

  /** With no row for the node, or none that is dearer, there is nothing to erase. */
  lemma KeepRows(paths: seq<Path>, i: nat, j: nat, m: nat, p: Path)
    requires i < |paths| && j < |paths| && OtherStart(paths[j], paths[i]) && m < |paths[j].rows|
    requires Left(paths, i, j, m, p) && forall r :: r in p.rows ==> !Beats(paths[j].rows[m], r)
    ensures Left(paths, i, j, m + 1, p)
  {
    forall r ensures r in p.rows <==> r in paths[i].rows && Unbeaten(paths, i, j, m + 1, r) {
      UnbeatenNext(paths, i, j, m, r);
    }
  }

  lemma NextPath(paths: seq<Path>, i: nat, j: nat, p: Path)
    requires i < |paths| && j < |paths|
    requires Left(paths, i, j, if OtherStart(paths[j], paths[i]) then |paths[j].rows| else 0, p)
    ensures Left(paths, i, j + 1, 0, p)
  {
    var m := if OtherStart(paths[j], paths[i]) then |paths[j].rows| else 0;
    forall r ensures Unbeaten(paths, i, j, m, r) <==> Unbeaten(paths, i, j + 1, 0, r) {
      assert paths[j].rows[..|paths[j].rows|] == paths[j].rows;
      if Unbeaten(paths, i, j + 1, 0, r) && OtherStart(paths[j], paths[i]) {
        assert forall s :: s in paths[j].rows ==> !Beats(s, r);
      }
    }
  }

  /** One round of the outer loop: erases from path `i` every row that a path with another start beats. */
  method EraseBeaten(paths: array<Path>, i: nat)
    requires i < paths.Length && Tidy(paths[i])
    modifies paths
    ensures paths[..] == old(paths[..])[i := paths[i]]
    ensures Left(old(paths[..]), i, paths.Length, 0, paths[i])
  {
    hide Left, Tidy, Ordered, Apart, Unbeaten;
    ghost var before := paths[..];
    LeftAll(before, i);
    for j := 0 to paths.Length
      invariant paths[..] == before[i := paths[i]]
      invariant Left(before, i, j, 0, paths[i])
    {
      LeftKeeps(before, i, j, 0, paths[i]);
      if paths[i].startId == paths[j].startId {
        NextPath(before, i, j, paths[i]);
        continue;
      }
      for m := 0 to |paths[j].rows|
        invariant paths[..] == before[i := paths[i]]
        invariant Left(before, i, j, m, paths[i])
      {
        var stop, p1 := paths[j].rows[m], paths[i];
        LeftKeeps(before, i, j, m, p1);
        var pos := LowerBound(p1.rows, stop.node);
        if pos != |p1.rows| && stop.node == p1.rows[pos].node && stop.aggCost < p1.rows[pos].aggCost {
          EraseRow(before, i, j, m, p1, pos);
          paths[i] := p1.(rows := Without(p1.rows, pos));
        } else {
          NoneBeaten(p1, pos, stop);
          KeepRows(before, i, j, m, p1);
        }
      }
      NextPath(before, i, j, paths[i]);
    }
  }

  lemma NoneBeaten(p: Path, pos: nat, stop: Row)
    requires Tidy(p) && pos <= |p.rows|
    requires forall i :: 0 <= i < pos ==> p.rows[i].node < stop.node
    requires forall i :: pos <= i < |p.rows| ==> stop.node <= p.rows[i].node
    requires pos == |p.rows| || !Beats(stop, p.rows[pos])
    ensures forall r :: r in p.rows ==> !Beats(stop, r)
  {
    forall k | 0 <= k < |p.rows| ensures !Beats(stop, p.rows[k]) {
      if k > pos {
        assert ByNode(p.rows[pos], p.rows[k]) && OtherNode(p.rows[pos], p.rows[k]);
      }
    }
  }

  lemma LeftAll(paths: seq<Path>, i: nat)
    requires i < |paths| && Tidy(paths[i])
    ensures Left(paths, i, 0, 0, paths[i])
  {
  }

  lemma LeftKeeps(paths: seq<Path>, i: nat, j: nat, m: nat, p: Path)
    requires i < |paths| && Left(paths, i, j, m, p)
    ensures p.startId == paths[i].startId && Tidy(p) && Ordered(p.rows, ByNode)
  {
  }

  // ---------- the whole function ----------

  /** `q` is `p` with rows that are bearable, all the unrivalled ones among them, in order of their nodes. */
  ghost predicate Trimmed(paths: seq<Path>, p: Path, q: Path) {
    && q == p.(rows := q.rows) && Tidy(q)
    && (forall r :: r in q.rows ==> r in p.rows && Bearable(paths, p.startId, r))
    && (forall r :: r in p.rows && Unrivalled(paths, p.startId, r) ==> r in q.rows)
  }

  /** The paths before `i` are trimmed; the others are untouched. */
  ghost predicate TrimmedTo(paths: seq<Path>, now: seq<Path>, i: nat) {
    && |now| == |paths|
    && (forall k :: 0 <= k < |paths| && k < i ==> Trimmed(paths, paths[k], now[k]))
    && (forall k :: 0 <= k < |paths| && i <= k ==> now[k] == paths[k])
  }

  /** A row that is beaten is beaten by a row that no other beats. */
  lemma {:induction false} CheapestBeats(paths: seq<Path>, r: Row) returns (k: nat, s: Row)
    requires !Cheapest(paths, r)
    ensures k < |paths| && s in paths[k].rows && Beats(s, r) && Cheapest(paths, s)
    decreases r.aggCost
  {
    var p, x :| p in paths && x in p.rows && Beats(x, r);
    k :| 0 <= k < |paths| && paths[k] == p;
    s := x;
    if !Cheapest(paths, x) {
      k, s := CheapestBeats(paths, x);
    }
  }

  /** A row that is not beaten by what is left of the paths trimmed before is bearable, because a cheapest row is never
      erased; and an unrivalled row is not beaten. */
  lemma UnbeatenIsBearable(paths: seq<Path>, now: seq<Path>, i: nat, r: Row)
    requires TrimmedTo(paths, now, i) && i < |paths|
    ensures Unbeaten(now, i, |paths|, 0, r) ==> Bearable(paths, paths[i].startId, r)
    ensures Unrivalled(paths, paths[i].startId, r) ==> Unbeaten(now, i, |paths|, 0, r)
  {
    hide Tidy;
    if Unbeaten(now, i, |paths|, 0, r) {
      forall p, x | p in paths && p.startId != paths[i].startId && x in p.rows && Cheapest(paths, x)
        ensures !Beats(x, r)
      {
        var k :| 0 <= k < |paths| && paths[k] == p;
        assert Unrivalled(paths, p.startId, x);
        assert x in now[k].rows && OtherStart(now[k], now[i]);
      }
    }
    if Unrivalled(paths, paths[i].startId, r) {
      forall k, x | 0 <= k < |paths| && OtherStart(now[k], now[i]) && x in now[k].rows ensures !Beats(x, r) {
        assert paths[k] in paths && x in paths[k].rows;
      }
    }
  }

  lemma TrimNext(paths: seq<Path>, now: seq<Path>, i: nat, q: Path)
    requires TrimmedTo(paths, now, i) && i < |paths|
    requires Left(now, i, |paths|, 0, q)
    ensures TrimmedTo(paths, now[i := q], i + 1)
  {
    hide Unbeaten, Bearable, Unrivalled, Tidy;
    forall r | r in paths[i].rows
      ensures r in q.rows ==> Bearable(paths, paths[i].startId, r)
      ensures Unrivalled(paths, paths[i].startId, r) ==> r in q.rows
    {
      UnbeatenIsBearable(paths, now, i, r);
    }
  }

  lemma NoOwnRival(rows: seq<Row>, r: Row)
    requires Apart(rows, OtherNode) && r in rows
    ensures forall s :: s in rows ==> !Beats(s, r)
  {
    var a :| 0 <= a < |rows| && rows[a] == r;
    forall s | s in rows ensures !Beats(s, r) {
      var b :| 0 <= b < |rows| && rows[b] == s;
      if s.node == r.node {
        SameNodeSameRow(rows, a, b);
      }
    }
  }

  /** With different starts and nodes, the unrivalled rows and the bearable rows both are the cheapest ones. */
  lemma OnlyCheapest(paths: seq<Path>, p: Path, r: Row)
    requires Apart(paths, OtherStart) && AllDistinct(paths) && p in paths && r in p.rows
    ensures Unrivalled(paths, p.startId, r) <==> Cheapest(paths, r)
    ensures Bearable(paths, p.startId, r) <==> Cheapest(paths, r)
  {
    if !Cheapest(paths, r) {
      var k, s := CheapestBeats(paths, r);
      var i :| 0 <= i < |paths| && paths[i] == p;
      NoOwnRival(p.rows, r);
      assert k != i;
      assert if k < i then OtherStart(paths[k], paths[i]) else OtherStart(paths[i], paths[k]);
      assert paths[k] in paths;
    }
  }

  /** So every path keeps exactly its cheapest rows. */
  lemma KeepsCheapest(paths: seq<Path>, p: Path, q: Path)
    requires Apart(paths, OtherStart) && AllDistinct(paths) && p in paths && Filtered(paths, p, q)
    ensures forall r :: r in q.rows <==> r in p.rows && Cheapest(paths, r)
  {
    hide Cheapest, Bearable, Unrivalled;
    forall r | r in p.rows ensures r in q.rows <==> Cheapest(paths, r) {
      OnlyCheapest(paths, p, r);
    }
  }

  /** Two paths with the same start: the dearer row stays, for the two are never compared. */
  lemma SameStartStays(q: Path)
    requires Filtered([Path(1, 1, [Row(7, -1, 0, 1)], 1), Path(1, 1, [Row(7, -1, 0, 5)], 5)],
                      Path(1, 1, [Row(7, -1, 0, 5)], 5), q)
    ensures Row(7, -1, 0, 5) in q.rows
    ensures !Cheapest([Path(1, 1, [Row(7, -1, 0, 1)], 1), Path(1, 1, [Row(7, -1, 0, 5)], 5)], Row(7, -1, 0, 5))
  {
    var cheap, dear := Path(1, 1, [Row(7, -1, 0, 1)], 1), Path(1, 1, [Row(7, -1, 0, 5)], 5);
    assert dear.rows[0] in dear.rows && cheap.rows[0] in cheap.rows;
    assert cheap in [cheap, dear];
    assert Beats(cheap.rows[0], dear.rows[0]);
  }

  method SortPaths(paths: array<Path>, le: (Path, Path) -> bool)
    modifies paths
    requires Total(le)
    ensures paths[..] == SortBy(old(paths[..]), le)
  {
    var sorted := SortBy(paths[..], le);
    SortLength(paths[..], le);
    for i := 0 to paths.Length
      invariant paths[..i] == sorted[..i]
    {
      paths[i] := sorted[i];
      assert paths[..i + 1] == paths[..i] + [paths[i]];
    }
    assert paths[..] == paths[..paths.Length];
  }

  lemma {:induction false} SortLength<T>(s: seq<T>, le: (T, T) -> bool)
    ensures |SortBy(s, le)| == |s|
  {
    if s != [] {
      SortLength(s[1..], le);
      InsertLength(SortBy(s[1..], le), s[0], le);
    }
  }

  lemma {:induction false} InsertLength<T>(s: seq<T>, x: T, le: (T, T) -> bool)
    ensures |Insert(s, x, le)| == |s| + 1
  {
    if s != [] && !le(x, s[0]) {
      InsertLength(s[1..], x, le);
    }
  }

  /** Sorts the rows of every path. */
  method SortRows(paths: array<Path>, le: (Row, Row) -> bool)
    requires Total(le) && AllDistinct(paths[..])
    modifies paths
    ensures Resorted(old(paths[..]), paths[..], le)
  {
    ghost var before := paths[..];
    for i := 0 to paths.Length
      invariant forall k :: i <= k < paths.Length ==> paths[k] == before[k]
      invariant forall k :: 0 <= k < i ==> ResortedOne(before[k], paths[k], le)
    {
      SortSorts(paths[i].rows, le, OtherNode);
      paths[i] := paths[i].(rows := SortBy(paths[i].rows, le));
    }
  }

  ghost predicate ResortedOne(p: Path, q: Path, le: (Row, Row) -> bool) {
    && q == p.(rows := q.rows) && Ordered(q.rows, le) && Apart(q.rows, OtherNode)
    && forall r :: r in q.rows <==> r in p.rows
  }

  ghost predicate Resorted(paths: seq<Path>, now: seq<Path>, le: (Row, Row) -> bool) {
    |now| == |paths| && forall k :: 0 <= k < |paths| ==> ResortedOne(paths[k], now[k], le)
  }

  lemma SameMembers(a: seq<Path>, b: seq<Path>)
    requires multiset(a) == multiset(b)
    ensures |a| == |b| && forall p :: p in a <==> p in b
  {
    assert |multiset(a)| == |multiset(b)|;
    forall p ensures p in a <==> p in b {
      assert p in a <==> p in multiset(a);
      assert p in b <==> p in multiset(b);
    }
  }

  /** When path `k` is compared, a path with another start reaches the node of `r` at less cost: a path before it by
      what that had left, a path after it by any of its rows. */
  ghost predicate Outdone(before: seq<Path>, after: seq<Path>, k: nat, r: Row)
    requires k < |before| == |after|
  {
    exists j, s :: 0 <= j < |before| && before[j].startId != before[k].startId &&
      s in (if j < k then after[j] else before[j]).rows && s.node == r.node && s.aggCost < r.aggCost
  }

  /** Path `k` lost exactly the rows in which it was outdone. */
  ghost predicate ComparedAt(before: seq<Path>, after: seq<Path>, k: nat)
    requires k < |before| == |after|
  {
    && after[k] == before[k].(rows := after[k].rows)
    && forall r :: r in after[k].rows <==> r in before[k].rows && !Outdone(before, after, k, r)
  }

  /** The paths were compared from the largest to the smallest. */
  ghost predicate ComparedInTurn(before: seq<Path>, after: seq<Path>) {
    && |before| == |after|
    && (forall i, j :: 0 <= i < j < |before| ==> |before[i].rows| >= |before[j].rows|)
    && forall k :: 0 <= k < |before| ==> ComparedAt(before, after, k)
  }

  /** The same path, its rows by cost and then node. */
  ghost predicate ByCostThenNode(p: Path, q: Path) {
    && q == p.(rows := q.rows) && (forall r :: r in q.rows <==> r in p.rows)
    && forall i, j :: 0 <= i < j < |q.rows| ==>
         q.rows[i].aggCost < q.rows[j].aggCost ||
         (q.rows[i].aggCost == q.rows[j].aggCost && q.rows[i].node < q.rows[j].node)
  }

  /** The paths by their starts, each in its order of cost. */
  ghost predicate Arranged(after: seq<Path>, now: seq<Path>) {
    && (forall i, j :: 0 <= i < j < |now| ==> now[i].startId <= now[j].startId)
    && exists mid: seq<Path> :: multiset(mid) == multiset(after) && |mid| == |now| &&
         forall k :: 0 <= k < |now| ==> ByCostThenNode(mid[k], now[k])
  }

  /** What `equi_cost` makes of the paths: one filtered path for each, in order of their starts. */
  ghost predicate EquiCosted(paths: seq<Path>, now: seq<Path>) {
    && Ordered(now, ByStart)
    && exists before: seq<Path> :: multiset(before) == multiset(paths) && AllFiltered(paths, before, now)
  }

  ghost predicate AllFiltered(paths: seq<Path>, before: seq<Path>, now: seq<Path>) {
    |before| == |now| && forall k :: 0 <= k < |now| ==> Filtered(paths, before[k], now[k])
  }

  lemma OrdersAreTotal()
    ensures Total(BySize) && Total(ByStart) && Total(ByNode) && Total(ByCost)
  {
  }

  lemma DistinctStay(paths: seq<Path>, now: seq<Path>)
    requires multiset(paths) == multiset(now) && AllDistinct(paths)
    ensures AllDistinct(now)
  {
    SameMembers(paths, now);
  }

  lemma TrimStart(paths: seq<Path>)
    ensures TrimmedTo(paths, paths, 0)
  {
  }

  lemma TrimmedTidy(s1: seq<Path>, s2: seq<Path>, now: seq<Path>, i: nat)
    requires Resorted(s1, s2, ByNode) && TrimmedTo(s2, now, i) && i < |s2|
    ensures |now| == |s2| && Tidy(now[i]) && Tidy(s2[i])
  {
    assert ResortedOne(s1[i], s2[i], ByNode);
  }

  lemma TrimmedDistinct(paths: seq<Path>, now: seq<Path>)
    requires TrimmedTo(paths, now, |now|)
    ensures AllDistinct(now)
  {
    forall p | p in now ensures Apart(p.rows, OtherNode) {
      var k :| 0 <= k < |now| && now[k] == p;
      assert Trimmed(paths, paths[k], now[k]);
    }
  }

  /** Whether a row is cheapest, unrivalled or bearable does not depend on the order of paths and rows. */
  lemma CheapestSame(s1: seq<Path>, s2: seq<Path>, r: Row)
    requires Resorted(s1, s2, ByNode)
    ensures Cheapest(s1, r) <==> Cheapest(s2, r)
  {
    forall p, x | p in s1 && x in p.rows && Beats(x, r) ensures !Cheapest(s2, r) {
      var k := Sorted(s1, s2, p);
      assert s2[k] in s2 && x in s2[k].rows;
    }
    forall p, x | p in s2 && x in p.rows && Beats(x, r) ensures !Cheapest(s1, r) {
      var k :| 0 <= k < |s2| && s2[k] == p;
      assert ResortedOne(s1[k], s2[k], ByNode);
      assert s1[k] in s1 && x in s1[k].rows;
    }
  }

  lemma Sorted(s1: seq<Path>, s2: seq<Path>, p: Path) returns (k: nat)
    requires Resorted(s1, s2, ByNode) && p in s1
    ensures k < |s1| == |s2| && s1[k] == p && ResortedOne(p, s2[k], ByNode)
  {
    k :| 0 <= k < |s1| && s1[k] == p;
  }

  lemma RivalsSame(s1: seq<Path>, s2: seq<Path>, s: nat, r: Row)
    requires Resorted(s1, s2, ByNode)
    ensures Unrivalled(s1, s, r) ==> Unrivalled(s2, s, r)
    ensures Bearable(s2, s, r) ==> Bearable(s1, s, r)
  {
    hide Cheapest;
    if Unrivalled(s1, s, r) {
      forall p, x | p in s2 && p.startId != s && x in p.rows ensures !Beats(x, r) {
        var k :| 0 <= k < |s2| && s2[k] == p;
        assert ResortedOne(s1[k], s2[k], ByNode);
        assert s1[k] in s1 && x in s1[k].rows;
      }
    }
    if Bearable(s2, s, r) {
      forall p, x | p in s1 && p.startId != s && x in p.rows && Cheapest(s1, x) ensures !Beats(x, r) {
        var k := Sorted(s1, s2, p);
        CheapestSame(s1, s2, x);
        assert s2[k] in s2 && x in s2[k].rows;
      }
    }
  }

  /** The same for paths that are the same in another order. */
  lemma MembersSame(s0: seq<Path>, s1: seq<Path>, s: nat, r: Row)
    requires forall p :: p in s0 <==> p in s1
    ensures Unrivalled(s0, s, r) <==> Unrivalled(s1, s, r)
    ensures Bearable(s0, s, r) <==> Bearable(s1, s, r)
  {
    forall x ensures Cheapest(s0, x) <==> Cheapest(s1, x) {
    }
    hide Cheapest;
  }

  lemma FilteredAt(s0: seq<Path>, s1: seq<Path>, s2: seq<Path>, s3: seq<Path>, i: nat, q: Path)
    requires (forall p :: p in s0 <==> p in s1) && Resorted(s1, s2, ByNode) && TrimmedTo(s2, s3, |s3|)
    requires i < |s1| && ResortedOne(s3[i], q, ByCost)
    ensures Filtered(s0, s1[i], q)
  {
    var p := s1[i];
    assert ResortedOne(p, s2[i], ByNode) && Trimmed(s2, s2[i], s3[i]);
    hide Bearable, Unrivalled, Tidy;
    forall r ensures Unrivalled(s0, p.startId, r) ==> Unrivalled(s2, p.startId, r)
             ensures Bearable(s2, p.startId, r) ==> Bearable(s0, p.startId, r)
    {
      RivalsSame(s1, s2, p.startId, r);
      MembersSame(s0, s1, p.startId, r);
    }
  }

  function Dropped(a: seq<Path>, j: nat): seq<Path>
    requires j < |a|
  {
    a[..j] + a[j + 1..]
  }

  /** Some place holds `x` in `a` and `y` in `b`. */
  ghost predicate Together(a: seq<Path>, b: seq<Path>, x: Path, y: Path) {
    exists i :: 0 <= i < |a| && i < |b| && a[i] == x && b[i] == y
  }

  lemma DroppedTogether(a: seq<Path>, b: seq<Path>, j: nat, x: Path, y: Path)
    requires j < |a| == |b| && Together(Dropped(a, j), Dropped(b, j), x, y)
    ensures Together(a, b, x, y)
  {
    var i :| 0 <= i < |a| - 1 && Dropped(a, j)[i] == x && Dropped(b, j)[i] == y;
    var i' := if i < j then i else i + 1;
    assert a[i'] == x && b[i'] == y;
  }

  /** If `d` is `b` in another order, then `a` in that order goes with it. */
  lemma {:induction false} PairUp(a: seq<Path>, b: seq<Path>, d: seq<Path>) returns (c: seq<Path>)
    requires |a| == |b| && multiset(b) == multiset(d)
    ensures multiset(c) == multiset(a) && |c| == |d|
    ensures forall k :: 0 <= k < |d| ==> Together(a, b, c[k], d[k])
    decreases |d|
  {
    hide Dropped, Together;
    SameMembers(b, d);
    if d == [] {
      c := [];
    } else {
      var j := PlaceOf(b, d[0]);
      RestOf(b, d, j);
      TakenOut(a, j);
      TakenOut(b, j);
      var c' := PairUp(Dropped(a, j), Dropped(b, j), d[1..]);
      c := [a[j]] + c';
      PutBack(a, j, c');
      TogetherAt(a, b, j);
      forall k | 0 <= k < |d| ensures Together(a, b, c[k], d[k]) {
        if k > 0 {
          assert Together(Dropped(a, j), Dropped(b, j), c'[k - 1], d[1..][k - 1]);
          DroppedTogether(a, b, j, c[k], d[k]);
        }
      }
    }
  }

  lemma PlaceOf(b: seq<Path>, p: Path) returns (j: nat)
    requires p in b
    ensures j < |b| && b[j] == p
  {
    j :| 0 <= j < |b| && b[j] == p;
  }

  lemma TogetherAt(a: seq<Path>, b: seq<Path>, j: nat)
    requires j < |a| == |b|
    ensures Together(a, b, a[j], b[j])
  {
  }

  lemma TakenOut(a: seq<Path>, j: nat)
    requires j < |a|
    ensures |Dropped(a, j)| == |a| - 1 && multiset(Dropped(a, j)) + multiset{a[j]} == multiset(a)
  {
    assert a == a[..j] + [a[j]] + a[j + 1..];
  }

  lemma RestOf(b: seq<Path>, d: seq<Path>, j: nat)
    requires j < |b| && d != [] && d[0] == b[j] && multiset(b) == multiset(d)
    ensures multiset(Dropped(b, j)) == multiset(d[1..])
  {
    TakenOut(b, j);
    assert d == [d[0]] + d[1..];
    assert multiset(d[1..]) + multiset{d[0]} == multiset(d);
    hide Dropped;
    assert multiset(Dropped(b, j)) == multiset(b) - multiset{b[j]};
    assert multiset(d[1..]) == multiset(d) - multiset{d[0]};
  }

  lemma PutBack(a: seq<Path>, j: nat, c: seq<Path>)
    requires j < |a| && multiset(c) == multiset(Dropped(a, j))
    ensures multiset([a[j]] + c) == multiset(a)
  {
    TakenOut(a, j);
    hide Dropped;
  }

  lemma AllTogether(s0: seq<Path>, s1: seq<Path>, s2: seq<Path>, s3: seq<Path>, s4: seq<Path>, s5: seq<Path>)
    requires multiset(s0) == multiset(s1) && Resorted(s1, s2, ByNode) && TrimmedTo(s2, s3, |s3|)
    requires multiset(s3) == multiset(s4) && Ordered(s4, ByStart) && Resorted(s4, s5, ByCost)
    ensures EquiCosted(s0, s5)
  {
    hide Filtered, TrimmedTo;
    assert |s3| == |s2| by {
      TrimmedLength(s2, s3);
    }
    SameMembers(s0, s1);
    var before := PairUp(s1, s3, s4);
    forall i, j | 0 <= i < j < |s5| ensures ByStart(s5[i], s5[j]) {
      assert ResortedOne(s4[i], s5[i], ByCost) && ResortedOne(s4[j], s5[j], ByCost) && ByStart(s4[i], s4[j]);
    }
    forall k | 0 <= k < |s5| ensures Filtered(s0, before[k], s5[k]) {
      assert Together(s1, s3, before[k], s4[k]);
      var i :| 0 <= i < |s1| && s1[i] == before[k] && s3[i] == s4[k];
      assert ResortedOne(s4[k], s5[k], ByCost);
      FilteredAt(s0, s1, s2, s3, i, s5[k]);
    }
    assert AllFiltered(s0, before, s5);
  }

  lemma TrimmedLength(paths: seq<Path>, now: seq<Path>)
    requires TrimmedTo(paths, now, |now|)
    ensures |now| == |paths|
  {
  }

  /** The paths before `i` have been compared; the others are as they were. */
  ghost predicate ComparedTo(before: seq<Path>, now: seq<Path>, i: nat) {
    && |now| == |before|
    && (forall k :: 0 <= k < i && k < |before| ==> ComparedAt(before, now, k))
    && forall k :: i <= k < |before| ==> now[k] == before[k]
  }

  lemma CompareStart(paths: seq<Path>)
    ensures ComparedTo(paths, paths, 0)
  {
  }

  lemma CompareNext(before: seq<Path>, now: seq<Path>, i: nat, q: Path)
    requires ComparedTo(before, now, i) && i < |before| && Left(now, i, |now|, 0, q)
    ensures ComparedTo(before, now[i := q], i + 1)
  {
    hide Tidy, Outdone, Unbeaten;
    var next := now[i := q];
    forall k | 0 <= k < |before| ensures now[k].startId == before[k].startId {
      assert k < i ==> ComparedAt(before, now, k);
    }
    forall k | 0 <= k < i ensures ComparedAt(before, next, k) {
      assert ComparedAt(before, now, k);
      ComparedStays(before, now, next, k);
    }
    forall r ensures Unbeaten(now, i, |now|, 0, r) <==> !Outdone(before, next, i, r) {
      UnbeatenMeans(before, now, next, i, r);
    }
  }

  lemma UnbeatenMeans(before: seq<Path>, now: seq<Path>, next: seq<Path>, i: nat, r: Row)
    requires i < |before| == |now| == |next|
    requires forall j :: 0 <= j < |before| ==> now[j].startId == before[j].startId
    requires forall j :: 0 <= j < |before| ==> now[j] == if j < i then next[j] else before[j]
    ensures Unbeaten(now, i, |now|, 0, r) <==> !Outdone(before, next, i, r)
  {
    if !Unbeaten(now, i, |now|, 0, r) {
      var k, s :| 0 <= k < |now| && OtherStart(now[k], now[i]) && s in now[k].rows && Beats(s, r);
      assert s in (if k < i then next[k] else before[k]).rows;
    }
    if Outdone(before, next, i, r) {
      var j, s :| 0 <= j < |before| && before[j].startId != before[i].startId &&
        s in (if j < i then next[j] else before[j]).rows && s.node == r.node && s.aggCost < r.aggCost;
      assert OtherStart(now[j], now[i]) && s in now[j].rows && Beats(s, r);
    }
  }

  lemma ComparedStays(before: seq<Path>, now: seq<Path>, next: seq<Path>, k: nat)
    requires k < |before| == |now| == |next| && ComparedAt(before, now, k)
    requires forall j :: 0 <= j <= k ==> next[j] == now[j]
    ensures ComparedAt(before, next, k)
  {
  }

  /** In which order the rows stood before the comparison does not matter. */
  lemma ComparedUnsorted(s1: seq<Path>, s2: seq<Path>, s3: seq<Path>)
    requires Resorted(s1, s2, ByNode) && Ordered(s1, BySize) && ComparedTo(s2, s3, |s2|)
    ensures ComparedInTurn(s1, s3)
  {
    forall i, j | 0 <= i < j < |s1| ensures |s1[i].rows| >= |s1[j].rows| {
      assert BySize(s1[i], s1[j]);
    }
    assert forall k :: 0 <= k < |s1| ==>
      s2[k] == s1[k].(rows := s2[k].rows) && forall r :: r in s2[k].rows <==> r in s1[k].rows by {
      assert forall k :: 0 <= k < |s1| ==> ResortedOne(s1[k], s2[k], ByNode);
    }
    forall k | 0 <= k < |s1| ensures ComparedAt(s1, s3, k) {
      assert ComparedAt(s2, s3, k);
    }
  }

  lemma Arrange(s3: seq<Path>, s4: seq<Path>, s5: seq<Path>)
    requires multiset(s3) == multiset(s4) && Ordered(s4, ByStart) && Resorted(s4, s5, ByCost)
    ensures Arranged(s3, s5)
  {
    forall i, j | 0 <= i < j < |s5| ensures s5[i].startId <= s5[j].startId {
      assert ResortedOne(s4[i], s5[i], ByCost) && ResortedOne(s4[j], s5[j], ByCost) && ByStart(s4[i], s4[j]);
    }
    forall k | 0 <= k < |s5| ensures ByCostThenNode(s4[k], s5[k]) {
      var q := s5[k];
      assert ResortedOne(s4[k], q, ByCost);
      forall i, j | 0 <= i < j < |q.rows|
        ensures q.rows[i].aggCost < q.rows[j].aggCost ||
          (q.rows[i].aggCost == q.rows[j].aggCost && q.rows[i].node < q.rows[j].node)
      {
        assert ByCost(q.rows[i], q.rows[j]) && OtherNode(q.rows[i], q.rows[j]);
      }
    }
  }

  method EquiCost(paths: array<Path>)
    requires AllDistinct(paths[..])
    modifies paths
    ensures EquiCosted(old(paths[..]), paths[..])
    ensures exists before, after: seq<Path> ::
      multiset(before) == multiset(old(paths[..])) && ComparedInTurn(before, after) && Arranged(after, paths[..])
  {
    hide *;
    OrdersAreTotal();
    ghost var s0 := paths[..];
    SortPaths(paths, BySize);
    SortPermutes(s0, BySize);
    ghost var s1 := paths[..];
    DistinctStay(s0, s1);
    SortRows(paths, ByNode);
    ghost var s2 := paths[..];
    TrimStart(s2);
    CompareStart(s2);
    for i := 0 to paths.Length
      invariant TrimmedTo(s2, paths[..], i) && ComparedTo(s2, paths[..], i)
    {
      ghost var now := paths[..];
      TrimmedTidy(s1, s2, now, i);
      EraseBeaten(paths, i);
      TrimNext(s2, now, i, paths[i]);
      CompareNext(s2, now, i, paths[i]);
    }
    ghost var s3 := paths[..];
    SortPaths(paths, ByStart);
    SortPermutes(s3, ByStart);
    TrimmedDistinct(s2, s3);
    ghost var s4 := paths[..];
    DistinctStay(s3, s4);
    SortRows(paths, ByCost);
    AllTogether(s0, s1, s2, s3, s4, paths[..]);
    ComparedUnsorted(s1, s2, s3);
    Arrange(s3, s4, paths[..]);
  }
}
