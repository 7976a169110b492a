/** Which of several shortest join paths the search answers with. */
module JoinOrder {
  import opened Graph
  import opened JoinSearch

  /** Rows are dictionaries. */
  ghost predicate DistinctRows(g: JoinGraph) {
    forall t, i, j :: t in g && 0 <= i < j < |g[t]| ==> g[t][i].neighbor != g[t][j].neighbor
  }

  /** Where a row first names a table. */
  function Place(row: Row, t: Table): nat {
    if row == [] || row[0].neighbor == t then 0 else 1 + Place(row[1..], t)
  }

  function PlaceOf(g: JoinGraph, h: Hop): nat {
    Place(Neighbors(g, h.left), h.right)
  }

  /** Up to the `i`-th hop the paths are one, and there `p` takes the neighbour named earlier. */
  ghost predicate TurnsFirst(g: JoinGraph, p: Path, q: Path, i: nat) {
    i < |p| && i < |q| && p[..i] == q[..i] && PlaceOf(g, p[i]) < PlaceOf(g, q[i])
  }

  /** Shorter, or as long and taking an earlier neighbour where the two part. */
  ghost predicate Before(g: JoinGraph, p: Path, q: Path) {
    |p| < |q| || (|p| == |q| && exists i: nat :: TurnsFirst(g, p, q, i))
  }

  ghost predicate AtMost(g: JoinGraph, p: Path, q: Path) {
    p == q || Before(g, p, q)
  }

  lemma BeforeTrans(g: JoinGraph, p: Path, q: Path, r: Path)
    requires Before(g, p, q) && AtMost(g, q, r)
    ensures Before(g, p, r)
  {
    if q != r && |p| == |q| == |r| {
      var i: nat :| TurnsFirst(g, p, q, i);
      var j: nat :| TurnsFirst(g, q, r, j);
      var k := if i < j then i else j;
      assert p[..k] == p[..i][..k] == q[..i][..k] == q[..k];
      assert q[..k] == q[..j][..k] == r[..j][..k] == r[..k];
      assert k < i ==> p[..i][k] == q[..i][k];
      assert k < j ==> q[..j][k] == r[..j][k];
      assert TurnsFirst(g, p, r, k);
    }
  }

  lemma ExtendKeeps(g: JoinGraph, p: Path, q: Path, h: Hop, k: Hop)
    requires |p| == |q| && Before(g, p, q)
    ensures Before(g, p + [h], q + [k])
  {
    var i: nat :| TurnsFirst(g, p, q, i);
    assert (p + [h])[..i] == p[..i] && (q + [k])[..i] == q[..i];
    assert TurnsFirst(g, p + [h], q + [k], i);
  }

  // --- The order of the queue ---

  ghost predicate Ordered(g: JoinGraph, q: seq<Entry>) {
    forall i, j :: 0 <= i < j < |q| ==> Before(g, q[i].path, q[j].path)
  }

  /** What every waiting entry was pushed from comes before all that waits. */
  ghost predicate ParentsPast(g: JoinGraph, q: seq<Entry>) {
    forall e, x :: e in q && x in q && e.path != [] ==> Before(g, e.path[..|e.path| - 1], x.path)
  }

  ghost predicate VisitedPast(g: JoinGraph, s: Search) {
    forall v, x :: v in s.first && x in s.queue ==> Before(g, s.first[v], x.path)
  }

  ghost predicate Sorted(g: JoinGraph, s: Search) {
    Ordered(g, s.queue) && ParentsPast(g, s.queue) && VisitedPast(g, s)
  }

  lemma {:induction false} PushedExtend(e: Entry, row: Row, visited: set<Table>, i: nat)
    requires i < |Pushed(e, row, visited)|
    ensures var x := Pushed(e, row, visited)[i];
            |x.path| == |e.path| + 1 && x.path[..|e.path|] == e.path && x.path[|e.path|].left == e.node
  {
    var n := |row| - 1;
    var init := Pushed(e, row[..n], visited);
    if i < |init| { PushedExtend(e, row[..n], visited, i); }
  }

  lemma {:induction false} PlaceIs(row: Row, i: nat)
    requires i < |row| && forall j :: 0 <= j < i ==> row[j].neighbor != row[i].neighbor
    ensures Place(row, row[i].neighbor) == i
  {
    if i > 0 { PlaceIs(row[1..], i - 1); }
  }

  ghost predicate DistinctRow(row: Row) {
    forall i, j :: 0 <= i < j < |row| ==> row[i].neighbor != row[j].neighbor
  }

  /** Entries are pushed in the order of the row. */
  lemma {:induction false} PushedInOrder(e: Entry, row: Row, n: nat, visited: set<Table>, i: nat, j: nat)
    requires DistinctRow(row) && n <= |row| && i < j < |Pushed(e, row[..n], visited)|
    ensures var pushed := Pushed(e, row[..n], visited);
            Place(row, pushed[i].node) < Place(row, pushed[j].node) < n
    decreases n
  {
    assert row[..n][..n - 1] == row[..n - 1];
    var init := Pushed(e, row[..n - 1], visited);
    if j < |init| {
      PushedInOrder(e, row, n - 1, visited, i, j);
    } else {
      PlaceIs(row, n - 1);
      PushedPlaced(e, row, n - 1, visited, i);
    }
  }

  lemma {:induction false} PushedPlaced(e: Entry, row: Row, n: nat, visited: set<Table>, i: nat)
    requires DistinctRow(row) && n <= |row| && i < |Pushed(e, row[..n], visited)|
    ensures Place(row, Pushed(e, row[..n], visited)[i].node) < n
    decreases n
  {
    assert row[..n][..n - 1] == row[..n - 1];
    var init := Pushed(e, row[..n - 1], visited);
    if i < |init| { PushedPlaced(e, row, n - 1, visited, i); } else { PlaceIs(row, n - 1); }
  }

  lemma {:induction false} PushedHop(e: Entry, row: Row, visited: set<Table>, i: nat)
    requires i < |Pushed(e, row, visited)|
    ensures var x := Pushed(e, row, visited)[i];
            |x.path| == |e.path| + 1 && x.path[|e.path|].right == x.node && x.path[|e.path|].left == e.node
  {
    var n := |row| - 1;
    var init := Pushed(e, row[..n], visited);
    if i < |init| { PushedHop(e, row[..n], visited, i); }
  }

  lemma PushedOrdered(g: JoinGraph, e: Entry, visited: set<Table>, i: nat, j: nat)
    requires DistinctRows(g) && i < j < |Pushed(e, Neighbors(g, e.node), visited)|
    ensures var pushed := Pushed(e, Neighbors(g, e.node), visited); Before(g, pushed[i].path, pushed[j].path)
  {
    var row := Neighbors(g, e.node);
    var pushed := Pushed(e, row, visited);
    PushedExtend(e, row, visited, i);
    PushedExtend(e, row, visited, j);
    PushedHop(e, row, visited, i);
    PushedHop(e, row, visited, j);
    assert row[..|row|] == row;
    PushedInOrder(e, row, |row|, visited, i, j);
    assert TurnsFirst(g, pushed[i].path, pushed[j].path, |e.path|);
  }

  /** What waited before the head was expanded comes before what that pushes. */
  lemma OldBeforePushed(g: JoinGraph, s: Search, e: Entry, x: Entry)
    requires s.queue != [] && Sorted(g, s) && Levelled(s.queue) && e in s.queue
    requires |x.path| == |s.queue[0].path| + 1 && x.path[..|s.queue[0].path|] == s.queue[0].path
    ensures Before(g, e.path, x.path)
  {
    var head := s.queue[0];
    assert |e.path| <= |head.path| + 1;
    if |e.path| == |x.path| {
      var p, n := e.path, |head.path|;
      ExtendKeeps(g, p[..n], head.path, p[n], x.path[n]);
      assert p == p[..n] + [p[n]] && x.path == head.path + [x.path[n]];
    }
  }

  /** After a step what waited behind the head comes first, and then what the head pushes. */
  lemma StepPlaces(g: JoinGraph, s: Search, i: nat)
    requires s.queue != [] && i < |Step(g, s).queue|
    ensures i < |s.queue| - 1 ==> Step(g, s).queue[i] == s.queue[i + 1]
    ensures i >= |s.queue| - 1 ==>
              var pushed := Pushed(s.queue[0], Neighbors(g, s.queue[0].node), Step(g, s).first.Keys);
              i - (|s.queue| - 1) < |pushed| && Step(g, s).queue[i] == pushed[i - (|s.queue| - 1)]
  {
  }

  lemma PushedFromHead(g: JoinGraph, s: Search, i: nat)
    requires s.queue != [] && |s.queue| - 1 <= i < |Step(g, s).queue|
    ensures var x, head := Step(g, s).queue[i], s.queue[0];
            |x.path| == |head.path| + 1 && x.path[..|head.path|] == head.path
  {
    StepPlaces(g, s, i);
    PushedExtend(s.queue[0], Neighbors(g, s.queue[0].node), Step(g, s).first.Keys, i - (|s.queue| - 1));
  }

  lemma StepOrdered(g: JoinGraph, s: Search, i: nat, j: nat)
    requires DistinctRows(g) && s.queue != [] && Sorted(g, s) && Levelled(s.queue)
    requires i < j < |Step(g, s).queue|
    ensures Before(g, Step(g, s).queue[i].path, Step(g, s).queue[j].path)
  {
    StepPlaces(g, s, i);
    StepPlaces(g, s, j);
    var rest := |s.queue| - 1;
    if i < rest {
      if j >= rest {
        PushedFromHead(g, s, j);
        OldBeforePushed(g, s, s.queue[i + 1], Step(g, s).queue[j]);
      }
    } else {
      PushedOrdered(g, s.queue[0], Step(g, s).first.Keys, i - rest, j - rest);
    }
  }

  /** An entry after a step is one that waited behind the head, or one pushed from it. */
  lemma StepEntry(g: JoinGraph, s: Search, x: Entry)
    requires s.queue != [] && Ordered(g, s.queue) && x in Step(g, s).queue
    ensures (x in s.queue && Before(g, s.queue[0].path, x.path)) ||
            (|x.path| == |s.queue[0].path| + 1 && x.path[..|x.path| - 1] == s.queue[0].path)
  {
    var i :| 0 <= i < |Step(g, s).queue| && Step(g, s).queue[i] == x;
    StepPlaces(g, s, i);
    if i >= |s.queue| - 1 { PushedFromHead(g, s, i); }
  }

  lemma StepParents(g: JoinGraph, s: Search, e: Entry, x: Entry)
    requires s.queue != [] && Sorted(g, s)
    requires e in Step(g, s).queue && x in Step(g, s).queue && e.path != []
    ensures Before(g, e.path[..|e.path| - 1], x.path)
  {
    StepEntry(g, s, e);
    StepEntry(g, s, x);
    assert s.queue[0] in s.queue;
  }

  lemma StepVisited(g: JoinGraph, s: Search, v: Table, x: Entry)
    requires s.queue != [] && Sorted(g, s) && v in Step(g, s).first && x in Step(g, s).queue
    ensures Before(g, Step(g, s).first[v], x.path)
  {
    StepEntry(g, s, x);
    assert s.queue[0] in s.queue;
  }

  lemma StepSorted(g: JoinGraph, s: Search)
    requires DistinctRows(g) && s.queue != [] && Sorted(g, s) && Levelled(s.queue)
    ensures Sorted(g, Step(g, s))
  {
    var s' := Step(g, s);
    forall i, j | 0 <= i < j < |s'.queue|
      ensures Before(g, s'.queue[i].path, s'.queue[j].path)
    {
      StepOrdered(g, s, i, j);
    }
    forall e, x | e in s'.queue && x in s'.queue && e.path != []
      ensures Before(g, e.path[..|e.path| - 1], x.path)
    {
      StepParents(g, s, e, x);
    }
    forall v, x | v in s'.first && x in s'.queue
      ensures Before(g, s'.first[v], x.path)
    {
      StepVisited(g, s, v, x);
    }
  }

  // --- Every edge is followed in time ---

  ghost predicate Reached(g: JoinGraph, s: Search, p: Path, t: Table) {
    || (t in s.first && AtMost(g, s.first[t], p))
    || exists i :: 0 <= i < |s.queue| && s.queue[i] == Entry(t, p)
  }

  ghost predicate Follows(g: JoinGraph, s: Search) {
    forall v, e :: v in s.first && e in Neighbors(g, v) ==>
      Reached(g, s, s.first[v] + [Hop(v, e.neighbor, e.keys)], e.neighbor)
  }

  lemma StaysReached(g: JoinGraph, s: Search, p: Path, t: Table)
    requires s.queue != [] && Sorted(g, s) && Reached(g, s, p, t)
    ensures Reached(g, Step(g, s), p, t)
  {
    var s' := Step(g, s);
    if !(t in s.first && AtMost(g, s.first[t], p)) {
      var i :| 0 <= i < |s.queue| && s.queue[i] == Entry(t, p);
      if i > 0 { assert s'.queue[i - 1] == s.queue[i]; }
      assert s.queue[i] in s.queue;
    }
  }

  lemma HeadFollows(g: JoinGraph, s: Search, e: Edge)
    requires s.queue != [] && Sorted(g, s) && s.queue[0].node !in s.first
    requires e in Neighbors(g, s.queue[0].node)
    ensures Reached(g, Step(g, s), s.queue[0].path + [Hop(s.queue[0].node, e.neighbor, e.keys)], e.neighbor)
  {
    var head, s' := s.queue[0], Step(g, s);
    assert head in s.queue;
    if e.neighbor !in s'.first {
      PushedIs(head, Neighbors(g, head.node), s'.first.Keys);
      var pushed := Pushed(head, Neighbors(g, head.node), s'.first.Keys);
      assert Extend(head, e) in pushed;
      var i :| 0 <= i < |pushed| && pushed[i] == Extend(head, e);
      assert s'.queue[|s.queue| - 1 + i] == pushed[i];
    }
  }

  lemma StepFollows(g: JoinGraph, s: Search)
    requires s.queue != [] && Sorted(g, s) && Follows(g, s)
    ensures Follows(g, Step(g, s))
  {
    var s' := Step(g, s);
    forall v, e | v in s'.first && e in Neighbors(g, v)
      ensures Reached(g, s', s'.first[v] + [Hop(v, e.neighbor, e.keys)], e.neighbor)
    {
      if v in s.first {
        StaysReached(g, s, s.first[v] + [Hop(v, e.neighbor, e.keys)], e.neighbor);
      } else {
        HeadFollows(g, s, e);
      }
    }
  }

  lemma RunLevelled(g: JoinGraph, start: Table, k: nat)
    ensures Levelled(Run(g, start, k).queue)
  {
    RunInv(g, start, k);
  }

  function Next(g: JoinGraph, s: Search): Search {
    if s.queue == [] then s else Step(g, s)
  }

  lemma NextSorted(g: JoinGraph, s: Search)
    requires DistinctRows(g) && Sorted(g, s) && Levelled(s.queue)
    ensures Sorted(g, Next(g, s))
  {
    if s.queue != [] { StepSorted(g, s); }
  }

  lemma NextFollows(g: JoinGraph, s: Search)
    requires Sorted(g, s) && Follows(g, s)
    ensures Follows(g, Next(g, s))
  {
    if s.queue != [] { StepFollows(g, s); }
  }

  lemma RunNext(g: JoinGraph, start: Table, k: nat)
    requires k > 0
    ensures Run(g, start, k) == Next(g, Run(g, start, k - 1))
  {
  }

  lemma RunStart(g: JoinGraph, start: Table)
    ensures Sorted(g, Run(g, start, 0)) && Follows(g, Run(g, start, 0))
  {
  }

  ghost predicate InOrder(g: JoinGraph, s: Search) {
    Sorted(g, s) && Follows(g, s) && Levelled(s.queue)
  }

  lemma NextInOrder(g: JoinGraph, s: Search)
    requires DistinctRows(g) && InOrder(g, s) && Levelled(Next(g, s).queue)
    ensures InOrder(g, Next(g, s))
  {
    NextSorted(g, s);
    NextFollows(g, s);
  }

  lemma RunStep(g: JoinGraph, start: Table, k: nat)
    requires DistinctRows(g) && k > 0 && InOrder(g, Run(g, start, k - 1))
    ensures InOrder(g, Run(g, start, k))
  {
    RunLevelled(g, start, k);
    RunNext(g, start, k);
    NextInOrder(g, Run(g, start, k - 1));
  }

  lemma {:induction false} RunSorted(g: JoinGraph, start: Table, k: nat)
    requires DistinctRows(g)
    ensures InOrder(g, Run(g, start, k))
  {
    if k == 0 {
      RunStart(g, start);
      RunLevelled(g, start, 0);
    } else {
      RunSorted(g, start, k - 1);
      RunStep(g, start, k);
    }
  }

  // --- The first of the shortest ---

  lemma WalkOn(g: JoinGraph, start: Table, p: Path, h: Hop)
    requires IsWalk(g, start, p, h.left) && IsHop(g, h)
    ensures IsWalk(g, start, p + [h], h.right)
  {
    assert (p + [h])[..|p|] == p;
  }

  ghost predicate NoneShorter(g: JoinGraph, start: Table, w: Path, t: Table) {
    IsWalk(g, start, w, t) && forall v :: IsWalk(g, start, v, t) ==> |w| <= |v|
  }

  lemma PrefixIsShortest(g: JoinGraph, start: Table, w: Path, t: Table)
    requires NoneShorter(g, start, w, t) && w != []
    ensures NoneShorter(g, start, w[..|w| - 1], w[|w| - 1].left)
  {
    var init, h := w[..|w| - 1], w[|w| - 1];
    forall v | IsWalk(g, start, v, h.left)
      ensures |init| <= |v|
    {
      WalkOn(g, start, v, h);
    }
  }

  lemma HopFollowed(g: JoinGraph, s: Search, h: Hop)
    requires Follows(g, s) && s.queue == [] && IsHop(g, h) && h.left in s.first
    ensures h.right in s.first && AtMost(g, s.first[h.right], s.first[h.left] + [h])
  {
    var e := Edge(h.right, h.keys);
    assert e in Neighbors(g, h.left);
    assert Reached(g, s, s.first[h.left] + [Hop(h.left, e.neighbor, e.keys)], e.neighbor);
  }

  lemma FoundByHop(g: JoinGraph, found: Path, p: Path, w: Path)
    requires w != [] && |p| == |w| - 1 && AtMost(g, p, w[..|w| - 1]) && AtMost(g, found, p + [w[|w| - 1]])
    ensures AtMost(g, found, w)
  {
    var init, h := w[..|w| - 1], w[|w| - 1];
    assert w == init + [h];
    if p != init {
      ExtendKeeps(g, p, init, h, h);
      if found != p + [h] { BeforeTrans(g, found, p + [h], w); }
    }
  }

  /** Everything a walk reaches has been found, at its distance. */
  ghost predicate AllFound(g: JoinGraph, start: Table, first: map<Table, Path>) {
    forall w, t :: NoneShorter(g, start, w, t) ==> t in first && |first[t]| == |w|
  }

  lemma DrainedFoundAll(g: JoinGraph, start: Table, s: Search)
    requires Inv(g, start, s) && s.queue == []
    ensures AllFound(g, start, s.first)
  {
    forall w, t | NoneShorter(g, start, w, t)
      ensures t in s.first && |s.first[t]| == |w|
    {
      NoWalkLeft(g, start, s, w, t);
      assert JoinSearch.Settled(g, start, s.first, t);
    }
  }

  /** Once nothing waits, what was found first is at most any shortest walk. */
  lemma {:induction false} FoundAtMost(g: JoinGraph, start: Table, s: Search, w: Path, t: Table)
    requires AllFound(g, start, s.first) && Follows(g, s) && s.queue == [] && NoneShorter(g, start, w, t)
    ensures t in s.first && AtMost(g, s.first[t], w)
    decreases |w|
  {
    if w == [] {
      EmptyAtMost(g, start, s, t);
    } else {
      PrefixIsShortest(g, start, w, t);
      FoundAtMost(g, start, s, w[..|w| - 1], w[|w| - 1].left);
      LastHopFollowed(g, start, s, w, t);
    }
  }

  lemma EmptyAtMost(g: JoinGraph, start: Table, s: Search, t: Table)
    requires AllFound(g, start, s.first) && NoneShorter(g, start, [], t)
    ensures t in s.first && AtMost(g, s.first[t], [])
  {
  }

  lemma LastHopFollowed(g: JoinGraph, start: Table, s: Search, w: Path, t: Table)
    requires AllFound(g, start, s.first) && Follows(g, s) && s.queue == [] && NoneShorter(g, start, w, t) && w != []
    requires NoneShorter(g, start, w[..|w| - 1], w[|w| - 1].left)
    requires w[|w| - 1].left in s.first && AtMost(g, s.first[w[|w| - 1].left], w[..|w| - 1])
    ensures t in s.first && AtMost(g, s.first[t], w)
  {
    HopFollowed(g, s, w[|w| - 1]);
    FoundByHop(g, s.first[t], s.first[w[|w| - 1].left], w);
  }

  /** Of the shortest join paths the answer is the first: where another one parts from it, the
      answer goes on to the neighbour that was linked earlier. */
  lemma FirstOfShortest(g: JoinGraph, start: Table, t: Table, w: Path)
    requires DistinctRows(g) && BfsPath(g, start, t) != []
    requires IsWalk(g, start, w, t) && |w| == |BfsPath(g, start, t)| && w != BfsPath(g, start, t)
    ensures exists i: nat :: TurnsFirst(g, BfsPath(g, start, t), w, i)
  {
    ShortestJoinPath(g, start, t);
    var k := Drains(g, start, 0);
    RunInv(g, start, k);
    RunSorted(g, start, k);
    DrainedFoundAll(g, start, Run(g, start, k));
    assert NoneShorter(g, start, w, t);
    FoundAtMost(g, start, Run(g, start, k), w, t);
    BfsPathAt(g, start, t, k);
  }
}
