/** Breadth-first join paths. A node is marked visited when it is taken off the queue,
    not when it is put on, so the queue may hold one table several times. */
module JoinSearch {
  import opened Graph
  import opened Sets

  datatype Hop = Hop(left: Table, right: Table, keys: JoinKeys)
  type Path = seq<Hop>
  datatype Entry = Entry(node: Table, path: Path)

  /** What the search has after some iterations: its queue, and for every table already
      taken off the queue the path it carried the first time. */
  datatype Search = Search(queue: seq<Entry>, first: map<Table, Path>)

  // --- The search as a sequence of steps, independent of the target ---

  function Extend(e: Entry, edge: Edge): Entry {
    Entry(edge.neighbor, e.path + [Hop(e.node, edge.neighbor, edge.keys)])
  }

  /** The entries one expansion appends, in neighbour order. */
  function Pushed(e: Entry, row: Row, visited: set<Table>): seq<Entry> {
    if row == [] then []
    else
      var init := Pushed(e, row[..|row| - 1], visited);
      var edge := row[|row| - 1];
      if edge.neighbor in visited then init else init + [Extend(e, edge)]
  }

  function Mark(first: map<Table, Path>, e: Entry): map<Table, Path> {
    if e.node in first then first else first[e.node := e.path]
  }

  function Step(g: JoinGraph, s: Search): Search
    requires s.queue != []
  {
    var head := s.queue[0];
    var first := Mark(s.first, head);
    Search(s.queue[1..] + Pushed(head, Neighbors(g, head.node), first.Keys), first)
  }

  function Run(g: JoinGraph, start: Table, k: nat): Search {
    if k == 0 then Search([Entry(start, [])], map[])
    else
      var s := Run(g, start, k - 1);
      if s.queue == [] then s else Step(g, s)
  }

  /** The path `FindJoinPath` answers with: the one `target` carried when it first came
      off the queue, or the empty path when it never does. */
  ghost function BfsPath(g: JoinGraph, start: Table, target: Table): Path {
    if exists k: nat :: target in Run(g, start, k).first then
      var k: nat :| target in Run(g, start, k).first;
      Run(g, start, k).first[target]
    else []
  }

  // --- Walks: the reference notion of a join path ---

  ghost predicate IsHop(g: JoinGraph, h: Hop) {
    Edge(h.right, h.keys) in Neighbors(g, h.left)
  }

  ghost predicate IsWalk(g: JoinGraph, a: Table, w: Path, b: Table)
    decreases |w|
  {
    if w == [] then a == b
    else
      var h := w[|w| - 1];
      IsHop(g, h) && h.right == b && IsWalk(g, a, w[..|w| - 1], h.left)
  }

  /** No table occurs twice along the walk. */
  ghost predicate IsSimple(w: Path) {
    forall i, j :: 0 <= i <= j < |w| ==> w[i].left != w[j].right
  }

  // --- What every iteration keeps ---

  ghost predicate EntryOk(g: JoinGraph, start: Table, first: map<Table, Path>, e: Entry) {
    && IsWalk(g, start, e.path, e.node)
    && IsSimple(e.path)
    && forall h :: h in e.path ==> h.left in first
  }

  ghost predicate Levelled(q: seq<Entry>) {
    forall i, j :: 0 <= i <= j < |q| ==> |q[i].path| <= |q[j].path| <= |q[0].path| + 1
  }

  ghost predicate Queued(q: seq<Entry>, t: Table, len: nat) {
    exists i :: 0 <= i < |q| && q[i].node == t && |q[i].path| <= len
  }

  /** `v` was expanded: each neighbour is visited too, or waits within one more hop. */
  ghost predicate Expanded(g: JoinGraph, s: Search, v: Table)
    requires v in s.first
  {
    forall e :: e in Neighbors(g, v) ==>
      e.neighbor in s.first || Queued(s.queue, e.neighbor, |s.first[v]| + 1)
  }

  ghost predicate Shortest(g: JoinGraph, start: Table, p: Path, t: Table) {
    && IsWalk(g, start, p, t)
    && forall w :: IsWalk(g, start, w, t) ==> |p| <= |w|
  }

  /** `p` is its parent's path and one hop, or the empty path at the start. */
  ghost predicate OnTree(start: Table, first: map<Table, Path>, p: Path, t: Table) {
    if p == [] then t == start
    else
      var u := p[|p| - 1].left;
      t != start && u in first && first[u] == p[..|p| - 1]
  }

  ghost predicate EntriesOk(g: JoinGraph, start: Table, s: Search) {
    forall e :: e in s.queue ==> EntryOk(g, start, s.first, e)
  }

  ghost predicate Settled(g: JoinGraph, start: Table, first: map<Table, Path>, v: Table)
    requires v in first
  {
    Shortest(g, start, first[v], v) && IsSimple(first[v]) && OnTree(start, first, first[v], v)
  }

  ghost predicate FirstInQueue(q: seq<Entry>, i: nat)
    requires i < |q|
  {
    forall j :: 0 <= j < i ==> q[j].node != q[i].node
  }

  ghost predicate QueueOnTree(start: Table, s: Search) {
    forall i: nat :: i < |s.queue| && s.queue[i].node !in s.first && FirstInQueue(s.queue, i) ==>
      OnTree(start, s.first, s.queue[i].path, s.queue[i].node)
  }

  ghost predicate Inv(g: JoinGraph, start: Table, s: Search) {
    && (start in s.first || s == Search([Entry(start, [])], map[]))
    && EntriesOk(g, start, s)
    && Levelled(s.queue)
    && (forall v :: v in s.first ==> Expanded(g, s, v))
    && (forall v :: v in s.first ==> Settled(g, start, s.first, v))
    && QueueOnTree(start, s)
  }

  lemma {:induction false} PushedIs(e: Entry, row: Row, visited: set<Table>)
    ensures forall x :: x in Pushed(e, row, visited) <==>
              exists edge :: edge in row && edge.neighbor !in visited && x == Extend(e, edge)
  {
    if row != [] {
      var init, edge := row[..|row| - 1], row[|row| - 1];
      PushedIs(e, init, visited);
      assert row == init + [edge];
    }
  }

  lemma FrontierHop(g: JoinGraph, start: Table, s: Search, w: Path, h: Hop)
    requires IsWalk(g, start, w, h.left) && IsHop(g, h) && h.left in s.first && h.right !in s.first
    requires Settled(g, start, s.first, h.left) && Expanded(g, s, h.left)
    ensures exists i :: 0 <= i < |s.queue| && |s.queue[i].path| <= |w| + 1
  {
    assert Edge(h.right, h.keys) in Neighbors(g, h.left);
    assert Queued(s.queue, h.right, |s.first[h.left]| + 1);
  }

  /** A walk that ends outside the visited tables passes the queue no later than the
      queued entry does. */
  lemma {:induction false} Frontier(g: JoinGraph, start: Table, s: Search, w: Path, t: Table)
    requires Inv(g, start, s) && IsWalk(g, start, w, t) && t !in s.first
    ensures exists i :: 0 <= i < |s.queue| && |s.queue[i].path| <= |w|
    decreases |w|
  {
    if w == [] {
      assert |s.queue[0].path| == 0;
    } else {
      var init, h := w[..|w| - 1], w[|w| - 1];
      if h.left in s.first {
        FrontierHop(g, start, s, init, h);
      } else {
        Frontier(g, start, s, init, h.left);
      }
    }
  }

  lemma HeadIsShortest(g: JoinGraph, start: Table, s: Search)
    requires Inv(g, start, s) && s.queue != [] && s.queue[0].node !in s.first
    ensures Shortest(g, start, s.queue[0].path, s.queue[0].node)
    ensures OnTree(start, s.first, s.queue[0].path, s.queue[0].node)
  {
    var head := s.queue[0];
    assert EntryOk(g, start, s.first, head);
    forall w | IsWalk(g, start, w, head.node)
      ensures |head.path| <= |w|
    {
      Frontier(g, start, s, w, head.node);
    }
    assert FirstInQueue(s.queue, 0);
  }

  lemma ExtendOk(g: JoinGraph, start: Table, first: map<Table, Path>, e: Entry, edge: Edge)
    requires EntryOk(g, start, first, e) && edge in Neighbors(g, e.node)
    requires edge.neighbor !in Mark(first, e)
    ensures EntryOk(g, start, Mark(first, e), Extend(e, edge))
  {
    var p := Extend(e, edge).path;
    assert p[..|p| - 1] == e.path;
    assert Edge(p[|p| - 1].right, p[|p| - 1].keys) == edge;
    forall i, j | 0 <= i <= j < |p|
      ensures p[i].left != p[j].right
    {
      if j == |p| - 1 { assert i == j || p[i] in e.path; }
    }
  }

  lemma LevelledStep(q: seq<Entry>, pushed: seq<Entry>)
    requires q != [] && Levelled(q)
    requires forall e :: e in pushed ==> |e.path| == |q[0].path| + 1
    ensures Levelled(q[1..] + pushed)
  {
    var q' := q[1..] + pushed;
    assert forall i :: 0 <= i < |q'| ==>
      if i < |q| - 1 then q'[i] == q[i + 1] else q'[i] in pushed;
  }

  lemma PushedOk(g: JoinGraph, start: Table, s: Search)
    requires s.queue != [] && EntryOk(g, start, s.first, s.queue[0])
    ensures forall e :: e in Pushed(s.queue[0], Neighbors(g, s.queue[0].node), Mark(s.first, s.queue[0]).Keys) ==>
              EntryOk(g, start, Mark(s.first, s.queue[0]), e) && |e.path| == |s.queue[0].path| + 1
  {
    var head := s.queue[0];
    var row, visited := Neighbors(g, head.node), Mark(s.first, head).Keys;
    PushedIs(head, row, visited);
    forall e | e in Pushed(head, row, visited)
      ensures EntryOk(g, start, Mark(s.first, head), e) && |e.path| == |head.path| + 1
    {
      var edge :| edge in row && edge.neighbor !in visited && e == Extend(head, edge);
      ExtendOk(g, start, s.first, head, edge);
    }
  }

  lemma StepEntries(g: JoinGraph, start: Table, s: Search)
    requires s.queue != [] && Levelled(s.queue)
    requires EntriesOk(g, start, s)
    ensures EntriesOk(g, start, Step(g, s))
    ensures Levelled(Step(g, s).queue)
  {
    var head, s' := s.queue[0], Step(g, s);
    var pushed := Pushed(head, Neighbors(g, head.node), s'.first.Keys);
    assert EntryOk(g, start, s.first, head);
    PushedOk(g, start, s);
    LevelledStep(s.queue, pushed);
    forall e | e in s'.queue
      ensures EntryOk(g, start, s'.first, e)
    {
      if e !in pushed { assert e in s.queue; }
    }
  }

  lemma StepExpanded(g: JoinGraph, start: Table, s: Search, v: Table)
    requires s.queue != [] && v in Step(g, s).first
    requires v in s.first ==> Expanded(g, s, v)
    ensures Expanded(g, Step(g, s), v)
  {
    var head, s' := s.queue[0], Step(g, s);
    forall e | e in Neighbors(g, v) && e.neighbor !in s'.first
      ensures Queued(s'.queue, e.neighbor, |s'.first[v]| + 1)
    {
      if v in s.first {
        var i :| 0 <= i < |s.queue| && s.queue[i].node == e.neighbor && |s.queue[i].path| <= |s.first[v]| + 1;
        assert s'.queue[i - 1] == s.queue[i];
      } else {
        PushesNeighbor(g, s, e);
      }
    }
  }

  lemma PushesNeighbor(g: JoinGraph, s: Search, e: Edge)
    requires s.queue != [] && e in Neighbors(g, s.queue[0].node) && e.neighbor !in Step(g, s).first
    ensures Queued(Step(g, s).queue, e.neighbor, |s.queue[0].path| + 1)
  {
    var head, s' := s.queue[0], Step(g, s);
    var pushed := Pushed(head, Neighbors(g, head.node), s'.first.Keys);
    PushedIs(head, Neighbors(g, head.node), s'.first.Keys);
    assert Extend(head, e) in pushed;
    var i :| 0 <= i < |pushed| && pushed[i] == Extend(head, e);
    assert s'.queue[|s.queue| - 1 + i] == pushed[i];
  }

  /** The first queued entry of a table extends the first path of its parent, because a
      second visit to the parent finds every neighbour visited or queued already. */
  lemma StepFirstInQueue(g: JoinGraph, start: Table, s: Search, i: nat)
    requires s.queue != [] && QueueOnTree(start, s)
    requires s.queue[0].node in s.first ==> Expanded(g, s, s.queue[0].node)
    requires s.queue[0].node !in s.first && s.queue[0].path == [] ==> s.queue[0].node == start
    requires start in Mark(s.first, s.queue[0])
    requires i < |Step(g, s).queue| && Step(g, s).queue[i].node !in Step(g, s).first
    requires FirstInQueue(Step(g, s).queue, i)
    ensures OnTree(start, Step(g, s).first, Step(g, s).queue[i].path, Step(g, s).queue[i].node)
  {
    var s' := Step(g, s);
    if i < |s.queue| - 1 {
      assert s'.queue[i] == s.queue[i + 1];
      forall j | 0 <= j < i + 1
        ensures s.queue[j].node != s.queue[i + 1].node
      {
        if j > 0 { assert s'.queue[j - 1] == s.queue[j]; }
      }
      assert FirstInQueue(s.queue, i + 1);
    } else {
      PushedOnTree(g, start, s, i);
    }
  }

  lemma NeighborStillQueued(g: JoinGraph, s: Search, e: Edge)
    requires s.queue != [] && s.queue[0].node in s.first && Expanded(g, s, s.queue[0].node)
    requires e in Neighbors(g, s.queue[0].node) && e.neighbor !in s.first
    ensures exists j :: 0 <= j < |s.queue| - 1 && Step(g, s).queue[j].node == e.neighbor
  {
    var k :| 0 <= k < |s.queue| && s.queue[k].node == e.neighbor;
    assert Step(g, s).queue[k - 1] == s.queue[k];
  }

  lemma PushedOnTree(g: JoinGraph, start: Table, s: Search, i: nat)
    requires s.queue != []
    requires s.queue[0].node in s.first ==> Expanded(g, s, s.queue[0].node)
    requires start in Mark(s.first, s.queue[0])
    requires |s.queue| - 1 <= i < |Step(g, s).queue| && Step(g, s).queue[i].node !in Step(g, s).first
    requires FirstInQueue(Step(g, s).queue, i)
    ensures OnTree(start, Step(g, s).first, Step(g, s).queue[i].path, Step(g, s).queue[i].node)
  {
    var head, s' := s.queue[0], Step(g, s);
    var row := Neighbors(g, head.node);
    var pushed, e := Pushed(head, row, s'.first.Keys), s'.queue[i];
    PushedIs(head, row, s'.first.Keys);
    assert e == pushed[i - (|s.queue| - 1)];
    assert e in pushed;
    var edge :| edge in row && edge.neighbor !in s'.first && e == Extend(head, edge);
    assert e.path[..|e.path| - 1] == head.path;
    if head.node in s.first {
      NeighborStillQueued(g, s, edge);
      assert false;
    }
  }

  lemma StepSettled(g: JoinGraph, start: Table, s: Search, v: Table)
    requires s.queue != [] && v in Step(g, s).first
    requires v in s.first ==> Settled(g, start, s.first, v)
    requires v !in s.first ==>
      && Shortest(g, start, s.queue[0].path, s.queue[0].node) && IsSimple(s.queue[0].path)
      && OnTree(start, s.first, s.queue[0].path, s.queue[0].node)
    ensures Settled(g, start, Step(g, s).first, v)
  {
  }

  lemma StepInv(g: JoinGraph, start: Table, s: Search)
    requires Inv(g, start, s) && s.queue != []
    ensures Inv(g, start, Step(g, s))
  {
    var s' := Step(g, s);
    StepEntries(g, start, s);
    assert EntryOk(g, start, s.first, s.queue[0]);
    if s.queue[0].node !in s.first { HeadIsShortest(g, start, s); }
    forall v | v in s'.first
      ensures Expanded(g, s', v) && Settled(g, start, s'.first, v)
    {
      StepExpanded(g, start, s, v);
      StepSettled(g, start, s, v);
    }
    assert QueueOnTree(start, s') by {
      forall i: nat | i < |s'.queue| && s'.queue[i].node !in s'.first && FirstInQueue(s'.queue, i)
        ensures OnTree(start, s'.first, s'.queue[i].path, s'.queue[i].node)
      {
        StepFirstInQueue(g, start, s, i);
      }
    }
  }

  lemma {:induction false} RunInv(g: JoinGraph, start: Table, k: nat)
    ensures Inv(g, start, Run(g, start, k))
  {
    if k > 0 {
      RunInv(g, start, k - 1);
      var s := Run(g, start, k - 1);
      if s.queue != [] { StepInv(g, start, s); }
    } else {
      var s := Run(g, start, 0);
      assert s == Search([Entry(start, [])], map[]);
    }
  }

  // --- What the answer means ---

  lemma {:induction false} FirstStable(g: JoinGraph, start: Table, j: nat, k: nat)
    requires j <= k
    ensures Run(g, start, j).first.Keys <= Run(g, start, k).first.Keys
    ensures forall t :: t in Run(g, start, j).first ==> Run(g, start, k).first[t] == Run(g, start, j).first[t]
    decreases k - j
  {
    if j < k { FirstStable(g, start, j, k - 1); }
  }

  lemma BfsPathAt(g: JoinGraph, start: Table, t: Table, k: nat)
    requires t in Run(g, start, k).first
    ensures BfsPath(g, start, t) == Run(g, start, k).first[t]
  {
    var j: nat :| t in Run(g, start, j).first && BfsPath(g, start, t) == Run(g, start, j).first[t];
    FirstStable(g, start, if j < k then j else k, if j < k then k else j);
  }

  /** Once the queue is empty, every table some walk reaches has been visited. */
  lemma {:induction false} DrainedRun(g: JoinGraph, start: Table, j: nat, k: nat)
    requires j <= k && Run(g, start, j).queue == []
    ensures Run(g, start, k) == Run(g, start, j)
    decreases k - j
  {
    if j < k { DrainedRun(g, start, j, k - 1); }
  }

  lemma NeverVisited(g: JoinGraph, start: Table, t: Table, k: nat)
    requires Run(g, start, k).queue == [] && t !in Run(g, start, k).first
    ensures BfsPath(g, start, t) == []
  {
    forall j: nat
      ensures t !in Run(g, start, j).first
    {
      if j <= k { FirstStable(g, start, j, k); } else { DrainedRun(g, start, k, j); }
    }
  }

  // --- Termination ---

  function AtLength(q: seq<Entry>, len: nat): nat {
    if q == [] then 0 else (if |q[0].path| == len then 1 else 0) + AtLength(q[1..], len)
  }

  lemma {:induction false} AtLengthConcat(a: seq<Entry>, b: seq<Entry>, len: nat)
    ensures AtLength(a + b, len) == AtLength(a, len) + AtLength(b, len)
  {
    if a == [] {
      assert a + b == b;
    } else {
      assert (a + b)[1..] == a[1..] + b;
      AtLengthConcat(a[1..], b, len);
    }
  }

  lemma {:induction false} NoneAtLength(q: seq<Entry>, len: nat)
    requires forall e :: e in q ==> |e.path| != len
    ensures AtLength(q, len) == 0
  {
    if q != [] { NoneAtLength(q[1..], len); }
  }

  /** The measure: how far the level at the head of the queue is from the longest simple
      path, then how many entries of that level wait. Every iteration lowers the pair,
      although a table may be expanded many times. */
  ghost function LevelsLeft(g: JoinGraph, s: Search): int {
    if s.queue == [] then 0 else |g| + 1 - |s.queue[0].path|
  }

  ghost function LevelWaiting(s: Search): nat {
    if s.queue == [] then 0 else AtLength(s.queue, |s.queue[0].path|)
  }

  function Lefts(w: Path): set<Table> {
    set h | h in w :: h.left
  }

  lemma {:induction false} SimpleBounded(g: JoinGraph, start: Table, w: Path, t: Table)
    requires IsWalk(g, start, w, t) && IsSimple(w)
    ensures |Lefts(w)| == |w| && Lefts(w) <= g.Keys
    decreases |w|
  {
    if w != [] {
      var init, h := w[..|w| - 1], w[|w| - 1];
      SimpleBounded(g, start, init, h.left);
      LeftsFresh(g, start, w, t);
      assert Lefts(w) == Lefts(init) + {h.left};
    }
  }

  lemma LeftsFresh(g: JoinGraph, start: Table, w: Path, t: Table)
    requires w != [] && IsWalk(g, start, w, t) && IsSimple(w)
    ensures w[|w| - 1].left !in Lefts(w[..|w| - 1])
  {
    var n := |w| - 1;
    if n > 0 {
      assert w[..n][n - 1].right == w[n].left;
    }
  }

  lemma LengthBounded(g: JoinGraph, start: Table, w: Path, t: Table)
    requires IsWalk(g, start, w, t) && IsSimple(w)
    ensures |w| <= |g|
  {
    SimpleBounded(g, start, w, t);
    SubsetSize(Lefts(w), g.Keys);
  }

  /** The next head is as far as this one, with one fewer of its level waiting, or farther. */
  lemma NextHead(g: JoinGraph, start: Table, s: Search)
    requires s.queue != [] && Levelled(s.queue) && EntryOk(g, start, s.first, s.queue[0]) && Step(g, s).queue != []
    ensures var len, next := |s.queue[0].path|, Step(g, s).queue[0];
            && |next.path| >= len
            && (|next.path| == len ==> AtLength(Step(g, s).queue, len) < AtLength(s.queue, len))
  {
    var head, s' := s.queue[0], Step(g, s);
    var len := |head.path|;
    var pushed := Pushed(head, Neighbors(g, head.node), s'.first.Keys);
    PushedOk(g, start, s);
    assert s'.queue[0] in pushed || s'.queue[0] == s.queue[1];
    AtLengthConcat(s.queue[1..], pushed, len);
    NoneAtLength(pushed, len);
  }

  lemma HeadBounded(g: JoinGraph, start: Table, s: Search)
    requires Inv(g, start, s) && s.queue != []
    ensures EntryOk(g, start, s.first, s.queue[0]) && Levelled(s.queue) && LevelsLeft(g, s) > 0
  {
    assert EntryOk(g, start, s.first, s.queue[0]);
    LengthBounded(g, start, s.queue[0].path, s.queue[0].node);
  }

  lemma StepMeasure(g: JoinGraph, start: Table, s: Search)
    requires Inv(g, start, s) && s.queue != []
    ensures LevelsLeft(g, s) > 0
    ensures LevelsLeft(g, Step(g, s)) < LevelsLeft(g, s) ||
            (LevelsLeft(g, Step(g, s)) == LevelsLeft(g, s) && LevelWaiting(Step(g, s)) < LevelWaiting(s))
    ensures LevelsLeft(g, Step(g, s)) >= 0
  {
    HeadBounded(g, start, s);
    if Step(g, s).queue != [] {
      StepInv(g, start, s);
      HeadBounded(g, start, Step(g, s));
      NextHead(g, start, s);
    }
  }

  lemma RunMeasure(g: JoinGraph, start: Table, k: nat)
    requires Run(g, start, k).queue != []
    ensures Run(g, start, k + 1) == Step(g, Run(g, start, k))
    ensures LevelsLeft(g, Run(g, start, k)) > 0 && LevelsLeft(g, Run(g, start, k + 1)) >= 0
    ensures LevelsLeft(g, Run(g, start, k + 1)) < LevelsLeft(g, Run(g, start, k)) ||
            (LevelsLeft(g, Run(g, start, k + 1)) == LevelsLeft(g, Run(g, start, k)) &&
             LevelWaiting(Run(g, start, k + 1)) < LevelWaiting(Run(g, start, k)))
  {
    RunInv(g, start, k);
    StepMeasure(g, start, Run(g, start, k));
  }

  lemma {:induction false} Drains(g: JoinGraph, start: Table, k: nat) returns (end: nat)
    ensures Run(g, start, end).queue == []
    decreases LevelsLeft(g, Run(g, start, k)), LevelWaiting(Run(g, start, k))
  {
    if Run(g, start, k).queue == [] {
      end := k;
    } else {
      RunMeasure(g, start, k);
      end := Drains(g, start, k + 1);
    }
  }

  // --- The theorems ---

  lemma NoWalkLeft(g: JoinGraph, start: Table, s: Search, w: Path, t: Table)
    requires Inv(g, start, s) && s.queue == [] && IsWalk(g, start, w, t)
    ensures t in s.first
  {
    if t !in s.first { Frontier(g, start, s, w, t); }
  }

  /** Every table a walk reaches is settled by some iteration, with its answer. */
  lemma Settles(g: JoinGraph, start: Table, w: Path, t: Table) returns (k: nat)
    requires IsWalk(g, start, w, t)
    ensures t in Run(g, start, k).first && Run(g, start, k).first[t] == BfsPath(g, start, t)
    ensures Settled(g, start, Run(g, start, k).first, t)
  {
    k := Drains(g, start, 0);
    RunInv(g, start, k);
    NoWalkLeft(g, start, Run(g, start, k), w, t);
    BfsPathAt(g, start, t, k);
  }

  lemma AnswerSettled(g: JoinGraph, start: Table, t: Table) returns (k: nat)
    requires BfsPath(g, start, t) != []
    ensures t in Run(g, start, k).first && Run(g, start, k).first[t] == BfsPath(g, start, t)
    ensures Settled(g, start, Run(g, start, k).first, t)
  {
    k :| t in Run(g, start, k).first && Run(g, start, k).first[t] == BfsPath(g, start, t);
    RunInv(g, start, k);
  }

  /** A non-empty answer is a simple chain of graph edges from `start` to `t`, and no
      chain of edges between the two is shorter. */
  lemma ShortestJoinPath(g: JoinGraph, start: Table, t: Table)
    requires BfsPath(g, start, t) != []
    ensures IsWalk(g, start, BfsPath(g, start, t), t) && IsSimple(BfsPath(g, start, t))
    ensures forall w :: IsWalk(g, start, w, t) ==> |BfsPath(g, start, t)| <= |w|
    ensures start != t
  {
    var k := AnswerSettled(g, start, t);
  }

  ghost predicate Joinable(g: JoinGraph, a: Table, b: Table) {
    exists w :: IsWalk(g, a, w, b)
  }

  /** The empty answer means exactly that nothing has to be joined or nothing can be. */
  lemma EmptyJoinPath(g: JoinGraph, start: Table, t: Table)
    ensures BfsPath(g, start, t) == [] <==> (start == t || !Joinable(g, start, t))
  {
    if start == t {
      assert IsWalk(g, start, [], t);
      var k := Settles(g, start, [], t);
    } else if BfsPath(g, start, t) != [] {
      ShortestJoinPath(g, start, t);
    } else if Joinable(g, start, t) {
      var w :| IsWalk(g, start, w, t);
      var k := Settles(g, start, w, t);
      assert false;
    }
  }

  /** The answer for the table before the last one is the answer without its last hop. */
  lemma JoinPathPrefix(g: JoinGraph, start: Table, t: Table)
    requires BfsPath(g, start, t) != []
    ensures var p := BfsPath(g, start, t);
            p[|p| - 1].right == t && p[..|p| - 1] == BfsPath(g, start, p[|p| - 1].left)
  {
    var k := AnswerSettled(g, start, t);
    var p := BfsPath(g, start, t);
    BfsPathAt(g, start, p[|p| - 1].left, k);
  }

  /** The path to any intermediate table of a join path is that path's own prefix. */
  lemma {:induction false} JoinPathPrefixes(g: JoinGraph, start: Table, t: Table, i: nat)
    requires i < |BfsPath(g, start, t)|
    ensures BfsPath(g, start, BfsPath(g, start, t)[i].right) == BfsPath(g, start, t)[..i + 1]
    ensures BfsPath(g, start, BfsPath(g, start, t)[i].left) == BfsPath(g, start, t)[..i]
    decreases |BfsPath(g, start, t)|
  {
    var p := BfsPath(g, start, t);
    JoinPathPrefix(g, start, t);
    if i < |p| - 1 {
      var u := p[|p| - 1].left;
      JoinPathPrefixes(g, start, u, i);
      assert p[..|p| - 1][i] == p[i];
      assert p[..|p| - 1][..i + 1] == p[..i + 1] && p[..|p| - 1][..i] == p[..i];
    } else {
      assert p[..i + 1] == p;
    }
  }

  // --- planner_utils.find_join_path ---

  /** One expansion of the search: `queue` grows by every neighbour not yet visited. */
  method ExpandRow(head: Entry, row: Row, visited: set<Table>, queue: seq<Entry>) returns (grown: seq<Entry>)
    ensures grown == queue + Pushed(head, row, visited)
  {
    grown := queue;
    for i := 0 to |row|
      invariant grown == queue + Pushed(head, row[..i], visited)
    {
      assert row[..i + 1][..i] == row[..i];
      if row[i].neighbor !in visited {
        grown := grown + [Entry(row[i].neighbor, head.path + [Hop(head.node, row[i].neighbor, row[i].keys)])];
      }
    }
    assert row[..|row|] == row;
  }

  ghost predicate At(g: JoinGraph, start: Table, k: nat, queue: seq<Entry>, visited: set<Table>) {
    queue == Run(g, start, k).queue && visited == Run(g, start, k).first.Keys
  }

  lemma NextAt(g: JoinGraph, start: Table, k: nat, queue: seq<Entry>, visited: set<Table>)
    requires At(g, start, k, queue, visited) && queue != []
    ensures var visited' := visited + {queue[0].node};
            At(g, start, k + 1, queue[1..] + Pushed(queue[0], Neighbors(g, queue[0].node), visited'), visited')
  {
    assert visited + {queue[0].node} == Mark(Run(g, start, k).first, queue[0]).Keys;
  }

  method FindJoinPath(g: JoinGraph, start: Table, target: Table) returns (path: Path)
    ensures path == BfsPath(g, start, target)
  {
    var queue: seq<Entry> := [Entry(start, [])];
    var visited: set<Table> := {};
    ghost var k := 0;
    while queue != []
      invariant At(g, start, k, queue, visited) && target !in visited
      decreases LevelsLeft(g, Run(g, start, k)), LevelWaiting(Run(g, start, k))
    {
      RunMeasure(g, start, k);
      var head := queue[0];
      if head.node == target {
        BfsPathAt(g, start, target, k + 1);
        return head.path;
      }
      ghost var before, seen := queue, visited;
      queue := queue[1..];
      visited := visited + {head.node};
      queue := ExpandRow(head, Neighbors(g, head.node), visited, queue);
      NextAt(g, start, k, before, seen);
      k := k + 1;
    }
    NeverVisited(g, start, target, k);
    return [];
  }
}
