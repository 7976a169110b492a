/** The joins of an execution plan, and what its clauses refer to. */
module JoinPlan {
  import opened Graph
  import opened JoinSearch
  import opened Names

  datatype Join = Join(left: Table, right: Table, leftKey: Column, rightKey: Column)

  /** A clause item: the table and column it names, "" where it names none. `Opaque` is an
      item that is no dictionary. */
  datatype Item = Item(table: string, column: string) | Opaque

  datatype Clause = Absent | One(item: Item) | Many(items: seq<Item>)

  datatype ClauseKey = Select | Columns | Where | GroupBy | OrderBy | Having

  /** The clauses of a plan dictionary; a key that is missing holds `Absent`. */
  datatype Clauses = Clauses(select: Clause, columns: Clause, where_: Clause,
                             groupBy: Clause, orderBy: Clause, having: Clause)
  {
    function Get(key: ClauseKey): Clause {
      match key
      case Select => select
      case Columns => columns
      case Where => where_
      case GroupBy => groupBy
      case OrderBy => orderBy
      case Having => having
    }

    function Set(key: ClauseKey, c: Clause): Clauses {
      match key
      case Select => this.(select := c)
      case Columns => this.(columns := c)
      case Where => this.(where_ := c)
      case GroupBy => this.(groupBy := c)
      case OrderBy => this.(orderBy := c)
      case Having => this.(having := c)
    }
  }

  const CLAUSE_ORDER: seq<ClauseKey> := [Select, Columns, Where, GroupBy, OrderBy, Having]

  function Items(c: Clause): seq<Item> {
    match c
    case Absent => []
    case One(item) => [item]
    case Many(items) => items
  }

  // --- The table a qualified column names ---

  function DotAt(s: string): (i: nat)
    ensures i <= |s| && (i < |s| ==> s[i] == '.') && forall k :: 0 <= k < i ==> s[k] != '.'
  {
    if s == "" || s[0] == '.' then 0 else 1 + DotAt(s[1..])
  }

  predicate IsBlank(c: char) {
    c == ' ' || '\t' <= c <= '\r'
  }

  function Strip(s: string): string {
    if s == "" then ""
    else if IsBlank(s[0]) then Strip(s[1..])
    else if IsBlank(s[|s| - 1]) then Strip(s[..|s| - 1])
    else s
  }

  predicate IsNameStart(c: char) {
    'a' <= c <= 'z' || 'A' <= c <= 'Z' || c == '_'
  }

  predicate IsIdentifier(s: string) {
    s != "" && IsNameStart(s[0]) && forall i :: 0 < i < |s| ==> IsNameStart(s[i]) || '0' <= s[i] <= '9'
  }

  /** `column.split(".", 1)[0].strip()` when that is a name; "" otherwise, as for an
      aggregate expression, whose head is no table. */
  function Qualifier(column: string): string {
    if DotAt(column) == |column| then ""
    else
      var prefix := Strip(column[..DotAt(column)]);
      if IsIdentifier(prefix) then prefix else ""
  }

  // --- Everything a plan refers to ---

  /** The names one item contributes, "" included. */
  function ItemNames(item: Item): seq<string> {
    match item
    case Opaque => []
    case Item(t, c) => [t, Qualifier(c)]
  }

  function NamesOf(items: seq<Item>): seq<string> {
    if items == [] then [] else NamesOf(items[..|items| - 1]) + ItemNames(items[|items| - 1])
  }

  function ClauseNames(cs: Clauses, keys: seq<ClauseKey>): seq<string> {
    if keys == [] then []
    else ClauseNames(cs, keys[..|keys| - 1]) + NamesOf(Items(cs.Get(keys[|keys| - 1])))
  }

  function KeySet<T(==)>(xs: seq<T>, key: T -> string): set<string> {
    set x | x in xs :: key(x)
  }

  /** The first element of every key, in order; elements without a key are skipped. */
  function KeepFirst<T(==)>(xs: seq<T>, key: T -> string): seq<T> {
    if xs == [] then []
    else
      var init, x := KeepFirst(xs[..|xs| - 1], key), xs[|xs| - 1];
      if key(x) == "" || key(x) in KeySet(init, key) then init else init + [x]
  }

  function Referenced(cs: Clauses): seq<Table> {
    KeepFirst(ClauseNames(cs, CLAUSE_ORDER), Lower)
  }

  lemma {:induction false} KeepFirstKeys<T(!new)>(xs: seq<T>, key: T -> string)
    ensures KeySet(KeepFirst(xs, key), key) == KeySet(xs, key) - {""}
    ensures forall x :: x in KeepFirst(xs, key) ==> x in xs
    ensures DistinctKeys(KeepFirst(xs, key), key)
  {
    if xs != [] {
      var rest, x := xs[..|xs| - 1], xs[|xs| - 1];
      KeepFirstKeys(rest, key);
      assert xs == rest + [x];
      var init, r := KeepFirst(rest, key), KeepFirst(xs, key);
      assert KeySet(xs, key) == KeySet(rest, key) + {key(x)};
      if r != init {
        assert KeySet(r, key) == KeySet(init, key) + {key(x)};
        forall i, j | 0 <= i < j < |r|
          ensures key(r[i]) != key(r[j])
        {
          if j == |r| - 1 { assert r[i] in init; }
        }
      }
    }
  }

  /** The first of its key. */
  ghost predicate FirstOfKey<T(!new)>(xs: seq<T>, key: T -> string, i: nat) {
    i < |xs| && key(xs[i]) != "" && forall j :: 0 <= j < i ==> key(xs[j]) != key(xs[i])
  }

  /** What is kept of a prefix comes first, and one more element is kept exactly when it is the
      first of its key. */
  lemma KeepFirstNext<T(!new)>(xs: seq<T>, key: T -> string, n: nat)
    requires n < |xs|
    ensures KeepFirst(xs[..n + 1], key) ==
            KeepFirst(xs[..n], key) + if FirstOfKey(xs, key, n) then [xs[n]] else []
  {
    assert xs[..n + 1][..n] == xs[..n];
    KeepFirstKeys(xs[..n], key);
    var k := key(xs[n]);
    if k != "" {
      assert k in KeySet(KeepFirst(xs[..n], key), key) <==> k in KeySet(xs[..n], key);
      if k in KeySet(xs[..n], key) {
        var j :| 0 <= j < n && key(xs[..n][j]) == k;
        assert key(xs[j]) == k;
      } else {
        forall j | 0 <= j < n
          ensures key(xs[j]) != k
        {
          assert xs[j] in xs[..n];
        }
      }
    }
  }

  ghost predicate SelectToHaving(order: seq<ClauseKey>) {
    && |order| == 6 && order[0] == Select && order[1] == Columns && order[2] == Where && order[3] == GroupBy
    && order[4] == OrderBy && order[5] == Having
  }

  lemma GatheredOne(cs: Clauses, order: seq<ClauseKey>)
    requires |order| == 1
    ensures ClauseNames(cs, order) == NamesOf(Items(cs.Get(order[0])))
  {
    assert order[..0] == [] && ClauseNames(cs, order[..0]) == [];
  }

  lemma Regrouped(a: seq<string>, b: seq<string>, c: seq<string>)
    ensures (a + b) + c == a + (b + c)
  {
  }

  /** Names are gathered clause by clause, in the order the clauses are listed in. */
  lemma {:induction false} GatheredInOrder(cs: Clauses, a: seq<ClauseKey>, b: seq<ClauseKey>)
    ensures ClauseNames(cs, a + b) == ClauseNames(cs, a) + ClauseNames(cs, b)
  {
    if b == [] {
      assert a + b == a;
    } else {
      var n := |b| - 1;
      assert (a + b)[..|a + b| - 1] == a + b[..n] && (a + b)[|a + b| - 1] == b[n];
      GatheredInOrder(cs, a, b[..n]);
      Regrouped(ClauseNames(cs, a), ClauseNames(cs, b[..n]), NamesOf(Items(cs.Get(b[n]))));
    }
  }

  /** That order is SELECT to HAVING, and of each name the first spelling stays. */
  lemma ReferencedInOrder(cs: Clauses)
    ensures SelectToHaving(CLAUSE_ORDER) && Referenced(cs) == KeepFirst(ClauseNames(cs, CLAUSE_ORDER), Lower)
  {
  }

  /** An item names its own table and then its column's qualifier. */
  lemma {:induction false} NamesOfConcat(a: seq<Item>, b: seq<Item>)
    ensures NamesOf(a + b) == NamesOf(a) + NamesOf(b)
  {
    if b == [] {
      assert a + b == a;
    } else {
      assert (a + b)[..|a + b| - 1] == a + b[..|b| - 1];
      NamesOfConcat(a, b[..|b| - 1]);
    }
  }

  lemma NamesOfOne(item: Item)
    ensures NamesOf([item]) == if item.Opaque? then [] else [item.table, Qualifier(item.column)]
  {
    assert [item][..0] == [];
    assert NamesOf([]) == [];
  }

  lemma {:induction false} KeepFirstSame<T(!new)>(xs: seq<T>, key: T -> string)
    requires "" !in KeySet(xs, key)
    requires DistinctKeys(xs, key)
    ensures KeepFirst(xs, key) == xs
  {
    if xs != [] {
      var rest, x := xs[..|xs| - 1], xs[|xs| - 1];
      assert xs == rest + [x] && x in xs;
      assert forall y :: y in rest ==> y in xs;
      KeepFirstSame(rest, key);
      forall i | 0 <= i < |rest|
        ensures key(rest[i]) != key(x)
      {
        assert xs[i] == rest[i] && xs[|xs| - 1] == x;
      }
    }
  }

  // --- Scope ---

  function RightKey(j: Join): string {
    Lower(j.right)
  }

  /** Tables a compiled statement could qualify a column with. */
  function Scope(base: Table, joins: seq<Join>): set<string> {
    (if base == "" then {} else {Lower(base)}) +
    (set j | j in joins && j.left != "" :: Lower(j.left)) +
    (set j | j in joins && j.right != "" :: Lower(j.right))
  }

  // --- Join trees ---

  /** Table names are not empty and stay distinct when case is ignored. */
  ghost predicate CleanNames(g: JoinGraph) {
    && (forall t :: IsNode(g, t) ==> t != "")
    && (forall a, b :: IsNode(g, a) && IsNode(g, b) && Lower(a) == Lower(b) ==> a == b)
  }

  /** The join brings in a table at the end of the breadth-first path to it. */
  ghost predicate IsTreeEdge(g: JoinGraph, base: Table, j: Join) {
    var p := BfsPath(g, base, j.right);
    p != [] && p[|p| - 1].left == j.left
  }

  ghost predicate LeftInScope(base: Table, joins: seq<Join>, left: Table) {
    Lower(left) == Lower(base) || exists j :: j in joins && RightKey(j) == Lower(left)
  }

  /** Every join starts from the base or from a table an earlier join brought in. */
  ghost predicate ParentsFirst(base: Table, joins: seq<Join>) {
    forall i :: 0 <= i < |joins| ==> LeftInScope(base, joins[..i], joins[i].left)
  }

  ghost predicate JoinTree(g: JoinGraph, base: Table, joins: seq<Join>) {
    (forall j :: j in joins ==> IsTreeEdge(g, base, j)) && ParentsFirst(base, joins)
  }

  ghost predicate DistinctKeys<T(!new)>(xs: seq<T>, key: T -> string) {
    forall i, j :: 0 <= i < j < |xs| ==> key(xs[i]) != key(xs[j])
  }

  /** No table is joined twice, and the base is not joined again. */
  ghost predicate JoinedOnce(base: Table, joins: seq<Join>) {
    && DistinctKeys(joins, RightKey)
    && (forall j :: j in joins ==> RightKey(j) != Lower(base))
  }

  lemma TreeNodes(g: JoinGraph, base: Table, j: Join)
    requires IsTreeEdge(g, base, j)
    ensures IsNode(g, j.left) && IsNode(g, j.right) && IsNode(g, base) && j.right != base
  {
    ShortestJoinPath(g, base, j.right);
    var p := BfsPath(g, base, j.right);
    var h := p[|p| - 1];
    assert IsHop(g, h);
    assert Edge(h.right, h.keys) in Neighbors(g, h.left);
    assert Adjacent(g, h.left, h.right);
    WalkStarts(g, base, p, j.right);
  }

  lemma {:induction false} WalkStarts(g: JoinGraph, base: Table, w: Path, t: Table)
    requires w != [] && IsWalk(g, base, w, t)
    ensures w[0].left == base && base in g
    decreases |w|
  {
    var h := w[|w| - 1];
    assert IsHop(g, h);
    if |w| > 1 { WalkStarts(g, base, w[..|w| - 1], h.left); }
  }

  lemma ParentsFirstAppend(base: Table, joins: seq<Join>, more: seq<Join>)
    requires ParentsFirst(base, joins)
    requires forall i :: 0 <= i < |more| ==> LeftInScope(base, joins + more[..i], more[i].left)
    ensures ParentsFirst(base, joins + more)
  {
    var all := joins + more;
    forall i | 0 <= i < |all|
      ensures LeftInScope(base, all[..i], all[i].left)
    {
      if i < |joins| {
        assert all[..i] == joins[..i];
      } else {
        assert all[..i] == joins + more[..i - |joins|];
      }
    }
  }

  lemma ScopeIsRights(g: JoinGraph, base: Table, joins: seq<Join>)
    requires JoinTree(g, base, joins) && base != ""
    ensures forall n :: n in Scope(base, joins) ==> n == Lower(base) || exists j :: j in joins && RightKey(j) == n
  {
    forall n | n in Scope(base, joins) && n != Lower(base)
      ensures exists j :: j in joins && RightKey(j) == n
    {
      if i :| 0 <= i < |joins| && Lower(joins[i].left) == n {
        assert LeftInScope(base, joins[..i], joins[i].left);
        var j :| j in joins[..i] && RightKey(j) == n;
        assert j in joins;
      }
    }
  }

  // --- planner_utils.resolve_joins ---

  function ToJoin(h: Hop): Join {
    Join(h.left, h.right, h.keys.pair.from, h.keys.pair.to)
  }

  function ToJoins(p: Path): (r: seq<Join>)
    ensures |r| == |p| && forall i :: 0 <= i < |p| ==> r[i] == ToJoin(p[i])
  {
    seq(|p|, i requires 0 <= i < |p| => ToJoin(p[i]))
  }

  ghost function Resolved(g: JoinGraph, base: Table, tables: seq<Table>): seq<Join> {
    if tables == [] then []
    else Resolved(g, base, tables[..|tables| - 1]) + ToJoins(BfsPath(g, base, tables[|tables| - 1]))
  }

  method ResolveJoins(g: JoinGraph, base: Table, tables: seq<Table>) returns (joins: seq<Join>)
    ensures joins == Resolved(g, base, tables)
  {
    joins := [];
    for i := 0 to |tables|
      invariant joins == Resolved(g, base, tables[..i])
    {
      var table := tables[i];
      assert tables[..i + 1][..i] == tables[..i];
      if table == base {
        EmptyJoinPath(g, base, table);
        assert joins + ToJoins([]) == joins;
        continue;
      }
      var path := FindJoinPath(g, base, table);
      joins := AppendPath(joins, path);
    }
    assert tables[..|tables|] == tables;
  }

  method AppendPath(joins: seq<Join>, path: Path) returns (longer: seq<Join>)
    ensures longer == joins + ToJoins(path)
  {
    longer := joins;
    for k := 0 to |path|
      invariant longer == joins + ToJoins(path)[..k]
    {
      var hop := path[k];
      longer := longer + [Join(hop.left, hop.right, hop.keys.pair.from, hop.keys.pair.to)];
    }
    assert ToJoins(path)[..|path|] == ToJoins(path);
  }

  /** The join joins on the default columns of an edge of the graph, each on its own side. */
  ghost predicate FollowsEdge(g: JoinGraph, j: Join) {
    exists e :: e in Neighbors(g, j.left) && e.neighbor == j.right && e.keys.pair == KeyPair(j.leftKey, j.rightKey)
  }

  lemma {:induction false} WalkHops(g: JoinGraph, a: Table, w: Path, b: Table, h: Hop)
    requires IsWalk(g, a, w, b) && h in w
    ensures IsHop(g, h)
    decreases |w|
  {
    var last := w[|w| - 1];
    assert w == w[..|w| - 1] + [last];
    if h != last { WalkHops(g, a, w[..|w| - 1], last.left, h); }
  }

  lemma PathHopFollows(g: JoinGraph, base: Table, t: Table, h: Hop)
    requires h in BfsPath(g, base, t)
    ensures FollowsEdge(g, ToJoin(h))
  {
    ShortestJoinPath(g, base, t);
    WalkHops(g, base, BfsPath(g, base, t), t, h);
    assert Edge(h.right, h.keys) in Neighbors(g, h.left);
  }

  /** Every join that is resolved joins the columns of an edge. */
  lemma {:induction false} ResolvedFollows(g: JoinGraph, base: Table, tables: seq<Table>)
    ensures forall j :: j in Resolved(g, base, tables) ==> FollowsEdge(g, j)
  {
    if tables != [] {
      var init, t := tables[..|tables| - 1], tables[|tables| - 1];
      ResolvedFollows(g, base, init);
      var more := ToJoins(BfsPath(g, base, t));
      forall j | j in more
        ensures FollowsEdge(g, j)
      {
        var i :| 0 <= i < |more| && more[i] == j;
        PathHopFollows(g, base, t, BfsPath(g, base, t)[i]);
      }
    }
  }

  lemma PathIsTree(g: JoinGraph, base: Table, t: Table, i: nat)
    requires i < |BfsPath(g, base, t)|
    ensures var h := BfsPath(g, base, t)[i];
            && BfsPath(g, base, h.right) == BfsPath(g, base, t)[..i + 1]
            && IsTreeEdge(g, base, ToJoin(h))
            && (i == 0 ==> h.left == base)
            && (i > 0 ==> h.left == BfsPath(g, base, t)[i - 1].right)
  {
    var p := BfsPath(g, base, t);
    JoinPathPrefixes(g, base, t, i);
    ShortestJoinPath(g, base, t);
    if i == 0 {
      WalkStarts(g, base, p, t);
    } else {
      JoinPathPrefixes(g, base, t, i - 1);
      JoinPathPrefix(g, base, p[i].left);
      assert p[..i][i - 1] == p[i - 1];
    }
  }

  lemma PathParents(g: JoinGraph, base: Table, t: Table, joins: seq<Join>)
    requires ParentsFirst(base, joins)
    ensures ParentsFirst(base, joins + ToJoins(BfsPath(g, base, t)))
  {
    var p := BfsPath(g, base, t);
    var more := ToJoins(p);
    forall i | 0 <= i < |more|
      ensures LeftInScope(base, joins + more[..i], more[i].left)
    {
      PathIsTree(g, base, t, i);
      if i > 0 {
        assert more[..i][i - 1] == more[i - 1];
        assert more[i - 1] in joins + more[..i];
      }
    }
    ParentsFirstAppend(base, joins, more);
  }

  ghost predicate IsTreeHop(g: JoinGraph, base: Table, j: Join) {
    var p := BfsPath(g, base, j.right);
    p != [] && j == ToJoin(p[|p| - 1])
  }

  lemma {:induction false} ResolvedHops(g: JoinGraph, base: Table, tables: seq<Table>)
    ensures forall j :: j in Resolved(g, base, tables) ==> IsTreeHop(g, base, j)
    ensures ParentsFirst(base, Resolved(g, base, tables))
  {
    if tables != [] {
      var init, t := tables[..|tables| - 1], tables[|tables| - 1];
      ResolvedHops(g, base, init);
      PathParents(g, base, t, Resolved(g, base, init));
      var more := ToJoins(BfsPath(g, base, t));
      forall j | j in Resolved(g, base, tables)
        ensures IsTreeHop(g, base, j)
      {
        if j !in Resolved(g, base, init) {
          var i :| 0 <= i < |more| && more[i] == j;
          PathIsTree(g, base, t, i);
        }
      }
    }
  }

  lemma Regroup(a: seq<Join>, b: seq<Join>, c: seq<Join>)
    ensures (a + b) + c == a + (b + c)
  {
  }

  /** Tables are joined in the order they are asked for, each along its own path. */
  lemma {:induction false} ResolvedConcat(g: JoinGraph, base: Table, a: seq<Table>, b: seq<Table>)
    ensures Resolved(g, base, a + b) == Resolved(g, base, a) + Resolved(g, base, b)
  {
    if b == [] {
      assert a + b == a;
    } else {
      assert (a + b)[..|a + b| - 1] == a + b[..|b| - 1];
      ResolvedConcat(g, base, a, b[..|b| - 1]);
      Regroup(Resolved(g, base, a), Resolved(g, base, b[..|b| - 1]), ToJoins(BfsPath(g, base, b[|b| - 1])));
    }
  }

  lemma ResolvedOne(g: JoinGraph, base: Table, tables: seq<Table>)
    requires |tables| == 1
    ensures Resolved(g, base, tables) == ToJoins(BfsPath(g, base, tables[0]))
  {
    assert tables[..0] == [] && Resolved(g, base, tables[..0]) == [];
  }

  ghost predicate RepeatsAreEqual(joins: seq<Join>) {
    forall i, j :: 0 <= i < j < |joins| && joins[i].right == joins[j].right ==> joins[i] == joins[j]
  }

  /** Joining along the paths to any list of tables gives a breadth-first tree in
      topological order, and wherever it joins a table again it repeats the same join. */
  lemma ResolvedIsTree(g: JoinGraph, base: Table, tables: seq<Table>)
    ensures JoinTree(g, base, Resolved(g, base, tables))
    ensures RepeatsAreEqual(Resolved(g, base, tables))
    ensures forall t :: t in tables && t != base && Joinable(g, base, t) ==>
              exists j :: j in Resolved(g, base, tables) && j.right == t
  {
    ResolvedHops(g, base, tables);
    var joins := Resolved(g, base, tables);
    forall j | j in joins
      ensures IsTreeEdge(g, base, j)
    {
      assert IsTreeHop(g, base, j);
    }
    forall i, j | 0 <= i < j < |joins| && joins[i].right == joins[j].right
      ensures joins[i] == joins[j]
    {
      assert IsTreeHop(g, base, joins[i]) && IsTreeHop(g, base, joins[j]);
    }
    forall t | t in tables && t != base && Joinable(g, base, t)
      ensures exists j :: j in joins && j.right == t
    {
      EmptyJoinPath(g, base, t);
      var k :| 0 <= k < |tables| && tables[k] == t;
      ResolvedReaches(g, base, tables, k);
    }
  }

  lemma {:induction false} ResolvedReaches(g: JoinGraph, base: Table, tables: seq<Table>, k: nat)
    requires k < |tables| && BfsPath(g, base, tables[k]) != []
    ensures exists j :: j in Resolved(g, base, tables) && j.right == tables[k]
  {
    if k < |tables| - 1 {
      ResolvedReaches(g, base, tables[..|tables| - 1], k);
      var j :| j in Resolved(g, base, tables[..|tables| - 1]) && j.right == tables[k];
      assert j in Resolved(g, base, tables);
    } else {
      var p := BfsPath(g, base, tables[k]);
      JoinPathPrefix(g, base, tables[k]);
      assert ToJoins(p)[|p| - 1] in Resolved(g, base, tables);
    }
  }
}
