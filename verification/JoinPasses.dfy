/** The passes that fit the joins of a finished plan to what its clauses refer to. */
module JoinPasses {
  import opened Graph
  import opened JoinSearch
  import opened JoinPlan
  import opened JoinPruning
  import opened Names

  // --- Names a plan refers to ---

  lemma {:induction false} NamesOfItem(items: seq<Item>, item: Item, n: string)
    requires item in items && n in ItemNames(item)
    ensures n in NamesOf(items)
  {
    var init, last := items[..|items| - 1], items[|items| - 1];
    assert items == init + [last];
    if item != last { NamesOfItem(init, item, n); }
  }

  lemma {:induction false} NamesOfKey(cs: Clauses, keys: seq<ClauseKey>, key: ClauseKey, n: string)
    requires key in keys && n in NamesOf(Items(cs.Get(key)))
    ensures n in ClauseNames(cs, keys)
  {
    var init, last := keys[..|keys| - 1], keys[|keys| - 1];
    assert keys == init + [last];
    if key != last { NamesOfKey(cs, init, key, n); }
  }

  /** A name some clause item carries is referenced, up to case. */
  lemma ItemIsReferenced(cs: Clauses, key: ClauseKey, item: Item, n: string)
    requires item in Items(cs.Get(key)) && n in ItemNames(item) && n != ""
    ensures Lower(n) in LowerSet(Referenced(cs))
  {
    NamesOfItem(Items(cs.Get(key)), item, n);
    assert key == CLAUSE_ORDER[0] || key == CLAUSE_ORDER[1] || key == CLAUSE_ORDER[2] ||
           key == CLAUSE_ORDER[3] || key == CLAUSE_ORDER[4] || key == CLAUSE_ORDER[5];
    assert key in CLAUSE_ORDER;
    NamesOfKey(cs, CLAUSE_ORDER, key, n);
    var names := ClauseNames(cs, CLAUSE_ORDER);
    KeepFirstKeys(names, Lower);
    assert Lower(n) in KeySet(names, Lower);
    assert Lower(n) in KeySet(Referenced(cs), Lower);
  }

  method AddNames(items: seq<Item>, ordered: seq<string>, ghost before: seq<string>) returns (longer: seq<string>)
    requires ordered == KeepFirst(before, Lower)
    ensures longer == KeepFirst(before + NamesOf(items), Lower)
  {
    longer := ordered;
    assert before + NamesOf(items[..0]) == before;
    for i := 0 to |items|
      invariant longer == KeepFirst(before + NamesOf(items[..i]), Lower)
    {
      NamesNext(before, items, i);
      longer := AddItem(items[i], longer, before + NamesOf(items[..i]));
    }
    assert items[..|items|] == items;
  }

  lemma NamesNext(before: seq<string>, items: seq<Item>, i: nat)
    requires i < |items|
    ensures before + NamesOf(items[..i + 1]) == (before + NamesOf(items[..i])) + ItemNames(items[i])
  {
    assert items[..i + 1][..i] == items[..i];
  }

  method AddItem(item: Item, ordered: seq<string>, ghost before: seq<string>) returns (longer: seq<string>)
    requires ordered == KeepFirst(before, Lower)
    ensures longer == KeepFirst(before + ItemNames(item), Lower)
  {
    longer := ordered;
    if item.Item? {
      longer := AddName(longer, item.table, before);
      longer := AddName(longer, Qualifier(item.column), before + [item.table]);
      assert before + [item.table] + [Qualifier(item.column)] == before + ItemNames(item);
    } else {
      assert before + [] == before;
    }
  }

  method AddName(ordered: seq<string>, name: string, ghost before: seq<string>) returns (longer: seq<string>)
    requires ordered == KeepFirst(before, Lower)
    ensures longer == KeepFirst(before + [name], Lower)
  {
    assert (before + [name])[..|before|] == before;
    var seen := set n | n in ordered :: Lower(n);
    if name != "" && Lower(name) !in seen {
      longer := ordered + [name];
    } else {
      longer := ordered;
    }
  }

  method NamesInClauses(cs: Clauses, keys: seq<ClauseKey>) returns (ordered: seq<Table>)
    ensures ordered == KeepFirst(ClauseNames(cs, keys), Lower)
  {
    ordered := [];
    for i := 0 to |keys|
      invariant ordered == KeepFirst(ClauseNames(cs, keys[..i]), Lower)
    {
      assert keys[..i + 1][..i] == keys[..i];
      ordered := AddNames(Items(cs.Get(keys[i])), ordered, ClauseNames(cs, keys[..i]));
    }
    assert keys[..|keys|] == keys;
  }

  method TablesReferenced(cs: Clauses) returns (ordered: seq<Table>)
    ensures ordered == Referenced(cs)
  {
    ordered := NamesInClauses(cs, CLAUSE_ORDER);
  }

  // --- _reconcile_joins ---

  datatype Growing = Growing(joins: seq<Join>, scope: set<string>)

  function AddHop(b: Growing, h: Hop): Growing {
    if Lower(h.right) in b.scope then b
    else Growing(b.joins + [ToJoin(h)], b.scope + {Lower(h.right)})
  }

  function AddPath(b: Growing, p: Path): Growing {
    if p == [] then b else AddHop(AddPath(b, p[..|p| - 1]), p[|p| - 1])
  }

  ghost function AddPaths(g: JoinGraph, base: Table, b: Growing, ts: seq<Table>): Growing {
    if ts == [] then b
    else AddPath(AddPaths(g, base, b, ts[..|ts| - 1]), BfsPath(g, base, ts[|ts| - 1]))
  }

  function Missing(ts: seq<Table>, scope: set<string>): seq<Table> {
    if ts == [] then []
    else
      var init, t := Missing(ts[..|ts| - 1], scope), ts[|ts| - 1];
      if Lower(t) in scope then init else init + [t]
  }

  ghost function Reconciled(g: JoinGraph, cs: Clauses, base: Table, joins: seq<Join>): seq<Join> {
    if base == "" then joins
    else AddPaths(g, base, Growing(joins, Scope(base, joins)), Missing(Referenced(cs), Scope(base, joins))).joins
  }

  lemma {:induction false} MissingIs(ts: seq<Table>, scope: set<string>)
    ensures forall t :: t in Missing(ts, scope) <==> t in ts && Lower(t) !in scope
  {
    if ts != [] {
      assert ts == ts[..|ts| - 1] + [ts[|ts| - 1]];
      MissingIs(ts[..|ts| - 1], scope);
    }
  }

  ghost predicate Grown(g: JoinGraph, base: Table, b: Growing) {
    JoinTree(g, base, b.joins) && b.scope == Scope(base, b.joins)
  }

  function PathKeys(p: Path): set<string> {
    set h | h in p :: Lower(h.right)
  }

  lemma ScopeGrows(base: Table, joins: seq<Join>, j: Join)
    requires j.left != "" && j.right != "" && Lower(j.left) in Scope(base, joins)
    ensures Scope(base, joins + [j]) == Scope(base, joins) + {Lower(j.right)}
  {
    assert forall k :: k in joins + [j] <==> k in joins || k == j;
  }

  lemma AddHopGrows(g: JoinGraph, base: Table, b: Growing, t: Table, i: nat)
    requires CleanNames(g) && base != "" && Grown(g, base, b) && i < |BfsPath(g, base, t)|
    requires i > 0 ==> Lower(BfsPath(g, base, t)[i - 1].right) in b.scope
    ensures Grown(g, base, AddHop(b, BfsPath(g, base, t)[i]))
  {
    var h := BfsPath(g, base, t)[i];
    PathIsTree(g, base, t, i);
    if Lower(h.right) !in b.scope {
      var j := ToJoin(h);
      JoinKeyNotEmpty(g, base, j);
      ScopeGrows(base, b.joins, j);
      ScopeIsRights(g, base, b.joins);
      assert LeftInScope(base, b.joins + [j][..0], j.left) by {
        assert b.joins + [j][..0] == b.joins;
        assert Lower(j.left) in Scope(base, b.joins);
      }
      ParentsFirstAppend(base, b.joins, [j]);
    }
  }

  lemma {:induction false} AddPathScope(b: Growing, p: Path)
    ensures AddPath(b, p).scope == b.scope + PathKeys(p)
  {
    if p != [] {
      var init, h := p[..|p| - 1], p[|p| - 1];
      AddPathScope(b, init);
      assert p == init + [h];
      assert PathKeys(p) == PathKeys(init) + {Lower(h.right)};
    }
  }

  lemma {:induction false} AddPathGrows(g: JoinGraph, base: Table, b: Growing, t: Table, n: nat)
    requires CleanNames(g) && base != "" && Grown(g, base, b) && n <= |BfsPath(g, base, t)|
    ensures Grown(g, base, AddPath(b, BfsPath(g, base, t)[..n]))
  {
    var p := BfsPath(g, base, t);
    if n > 0 {
      var before := AddPath(b, p[..n - 1]);
      AddPathGrows(g, base, b, t, n - 1);
      AddPathNext(b, p, n - 1);
      if n > 1 { PathInScope(b, p, n - 1); }
      AddHopGrows(g, base, before, t, n - 1);
    }
  }

  lemma AddPathNext(b: Growing, p: Path, n: nat)
    requires n < |p|
    ensures AddPath(b, p[..n + 1]) == AddHop(AddPath(b, p[..n]), p[n])
  {
    assert p[..n + 1][..n] == p[..n];
  }

  lemma PathInScope(b: Growing, p: Path, n: nat)
    requires 0 < n <= |p|
    ensures Lower(p[n - 1].right) in AddPath(b, p[..n]).scope
  {
    AddPathScope(b, p[..n]);
    assert p[n - 1] in p[..n];
  }

  /** The names on the way to any of these tables. */
  ghost predicate OnTheWay(g: JoinGraph, base: Table, ts: seq<Table>, n: string) {
    exists t :: t in ts && n in PathKeys(BfsPath(g, base, t))
  }

  lemma {:induction false} AddPathsGrows(g: JoinGraph, base: Table, b: Growing, ts: seq<Table>)
    requires CleanNames(g) && base != "" && Grown(g, base, b)
    ensures Grown(g, base, AddPaths(g, base, b, ts))
  {
    if ts != [] {
      var init, t := ts[..|ts| - 1], ts[|ts| - 1];
      AddPathsGrows(g, base, b, init);
      var p := BfsPath(g, base, t);
      assert p[..|p|] == p;
      AddPathGrows(g, base, AddPaths(g, base, b, init), t, |p|);
    }
  }

  lemma {:induction false} AddPathsScope(g: JoinGraph, base: Table, b: Growing, ts: seq<Table>, n: string)
    ensures n in AddPaths(g, base, b, ts).scope <==> n in b.scope || OnTheWay(g, base, ts, n)
  {
    if ts != [] {
      var init, t := ts[..|ts| - 1], ts[|ts| - 1];
      AddPathsScope(g, base, b, init, n);
      AddPathScope(AddPaths(g, base, b, init), BfsPath(g, base, t));
      assert ts == init + [t];
      if OnTheWay(g, base, init, n) {
        var u :| u in init && n in PathKeys(BfsPath(g, base, u));
        assert u in ts;
      }
      assert t in ts;
    }
  }

  /** Reconciling keeps the join tree a tree and brings into scope exactly the tables on
      the paths to what was referenced but out of scope. */
  lemma ReconciledIsTree(g: JoinGraph, cs: Clauses, base: Table, joins: seq<Join>)
    requires CleanNames(g) && base != "" && JoinTree(g, base, joins)
    ensures JoinTree(g, base, Reconciled(g, cs, base, joins))
    ensures forall n :: n in Scope(base, Reconciled(g, cs, base, joins)) <==>
              n in Scope(base, joins) || OnTheWay(g, base, Missing(Referenced(cs), Scope(base, joins)), n)
    ensures forall t :: t in Referenced(cs) && BfsPath(g, base, t) != [] ==>
              Lower(t) in Scope(base, Reconciled(g, cs, base, joins))
  {
    var scope := Scope(base, joins);
    var missing := Missing(Referenced(cs), scope);
    AddPathsGrows(g, base, Growing(joins, scope), missing);
    forall n
      ensures n in AddPaths(g, base, Growing(joins, scope), missing).scope <==>
              n in scope || OnTheWay(g, base, missing, n)
    {
      AddPathsScope(g, base, Growing(joins, scope), missing, n);
    }
    MissingIs(Referenced(cs), scope);
    forall t | t in Referenced(cs) && BfsPath(g, base, t) != [] && Lower(t) !in scope
      ensures OnTheWay(g, base, missing, Lower(t))
    {
      var p := BfsPath(g, base, t);
      JoinPathPrefix(g, base, t);
      assert p[|p| - 1] in p;
      assert Lower(t) in PathKeys(p);
    }
  }

  /** What reconciling adds are joins on the columns of an edge, and it rewrites none. */
  ghost predicate OldOrFollows(g: JoinGraph, before: seq<Join>, joins: seq<Join>) {
    before <= joins && forall j :: j in joins[|before|..] ==> FollowsEdge(g, j)
  }

  lemma {:induction false} AddPathFollows(g: JoinGraph, before: seq<Join>, b: Growing, p: Path)
    requires OldOrFollows(g, before, b.joins) && forall h :: h in p ==> FollowsEdge(g, ToJoin(h))
    ensures OldOrFollows(g, before, AddPath(b, p).joins)
  {
    if p != [] {
      var init, h := p[..|p| - 1], p[|p| - 1];
      AddPathFollows(g, before, b, init);
      AddHopFollows(g, before, AddPath(b, init), h);
    }
  }

  lemma AddHopFollows(g: JoinGraph, before: seq<Join>, b: Growing, h: Hop)
    requires OldOrFollows(g, before, b.joins) && FollowsEdge(g, ToJoin(h))
    ensures OldOrFollows(g, before, AddHop(b, h).joins)
  {
    assert (b.joins + [ToJoin(h)])[|before|..] == b.joins[|before|..] + [ToJoin(h)];
  }

  lemma {:induction false} AddPathsFollows(g: JoinGraph, base: Table, before: seq<Join>, b: Growing, ts: seq<Table>)
    requires OldOrFollows(g, before, b.joins)
    ensures OldOrFollows(g, before, AddPaths(g, base, b, ts).joins)
  {
    if ts != [] {
      var init, t := ts[..|ts| - 1], ts[|ts| - 1];
      AddPathsFollows(g, base, before, b, init);
      forall h | h in BfsPath(g, base, t)
        ensures FollowsEdge(g, ToJoin(h))
      {
        PathHopFollows(g, base, t, h);
      }
      AddPathFollows(g, before, AddPaths(g, base, b, init), BfsPath(g, base, t));
    }
  }

  /** Reconciling rewrites no join, and each one it adds joins the columns of an edge. */
  lemma ReconciledFollows(g: JoinGraph, cs: Clauses, base: Table, joins: seq<Join>)
    ensures OldOrFollows(g, joins, Reconciled(g, cs, base, joins))
  {
    var scope := Scope(base, joins);
    AddPathsFollows(g, base, joins, Growing(joins, scope), Missing(Referenced(cs), scope));
  }

  // --- _drop_unreachable_filters ---

  /** The table a condition is judged by: its own, or the one qualifying its column. */
  function FilterTable(item: Item): string {
    match item
    case Opaque => ""
    case Item(t, c) => if t != "" then t else Qualifier(c)
  }

  predicate OutOfScope(item: Item, scope: set<string>) {
    FilterTable(item) != "" && Lower(FilterTable(item)) !in scope
  }

  function InScopeItems(items: seq<Item>, scope: set<string>): seq<Item> {
    if items == [] then []
    else
      var init, last := InScopeItems(items[..|items| - 1], scope), items[|items| - 1];
      if OutOfScope(last, scope) then init else init + [last]
  }

  function InScopeClause(c: Clause, scope: set<string>): Clause {
    match c
    case Absent => Absent
    case One(item) => if OutOfScope(item, scope) then Absent else c
    case Many(items) => Many(InScopeItems(items, scope))
  }

  /** A condition is judged by its own table, and by its column's qualifier when it has none; one
      that names no table stays. */
  lemma JudgedBy(scope: set<string>, table: string, column: string)
    ensures OutOfScope(Item(table, column), scope) <==>
            if table != "" then Lower(table) !in scope
            else Qualifier(column) != "" && Lower(Qualifier(column)) !in scope
    ensures !OutOfScope(Opaque, scope)
  {
  }

  /** Conditions stay in their order. */
  lemma {:induction false} InScopeConcat(a: seq<Item>, b: seq<Item>, scope: set<string>)
    ensures InScopeItems(a + b, scope) == InScopeItems(a, scope) + InScopeItems(b, scope)
  {
    if b == [] {
      assert a + b == a;
    } else {
      assert (a + b)[..|a + b| - 1] == a + b[..|b| - 1];
      InScopeConcat(a, b[..|b| - 1], scope);
    }
  }

  predicate IsFilterKey(key: ClauseKey) {
    key == Where || key == Having || key == OrderBy
  }

  function InScope(cs: Clauses, scope: set<string>): Clauses {
    if scope == {} then cs
    else
      cs.(where_ := InScopeClause(cs.where_, scope),
          having := InScopeClause(cs.having, scope),
          orderBy := InScopeClause(cs.orderBy, scope))
  }

  lemma {:induction false} InScopeItemsAre(items: seq<Item>, scope: set<string>)
    ensures forall i :: i in InScopeItems(items, scope) <==> i in items && !OutOfScope(i, scope)
    ensures |InScopeItems(items, scope)| <= |items|
    ensures InScopeItems(items, scope) == items <==> forall i :: i in items ==> !OutOfScope(i, scope)
  {
    if items != [] {
      var init, last := items[..|items| - 1], items[|items| - 1];
      assert items == init + [last];
      InScopeItemsAre(init, scope);
      if InScopeItems(items, scope) == items {
        assert !OutOfScope(last, scope);
        assert InScopeItems(init, scope) + [last] == init + [last];
        assert InScopeItems(init, scope) == init;
      }
    }
  }

  lemma InScopeClauseIs(c: Clause, scope: set<string>)
    ensures forall i :: i in Items(InScopeClause(c, scope)) <==> i in Items(c) && !OutOfScope(i, scope)
    ensures InScopeClause(c, scope) == c <==> forall i :: i in Items(c) ==> !OutOfScope(i, scope)
  {
    if c.Many? { InScopeItemsAre(c.items, scope); }
    if c.One? { assert c.item in Items(c); }
  }
}
