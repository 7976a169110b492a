/** Finishing a plan: rebase, reconcile, drop what cannot be reached, prune. */
module PlanFinish {
  import opened Graph
  import opened JoinSearch
  import opened JoinPlan
  import opened JoinPruning
  import opened JoinPasses
  import opened Names
  import opened PlanRepair
  import ColumnRepair

  // --- _rebase_on_referenced_table ---

  /** How the rebase pass tests a table: the lower-cased name is a neighbour, or there is a
      path to the name as it is spelled. */
  ghost predicate Reaches(g: JoinGraph, candidate: Table, t: Table) {
    Adjacent(g, candidate, Lower(t)) || BfsPath(g, candidate, t) != []
  }

  ghost predicate CanCarry(g: JoinGraph, candidate: Table, referenced: seq<Table>) {
    forall t :: t in referenced && Lower(t) != Lower(candidate) ==> Reaches(g, candidate, t)
  }

  /** The base holds no column of its own and cannot reach all that is referenced. */
  ghost predicate BaseIsWrong(g: JoinGraph, base: Table, referenced: seq<Table>) {
    && base != ""
    && (forall t :: t in referenced ==> Lower(t) != Lower(base))
    && (exists t :: t in referenced && BfsPath(g, base, t) == [])
  }

  /** The first of `candidates` that can carry everything referenced; "" if none can. */
  ghost function FirstCarrier(g: JoinGraph, candidates: seq<Table>, referenced: seq<Table>): Table {
    if candidates == [] then ""
    else if CanCarry(g, candidates[0], referenced) then candidates[0]
    else FirstCarrier(g, candidates[1..], referenced)
  }

  /** The table the plan is moved onto; "" when it stays where it is. */
  ghost function NewBase(g: JoinGraph, cs: Clauses, base: Table): Table {
    var referenced := Referenced(cs);
    if BaseIsWrong(g, base, referenced) then FirstCarrier(g, referenced, referenced) else ""
  }

  lemma {:induction false} FirstCarrierCarries(g: JoinGraph, candidates: seq<Table>, referenced: seq<Table>)
    requires FirstCarrier(g, candidates, referenced) != ""
    ensures CanCarry(g, FirstCarrier(g, candidates, referenced), referenced)
    ensures FirstCarrier(g, candidates, referenced) in candidates
  {
    if !CanCarry(g, candidates[0], referenced) { FirstCarrierCarries(g, candidates[1..], referenced); }
  }

  /** No candidate before the `n`-th can carry the rest. */
  ghost predicate NoneCarries(g: JoinGraph, candidates: seq<Table>, referenced: seq<Table>, n: nat)
    requires n <= |candidates|
  {
    forall k :: 0 <= k < n ==> !CanCarry(g, candidates[k], referenced)
  }

  /** The plan moves onto the first referenced table that can carry the rest, and stays where no
      referenced table can. */
  lemma {:induction false} FirstCarrierIs(g: JoinGraph, candidates: seq<Table>, referenced: seq<Table>, n: nat)
    requires n <= |candidates| && NoneCarries(g, candidates, referenced, n)
    ensures n == |candidates| ==> FirstCarrier(g, candidates, referenced) == ""
    ensures n < |candidates| && CanCarry(g, candidates[n], referenced) ==>
              FirstCarrier(g, candidates, referenced) == candidates[n]
  {
    if n > 0 { FirstCarrierIs(g, candidates[1..], referenced, n - 1); }
  }

  lemma SomeOrNone(g: JoinGraph, candidates: seq<Table>, referenced: seq<Table>) returns (n: nat)
    ensures n <= |candidates| && NoneCarries(g, candidates, referenced, n)
    ensures n < |candidates| ==> CanCarry(g, candidates[n], referenced)
  {
    n := 0;
    while n < |candidates| && !CanCarry(g, candidates[n], referenced)
      invariant n <= |candidates| && NoneCarries(g, candidates, referenced, n)
    {
      n := n + 1;
    }
  }

  lemma NamedReferences(cs: Clauses)
    ensures "" !in Referenced(cs)
  {
    var names := ClauseNames(cs, CLAUSE_ORDER);
    KeepFirstKeys(names, Lower);
    forall t | t in Referenced(cs)
      ensures t != ""
    {
      assert Lower(t) in KeySet(Referenced(cs), Lower);
      assert |Lower(t)| == |t|;
    }
  }

  /** A plan is moved exactly when its base holds none of the columns referenced, some table
      referenced has no path from it, and some table referenced can carry all the others; then
      it is moved onto the first of those. */
  lemma MovesIff(g: JoinGraph, cs: Clauses, base: Table)
    ensures NewBase(g, cs, base) != "" <==>
            && base != ""
            && (forall t :: t in Referenced(cs) ==> Lower(t) != Lower(base))
            && (exists t :: t in Referenced(cs) && BfsPath(g, base, t) == [])
            && exists c :: c in Referenced(cs) && CanCarry(g, c, Referenced(cs))
    ensures NewBase(g, cs, base) != "" ==>
              exists n :: 0 <= n < |Referenced(cs)| && NoneCarries(g, Referenced(cs), Referenced(cs), n) &&
                          CanCarry(g, Referenced(cs)[n], Referenced(cs)) && NewBase(g, cs, base) == Referenced(cs)[n]
  {
    var ts := Referenced(cs);
    var n := SomeOrNone(g, ts, ts);
    FirstCarrierIs(g, ts, ts, n);
    NamedReferences(cs);
    if n < |ts| { assert ts[n] in ts; }
  }

  method HasNeighbor(g: JoinGraph, t: Table, n: Table) returns (found: bool)
    ensures found <==> Adjacent(g, t, n)
  {
    var row := Neighbors(g, t);
    found := false;
    for i := 0 to |row|
      invariant found <==> exists e :: e in row[..i] && e.neighbor == n
    {
      assert row[..i + 1] == row[..i] + [row[i]];
      if row[i].neighbor == n { found := true; }
    }
    assert row[..|row|] == row;
  }

  method CarriesAll(g: JoinGraph, candidate: Table, referenced: seq<Table>) returns (all: bool)
    ensures all <==> CanCarry(g, candidate, referenced)
  {
    for i := 0 to |referenced|
      invariant forall t :: t in referenced[..i] && Lower(t) != Lower(candidate) ==> Reaches(g, candidate, t)
    {
      var t := referenced[i];
      assert referenced[..i + 1] == referenced[..i] + [t];
      if Lower(t) != Lower(candidate) {
        var near := HasNeighbor(g, candidate, Lower(t));
        var path := FindJoinPath(g, candidate, t);
        if !near && path == [] {
          assert t in referenced && !Reaches(g, candidate, t);
          return false;
        }
      }
    }
    assert referenced[..|referenced|] == referenced;
    return true;
  }

  method PathToAll(g: JoinGraph, base: Table, referenced: seq<Table>) returns (all: bool)
    ensures all <==> forall t :: t in referenced ==> BfsPath(g, base, t) != []
  {
    for i := 0 to |referenced|
      invariant forall t :: t in referenced[..i] ==> BfsPath(g, base, t) != []
    {
      assert referenced[..i + 1] == referenced[..i] + [referenced[i]];
      var path := FindJoinPath(g, base, referenced[i]);
      if path == [] {
        assert referenced[i] in referenced;
        return false;
      }
    }
    assert referenced[..|referenced|] == referenced;
    return true;
  }

  method Mentions(referenced: seq<Table>, base: Table) returns (found: bool)
    ensures found <==> exists t :: t in referenced && Lower(t) == Lower(base)
  {
    found := false;
    for i := 0 to |referenced|
      invariant found <==> exists t :: t in referenced[..i] && Lower(t) == Lower(base)
    {
      assert referenced[..i + 1] == referenced[..i] + [referenced[i]];
      if Lower(referenced[i]) == Lower(base) { found := true; }
    }
    assert referenced[..|referenced|] == referenced;
  }

  method PickCarrier(g: JoinGraph, referenced: seq<Table>) returns (candidate: Table)
    ensures candidate == FirstCarrier(g, referenced, referenced)
  {
    for i := 0 to |referenced|
      invariant FirstCarrier(g, referenced, referenced) == FirstCarrier(g, referenced[i..], referenced)
    {
      var carries := CarriesAll(g, referenced[i], referenced);
      if carries { return referenced[i]; }
      assert referenced[i..][1..] == referenced[i + 1..];
    }
    return "";
  }

  method MissingTables(referenced: seq<Table>, scope: set<string>) returns (missing: seq<Table>)
    ensures missing == Missing(referenced, scope)
  {
    missing := [];
    for i := 0 to |referenced|
      invariant missing == Missing(referenced[..i], scope)
    {
      assert referenced[..i + 1][..i] == referenced[..i];
      if Lower(referenced[i]) !in scope { missing := missing + [referenced[i]]; }
    }
    assert referenced[..|referenced|] == referenced;
  }

  /** Appends the hops of a path whose tables are not in scope yet. */
  method AppendMissing(joins: seq<Join>, scope: set<string>, path: Path)
    returns (joins': seq<Join>, scope': set<string>)
    ensures Growing(joins', scope') == AddPath(Growing(joins, scope), path)
  {
    joins', scope' := joins, scope;
    for k := 0 to |path|
      invariant Growing(joins', scope') == AddPath(Growing(joins, scope), path[..k])
    {
      var hop := path[k];
      assert path[..k + 1][..k] == path[..k];
      if Lower(hop.right) in scope' { continue; }
      joins' := joins' + [Join(hop.left, hop.right, hop.keys.pair.from, hop.keys.pair.to)];
      scope' := scope' + {Lower(hop.right)};
    }
    assert path[..|path|] == path;
  }

  // --- The plan and its passes ---

  method AppendPaths(g: JoinGraph, base: Table, missing: seq<Table>, joins: seq<Join>, scope: set<string>)
    returns (longer: seq<Join>)
    ensures longer == AddPaths(g, base, Growing(joins, scope), missing).joins
  {
    longer := joins;
    var wider := scope;
    for i := 0 to |missing|
      invariant Growing(longer, wider) == AddPaths(g, base, Growing(joins, scope), missing[..i])
    {
      assert missing[..i + 1][..i] == missing[..i];
      var path := FindJoinPath(g, base, missing[i]);
      longer, wider := AppendMissing(longer, wider, path);
    }
    assert missing[..|missing|] == missing;
  }

  class Plan {
    var base: Table
    var joins: seq<Join>
    var clauses: Clauses
    var measure: Item    // the column the aggregation nests; `Opaque` without one

    constructor (base: Table, joins: seq<Join>, clauses: Clauses, measure: Item)
      ensures this.base == base && this.joins == joins && this.clauses == clauses && this.measure == measure
    {
      this.base, this.joins, this.clauses, this.measure := base, joins, clauses, measure;
    }

    method RebaseOnReferencedTable(g: JoinGraph)
      modifies this`base, this`joins
      ensures var moved := NewBase(g, clauses, old(base));
              base == (if moved == "" then old(base) else moved) &&
              joins == (if moved == "" then old(joins) else [])
    {
      var referenced := TablesReferenced(clauses);
      if base == "" || referenced == [] { return; }
      var mentioned := Mentions(referenced, base);
      if mentioned { return; }
      var reachable := PathToAll(g, base, referenced);
      if reachable { return; }
      assert BaseIsWrong(g, base, referenced);
      var candidate := PickCarrier(g, referenced);
      if candidate != "" {
        base, joins := candidate, [];
      }
    }

    method ReconcileJoins(g: JoinGraph)
      modifies this`joins
      ensures joins == Reconciled(g, clauses, base, old(joins))
    {
      if base == "" { return; }
      var scope := Scope(base, joins);
      var referenced := TablesReferenced(clauses);
      var missing := MissingTables(referenced, scope);
      joins := AppendPaths(g, base, missing, joins, scope);
    }

    method DropUnreachableFilters()
      modifies this`clauses
      ensures clauses == InScope(old(clauses), Scope(base, joins))
    {
      var scope := Scope(base, joins);
      if scope == {} { return; }
      var filters := [Where, Having, OrderBy];
      for k := 0 to 3
        invariant clauses.select == old(clauses).select && clauses.columns == old(clauses).columns
        invariant clauses.groupBy == old(clauses).groupBy
        invariant clauses.where_ == if k > 0 then InScopeClause(old(clauses).where_, scope) else old(clauses).where_
        invariant clauses.having == if k > 1 then InScopeClause(old(clauses).having, scope) else old(clauses).having
        invariant clauses.orderBy == if k > 2 then InScopeClause(old(clauses).orderBy, scope) else old(clauses).orderBy
      {
        var key := filters[k];
        var clause := clauses.Get(key);
        match clause
        case Absent =>
        case One(item) =>
          if OutOfScope(item, scope) { clauses := clauses.Set(key, Absent); }
        case Many(items) =>
          var kept := FilterItems(items, scope);
          if |kept| != |items| {
            clauses := clauses.Set(key, Many(kept));
          } else {
            KeptAll(items, scope);
          }
      }
    }

    method PruneUnusedJoins()
      modifies this`joins
      ensures joins == Pruned(clauses, base, old(joins))
    {
      joins := DedupeJoins(joins);
      if joins == [] { return; }
      var names := TablesReferenced(clauses);
      var referenced := LowerSet(names) + {Lower(base)};
      joins := WalkBack(joins, referenced);
    }

    method RepairKey(schema: ColumnRepair.Schema, key: ClauseKey) returns (missing: seq<ColumnRepair.Reference>)
      modifies this`clauses
      ensures clauses == old(clauses).Set(key, RepairedClause(schema, old(clauses).Get(key)))
      ensures missing == MissingIn(schema, Items(old(clauses).Get(key)))
    {
      var clause := clauses.Get(key);
      var items, lost := RepairItems(schema, Items(clause));
      clauses := clauses.Set(key, WithItems(clause, items));
      return lost;
    }

    /** Repairs every reference in place, and returns those that cannot be. */
    method AssertColumnsExist(schema: ColumnRepair.Schema) returns (missing: seq<ColumnRepair.Reference>)
      modifies this`clauses, this`measure
      ensures clauses == RepairedClauses(schema, old(clauses)) && measure == RepairedItem(schema, old(measure))
      ensures missing == MissingFrom(schema, old(clauses), old(measure))
    {
      missing := [];
      ghost var cs := clauses;
      for k := 0 to |REPAIR_ORDER|
        invariant clauses == RepairedUpTo(schema, cs, k) && measure == old(measure)
        invariant missing == MissingUnder(schema, cs, REPAIR_ORDER[..k])
      {
        RepairNextKey(schema, cs, k);
        MissingNextKey(schema, cs, REPAIR_ORDER, k);
        var lost := RepairKey(schema, REPAIR_ORDER[k]);
        missing := missing + lost;
      }
      assert REPAIR_ORDER[..|REPAIR_ORDER|] == REPAIR_ORDER;
      var item, lost := RepairOne(schema, measure);
      measure, missing := item, missing + lost;
    }

    /** The passes up to the refusal. */
    method BringIntoScope(g: JoinGraph)
      modifies this`base, this`joins, this`clauses
      ensures (base, joins, clauses) == Scoped(g, old(base), old(joins), old(clauses))
    {
      RebaseOnReferencedTable(g);
      ReconcileJoins(g);
      DropUnreachableFilters();
    }

    /** The order `plan_query_execution` runs the passes in; a plan with references that
        cannot be repaired is refused before it is pruned. */
    method Finish(g: JoinGraph, schema: ColumnRepair.Schema) returns (missing: seq<ColumnRepair.Reference>)
      modifies this
      ensures var (base', joins', scoped) := Scoped(g, old(base), old(joins), old(clauses));
              && missing == MissingFrom(schema, scoped, old(measure))
              && measure == RepairedItem(schema, old(measure))
              && (missing != [] ==> (base, joins, clauses) == (base', joins', RepairedClauses(schema, scoped)))
      ensures missing == [] ==> (base, joins, clauses) == Finished(g, schema, old(base), old(joins), old(clauses))
    {
      BringIntoScope(g);
      missing := AssertColumnsExist(schema);
      if missing != [] { return; }
      PruneUnusedJoins();
    }
  }

  function WithItems(c: Clause, items: seq<Item>): Clause
    requires |items| == |Items(c)|
  {
    match c
    case Absent => Absent
    case One(_) => One(items[0])
    case Many(_) => Many(items)
  }

  function DoneBy(schema: ColumnRepair.Schema, c: Clause, position: nat, k: nat): Clause {
    if position < k then RepairedClause(schema, c) else c
  }

  /** The clauses once the first `k` keys of the repair order are done. */
  function RepairedUpTo(schema: ColumnRepair.Schema, cs: Clauses, k: nat): Clauses {
    Clauses(DoneBy(schema, cs.select, 0, k), DoneBy(schema, cs.columns, 1, k), DoneBy(schema, cs.where_, 3, k),
            DoneBy(schema, cs.groupBy, 2, k), DoneBy(schema, cs.orderBy, 4, k), DoneBy(schema, cs.having, 5, k))
  }

  lemma RepairNextKey(schema: ColumnRepair.Schema, cs: Clauses, k: nat)
    requires k < |REPAIR_ORDER|
    ensures var key, before := REPAIR_ORDER[k], RepairedUpTo(schema, cs, k);
            && before.Get(key) == cs.Get(key)
            && RepairedUpTo(schema, cs, k + 1) == before.Set(key, RepairedClause(schema, cs.Get(key)))
  {
  }

  lemma MissingNextKey(schema: ColumnRepair.Schema, cs: Clauses, keys: seq<ClauseKey>, k: nat)
    requires k < |keys|
    ensures MissingUnder(schema, cs, keys[..k + 1]) ==
            MissingUnder(schema, cs, keys[..k]) + MissingIn(schema, Items(cs.Get(keys[k])))
  {
    assert keys[..k + 1][..k] == keys[..k];
  }

  method FilterItems(items: seq<Item>, scope: set<string>) returns (kept: seq<Item>)
    ensures kept == InScopeItems(items, scope)
  {
    kept := [];
    for i := 0 to |items|
      invariant kept == InScopeItems(items[..i], scope)
    {
      assert items[..i + 1][..i] == items[..i];
      if !OutOfScope(items[i], scope) { kept := kept + [items[i]]; }
    }
    assert items[..|items|] == items;
  }

  lemma {:induction false} KeptAll(items: seq<Item>, scope: set<string>)
    requires |InScopeItems(items, scope)| == |items|
    ensures InScopeItems(items, scope) == items
  {
    if items != [] {
      var init := items[..|items| - 1];
      InScopeItemsAre(init, scope);
      KeptAll(init, scope);
      assert init + [items[|items| - 1]] == items;
    }
  }

  // --- What the passes add up to ---

  /** The table the plan stands on, and the joins it still has, once it may have been moved. */
  ghost function StartAt(g: JoinGraph, base: Table, joins: seq<Join>, cs: Clauses): (Table, seq<Join>) {
    var moved := NewBase(g, cs, base);
    if moved == "" then (base, joins) else (moved, [])
  }

  /** The plan after it is rebased, reconciled and rid of what it cannot reach. */
  ghost function Scoped(g: JoinGraph, base: Table, joins: seq<Join>, cs: Clauses): (Table, seq<Join>, Clauses) {
    var (base', start) := StartAt(g, base, joins, cs);
    var joins' := Reconciled(g, cs, base', start);
    (base', joins', InScope(cs, Scope(base', joins')))
  }

  ghost function Finished(g: JoinGraph, schema: ColumnRepair.Schema, base: Table, joins: seq<Join>, cs: Clauses)
    : (Table, seq<Join>, Clauses)
  {
    var (base', joins', scoped) := Scoped(g, base, joins, cs);
    var cs' := RepairedClauses(schema, scoped);
    (base', Pruned(cs', base', joins'), cs')
  }

  lemma ScopedIsTree(g: JoinGraph, base: Table, joins: seq<Join>, cs: Clauses)
    requires CleanNames(g) && base != "" && JoinTree(g, base, joins)
    ensures var (base', start) := StartAt(g, base, joins, cs);
            var (base'', joins', scoped) := Scoped(g, base, joins, cs);
            && base'' == base' != "" && JoinTree(g, base', start) && JoinTree(g, base', joins')
            && joins' == Reconciled(g, cs, base', start) && scoped == InScope(cs, Scope(base', joins'))
            && Lower(base') in Scope(base', joins')
  {
    var (base', start) := StartAt(g, base, joins, cs);
    ReconciledIsTree(g, cs, base', start);
  }

  /** A name in scope before pruning that the clauses still carry is in scope after it. */
  lemma StaysInScope(g: JoinGraph, cs: Clauses, base: Table, joins: seq<Join>, n: string)
    requires CleanNames(g) && base != "" && JoinTree(g, base, joins)
    requires n in Scope(base, joins) && n in LowerSet(Referenced(cs))
    ensures n in Scope(base, Pruned(cs, base, joins))
    ensures n != Lower(base) ==> exists k :: k in Pruned(cs, base, joins) && RightKey(k) == n
  {
    ScopeIsRights(g, base, joins);
    PrunedIsTree(g, cs, base, joins);
    if n != Lower(base) {
      var j :| j in joins && RightKey(j) == n;
      var k :| k in Pruned(cs, base, joins) && RightKey(k) == n;
      JoinKeyNotEmpty(g, base, k);
    }
  }

  lemma InScopeConditions(cs: Clauses, scope: set<string>, key: ClauseKey, item: Item)
    requires scope != {} && IsFilterKey(key)
    ensures item in Items(InScope(cs, scope).Get(key)) <==> item in Items(cs.Get(key)) && !OutOfScope(item, scope)
  {
    InScopeClauseIs(cs.Get(key), scope);
  }

  /** The finished joins form a breadth-first tree rooted at the base, in an order in which
      every join starts from what is already there, and join each table once. */
  lemma FinishedIsTree(g: JoinGraph, schema: ColumnRepair.Schema, base: Table, joins: seq<Join>, cs: Clauses)
    requires CleanNames(g) && base != "" && JoinTree(g, base, joins)
    ensures var (base', joins', _) := Finished(g, schema, base, joins, cs);
            base' != "" && JoinTree(g, base', joins') && JoinedOnce(base', joins')
  {
    ScopedIsTree(g, base, joins, cs);
    var (base', joins', scoped) := Scoped(g, base, joins, cs);
    PrunedIsTree(g, RepairedClauses(schema, scoped), base', joins');
  }

  /** Every join of the finished plan is one it had, or joins the default columns of an edge of
      the graph, the left one in the left table. */
  lemma FinishedFollows(g: JoinGraph, schema: ColumnRepair.Schema, base: Table, joins: seq<Join>, cs: Clauses, j: Join)
    requires j in Finished(g, schema, base, joins, cs).1
    ensures j in joins || FollowsEdge(g, j)
  {
    var (base', start) := StartAt(g, base, joins, cs);
    var (_, joins', scoped) := Scoped(g, base, joins, cs);
    ReconciledFollows(g, cs, base', start);
    assert joins' == start + joins'[|start|..];
    PrunedOnly(RepairedClauses(schema, scoped), base', joins', j);
  }

  lemma PrunedOnly(cs: Clauses, base: Table, joins: seq<Join>, j: Join)
    requires j in Pruned(cs, base, joins)
    ensures j in joins
  {
    KeptOnly(Deduped(joins), Needed(cs, base));
    KeepFirstKeys(joins, RightKey);
  }

  /** An item of the finished plan is one that was in scope, up to the repair of its column;
      the output clauses lose none. */
  lemma FinishedItem(g: JoinGraph, schema: ColumnRepair.Schema, base: Table, joins: seq<Join>, cs: Clauses,
                     key: ClauseKey, item: Item) returns (was: Item)
    requires item in Items(Finished(g, schema, base, joins, cs).2.Get(key))
    ensures was in Items(Scoped(g, base, joins, cs).2.Get(key)) && item == RepairedItem(schema, was)
  {
    var scoped := Scoped(g, base, joins, cs).2;
    RepairedKey(schema, scoped, key);
    var i :| 0 <= i < |Items(RepairedClauses(schema, scoped).Get(key))| &&
             Items(RepairedClauses(schema, scoped).Get(key))[i] == item;
    was := Items(scoped.Get(key))[i];
  }

  lemma SameFilterTable(schema: ColumnRepair.Schema, item: Item)
    ensures Lower(FilterTable(RepairedItem(schema, item))) == Lower(FilterTable(item))
  {
    if item.Item? && item.table == "" {
      RepairKeepsTable(schema, ColumnRepair.Reference("", item.column));
    }
  }

  /** Every table a surviving condition is judged by is in the final scope. */
  lemma ConditionsInScope(g: JoinGraph, schema: ColumnRepair.Schema, base: Table, joins: seq<Join>, cs: Clauses,
                          key: ClauseKey, item: Item)
    requires CleanNames(g) && base != "" && JoinTree(g, base, joins) && IsFilterKey(key)
    ensures var (base', joins', cs') := Finished(g, schema, base, joins, cs);
            item in Items(cs'.Get(key)) && FilterTable(item) != "" ==> Lower(FilterTable(item)) in Scope(base', joins')
  {
    var (base', joins', scoped) := Scoped(g, base, joins, cs);
    var cs' := RepairedClauses(schema, scoped);
    if item in Items(cs'.Get(key)) && FilterTable(item) != "" {
      ScopedIsTree(g, base, joins, cs);
      var was := FinishedItem(g, schema, base, joins, cs, key, item);
      SameFilterTable(schema, was);
      InScopeConditions(cs, Scope(base', joins'), key, was);
      NotEmptyInScope(was, item, Scope(base', joins'));
      ItemIsReferenced(cs', key, item, FilterTable(item));
      StaysInScope(g, cs', base', joins', Lower(FilterTable(item)));
    }
  }

  lemma NotEmptyInScope(was: Item, item: Item, scope: set<string>)
    requires Lower(FilterTable(was)) == Lower(FilterTable(item)) && FilterTable(item) != "" && !OutOfScope(was, scope)
    ensures Lower(FilterTable(item)) in scope
  {
    assert |Lower(FilterTable(was))| == |FilterTable(was)| && |Lower(FilterTable(item))| == |FilterTable(item)|;
  }

  ghost predicate Joins(joins: seq<Join>, t: Table) {
    exists j :: j in joins && j.right == t
  }

  /** What reconciling brings into scope, told by the plan before it. */
  ghost predicate BroughtIn(g: JoinGraph, base: Table, start: seq<Join>, cs: Clauses, t: Table) {
    || t in Referenced(cs)
    || Lower(t) in Scope(base, start)
    || OnTheWay(g, base, Missing(Referenced(cs), Scope(base, start)), Lower(t))
  }

  /** A reachable table that a clause of the finished plan names is joined, once, exactly when
      that is the first spelling of its name in the plan, or the name was in scope from the
      start, or lies on the way to another table that was missing. */
  lemma ReachableIsJoinedIff(g: JoinGraph, schema: ColumnRepair.Schema, base: Table, joins: seq<Join>, cs: Clauses,
                             key: ClauseKey, item: Item, t: Table)
    requires CleanNames(g) && base != "" && JoinTree(g, base, joins)
    ensures var (base', joins', cs') := Finished(g, schema, base, joins, cs);
            && JoinedOnce(base', joins')
            && (item in Items(cs'.Get(key)) && t in ItemNames(item) && BfsPath(g, base', t) != [] ==>
                  (Joins(joins', t) <==> BroughtIn(g, base', StartAt(g, base, joins, cs).1, cs, t)))
  {
    FinishedIsTree(g, schema, base, joins, cs);
    var (base', joins', scoped) := Scoped(g, base, joins, cs);
    var cs' := RepairedClauses(schema, scoped);
    if item in Items(cs'.Get(key)) && t in ItemNames(item) && BfsPath(g, base', t) != [] {
      ScopedIsTree(g, base, joins, cs);
      PathEnds(g, base', t);
      ItemIsReferenced(cs', key, item, t);
      JoinedIffInScope(g, cs', base', joins', t);
      ScopeIsBroughtIn(g, cs, base', StartAt(g, base, joins, cs).1, t);
    }
  }

  lemma JoinedIffInScope(g: JoinGraph, cs: Clauses, base: Table, joins: seq<Join>, t: Table)
    requires CleanNames(g) && base != "" && JoinTree(g, base, joins)
    requires BfsPath(g, base, t) != [] && Lower(t) in LowerSet(Referenced(cs))
    ensures Joins(Pruned(cs, base, joins), t) <==> Lower(t) in Scope(base, joins)
  {
    PathEnds(g, base, t);
    PrunedIsTree(g, cs, base, joins);
    if Lower(t) in Scope(base, joins) {
      StaysInScope(g, cs, base, joins, Lower(t));
      var k :| k in Pruned(cs, base, joins) && RightKey(k) == Lower(t);
      TreeNodes(g, base, k);
    }
    if Joins(Pruned(cs, base, joins), t) {
      var j :| j in Pruned(cs, base, joins) && j.right == t;
      DedupedIsTree(g, base, joins);
      KeptOnly(Deduped(joins), Needed(cs, base));
      assert j in joins;
    }
  }

  lemma ScopeIsBroughtIn(g: JoinGraph, cs: Clauses, base: Table, start: seq<Join>, t: Table)
    requires CleanNames(g) && base != "" && JoinTree(g, base, start) && BfsPath(g, base, t) != []
    ensures Lower(t) in Scope(base, Reconciled(g, cs, base, start)) <==> BroughtIn(g, base, start, cs, t)
  {
    ReconciledIsTree(g, cs, base, start);
  }

  /** A table that an item of the finished plan names was referenced before, up to case: by the
      item's own field or by its qualifier, which survives repair. */
  lemma NamedBefore(g: JoinGraph, schema: ColumnRepair.Schema, base: Table, joins: seq<Join>, cs: Clauses,
                    key: ClauseKey, item: Item, t: Table)
    requires item in Items(Finished(g, schema, base, joins, cs).2.Get(key)) && t in ItemNames(item) && t != ""
    requires t == item.table || item.table == "" || ColumnRepair.PlainColumns(schema)
    ensures Lower(t) in LowerSet(Referenced(cs))
  {
    var was := FinishedItem(g, schema, base, joins, cs, key, item);
    var (base', joins', scoped) := Scoped(g, base, joins, cs);
    WasThere(cs, Scope(base', joins'), key, was);
    if t == was.table {
      ItemIsReferenced(cs, key, was, t);
    } else {
      RepairKeepsTable(schema, ColumnRepair.Reference(was.table, was.column));
      SameLength(t, Qualifier(was.column));
      ItemIsReferenced(cs, key, was, Qualifier(was.column));
    }
  }

  lemma SameLength(s: string, t: string)
    requires Lower(s) == Lower(t)
    ensures |s| == |t|
  {
    assert |Lower(s)| == |s| && |Lower(t)| == |t|;
  }

  lemma WasThere(cs: Clauses, scope: set<string>, key: ClauseKey, item: Item)
    requires item in Items(InScope(cs, scope).Get(key))
    ensures item in Items(cs.Get(key))
  {
    if scope != {} && IsFilterKey(key) { InScopeConditions(cs, scope, key, item); }
  }

  /** With every reference spelled as the graph spells it, every reachable table that the
      finished plan names is joined. */
  lemma ReachableIsJoined(g: JoinGraph, schema: ColumnRepair.Schema, base: Table, joins: seq<Join>, cs: Clauses,
                          key: ClauseKey, item: Item, t: Table)
    requires CleanNames(g) && base != "" && JoinTree(g, base, joins)
    requires forall n :: n in Referenced(cs) ==> IsNode(g, n)
    ensures var (base', joins', cs') := Finished(g, schema, base, joins, cs);
            (item in Items(cs'.Get(key)) && t in ItemNames(item) && BfsPath(g, base', t) != [] &&
             (t == item.table || item.table == "" || ColumnRepair.PlainColumns(schema))) ==> Joins(joins', t)
  {
    ReachableIsJoinedIff(g, schema, base, joins, cs, key, item, t);
    var (base', _, cs') := Finished(g, schema, base, joins, cs);
    if item in Items(cs'.Get(key)) && t in ItemNames(item) && BfsPath(g, base', t) != [] {
      PathEnds(g, base', t);
      if t == item.table || item.table == "" || ColumnRepair.PlainColumns(schema) {
        NamedBefore(g, schema, base, joins, cs, key, item, t);
        var n :| n in Referenced(cs) && Lower(n) == Lower(t);
        assert n == t;
      }
    }
  }

  lemma PathEnds(g: JoinGraph, base: Table, t: Table)
    requires CleanNames(g) && BfsPath(g, base, t) != []
    ensures IsNode(g, t) && IsNode(g, base) && Lower(t) != Lower(base)
  {
    var p := BfsPath(g, base, t);
    JoinPathPrefix(g, base, t);
    PathIsTree(g, base, t, |p| - 1);
    TreeNodes(g, base, ToJoin(p[|p| - 1]));
  }

  /** Nothing is joined without need: every join lies on the path to a table that a clause
      of the finished plan names. */
  lemma JoinsAreNeeded(g: JoinGraph, schema: ColumnRepair.Schema, base: Table, joins: seq<Join>, cs: Clauses, j: Join)
    requires CleanNames(g) && base != "" && JoinTree(g, base, joins)
    ensures var (base', joins', cs') := Finished(g, schema, base, joins, cs);
            j in joins' ==> exists t :: Lower(t) in LowerSet(Referenced(cs')) && OnPathTo(g, base', j.right, t)
  {
    var (base', joins', scoped) := Scoped(g, base, joins, cs);
    ScopedIsTree(g, base, joins, cs);
    PrunedAreNeeded(g, RepairedClauses(schema, scoped), base', joins', j);
  }

  lemma PrunedAreNeeded(g: JoinGraph, cs: Clauses, base: Table, joins: seq<Join>, j: Join)
    requires CleanNames(g) && base != "" && JoinTree(g, base, joins)
    ensures j in Pruned(cs, base, joins) ==>
              exists t :: Lower(t) in LowerSet(Referenced(cs)) && OnPathTo(g, base, j.right, t)
  {
    if j in Pruned(cs, base, joins) {
      DedupedIsTree(g, base, joins);
      KeptOnly(Deduped(joins), Needed(cs, base));
      KeepsExactlyAncestors(g, base, Deduped(joins), Needed(cs, base), j);
      LeadsToReferenced(g, cs, base, Deduped(joins), j);
    }
  }

  lemma LeadsToReferenced(g: JoinGraph, cs: Clauses, base: Table, joins: seq<Join>, j: Join)
    requires JoinedOnce(base, joins) && LeadsToNeeded(g, base, joins, Needed(cs, base), j)
    ensures exists t :: Lower(t) in LowerSet(Referenced(cs)) && OnPathTo(g, base, j.right, t)
  {
    var k :| k in joins && RightKey(k) in Needed(cs, base) && OnPathTo(g, base, j.right, k.right);
    assert RightKey(k) != Lower(base);
    assert Lower(k.right) in LowerSet(Referenced(cs));
  }

  /** The columns a plan puts out are never dropped; they change by the repair only. */
  lemma OutputStays(g: JoinGraph, schema: ColumnRepair.Schema, base: Table, joins: seq<Join>, cs: Clauses,
                    key: ClauseKey)
    requires !IsFilterKey(key)
    ensures Items(Finished(g, schema, base, joins, cs).2.Get(key)) == RepairedItems(schema, Items(cs.Get(key)))
  {
    RepairedKey(schema, Scoped(g, base, joins, cs).2, key);
  }

  // --- When the plan was rebased ---

  /** A plan that starts over from `moved` brings into scope exactly `moved` and the tables
      on the paths to what is referenced. */
  lemma RestartedScope(g: JoinGraph, cs: Clauses, moved: Table, n: string)
    requires CleanNames(g) && moved != ""
    ensures n in Scope(moved, Reconciled(g, cs, moved, [])) <==>
            n == Lower(moved) || OnTheWay(g, moved, Referenced(cs), n)
  {
    ReconciledIsTree(g, cs, moved, []);
    var missing := Missing(Referenced(cs), Scope(moved, []));
    MissingIs(Referenced(cs), Scope(moved, []));
    assert Scope(moved, []) == {Lower(moved)};
    if OnTheWay(g, moved, Referenced(cs), n) {
      var t :| t in Referenced(cs) && n in PathKeys(BfsPath(g, moved, t));
      PathEnds(g, moved, t);
      assert t in missing;
      assert OnTheWay(g, moved, missing, n);
    }
  }

  lemma RebasedClauses(g: JoinGraph, base: Table, joins: seq<Join>, cs: Clauses, moved: Table)
    requires moved == NewBase(g, cs, base) && moved != ""
    ensures Scoped(g, base, joins, cs).0 == moved
    ensures Scoped(g, base, joins, cs).2 == InScope(cs, Scope(moved, Reconciled(g, cs, moved, [])))
  {
  }

  /** After a rebase a condition survives exactly when its table is the new base or lies on
      the path to something referenced. */
  lemma RebasedKeeps(g: JoinGraph, base: Table, joins: seq<Join>, cs: Clauses, moved: Table,
                     key: ClauseKey, item: Item)
    requires CleanNames(g) && moved == NewBase(g, cs, base) && moved != ""
    requires IsFilterKey(key) && item in Items(cs.Get(key))
    ensures item in Items(Scoped(g, base, joins, cs).2.Get(key)) <==>
            FilterTable(item) == "" || Lower(FilterTable(item)) == Lower(moved) ||
            OnTheWay(g, moved, Referenced(cs), Lower(FilterTable(item)))
  {
    RebasedClauses(g, base, joins, cs, moved);
    RestartedScope(g, cs, moved, Lower(FilterTable(item)));
    RestartedScope(g, cs, moved, Lower(moved));
    InScopeConditions(cs, Scope(moved, Reconciled(g, cs, moved, [])), key, item);
  }

  lemma InScopeSame(cs: Clauses, scope: set<string>)
    requires forall key, item :: IsFilterKey(key) && item in Items(cs.Get(key)) ==> !OutOfScope(item, scope)
    ensures InScope(cs, scope) == cs
  {
    InScopeClauseIs(cs.Get(Where), scope);
    InScopeClauseIs(cs.Get(Having), scope);
    InScopeClauseIs(cs.Get(OrderBy), scope);
  }

  /** With every referenced name spelled as the graph spells it, a rebased plan loses no
      condition, and its clauses change by the repair only. */
  lemma RebaseDropsNothing(g: JoinGraph, schema: ColumnRepair.Schema, base: Table, joins: seq<Join>, cs: Clauses,
                           moved: Table)
    requires CleanNames(g) && moved == NewBase(g, cs, base) && moved != ""
    requires forall t :: t in Referenced(cs) ==> IsNode(g, t)
    ensures Scoped(g, base, joins, cs).2 == cs && Finished(g, schema, base, joins, cs).2 == RepairedClauses(schema, cs)
  {
    RebasedClauses(g, base, joins, cs, moved);
    FirstCarrierCarries(g, Referenced(cs), Referenced(cs));
    var scope := Scope(moved, Reconciled(g, cs, moved, []));
    forall key, item | IsFilterKey(key) && item in Items(cs.Get(key))
      ensures !OutOfScope(item, scope)
    {
      if FilterTable(item) != "" { CarriedConditionInScope(g, cs, moved, key, item); }
    }
    InScopeSame(cs, scope);
  }

  lemma CarriedConditionInScope(g: JoinGraph, cs: Clauses, moved: Table, key: ClauseKey, item: Item)
    requires CleanNames(g) && moved != "" && CanCarry(g, moved, Referenced(cs))
    requires forall t :: t in Referenced(cs) ==> IsNode(g, t)
    requires item in Items(cs.Get(key)) && FilterTable(item) != ""
    ensures Lower(FilterTable(item)) in Scope(moved, Reconciled(g, cs, moved, []))
  {
    var n := Lower(FilterTable(item));
    ItemIsReferenced(cs, key, item, FilterTable(item));
    var t :| t in Referenced(cs) && Lower(t) == n;
    if n != Lower(moved) {
      CarriedByPath(g, moved, t);
      JoinPathPrefix(g, moved, t);
      var p := BfsPath(g, moved, t);
      assert p[|p| - 1] in p;
      assert n in PathKeys(p);
    }
    RestartedScope(g, cs, moved, n);
  }

  lemma CarriedByPath(g: JoinGraph, moved: Table, t: Table)
    requires CleanNames(g) && IsNode(g, t) && Reaches(g, moved, t) && Lower(t) != Lower(moved)
    ensures BfsPath(g, moved, t) != []
  {
    if Adjacent(g, moved, Lower(t)) {
      LowerTwice(t);
      assert IsNode(g, Lower(t));
      assert t == Lower(t);
      NextToIsReachable(g, moved, t);
    }
  }

  lemma UnknownUnreachable(g: JoinGraph, base: Table, t: Table)
    requires CleanNames(g) && !IsNode(g, t)
    ensures BfsPath(g, base, t) == []
  {
    if BfsPath(g, base, t) != [] { PathEnds(g, base, t); }
  }

  lemma NextToIsReachable(g: JoinGraph, base: Table, t: Table)
    requires base != t && Adjacent(g, base, t)
    ensures BfsPath(g, base, t) != []
  {
    var e :| e in Neighbors(g, base) && e.neighbor == t;
    var h := Hop(base, t, e.keys);
    assert e == Edge(h.right, h.keys);
    assert [h][..0] == [];
    assert IsWalk(g, base, [h][..0], base);
    assert IsWalk(g, base, [h], t);
    EmptyJoinPath(g, base, t);
  }
}
