/** Plans that do not fare as they should, and why. */
module PlanExamples {
  import opened Graph
  import opened JoinSearch
  import opened JoinPlan
  import opened JoinPasses
  import opened Names
  import opened PlanFinish
  import opened PlanRepair
  import ColumnRepair

  // --- What bare items refer to ---

  /** It names a table and a column without qualifying it. */
  predicate IsBare(item: Item) {
    item.Item? && item.table != "" && '.' !in item.column
  }

  lemma KeepFirstAppend(xs: seq<string>, x: string)
    ensures KeepFirst(xs + [x], Lower) ==
            if Lower(x) == "" || Lower(x) in KeySet(KeepFirst(xs, Lower), Lower) then KeepFirst(xs, Lower)
            else KeepFirst(xs, Lower) + [x]
  {
    assert (xs + [x])[..|xs|] == xs;
  }

  /** One more bare item adds its table unless its name was there. */
  lemma AddBare(items: seq<Item>, item: Item)
    requires IsBare(item)
    ensures var seen := KeepFirst(NamesOf(items), Lower);
            KeepFirst(NamesOf(items + [item]), Lower) ==
            if Lower(item.table) in KeySet(seen, Lower) then seen else seen + [item.table]
  {
    assert (items + [item])[..|items|] == items;
    assert Qualifier(item.column) == "";
    var names := NamesOf(items);
    assert NamesOf(items + [item]) == names + [item.table] + [""];
    KeepFirstAppend(names, item.table);
    KeepFirstAppend(names + [item.table], "");
    assert |Lower(item.table)| == |item.table|;
  }

  lemma TwoBare(a: Item, b: Item)
    requires IsBare(a) && IsBare(b) && Lower(a.table) != Lower(b.table)
    ensures KeepFirst(NamesOf([a, b]), Lower) == [a.table, b.table]
  {
    assert [] + [a] == [a] && [a] + [b] == [a, b];
    AddBare([], a);
    AddBare([a], b);
  }

  lemma ThreeBare(a: Item, b: Item, c: Item)
    requires IsBare(a) && IsBare(b) && IsBare(c)
    requires Lower(a.table) != Lower(b.table) && Lower(b.table) == Lower(c.table)
    ensures KeepFirst(NamesOf([a, b, c]), Lower) == [a.table, b.table]
  {
    TwoBare(a, b);
    assert [a, b] + [c] == [a, b, c];
    AddBare([a, b], c);
    assert b.table in [a.table, b.table];
  }

  lemma {:induction false} AbsentAddNothing(cs: Clauses, keys: seq<ClauseKey>, n: nat)
    requires n <= |keys| && forall i :: n <= i < |keys| ==> cs.Get(keys[i]).Absent?
    ensures ClauseNames(cs, keys) == ClauseNames(cs, keys[..n])
  {
    if n < |keys| {
      AbsentAddNothing(cs, keys[..|keys| - 1], n);
      assert keys[..|keys| - 1][..n] == keys[..n];
    } else {
      assert keys[..n] == keys;
    }
  }

  lemma OneKey(cs: Clauses, keys: seq<ClauseKey>)
    requires |keys| == 1
    ensures ClauseNames(cs, keys) == NamesOf(Items(cs.Get(keys[0])))
  {
    assert keys[..0] == [];
  }

  lemma FirstAndThird(cs: Clauses, keys: seq<ClauseKey>)
    requires |keys| == 3 && cs.Get(keys[1]).Absent?
    ensures ClauseNames(cs, keys) == NamesOf(Items(cs.Get(keys[0]))) + NamesOf(Items(cs.Get(keys[2])))
  {
    AbsentAddNothing(cs, keys[..2], 1);
    assert keys[..2][..1] == keys[..1];
    OneKey(cs, keys[..1]);
  }

  lemma SelectOnly(cs: Clauses)
    requires cs == Clauses(cs.select, Absent, Absent, Absent, Absent, Absent)
    ensures Referenced(cs) == KeepFirst(NamesOf(Items(cs.select)), Lower)
  {
    AbsentAddNothing(cs, CLAUSE_ORDER, 1);
    OneKey(cs, CLAUSE_ORDER[..1]);
  }

  lemma SelectAndWhere(cs: Clauses)
    requires cs == Clauses(cs.select, Absent, cs.where_, Absent, Absent, Absent)
    ensures Referenced(cs) == KeepFirst(NamesOf(Items(cs.select) + Items(cs.where_)), Lower)
  {
    AbsentAddNothing(cs, CLAUSE_ORDER, 3);
    FirstAndThird(cs, CLAUSE_ORDER[..3]);
    NamesOfConcat(Items(cs.select), Items(cs.where_));
  }

  // --- Two tables next to each other, and one apart ---

  const MATE_GRAPH: JoinGraph := map[
    "notes" := [],
    "orders" := [Edge("customers", Plain(KeyPair("customer_id", "id")))],
    "customers" := [Edge("orders", Plain(KeyPair("id", "customer_id")))]
  ]

  lemma LowerSpellings()
    ensures Lower("Customers") == "customers" && Lower("orders") == "orders" && Lower("notes") == "notes"
    ensures Lower("customers") == "customers"
  {
  }

  lemma MateNames()
    ensures CleanNames(MATE_GRAPH) && forall t :: IsNode(MATE_GRAPH, t) ==> t in {"notes", "orders", "customers"}
  {
    LowerSpellings();
    forall t | IsNode(MATE_GRAPH, t)
      ensures t in {"notes", "orders", "customers"}
    {
      if t !in MATE_GRAPH {
        var a :| Adjacent(MATE_GRAPH, a, t);
        var e :| e in Neighbors(MATE_GRAPH, a) && e.neighbor == t;
      }
    }
  }

  lemma MateClean()
    ensures CleanNames(MATE_GRAPH)
  {
    MateNames();
  }

  lemma MateEdges()
    ensures Adjacent(MATE_GRAPH, "orders", "customers")
    ensures BfsPath(MATE_GRAPH, "orders", "Customers") == [] && BfsPath(MATE_GRAPH, "notes", "Customers") == []
  {
    MateNames();
    assert Edge("customers", Plain(KeyPair("customer_id", "id"))) in Neighbors(MATE_GRAPH, "orders");
    UnknownUnreachable(MATE_GRAPH, "orders", "Customers");
    UnknownUnreachable(MATE_GRAPH, "notes", "Customers");
  }

  lemma NothingOnTheWay(g: JoinGraph, base: Table, ts: seq<Table>, n: string)
    requires forall t :: t in ts ==> BfsPath(g, base, t) == []
    ensures !OnTheWay(g, base, ts, n)
  {
  }

  // --- A rebased plan that loses a condition ---

  const LOST := Item("Customers", "city")
  const MATE_CLAUSES := Clauses(One(Item("orders", "total")), Absent, Many([LOST]), Absent, Absent, Absent)

  lemma MateReferenced()
    ensures Referenced(MATE_CLAUSES) == ["orders", "Customers"]
  {
    LowerSpellings();
    SelectAndWhere(MATE_CLAUSES);
    assert Items(MATE_CLAUSES.select) + Items(MATE_CLAUSES.where_) == [Item("orders", "total"), LOST];
    TwoBare(Item("orders", "total"), LOST);
  }

  lemma MateRebases()
    ensures NewBase(MATE_GRAPH, MATE_CLAUSES, "notes") == "orders"
  {
    var g, referenced := MATE_GRAPH, Referenced(MATE_CLAUSES);
    MateReferenced();
    MateEdges();
    LowerSpellings();
    assert "Customers" in referenced;
    assert BaseIsWrong(g, "notes", referenced);
    assert CanCarry(g, "orders", referenced);
  }

  lemma MateOffTheWay()
    ensures !OnTheWay(MATE_GRAPH, "orders", Referenced(MATE_CLAUSES), "customers")
  {
    MateReferenced();
    MateEdges();
    EmptyJoinPath(MATE_GRAPH, "orders", "orders");
    NothingOnTheWay(MATE_GRAPH, "orders", ["orders", "Customers"], "customers");
  }

  lemma LostIs()
    ensures LOST in Items(MATE_CLAUSES.where_) && LOST.Item? && LOST.table != ""
    ensures Lower(LOST.table) == "customers" != Lower("orders")
  {
    LowerSpellings();
  }

  /** Spelling matters: the candidate test lower-cases the name it looks for among the
      neighbours, the path search does not. Here the plan is rebased onto `orders` because
      `customers` is next to it, and then loses the condition on `Customers`. */
  lemma RebaseCanDropACondition()
    ensures NewBase(MATE_GRAPH, MATE_CLAUSES, "notes") == "orders" && LOST in Items(MATE_CLAUSES.where_)
    ensures LOST !in Items(Scoped(MATE_GRAPH, "notes", [], MATE_CLAUSES).2.where_)
  {
    MateClean();
    MateRebases();
    MateOffTheWay();
    LostIs();
    ConditionLost(MATE_GRAPH, MATE_CLAUSES, "notes", "orders", LOST, "customers");
  }

  lemma ConditionLost(g: JoinGraph, cs: Clauses, base: Table, moved: Table, item: Item, n: string)
    requires CleanNames(g) && moved == NewBase(g, cs, base) && moved != "" && item in Items(cs.where_)
    requires item.Item? && item.table != "" && n == Lower(item.table) != Lower(moved)
    requires !OnTheWay(g, moved, Referenced(cs), n)
    ensures item !in Items(Scoped(g, base, [], cs).2.where_)
  {
    RebasedKeeps(g, base, [], cs, moved, Where, item);
  }

  // --- A table that is named twice, and spelled in two ways ---

  const NAME := Item("Customers", "name")
  const CITY := Item("customers", "city")
  const TWICE_CLAUSES := Clauses(Many([Item("orders", "total"), NAME, CITY]), Absent, Absent, Absent, Absent, Absent)

  lemma TwiceReferenced()
    ensures Referenced(TWICE_CLAUSES) == ["orders", "Customers"]
  {
    LowerSpellings();
    SelectOnly(TWICE_CLAUSES);
    ThreeBare(Item("orders", "total"), NAME, CITY);
  }

  lemma TwiceStays()
    ensures StartAt(MATE_GRAPH, "orders", [], TWICE_CLAUSES) == ("orders", [])
  {
    TwiceReferenced();
    assert "orders" in Referenced(TWICE_CLAUSES);
  }

  lemma TwiceNotBroughtIn()
    ensures !BroughtIn(MATE_GRAPH, "orders", [], TWICE_CLAUSES, "customers")
  {
    var missing := Missing(Referenced(TWICE_CLAUSES), Scope("orders", []));
    TwiceReferenced();
    MateEdges();
    LowerSpellings();
    MissingIs(Referenced(TWICE_CLAUSES), Scope("orders", []));
    assert forall t :: t in missing ==> t == "Customers";
    NothingOnTheWay(MATE_GRAPH, "orders", missing, "customers");
  }

  lemma CityIs()
    ensures |Items(TWICE_CLAUSES.select)| == 3 && Items(TWICE_CLAUSES.select)[2] == CITY && CITY.table == "customers"
    ensures BfsPath(MATE_GRAPH, "orders", "customers") != []
  {
    MateEdges();
    NextToIsReachable(MATE_GRAPH, "orders", "customers");
  }

  /** Only the first spelling is looked for, and this graph has no such table, so the plan
      selects from `customers`, next to its base, and never joins it. */
  lemma ReachableCanBeLeftOut(schema: ColumnRepair.Schema)
    ensures CleanNames(MATE_GRAPH) && JoinTree(MATE_GRAPH, "orders", [])
    ensures var (base', joins', cs') := Finished(MATE_GRAPH, schema, "orders", [], TWICE_CLAUSES);
            && BfsPath(MATE_GRAPH, base', "customers") != []
            && RepairedItem(schema, CITY) in Items(cs'.select) && RepairedItem(schema, CITY).table == "customers"
            && !Joins(joins', "customers")
  {
    MateClean();
    TwiceStays();
    CityIs();
    TwiceNotBroughtIn();
    LeftOut(MATE_GRAPH, schema, TWICE_CLAUSES, "orders", 2);
  }

  lemma LeftOut(g: JoinGraph, schema: ColumnRepair.Schema, cs: Clauses, base: Table, i: nat)
    requires CleanNames(g) && base != "" && StartAt(g, base, [], cs) == (base, [])
    requires i < |Items(cs.select)| && Items(cs.select)[i].Item? && Items(cs.select)[i].table != ""
    requires BfsPath(g, base, Items(cs.select)[i].table) != [] && !BroughtIn(g, base, [], cs, Items(cs.select)[i].table)
    ensures var (base', joins', cs') := Finished(g, schema, base, [], cs);
            && base' == base && RepairedItem(schema, Items(cs.select)[i]) in Items(cs'.select)
            && !Joins(joins', Items(cs.select)[i].table)
  {
    OutputStays(g, schema, base, [], cs, Select);
    var item := RepairedItem(schema, Items(cs.select)[i]);
    assert RepairedItems(schema, Items(cs.select))[i] == item;
    ReachableIsJoinedIff(g, schema, base, [], cs, Select, item, item.table);
  }
}
